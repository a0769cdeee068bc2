/** Layer numbers across pipeline stages: the converter hands each stage a slice of the layers, the merger
    renumbers the local layers of every stage into one state dict. */
module LayerNumbering {
  import PipelineShards
  import opened Arith
  import opened Seqs
  import opened Wrappers

  /** A parameter of a stage: the local layer it belongs to, if any, its name and its merged tensor. */
  datatype Entry<T> = Entry(layer: Option<nat>, name: string, data: T)

  /** The key of a parameter in the merged state dict. */
  datatype Key = Key(layer: Option<nat>, name: string)

  type StateDict<T> = map<Key, T>

  // ----- the merger as a function

  function Renumbered<T>(e: Entry<T>, layersCum: nat): Key {
    Key(if e.layer.Some? then Some(e.layer.value + layersCum) else None, e.name)
  }

  function Max(a: nat, b: nat): nat {
    if a < b then b else a
  }

  /** `layers_handled` after the first `n` keys of a stage. */
  function Handled<T>(stage: seq<Entry<T>>, n: nat): nat
    requires n <= |stage|
  {
    if n == 0 then 0
    else if stage[n - 1].layer.Some? then Max(stage[n - 1].layer.value, Handled(stage, n - 1))
    else Handled(stage, n - 1)
  }

  /** The state dict after the first `n` keys of a stage. */
  function AddEntries<T>(dict: StateDict<T>, stage: seq<Entry<T>>, layersCum: nat, n: nat): StateDict<T>
    requires n <= |stage|
  {
    if n == 0 then dict
    else AddEntries(dict, stage, layersCum, n - 1)[Renumbered(stage[n - 1], layersCum) := stage[n - 1].data]
  }

  /** `layers_cum` after all stages. */
  function LayersCum<T>(stages: seq<seq<Entry<T>>>): nat {
    if stages == [] then 0
    else var last := stages[|stages| - 1];
      LayersCum(stages[..|stages| - 1]) + Handled(last, |last|) + 1
  }

  /** The merged state dict of the stages, visited in order. */
  function Merged<T>(stages: seq<seq<Entry<T>>>): StateDict<T> {
    if stages == [] then map[]
    else
      var front, last := stages[..|stages| - 1], stages[|stages| - 1];
      AddEntries(Merged(front), last, LayersCum(front), |last|)
  }

  /** The order of the two loops: all pipeline ranks of one virtual rank, then the next virtual rank. */
  function Visited<T>(grid: seq<seq<seq<Entry<T>>>>, vpp: nat): seq<seq<Entry<T>>>
    requires forall p :: 0 <= p < |grid| ==> vpp <= |grid[p]|
  {
    if vpp == 0 then []
    else Visited(grid, vpp - 1) + Row(grid, vpp - 1)
  }

  // ----- the merger as code

  /** The loop over the keys of one stage. */
  method MergeStage<T>(dict: StateDict<T>, stage: seq<Entry<T>>, layersCum: nat)
    returns (dict': StateDict<T>, layersHandled: nat)
    ensures dict' == AddEntries(dict, stage, layersCum, |stage|) && layersHandled == Handled(stage, |stage|)
    ensures forall key :: key in dict' <==> key in dict || exists i :: 0 <= i < |stage| && Writes(stage[i], layersCum, key)
  {
    dict', layersHandled := dict, 0;
    for n := 0 to |stage|
      invariant dict' == AddEntries(dict, stage, layersCum, n) && layersHandled == Handled(stage, n)
    {
      var e := stage[n];
      if e.layer.Some? {
        layersHandled := Max(e.layer.value, layersHandled);
      }
      dict' := dict'[Renumbered(e, layersCum) := e.data];
    }
    forall key
      ensures key in dict' <==> key in dict || exists i :: 0 <= i < |stage| && Writes(stage[i], layersCum, key)
    {
      AddEntriesKeys(dict, stage, layersCum, |stage|, key);
    }
  }

  function Row<T>(grid: seq<seq<seq<Entry<T>>>>, v: nat): (row: seq<seq<Entry<T>>>)
    requires forall p :: 0 <= p < |grid| ==> v < |grid[p]|
    ensures |row| == |grid| && forall p :: 0 <= p < |grid| ==> row[p] == grid[p][v]
  {
    seq(|grid|, p requires 0 <= p < |grid| => grid[p][v])
  }

  /** The inner loop: one virtual rank on every pipeline rank. */
  method MergeRow<T>(grid: seq<seq<seq<Entry<T>>>>, v: nat, dict: StateDict<T>, layersCum: nat, ghost before: seq<seq<Entry<T>>>)
    returns (dict': StateDict<T>, layersCum': nat)
    requires forall p :: 0 <= p < |grid| ==> v < |grid[p]|
    requires dict == Merged(before) && layersCum == LayersCum(before)
    ensures dict' == Merged(before + Row(grid, v)) && layersCum' == LayersCum(before + Row(grid, v))
  {
    dict', layersCum' := dict, layersCum;
    ghost var stages := before;
    for p := 0 to |grid|
      invariant stages == before + Row(grid, v)[..p]
      invariant dict' == Merged(stages) && layersCum' == LayersCum(stages)
    {
      var layersHandled;
      dict', layersHandled := MergeStage(dict', grid[p][v], layersCum');
      layersCum' := layersCum' + layersHandled + 1;
      stages := stages + [grid[p][v]];
    }
    assert Row(grid, v)[..|grid|] == Row(grid, v);
  }

  /** `_merge_state_dicts`: `grid[p][v]` holds the entries of virtual rank `v` on pipeline rank `p`. */
  method MergeStateDicts<T>(grid: seq<seq<seq<Entry<T>>>>) returns (dict: StateDict<T>)
    requires grid != [] && forall p :: 0 <= p < |grid| ==> |grid[p]| == |grid[0]|
    ensures dict == Merged(Visited(grid, |grid[0]|))
    ensures forall name :: Key(None, name) in dict <==> exists v, p, i :: PlainAt(grid, v, p, i, name)
    ensures forall v, p, i, name :: LastPlain(grid, v, p, i, name) ==>
      Key(None, name) in dict && dict[Key(None, name)] == grid[p][v][i].data
  {
    dict := MergeRows(grid, |grid[0]|);
    forall name
      ensures Key(None, name) in dict <==> exists v, p, i :: PlainAt(grid, v, p, i, name)
      ensures forall v, p, i :: LastPlain(grid, v, p, i, name) ==>
        Key(None, name) in dict && dict[Key(None, name)] == grid[p][v][i].data
    {
      PlainKeys(grid, name);
    }
  }

  method MergeRows<T>(grid: seq<seq<seq<Entry<T>>>>, vppSize: nat) returns (dict: StateDict<T>)
    requires forall p :: 0 <= p < |grid| ==> vppSize <= |grid[p]|
    ensures dict == Merged(Visited(grid, vppSize))
  {
    dict := map[];
    var layersCum := 0;
    for v := 0 to vppSize
      invariant dict == Merged(Visited(grid, v)) && layersCum == LayersCum(Visited(grid, v))
    {
      ghost var done := Visited(grid, v);
      assert Visited(grid, v + 1) == done + Row(grid, v);
      dict, layersCum := MergeRow(grid, v, dict, layersCum, done);
    }
  }

  // ----- what is in the dict

  /** The entry belongs under `key` when its stage starts at number `cum`: its name is kept, and so is its having no layer. */
  predicate Writes<T>(e: Entry<T>, cum: nat, key: Key) {
    e.name == key.name && if e.layer.None? then key.layer == None else key.layer == Some(e.layer.value + cum)
  }

  ghost predicate WritesAt<T>(stages: seq<seq<Entry<T>>>, s: int, i: int, key: Key) {
    0 <= s < |stages| && 0 <= i < |stages[s]| && Writes(stages[s][i], LayersCum(stages[..s]), key)
  }

  /** Of the entries that belong under `key`, this one is visited last. */
  ghost predicate LastWrite<T>(stages: seq<seq<Entry<T>>>, s: int, i: int, key: Key) {
    WritesAt(stages, s, i, key) && forall t, j :: WritesAt(stages, t, j, key) ==> t < s || (t == s && j <= i)
  }

  lemma {:induction false} AddedLast<T>(dict: StateDict<T>, stage: seq<Entry<T>>, cum: nat, n: nat, key: Key, i: nat)
    requires i < n <= |stage| && Writes(stage[i], cum, key)
    requires forall j :: i < j < n ==> !Writes(stage[j], cum, key)
    ensures key in AddEntries(dict, stage, cum, n) && AddEntries(dict, stage, cum, n)[key] == stage[i].data
  {
    if i < n - 1 {
      AddedLast(dict, stage, cum, n - 1, key, i);
    }
  }

  lemma {:induction false} AddedNot<T>(dict: StateDict<T>, stage: seq<Entry<T>>, cum: nat, n: nat, key: Key)
    requires n <= |stage| && forall j :: 0 <= j < n ==> !Writes(stage[j], cum, key)
    ensures key in AddEntries(dict, stage, cum, n) <==> key in dict
    ensures key in dict ==> AddEntries(dict, stage, cum, n)[key] == dict[key]
  {
    if n > 0 {
      AddedNot(dict, stage, cum, n - 1, key);
    }
  }

  lemma {:induction false} LastOfStage<T>(stage: seq<Entry<T>>, cum: nat, n: nat, key: Key) returns (i: int)
    requires n <= |stage|
    ensures -1 <= i < n && (i >= 0 ==> Writes(stage[i], cum, key))
    ensures forall j :: i < j < n ==> !Writes(stage[j], cum, key)
  {
    if n == 0 || Writes(stage[n - 1], cum, key) {
      i := n - 1;
    } else {
      i := LastOfStage(stage, cum, n - 1, key);
    }
  }

  /** A key is in the merged dict exactly when some entry belongs under it, with the value of the last one visited. */
  lemma {:induction false} MergedKey<T>(stages: seq<seq<Entry<T>>>, key: Key) returns (s: int, i: int)
    ensures key in Merged(stages) <==> exists t, j :: WritesAt(stages, t, j, key)
    ensures key in Merged(stages) ==> LastWrite(stages, s, i, key) && Merged(stages)[key] == stages[s][i].data
  {
    s, i := 0, 0;
    if stages != [] {
      var n := |stages| - 1;
      var front, last, cum := stages[..n], stages[n], LayersCum(stages[..n]);
      s, i := MergedKey(front, key);
      forall t, j
        ensures WritesAt(stages, t, j, key) <==> WritesAt(front, t, j, key) || (t == n && WritesAt(stages, n, j, key))
      {
        assert 0 <= t < n ==> front[..t] == stages[..t];
      }
      var k := LastOfStage(last, cum, |last|, key);
      if k >= 0 {
        AddedLast(Merged(front), last, cum, |last|, key, k);
        s, i := n, k;
        assert WritesAt(stages, n, k, key);
      } else {
        AddedNot(Merged(front), last, cum, |last|, key);
      }
    }
  }

  /** An entry of the grid without a layer. */
  predicate PlainAt<T>(grid: seq<seq<seq<Entry<T>>>>, v: int, p: int, i: int, name: string) {
    && 0 <= p < |grid| && 0 <= v < |grid[p]| && 0 <= i < |grid[p][v]|
    && grid[p][v][i].layer == None && grid[p][v][i].name == name
  }

  /** Virtual rank by virtual rank, then rank by rank, then in the order of the keys. */
  predicate VisitedBefore(v: int, p: int, i: int, w: int, q: int, j: int) {
    v < w || (v == w && p < q) || (v == w && p == q && i <= j)
  }

  ghost predicate LastPlain<T>(grid: seq<seq<seq<Entry<T>>>>, v: int, p: int, i: int, name: string) {
    && PlainAt(grid, v, p, i, name)
    && forall w, q, j :: PlainAt(grid, w, q, j, name) ==> VisitedBefore(w, q, j, v, p, i)
  }

  lemma PlainPosition<T>(grid: seq<seq<seq<Entry<T>>>>, v: nat, p: nat, i: int, name: string) returns (s: nat)
    requires grid != [] && (forall q :: 0 <= q < |grid| ==> |grid[q]| == |grid[0]|) && v < |grid[0]| && p < |grid|
    ensures s == v * |grid| + p && s < |Visited(grid, |grid[0]|)| && Visited(grid, |grid[0]|)[s] == grid[p][v]
    ensures PlainAt(grid, v, p, i, name) <==> WritesAt(Visited(grid, |grid[0]|), s, i, Key(None, name))
  {
    VisitedAt(grid, |grid[0]|, v, p);
    s := v * |grid| + p;
  }

  /** Where in the grid a visited stage is. */
  lemma {:induction false} VisitedFrom<T>(grid: seq<seq<seq<Entry<T>>>>, vpp: nat, s: nat) returns (v: nat, p: nat)
    requires (forall q :: 0 <= q < |grid| ==> vpp <= |grid[q]|) && s < |Visited(grid, vpp)|
    ensures v < vpp && p < |grid| && s == v * |grid| + p
  {
    VisitedLength(grid, vpp - 1);
    if s < |Visited(grid, vpp - 1)| {
      v, p := VisitedFrom(grid, vpp - 1, s);
    } else {
      v, p := vpp - 1, s - (vpp - 1) * |grid|;
    }
  }

  lemma EarlierVisit(pp: nat, v: nat, p: nat, w: nat, q: nat)
    requires p < pp && q < pp && v * pp + p < w * pp + q
    ensures v < w || (v == w && p < q)
  {
    assert pp * (w + 1) == pp * w + pp;
    if w < v {
      MulMono(pp, w + 1, v);
    }
  }

  /** A parameter without a layer keeps its name; of several of one name the last one visited stays. */
  lemma PlainKeys<T>(grid: seq<seq<seq<Entry<T>>>>, name: string)
    requires grid != [] && forall p :: 0 <= p < |grid| ==> |grid[p]| == |grid[0]|
    ensures
      var dict := Merged(Visited(grid, |grid[0]|));
      && (Key(None, name) in dict <==> exists v, p, i :: PlainAt(grid, v, p, i, name))
      && forall v, p, i :: LastPlain(grid, v, p, i, name) ==>
           Key(None, name) in dict && dict[Key(None, name)] == grid[p][v][i].data
  {
    var stages, key := Visited(grid, |grid[0]|), Key(None, name);
    var s, i := MergedKey(stages, key);
    forall v, p, j | PlainAt(grid, v, p, j, name) ensures key in Merged(stages) {
      var t := PlainPosition(grid, v, p, j, name);
    }
    if key in Merged(stages) {
      var v, p := VisitedFrom(grid, |grid[0]|, s);
      var t := PlainPosition(grid, v, p, i, name);
      assert PlainAt(grid, v, p, i, name);
      forall w, q, j | LastPlain(grid, w, q, j, name) ensures (w, q, j) == (v, p, i) {
        LastIsLast(grid, name, s, v, p, i, w, q, j);
      }
    }
  }

  lemma LastIsLast<T>(grid: seq<seq<seq<Entry<T>>>>, name: string, s: nat, v: nat, p: nat, i: int, w: nat, q: nat, j: int)
    requires grid != [] && forall r :: 0 <= r < |grid| ==> |grid[r]| == |grid[0]|
    requires v < |grid[0]| && p < |grid| && s == v * |grid| + p
    requires LastWrite(Visited(grid, |grid[0]|), s, i, Key(None, name)) && LastPlain(grid, w, q, j, name)
    ensures (w, q, j) == (v, p, i)
  {
    var t := PlainPosition(grid, w, q, j, name);
    var u := PlainPosition(grid, v, p, i, name);
    assert VisitedBefore(v, p, i, w, q, j);
    assert WritesAt(Visited(grid, |grid[0]|), t, j, Key(None, name));
    if t < s {
      EarlierVisit(|grid|, w, q, v, p);
    } else if t == s {
      VisitIsUnique(|grid|, w, q, v, p);
    }
  }

  lemma VisitIsUnique(pp: nat, v: nat, p: nat, w: nat, q: nat)
    requires p < pp && q < pp && v * pp + p == w * pp + q
    ensures v == w && p == q
  {
    DivMod(pp, v, p);
    DivMod(pp, w, q);
  }

  // ----- stages whose local layers are numbered from zero without gaps

  /** The local layers of the stage are exactly `0 .. n`. */
  ghost predicate HasLayers<T>(stage: seq<Entry<T>>, n: nat) {
    && (forall i :: 0 <= i < |stage| && stage[i].layer.Some? ==> stage[i].layer.value < n)
    && (forall l :: 0 <= l < n ==> HasLayer(stage, l))
  }

  ghost predicate HasLayer<T>(stage: seq<Entry<T>>, l: nat) {
    exists i :: 0 <= i < |stage| && stage[i].layer == Some(l)
  }

  lemma {:induction false} HandledBounds<T>(stage: seq<Entry<T>>, n: nat, bound: nat)
    requires n <= |stage| && forall i :: 0 <= i < n && stage[i].layer.Some? ==> stage[i].layer.value <= bound
    ensures Handled(stage, n) <= bound
    ensures forall i :: 0 <= i < n && stage[i].layer.Some? ==> stage[i].layer.value <= Handled(stage, n)
  {
    if n > 0 {
      HandledBounds(stage, n - 1, bound);
    }
  }

  /** Whatever the order of the keys, a stage of `n` layers advances the numbering by `n`, and a stage of
      none advances it by one. */
  lemma StageAdvance<T>(stage: seq<Entry<T>>, n: nat)
    requires HasLayers(stage, n)
    ensures Handled(stage, |stage|) + 1 == if n == 0 then 1 else n
  {
    HandledBounds(stage, |stage|, if n == 0 then 0 else n - 1);
    if n > 0 {
      assert HasLayer(stage, n - 1);
    }
  }

  ghost predicate HasCounts<T>(stages: seq<seq<Entry<T>>>, counts: seq<nat>) {
    |stages| == |counts| && forall s :: 0 <= s < |stages| ==> HasLayers(stages[s], counts[s])
  }

  predicate NoneEmpty(counts: seq<nat>) {
    forall s :: 0 <= s < |counts| ==> counts[s] > 0
  }

  /** The numbering falls behind by one for every empty stage passed. */
  lemma {:induction false} CumAgainstSum<T>(stages: seq<seq<Entry<T>>>, counts: seq<nat>)
    requires HasCounts(stages, counts)
    ensures LayersCum(stages) >= Sum(counts)
    ensures LayersCum(stages) == Sum(counts) <==> NoneEmpty(counts)
  {
    if stages != [] {
      var n := |stages| - 1;
      PrefixStep(counts, n);
      assert counts[..n + 1] == counts;
      CumAgainstSum(stages[..n], counts[..n]);
      StageAdvance(stages[n], counts[n]);
      assert NoneEmpty(counts) <==> NoneEmpty(counts[..n]) && counts[n] > 0;
    }
  }

  /** Every local layer gets the number of the layers before it: the merger starts each stage that has
      layers at the total of the stages before it. */
  ghost predicate NumberedRight<T>(stages: seq<seq<Entry<T>>>, counts: seq<nat>)
    requires |stages| == |counts|
  {
    forall s :: 0 <= s < |stages| && counts[s] > 0 ==> LayersCum(stages[..s]) == Sum(counts[..s])
  }

  /** No empty stage comes before a stage that has layers. */
  predicate NoGapBefore(counts: seq<nat>) {
    forall r, s :: 0 <= r < s < |counts| && counts[s] > 0 ==> counts[r] > 0
  }

  /** The global numbers are right exactly when no empty stage comes before a stage with layers. */
  lemma NumberedRightIff<T>(stages: seq<seq<Entry<T>>>, counts: seq<nat>)
    requires HasCounts(stages, counts)
    ensures NumberedRight(stages, counts) <==> NoGapBefore(counts)
  {
    forall s | 0 <= s < |stages|
      ensures LayersCum(stages[..s]) == Sum(counts[..s]) <==> forall r :: 0 <= r < s ==> counts[r] > 0
    {
      CumAgainstSum(stages[..s], counts[..s]);
      assert forall r :: 0 <= r < s ==> counts[..s][r] == counts[r];
    }
  }

  // ----- slicing by cumulative sums and merging is the identity

  /** `np.cumsum`. */
  function Cumsum(shards: seq<nat>): seq<nat> {
    seq(|shards|, i requires 0 <= i < |shards| => Sum(shards[..i + 1]))
  }

  /** The layers the converter gives to pipeline rank `p`. */
  function Slice<L>(layers: seq<L>, shards: seq<nat>, p: nat): seq<L>
    requires p < |shards| && Sum(shards) == |layers|
  {
    var start := if p == 0 then 0 else Cumsum(shards)[p - 1];
    var end := Cumsum(shards)[p];
    SumOfPrefix(shards, p);
    SumOfPrefix(shards, p + 1);
    PrefixStep(shards, p);
    layers[start..end]
  }

  lemma {:induction false} SumOfPrefix(shards: seq<nat>, p: nat)
    requires p <= |shards|
    ensures Sum(shards[..p]) <= Sum(shards)
  {
    if p > 0 {
      SumOfPrefix(shards[1..], p - 1);
      assert shards[..p][1..] == shards[1..][..p - 1];
    }
  }

  lemma PrefixStep(shards: seq<nat>, p: nat)
    requires p < |shards|
    ensures Sum(shards[..p + 1]) == Sum(shards[..p]) + shards[p]
    ensures p == 0 ==> Sum(shards[..p]) == 0
  {
    SumAppend(shards[..p], shards[p]);
    PrefixAppend(shards, p);
  }

  lemma PrefixAppend<T>(xs: seq<T>, n: nat)
    requires n < |xs|
    ensures xs[..n + 1] == xs[..n] + [xs[n]]
  {
  }

  lemma SliceIs<L>(layers: seq<L>, shards: seq<nat>, p: nat)
    requires p < |shards| && Sum(shards) == |layers|
    ensures Sum(shards[..p]) + shards[p] <= |layers|
    ensures Slice(layers, shards, p) == layers[Sum(shards[..p])..Sum(shards[..p]) + shards[p]]
  {
    SumOfPrefix(shards, p);
    SumOfPrefix(shards, p + 1);
    PrefixStep(shards, p);
  }

  /** A layer is its parameters by name. */
  type Layer<T> = map<string, T>

  /** The stage holds the parameters of `layers`, numbered from zero, in any order and any number of
      times, beside parameters that belong to no layer. */
  ghost predicate Holds<T>(stage: seq<Entry<T>>, layers: seq<Layer<T>>) {
    && (forall i :: 0 <= i < |stage| ==> EntryOf(stage[i], layers))
    && (forall l, name :: 0 <= l < |layers| && name in layers[l] ==> Present(stage, l, name))
  }

  predicate EntryOf<T(==)>(e: Entry<T>, layers: seq<Layer<T>>) {
    e.layer.Some? ==> e.layer.value < |layers| && e.name in layers[e.layer.value] && layers[e.layer.value][e.name] == e.data
  }

  ghost predicate Present<T>(stage: seq<Entry<T>>, l: nat, name: string) {
    exists i :: 0 <= i < |stage| && stage[i].layer == Some(l) && stage[i].name == name
  }

  lemma HoldsHasLayers<T>(stage: seq<Entry<T>>, layers: seq<Layer<T>>)
    requires Holds(stage, layers) && forall l :: 0 <= l < |layers| ==> layers[l] != map[]
    ensures HasLayers(stage, |layers|)
  {
    forall l | 0 <= l < |layers|
      ensures HasLayer(stage, l)
    {
      assert |layers[l]| > 0;
      var name :| name in layers[l].Keys;
      assert Present(stage, l, name);
    }
    forall i | 0 <= i < |stage| && stage[i].layer.Some?
      ensures stage[i].layer.value < |layers|
    {
      assert EntryOf(stage[i], layers);
    }
  }

  /** The layer parameters of the dict are exactly those of the first `n` layers. */
  ghost predicate Restores<T>(dict: StateDict<T>, layers: seq<Layer<T>>, n: nat)
    requires n <= |layers|
  {
    forall g: nat, name: string ::
      (Key(Some(g), name) in dict <==> g < n && name in layers[g])
      && (Key(Some(g), name) in dict ==> dict[Key(Some(g), name)] == layers[g][name])
  }

  /** After some keys of a stage, a key is there if it was there or one of those keys is renumbered to it. */
  lemma {:induction false} AddEntriesKeys<T>(dict: StateDict<T>, stage: seq<Entry<T>>, cum: nat, n: nat, key: Key)
    requires n <= |stage|
    ensures key in AddEntries(dict, stage, cum, n) <==>
            key in dict || exists i :: 0 <= i < n && Renumbered(stage[i], cum) == key
  {
    if n > 0 {
      AddEntriesKeys(dict, stage, cum, n - 1, key);
      if Renumbered(stage[n - 1], cum) == key {
        assert 0 <= n - 1 < n;
      }
    }
  }

  /** Its value is the old one or that of one of those keys. */
  lemma {:induction false} AddEntriesValue<T>(dict: StateDict<T>, stage: seq<Entry<T>>, cum: nat, n: nat, key: Key)
    requires n <= |stage| && key in AddEntries(dict, stage, cum, n)
    ensures (key in dict && AddEntries(dict, stage, cum, n)[key] == dict[key])
         || exists i :: 0 <= i < n && Renumbered(stage[i], cum) == key && AddEntries(dict, stage, cum, n)[key] == stage[i].data
  {
    if n > 0 && Renumbered(stage[n - 1], cum) != key {
      AddEntriesValue(dict, stage, cum, n - 1, key);
    }
  }

  /** Adding a stage whose layers start at `lo` restores those layers too. */
  lemma RestoresMore<T>(dict: StateDict<T>, stage: seq<Entry<T>>, layers: seq<Layer<T>>, lo: nat, hi: nat, cum: nat)
    requires lo <= hi <= |layers| && Restores(dict, layers, lo) && Holds(stage, layers[lo..hi])
    requires lo < hi ==> cum == lo
    ensures Restores(AddEntries(dict, stage, cum, |stage|), layers, hi)
  {
    var after := AddEntries(dict, stage, cum, |stage|);
    forall g: nat, name: string
      ensures Key(Some(g), name) in after <==> g < hi && name in layers[g]
      ensures Key(Some(g), name) in after ==> after[Key(Some(g), name)] == layers[g][name]
    {
      RestoresKey(dict, stage, layers, lo, hi, cum, g, name);
    }
  }

  lemma EntryFor<T>(stage: seq<Entry<T>>, layers: seq<Layer<T>>, lo: nat, hi: nat, cum: nat, g: nat, name: string) returns (i: nat)
    requires lo <= g < hi <= |layers| && Holds(stage, layers[lo..hi]) && cum == lo && name in layers[g]
    ensures i < |stage| && Renumbered(stage[i], cum) == Key(Some(g), name)
  {
    assert name in layers[lo..hi][g - lo];
    assert Present(stage, g - lo, name);
    i :| 0 <= i < |stage| && stage[i].layer == Some(g - lo) && stage[i].name == name;
  }

  lemma RestoresKey<T>(
    dict: StateDict<T>, stage: seq<Entry<T>>, layers: seq<Layer<T>>, lo: nat, hi: nat, cum: nat, g: nat, name: string)
    requires lo <= hi <= |layers| && Restores(dict, layers, lo) && Holds(stage, layers[lo..hi])
    requires lo < hi ==> cum == lo
    ensures var after := AddEntries(dict, stage, cum, |stage|);
      && (Key(Some(g), name) in after <==> g < hi && name in layers[g])
      && (Key(Some(g), name) in after ==> after[Key(Some(g), name)] == layers[g][name])
  {
    var key, after := Key(Some(g), name), AddEntries(dict, stage, cum, |stage|);
    assert key in dict <==> g < lo && name in layers[g];
    AddEntriesKeys(dict, stage, cum, |stage|, key);
    if key in after {
      AddEntriesValue(dict, stage, cum, |stage|, key);
      forall i | 0 <= i < |stage| && Renumbered(stage[i], cum) == key
        ensures lo <= g < hi && name in layers[g] && stage[i].data == layers[g][name]
      {
      }
    } else if lo <= g < hi && name in layers[g] {
      var i := EntryFor(stage, layers, lo, hi, cum, g, name);
    }
  }

  /** The stages of a pipeline whose rank `p` holds the slice the converter gave it. */
  ghost predicate Sharded<T>(stages: seq<seq<Entry<T>>>, layers: seq<Layer<T>>, shards: seq<nat>)
    requires Sum(shards) == |layers|
  {
    |stages| == |shards| && forall p :: 0 <= p < |stages| ==> Holds(stages[p], Slice(layers, shards, p))
  }

  lemma ShardedCounts<T>(stages: seq<seq<Entry<T>>>, layers: seq<Layer<T>>, shards: seq<nat>)
    requires Sum(shards) == |layers| && Sharded(stages, layers, shards)
    requires forall l :: 0 <= l < |layers| ==> layers[l] != map[]
    ensures HasCounts(stages, shards)
  {
    forall p | 0 <= p < |stages|
      ensures HasLayers(stages[p], shards[p])
    {
      SliceIs(layers, shards, p);
      HoldsHasLayers(stages[p], Slice(layers, shards, p));
    }
  }

  lemma StageHolds<T>(stages: seq<seq<Entry<T>>>, layers: seq<Layer<T>>, shards: seq<nat>, p: nat, lo: nat, hi: nat)
    requires Sum(shards) == |layers| && Sharded(stages, layers, shards) && p < |stages|
    requires lo == Sum(shards[..p]) && hi == Sum(shards[..p + 1])
    ensures lo <= hi <= |layers| && hi == lo + shards[p] && Holds(stages[p], layers[lo..hi])
  {
    SliceIs(layers, shards, p);
    PrefixStep(shards, p);
  }

  lemma MergeStep<T>(before: seq<seq<Entry<T>>>, stage: seq<Entry<T>>, layers: seq<Layer<T>>, lo: nat, hi: nat)
    requires lo <= hi <= |layers| && Restores(Merged(before), layers, lo) && Holds(stage, layers[lo..hi])
    requires lo < hi ==> LayersCum(before) == lo
    ensures Restores(Merged(before + [stage]), layers, hi)
  {
    RestoresMore(Merged(before), stage, layers, lo, hi, LayersCum(before));
  }

  lemma {:induction false} MergeRestores<T>(stages: seq<seq<Entry<T>>>, layers: seq<Layer<T>>, shards: seq<nat>, n: nat)
    requires Sum(shards) == |layers| && Sharded(stages, layers, shards) && n <= |stages|
    requires NumberedRight(stages, shards)
    ensures Sum(shards[..n]) <= |layers| && Restores(Merged(stages[..n]), layers, Sum(shards[..n]))
  {
    if n > 0 {
      var p := n - 1;
      var lo, hi := Sum(shards[..p]), Sum(shards[..p + 1]);
      MergeRestores(stages, layers, shards, p);
      StageHolds(stages, layers, shards, p, lo, hi);
      MergeStep(stages[..p], stages[p], layers, lo, hi);
      PrefixAppend(stages, p);
    }
  }

  /** The last stage with layers at or after stage `s` ends the layers. */
  lemma {:induction false} LastFilled(counts: seq<nat>, s: nat) returns (t: nat)
    requires s < |counts| && counts[s] > 0
    ensures s <= t < |counts| && counts[t] > 0 && Sum(counts[..t + 1]) == Sum(counts)
    decreases |counts|
  {
    var n := |counts| - 1;
    PrefixStep(counts, n);
    assert counts[..n + 1] == counts;
    if counts[n] > 0 {
      t := n;
    } else {
      t := LastFilled(counts[..n], s);
      assert counts[..n][..t + 1] == counts[..t + 1];
    }
  }

  /** Later stages only add keys. */
  lemma {:induction false} KeyStays<T>(stages: seq<seq<Entry<T>>>, n: nat, key: Key)
    requires n <= |stages| && key in Merged(stages[..n])
    ensures key in Merged(stages)
    decreases |stages|
  {
    var last := |stages| - 1;
    if n <= last {
      assert stages[..last][..n] == stages[..n];
      KeyStays(stages[..last], n, key);
      AddEntriesKeys(Merged(stages[..last]), stages[last], LayersCum(stages[..last]), |stages[last]|, key);
    } else {
      assert stages[..n] == stages;
    }
  }

  /** Every entry of every stage is in the dict under its renumbered key. */
  lemma EntryMerged<T>(stages: seq<seq<Entry<T>>>, t: nat, i: nat)
    requires t < |stages| && i < |stages[t]|
    ensures Renumbered(stages[t][i], LayersCum(stages[..t])) in Merged(stages)
  {
    var key := Renumbered(stages[t][i], LayersCum(stages[..t]));
    AddEntriesKeys(Merged(stages[..t]), stages[t], LayersCum(stages[..t]), |stages[t]|, key);
    assert stages[..t + 1][..t] == stages[..t];
    KeyStays(stages, t + 1, key);
  }

  lemma PresentEntry<T>(stage: seq<Entry<T>>, layers: seq<Layer<T>>, l: nat, name: string) returns (i: nat)
    requires Holds(stage, layers) && l < |layers| && name in layers[l]
    ensures i < |stage| && stage[i].layer == Some(l)
  {
    assert Present(stage, l, name);
    i :| 0 <= i < |stage| && stage[i].layer == Some(l) && stage[i].name == name;
  }

  lemma LastLayerName<T>(layers: seq<Layer<T>>, lo: nat, part: seq<Layer<T>>) returns (name: string)
    requires lo < |layers| && part == layers[lo..|layers|] && forall l :: 0 <= l < |layers| ==> layers[l] != map[]
    ensures |part| == |layers| - lo && name in part[|part| - 1]
  {
    var last := layers[|layers| - 1];
    assert part[|part| - 1] == last && |last| > 0;
    name :| name in last.Keys;
  }

  /** A key numbered past the first `n` layers. */
  predicate PastEnd(key: Key, n: nat) {
    key.layer.Some? && key.layer.value >= n
  }

  lemma NoKeyPastEnd<T>(dict: StateDict<T>, layers: seq<Layer<T>>, key: Key)
    requires key in dict && PastEnd(key, |layers|)
    ensures !Restores(dict, layers, |layers|)
  {
    assert key == Key(Some(key.layer.value), key.name);
  }

  /** The last layer of a stage that starts too late gets a number past all `n` layers. */
  lemma LateStage<T>(stages: seq<seq<Entry<T>>>, t: nat, part: seq<Layer<T>>, name: string, n: nat) returns (key: Key)
    requires t < |stages| && Holds(stages[t], part) && part != [] && name in part[|part| - 1]
    requires LayersCum(stages[..t]) + |part| > n
    ensures key in Merged(stages) && PastEnd(key, n)
  {
    var i := PresentEntry(stages[t], part, |part| - 1, name);
    EntryMerged(stages, t, i);
    key := Renumbered(stages[t][i], LayersCum(stages[..t]));
  }

  lemma LateAfterGap<T>(stages: seq<seq<Entry<T>>>, shards: seq<nat>, r: nat, t: nat)
    requires HasCounts(stages, shards) && r < t <= |shards| && shards[r] == 0
    ensures LayersCum(stages[..t]) > Sum(shards[..t])
  {
    CumAgainstSum(stages[..t], shards[..t]);
    assert shards[..t][r] == 0;
  }

  /** An empty stage before one with layers shifts the last layers out of their places. */
  lemma GapRefutes<T>(stages: seq<seq<Entry<T>>>, layers: seq<Layer<T>>, shards: seq<nat>)
    requires Sum(shards) == |layers| && Sharded(stages, layers, shards)
    requires forall l :: 0 <= l < |layers| ==> layers[l] != map[]
    requires !NoGapBefore(shards)
    ensures !Restores(Merged(stages), layers, |layers|)
  {
    var r, s :| 0 <= r < s < |shards| && shards[s] > 0 && shards[r] == 0;
    var t := LastFilled(shards, s);
    ShardedCounts(stages, layers, shards);
    LateAfterGap(stages, shards, r, t);
    var key := GapKey(stages, layers, shards, t);
    NoKeyPastEnd(Merged(stages), layers, key);
  }

  lemma GapKey<T>(stages: seq<seq<Entry<T>>>, layers: seq<Layer<T>>, shards: seq<nat>, t: nat) returns (key: Key)
    requires Sum(shards) == |layers| && Sharded(stages, layers, shards)
    requires forall l :: 0 <= l < |layers| ==> layers[l] != map[]
    requires t < |shards| && shards[t] > 0 && Sum(shards[..t + 1]) == |layers|
    requires LayersCum(stages[..t]) > Sum(shards[..t])
    ensures key in Merged(stages) && PastEnd(key, |layers|)
  {
    var lo := Sum(shards[..t]);
    StageHolds(stages, layers, shards, t, lo, |layers|);
    var part := layers[lo..|layers|];
    var name := LastLayerName(layers, lo, part);
    key := LateStage(stages, t, part, name, |layers|);
  }

  /** Slicing by cumulative sums and merging the stages gives back every layer under its own number and
      nothing else, whatever the order of the keys, exactly when no empty stage comes before one with layers. */
  lemma SliceThenMerge<T>(stages: seq<seq<Entry<T>>>, layers: seq<Layer<T>>, shards: seq<nat>)
    requires Sum(shards) == |layers| && Sharded(stages, layers, shards)
    requires forall l :: 0 <= l < |layers| ==> layers[l] != map[]
    ensures Restores(Merged(stages), layers, |layers|) <==> NoGapBefore(shards)
  {
    if NoGapBefore(shards) {
      ShardedCounts(stages, layers, shards);
      NumberedRightIff(stages, shards);
      MergeRestores(stages, layers, shards, |stages|);
      assert stages[..|stages|] == stages && shards[..|shards|] == shards;
    } else {
      GapRefutes(stages, layers, shards);
    }
  }

  /** No layer on the first of two stages, one on the second: it comes out under number 1. */
  lemma ShiftedByEmptyStage<T>(name: string, x: T)
    ensures Sum([0, 1]) == 1 && !NoGapBefore([0, 1])
    ensures Sharded([[], [Entry(Some(0), name, x)]], [map[name := x]], [0, 1])
    ensures Merged([[], [Entry(Some(0), name, x)]]) == map[Key(Some(1), name) := x]
  {
    var layers := [map[name := x]];
    var second := [Entry(Some(0), name, x)];
    assert [0, 1][1..] == [1] && Sum([1]) == 1 + Sum([]);
    SliceIs(layers, [0, 1], 0);
    SliceIs(layers, [0, 1], 1);
    PrefixStep([0, 1], 0);
    assert Slice(layers, [0, 1], 0) == [] && Slice(layers, [0, 1], 1) == layers;
    HoldsOne(name, x);
    MergedOne(second, [], name, x);
  }

  lemma HoldsOne<T>(name: string, x: T)
    ensures Holds([Entry(Some(0), name, x)], [map[name := x]])
  {
    var stage := [Entry(Some(0), name, x)];
    assert stage[0].layer == Some(0) && stage[0].name == name;
    assert Present(stage, 0, name);
  }

  lemma MergedOne<T>(second: seq<Entry<T>>, first: seq<Entry<T>>, name: string, x: T)
    requires first == [] && second == [Entry(Some(0), name, x)]
    ensures Merged([first, second]) == map[Key(Some(1), name) := x]
  {
    var stages := [first, second];
    assert stages[..1] == [first] && [first][..0] == [];
    assert Merged([first]) == map[] && LayersCum([first]) == 1;
    assert AddEntries(map[], second, 1, 0) == map[];
    assert Renumbered(second[0], 1) == Key(Some(1), name);
  }

  // ----- stages that do not overwrite one another

  /** The stages' ranges of numbers follow one another, whether or not some stage is empty. */
  lemma {:induction false} StagesApart<T>(stages: seq<seq<Entry<T>>>, counts: seq<nat>, s: nat, t: nat)
    requires HasCounts(stages, counts) && s < t <= |stages|
    ensures LayersCum(stages[..s]) + counts[s] <= LayersCum(stages[..t])
  {
    var n := t - 1;
    StageAdvance(stages[n], counts[n]);
    assert stages[..t][..n] == stages[..n];
    if s < n {
      StagesApart(stages, counts, s, n);
    }
  }

  /** `key` has one of the global numbers of stage `s`. */
  predicate NumberOf<T>(stages: seq<seq<Entry<T>>>, counts: seq<nat>, s: nat, key: Key)
    requires |stages| == |counts| && s < |stages|
  {
    var cum := LayersCum(stages[..s]);
    key.layer.Some? && cum <= key.layer.value < cum + counts[s]
  }

  lemma NumberOfOther<T>(stages: seq<seq<Entry<T>>>, counts: seq<nat>, s: nat, t: nat, key: Key, i: nat)
    requires HasCounts(stages, counts) && s < |stages| && t < |stages| && s != t && i < |stages[t]|
    requires NumberOf(stages, counts, s, key)
    ensures !WritesAt(stages, t, i, key)
  {
    if s < t {
      StagesApart(stages, counts, s, t);
    } else {
      StagesApart(stages, counts, t, s);
    }
    assert stages[t][i].layer.Some? ==> stages[t][i].layer.value < counts[t];
  }

  // ----- the grid

  /** Virtual rank `v` of pipeline rank `p` is visited at position `v * pp + p`. */
  lemma {:induction false} VisitedAt<T>(grid: seq<seq<seq<Entry<T>>>>, vpp: nat, v: nat, p: nat)
    requires (forall q :: 0 <= q < |grid| ==> vpp <= |grid[q]|) && v < vpp && p < |grid|
    ensures |Visited(grid, vpp)| == vpp * |grid| && 0 <= v * |grid| + p < vpp * |grid|
    ensures Visited(grid, vpp)[v * |grid| + p] == grid[p][v]
  {
    VisitedLength(grid, vpp - 1);
    assert vpp * |grid| == (vpp - 1) * |grid| + |grid|;
    if v < vpp - 1 {
      VisitedAt(grid, vpp - 1, v, p);
    }
  }

  lemma {:induction false} VisitedLength<T>(grid: seq<seq<seq<Entry<T>>>>, vpp: nat)
    requires forall q :: 0 <= q < |grid| ==> vpp <= |grid[q]|
    ensures |Visited(grid, vpp)| == vpp * |grid|
  {
    if vpp > 0 {
      VisitedLength(grid, vpp - 1);
      assert vpp * |grid| == (vpp - 1) * |grid| + |grid|;
    }
  }

  /** The dict has a key with a number of stage `s` exactly when that stage has an entry for it, and then its last one. */
  ghost predicate OwnNumbers<T>(stages: seq<seq<Entry<T>>>, s: nat, key: Key) {
    && (key in Merged(stages) <==> exists i :: WritesAt(stages, s, i, key))
    && (forall t, i :: WritesAt(stages, t, i, key) ==> t == s)
    && (forall i :: LastWrite(stages, s, i, key) ==> key in Merged(stages) && Merged(stages)[key] == stages[s][i].data)
  }

  lemma StageOwnsNumbers<T>(stages: seq<seq<Entry<T>>>, counts: seq<nat>, s: nat, key: Key)
    requires HasCounts(stages, counts) && s < |stages| && NumberOf(stages, counts, s, key)
    ensures OwnNumbers(stages, s, key)
  {
    var t, j := MergedKey(stages, key);
    forall t, i | WritesAt(stages, t, i, key) ensures t == s {
      if t != s {
        NumberOfOther(stages, counts, s, t, key, i);
      }
    }
  }

  /**
   * On every (virtual rank, pipeline rank) grid the stages keep out of each other's numbers. If every stage has a
   * layer, the numbers are contiguous in the order of the visits.
   */
  lemma GridNumbers<T>(grid: seq<seq<seq<Entry<T>>>>, counts: seq<nat>, s: nat, key: Key)
    requires grid != [] && forall p :: 0 <= p < |grid| ==> |grid[p]| == |grid[0]|
    requires HasCounts(Visited(grid, |grid[0]|), counts) && s < |counts|
    ensures
      var stages := Visited(grid, |grid[0]|);
      && (NumberOf(stages, counts, s, key) ==> OwnNumbers(stages, s, key))
      && (NoneEmpty(counts) ==> LayersCum(stages[..s]) == Sum(counts[..s]) && LayersCum(stages) == Sum(counts))
  {
    var stages := Visited(grid, |grid[0]|);
    if NumberOf(stages, counts, s, key) {
      StageOwnsNumbers(stages, counts, s, key);
    }
    CumAgainstSum(stages[..s], counts[..s]);
    CumAgainstSum(stages, counts);
  }

  lemma {:induction false} SumOfShares(shards: seq<nat>)
    ensures Sum(shards) == PipelineShards.Sum(shards)
  {
    if shards != [] {
      SumOfShares(shards[1..]);
    }
  }

  /** The shards `get_dynamic_pipeline_shards` computes leave no stage empty, so what is converted with them is
      merged back layer by layer. */
  lemma DynamicShardsMerge<T>(stages: seq<seq<Entry<T>>>, layers: seq<Layer<T>>, shards: seq<nat>)
    requires PipelineShards.IsDivision(shards, |layers|, |stages|)
    requires Sum(shards) == |layers| ==> Sharded(stages, layers, shards)
    requires forall l :: 0 <= l < |layers| ==> layers[l] != map[]
    ensures Restores(Merged(stages), layers, |layers|)
  {
    SumOfShares(shards);
    SliceThenMerge(stages, layers, shards);
  }
}

/** `get_dynamic_pipeline_shards`: how many layers each pipeline stage gets. */
module PipelineShards {
  import opened Arith

  datatype Result<T> = Ok(value: T) | ValueError | IndexError

  datatype Strategy = Strategy(shards: seq<int>, diff: int)

  function Sum(xs: seq<int>): int {
    if xs == [] then 0 else xs[0] + Sum(xs[1..])
  }

  lemma {:induction false} SumConcat(xs: seq<int>, ys: seq<int>)
    ensures Sum(xs + ys) == Sum(xs) + Sum(ys)
  {
    if xs == [] {
      assert xs + ys == ys;
    } else {
      assert (xs + ys)[1..] == xs[1..] + ys;
      SumConcat(xs[1..], ys);
    }
  }

  lemma {:induction false} SumRepeat(n: nat, m: int)
    ensures Sum(seq(n, _ => m)) == n * m
  {
    if n > 0 {
      SumRepeat(n - 1, m);
      assert seq(n, _ => m)[1..] == seq(n - 1, _ => m);
      assert (n - 1) * m == n * m - m;
    }
  }

  // ----- one strategy

  /** What is left for the first and the last stage when every middle stage gets `middle` layers. */
  function Ends(layers: int, stages: int, middle: int): int {
    layers - middle * (stages - 2)
  }

  function FirstStage(layers: int, stages: int, middle: int): int {
    Ends(layers, stages, middle) / 2
  }

  function LastStage(layers: int, stages: int, middle: int): int {
    Ends(layers, stages, middle) - Ends(layers, stages, middle) / 2
  }

  /** The test of the loop. */
  predicate Accepted(layers: int, stages: int, middle: int) {
    && 0 < FirstStage(layers, stages, middle) <= middle
    && 0 < LastStage(layers, stages, middle) <= middle
  }

  function StrategyFor(layers: int, stages: int, middle: int): Strategy
    requires stages >= 3
  {
    var first := FirstStage(layers, stages, middle);
    Strategy([first] + seq(stages - 2, _ => middle) + [LastStage(layers, stages, middle)],
             if first < middle then middle - first else first - middle)
  }

  /** The accepted sizes are those between two bounds. */
  lemma AcceptedRange(layers: int, stages: int, middle: int)
    requires stages >= 3
    ensures Accepted(layers, stages, middle) <==> middle * (stages - 2) + 2 <= layers <= middle * stages
  {
    assert middle * stages == middle * (stages - 2) + 2 * middle;
  }

  /** A larger middle size is less uniform. */
  lemma DiffGrows(layers: int, stages: int, m: int, n: int)
    requires stages >= 3 && Accepted(layers, stages, m) && Accepted(layers, stages, n) && m < n
    ensures StrategyFor(layers, stages, m).diff < StrategyFor(layers, stages, n).diff
  {
    MulMono(stages - 2, m, n);
    assert (stages - 2) * m == m * (stages - 2) && (stages - 2) * n == n * (stages - 2);
  }

  /** `ceil(layers / stages)`. */
  function Ceiling(layers: int, stages: int): int
    requires stages >= 1
  {
    (layers + stages - 1) / stages
  }

  lemma CeilingIsLeast(layers: int, stages: int, m: int)
    requires stages >= 1
    ensures layers <= m * stages <==> Ceiling(layers, stages) <= m
  {
    var c, d: nat := Ceiling(layers, stages), stages;
    DivModBack(layers + stages - 1, d);
    assert layers + stages - 1 == d * c + (layers + stages - 1) % d;
    if c <= m {
      MulMono(d, c, m);
    } else {
      MulMono(d, m + 1, c);
      assert d * (m + 1) == d * m + d;
    }
  }

  /** When the loop accepts any size at all, the least one is the ceiling. */
  lemma LeastAccepted(layers: int, stages: int, m: int)
    requires stages >= 3 && Accepted(layers, stages, m)
    ensures Accepted(layers, stages, Ceiling(layers, stages)) && Ceiling(layers, stages) <= m
  {
    var c := Ceiling(layers, stages);
    AcceptedRange(layers, stages, m);
    CeilingIsLeast(layers, stages, m);
    CeilingIsLeast(layers, stages, c);
    MulMono(stages - 2, c, m);
    assert (stages - 2) * c == c * (stages - 2) && (stages - 2) * m == m * (stages - 2);
    AcceptedRange(layers, stages, c);
  }

  // ----- what the function promises

  /** The inputs for which there is a result.  With three stages or more the ends must still get a layer
      each once every middle stage has `ceil(layers / stages)`. */
  predicate Divisible(layers: int, stages: int) {
    1 <= stages <= layers
    && (stages >= 3 ==> Ceiling(layers, stages) * (stages - 2) + 2 <= layers)
  }

  /** A division of the layers: one positive share per stage. */
  ghost predicate IsDivision(shards: seq<int>, layers: int, stages: int) {
    |shards| == stages && Sum(shards) == layers && forall i :: 0 <= i < |shards| ==> shards[i] > 0
  }

  /** No stage has more than `most` layers. */
  ghost predicate AtMost(shards: seq<int>, most: int) {
    forall i :: 0 <= i < |shards| ==> shards[i] <= most
  }

  /** Of two stages or more, the first and the last share what the middle ones leave, the last getting the odd layer;
      the middle ones have the ceiling. */
  ghost predicate EvenEnds(shards: seq<int>, layers: int, stages: int)
    requires stages >= 1
  {
    |shards| == stages
    && (stages >= 2 ==> shards[0] <= shards[stages - 1] <= shards[0] + 1)
    && (forall i :: 0 < i < stages - 1 ==> shards[i] == Ceiling(layers, stages))
  }

  lemma {:induction false} SumAtMost(shards: seq<int>, most: int)
    requires AtMost(shards, most)
    ensures Sum(shards) <= |shards| * most
  {
    if shards != [] {
      SumAtMost(shards[1..], most);
      assert |shards| * most == (|shards| - 1) * most + most;
    }
  }

  /** Some stage of every division has at least the ceiling. */
  lemma CeilingIsNeeded(shards: seq<int>, layers: int, stages: int, most: int)
    requires stages >= 1 && IsDivision(shards, layers, stages) && AtMost(shards, most)
    ensures Ceiling(layers, stages) <= most
  {
    SumAtMost(shards, most);
    CeilingIsLeast(layers, stages, most);
    assert stages * most == most * stages;
  }

  lemma StrategyIsDivision(layers: int, stages: int, m: int)
    requires stages >= 3 && Accepted(layers, stages, m)
    ensures IsDivision(StrategyFor(layers, stages, m).shards, layers, stages)
    ensures AtMost(StrategyFor(layers, stages, m).shards, m)
  {
    var first, last := FirstStage(layers, stages, m), LastStage(layers, stages, m);
    var middles := seq(stages - 2, _ => m);
    SumRepeat(stages - 2, m);
    SumConcat([first] + middles, [last]);
    SumConcat([first], middles);
    assert [first][1..] == [] && [last][1..] == [];
    assert Sum([first]) == first && Sum([last]) == last;
    assert (stages - 2) * m == m * (stages - 2);
  }

  lemma TwoStages(layers: int)
    requires layers >= 2
    ensures var shards := [layers / 2, layers - layers / 2];
      IsDivision(shards, layers, 2) && AtMost(shards, Ceiling(layers, 2))
  {
    var shards := [layers / 2, layers - layers / 2];
    assert shards[1..] == [layers - layers / 2];
    assert shards[1..][1..] == [];
    assert Sum(shards[1..]) == layers - layers / 2 + Sum([]);
  }

  // ----- the code

  /** The position of the first strategy with the smallest difference: `sorted(...)[0]`. */
  method FirstLeast(strategies: seq<Strategy>) returns (k: nat)
    requires strategies != []
    ensures k < |strategies|
    ensures forall i :: 0 <= i < |strategies| ==> strategies[k].diff <= strategies[i].diff
    ensures forall i :: 0 <= i < k ==> strategies[k].diff < strategies[i].diff
  {
    k := 0;
    for j := 0 to |strategies|
      invariant k < |strategies|
      invariant forall i :: 0 <= i < j ==> strategies[k].diff <= strategies[i].diff
      invariant forall i :: 0 <= i < k ==> strategies[k].diff < strategies[i].diff
      invariant k <= j
    {
      if strategies[j].diff < strategies[k].diff {
        k := j;
      }
    }
  }

  /** Strategies for the accepted sizes below `n`, in order. */
  ghost predicate Collected(layers: int, stages: int, n: int, sizes: seq<int>, strategies: seq<Strategy>)
    requires stages >= 3
  {
    && |strategies| == |sizes|
    && (forall i :: 0 <= i < |sizes| ==>
          0 <= sizes[i] < n && Accepted(layers, stages, sizes[i])
          && strategies[i] == StrategyFor(layers, stages, sizes[i]))
    && (forall i, j :: 0 <= i < j < |sizes| ==> sizes[i] < sizes[j])
    && (forall m :: 0 <= m < n && Accepted(layers, stages, m) ==> m in sizes)
  }

  lemma FirstIsLeast(layers: int, stages: int, sizes: seq<int>, strategies: seq<Strategy>, k: nat)
    requires stages >= 3 && Collected(layers, stages, layers, sizes, strategies) && k < |strategies|
    requires forall i :: 0 <= i < |strategies| ==> strategies[k].diff <= strategies[i].diff
    ensures sizes[k] == Ceiling(layers, stages) && Accepted(layers, stages, Ceiling(layers, stages))
  {
    LeastAccepted(layers, stages, sizes[k]);
    var c := Ceiling(layers, stages);
    assert c in sizes by {
      assert 0 < FirstStage(layers, stages, c) <= c;
      assert c <= sizes[k] < layers;
    }
    var i :| 0 <= i < |sizes| && sizes[i] == c;
    if c < sizes[k] {
      DiffGrows(layers, stages, c, sizes[k]);
    }
  }

  lemma NothingCollected(layers: int, stages: int, sizes: seq<int>, strategies: seq<Strategy>)
    requires stages >= 3 && Collected(layers, stages, layers, sizes, strategies) && sizes == []
    ensures !Divisible(layers, stages)
  {
    if Divisible(layers, stages) {
      var c := Ceiling(layers, stages);
      CeilingIsLeast(layers, stages, c);
      AcceptedRange(layers, stages, c);
      assert 0 < FirstStage(layers, stages, c) <= c;
      MulMono(c, 1, stages - 2);
    }
  }

  /** `get_dynamic_pipeline_shards`.  It divides the layers, with the smallest possible largest stage; but it
      fails with an index error on the layer counts for which its own pattern of stages does not exist. */
  method GetDynamicPipelineShards(layers: int, stages: int) returns (r: Result<seq<int>>)
    ensures r.ValueError? <==> layers < stages || stages < 1
    ensures r.Ok? <==> Divisible(layers, stages)
    ensures r.Ok? ==> IsDivision(r.value, layers, stages)
    ensures r.Ok? ==> AtMost(r.value, Ceiling(layers, stages)) && EvenEnds(r.value, layers, stages)
    ensures r.Ok? ==> forall other, most ::
      IsDivision(other, layers, stages) && AtMost(other, most) ==> Ceiling(layers, stages) <= most
  {
    if layers < stages || stages < 1 {
      return ValueError;
    }
    forall other, most | IsDivision(other, layers, stages) && AtMost(other, most)
      ensures Ceiling(layers, stages) <= most
    {
      CeilingIsNeeded(other, layers, stages, most);
    }
    if stages == 1 {
      assert [layers][1..] == [];
      return Ok([layers]);
    }
    if stages == 2 {
      TwoStages(layers);
      return Ok([layers / 2, layers - layers / 2]);
    }
    var strategies: seq<Strategy> := [];
    ghost var sizes: seq<int> := [];
    for m := 0 to layers
      invariant Collected(layers, stages, m, sizes, strategies)
    {
      if Accepted(layers, stages, m) {
        strategies := strategies + [StrategyFor(layers, stages, m)];
        sizes := sizes + [m];
      }
    }
    if strategies == [] {
      NothingCollected(layers, stages, sizes, strategies);
      return IndexError;
    }
    var k := FirstLeast(strategies);
    FirstIsLeast(layers, stages, sizes, strategies, k);
    AcceptedRange(layers, stages, sizes[k]);
    StrategyIsDivision(layers, stages, sizes[k]);
    r := Ok(strategies[k].shards);
  }

  /** Five layers on four stages: positive divisions exist, but the function fails. */
  lemma FiveLayersOnFourStages()
    ensures !Divisible(5, 4) && IsDivision([1, 1, 1, 2], 5, 4)
  {
    var s := [1, 1, 1, 2];
    assert s[1..] == [1, 1, 2] && s[1..][1..] == [1, 2] && s[1..][1..][1..] == [2] && s[1..][1..][1..][1..] == [];
  }
}

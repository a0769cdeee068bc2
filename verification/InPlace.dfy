/** The `DataProto` operations that change the object they are called on. */
module InPlace {
  import opened Wrappers
  import opened Seqs
  import opened Rows
  import opened DataProtos
  import opened DataConcat
  import opened Unions

  // ----- union

  /** `cols` is `m1` with the entries of `m2` outside `todo` laid over it. */
  ghost predicate Overlaid<C>(cols: map<Key, C>, m1: map<Key, C>, m2: map<Key, C>, todo: set<Key>) {
    && (forall k :: k in cols <==> k in m1 || (k in m2 && k !in todo))
    && (forall k :: k in m2 && k !in todo ==> cols[k] == m2[k])
    && (forall k :: k in m1 && (k !in m2 || k in todo) ==> cols[k] == m1[k])
  }

  ghost predicate PartlyOverlaid<C>(cols: map<Key, C>, m1: map<Key, C>, m2: map<Key, C>) {
    exists todo: set<Key> :: Overlaid(cols, m1, m2, todo)
  }

  lemma OverlayKey<C>(cols: map<Key, C>, m1: map<Key, C>, m2: map<Key, C>, todo: set<Key>, k: Key)
    requires Overlaid(cols, m1, m2, todo) && k in todo && k in m2
    ensures k in cols <==> k in m1
    ensures k in cols ==> cols[k] == m1[k]
    ensures Overlaid(cols[k := m2[k]], m1, m2, todo - {k})
    ensures k in cols && cols[k] == m2[k] ==> Overlaid(cols, m1, m2, todo - {k})
  {
  }

  lemma OverlaidAll<C>(cols: map<Key, C>, m1: map<Key, C>, m2: map<Key, C>)
    requires Overlaid(cols, m1, m2, {})
    ensures cols == m1 + m2
  {
  }

  lemma OverlaidNone<C>(m1: map<Key, C>, m2: map<Key, C>)
    ensures Overlaid(m1, m1, m2, m2.Keys)
  {
  }

  /** The keys of `m2` outside `todo` that `m1` has too compare equal. */
  ghost predicate AgreeOutside<C>(m1: map<Key, C>, m2: map<Key, C>, same: (C, C) -> bool, todo: set<Key>) {
    todo <= m2.Keys && forall k :: k in m1 && k in m2 && k !in todo ==> same(m1[k], m2[k])
  }

  /** The loop of `union_tensor_dict`; `cols` is the first dictionary as it is left, also by a failure. */
  method UnionTensorDict<V(==)>(t1: TensorDict<V>, t2: TensorDict<V>) returns (ok: bool, cols: map<Key, seq<V>>)
    ensures ok <==> t1.size == t2.size && AgreeBy(t1.cols, t2.cols, Equal)
    ensures ok ==> cols == t1.cols + t2.cols
    ensures PartlyOverlaid(cols, t1.cols, t2.cols)
    ensures t1.cols.Keys <= cols.Keys && forall k :: k in t1.cols ==> cols[k] == t1.cols[k]
  {
    cols := t1.cols;
    OverlaidNone(t1.cols, t2.cols);
    if t1.size != t2.size {
      return false, cols;
    }
    var todo := t2.cols.Keys;
    while todo != {}
      invariant Overlaid(cols, t1.cols, t2.cols, todo) && AgreeOutside(t1.cols, t2.cols, Equal, todo)
      decreases |todo|
    {
      var k :| k in todo;
      OverlayKey(cols, t1.cols, t2.cols, todo, k);
      if k !in cols {
        cols := cols[k := t2.cols[k]];
      } else if cols[k] != t2.cols[k] {
        return false, cols;
      }
      todo := todo - {k};
    }
    OverlaidAll(cols, t1.cols, t2.cols);
    ok := true;
  }

  /** The loop of `union_numpy_dict`: arrays that compare equal are overwritten all the same. */
  method UnionNumpyDict<C>(m1: map<Key, C>, m2: map<Key, C>, same: (C, C) -> bool) returns (ok: bool, cols: map<Key, C>)
    ensures ok <==> AgreeBy(m1, m2, same)
    ensures ok ==> cols == m1 + m2
    ensures PartlyOverlaid(cols, m1, m2)
  {
    cols := m1;
    OverlaidNone(m1, m2);
    var todo := m2.Keys;
    while todo != {}
      invariant Overlaid(cols, m1, m2, todo) && AgreeOutside(m1, m2, same, todo)
      decreases |todo|
    {
      var k :| k in todo;
      OverlayKey(cols, m1, m2, todo, k);
      if k in cols && !same(cols[k], m2[k]) {
        return false, cols;
      }
      cols := cols[k := m2[k]];
      todo := todo - {k};
    }
    OverlaidAll(cols, m1, m2);
    ok := true;
  }

  // ----- reorder

  /** The value `reorder` leaves behind: it indexes the batch without looking whether there is one. */
  function Reorder<V>(d: Data<V>, indices: seq<int>): Result<Data<V>> {
    if d.batch.None? then Err(TypeError)
    else
      var cols := IndexCols(d.batch.value.cols, indices);
      var nonTensor := IndexCols(d.nonTensor, indices);
      if cols.Err? || nonTensor.Err? then Err(IndexError)
      else Ok(Data(Some(TensorDict(|indices|, cols.value)), nonTensor.value))
  }

  /** The batch after the first assignment of `reorder`, which may be all that happens. */
  function BatchReordered<V>(batch: Option<TensorDict<V>>, indices: seq<int>): Option<TensorDict<V>> {
    if batch.None? then batch
    else
      var cols := IndexCols(batch.value.cols, indices);
      if cols.Ok? then Some(TensorDict(|indices|, cols.value)) else batch
  }

  lemma ReorderIsPick<V>(d: Data<V>, n: nat, indices: seq<int>)
    requires Aligned(d, n) && d.batch.Some?
    ensures HasColumn(d) && ValidIndices(indices, n) ==> Reorder(d, indices) == Ok(Pick(d, n, WrapAll(indices, n)))
    ensures HasColumn(d) && !ValidIndices(indices, n) ==> Reorder(d, indices) == Err(IndexError)
    ensures !HasColumn(d) ==> Reorder(d, indices) == Ok(Resized(d, |indices|))
  {
    IndexColsPicked(d.nonTensor, n, indices);
    IndexColsPicked(d.batch.value.cols, n, indices);
  }

  /** It succeeds when all indices are in range, and row `i` of the result is the row that index `i` names. */
  lemma ReorderRows<V>(d: Data<V>, n: nat, indices: seq<int>)
    requires Aligned(d, n) && HasColumn(d) && d.batch.Some?
    ensures Reorder(d, indices).Ok? <==> forall i :: 0 <= i < |indices| ==> 0 <= indices[i] + n && indices[i] < n
    ensures Reorder(d, indices).Ok? ==> RowsAt(Reorder(d, indices).value, d, n, indices)
  {
    ReorderIsPick(d, n, indices);
    if ValidIndices(indices, n) {
      PickedRows(d, n, WrapAll(indices, n));
    }
  }

  // ----- the object

  function PopCols<V>(cols: map<Key, seq<V>>, keys: seq<Key>): map<Key, seq<V>> {
    map k | k in cols && k in keys :: cols[k]
  }

  predicate Poppable<V>(cols: map<Key, seq<V>>, keys: seq<Key>) {
    (forall i :: 0 <= i < |keys| ==> keys[i] in cols) && forall i, j :: 0 <= i < j < |keys| ==> keys[i] != keys[j]
  }

  /** How many of the keys are popped before one fails: it is absent, or was popped already. */
  function PoppedCount<V>(cols: map<Key, seq<V>>, keys: seq<Key>): (n: nat)
    ensures n <= |keys| && Poppable(cols, keys[..n])
    ensures n == |keys| <==> Poppable(cols, keys)
  {
    if keys == [] then 0
    else
      var last := |keys| - 1;
      var n := PoppedCount(cols, keys[..last]);
      PoppableLast(cols, keys);
      assert keys[..last][..n] == keys[..n] && keys[..|keys|] == keys;
      if n < last then n else if keys[last] in cols && keys[last] !in keys[..last] then |keys| else last
  }

  lemma PoppableLast<V>(cols: map<Key, seq<V>>, keys: seq<Key>)
    requires keys != []
    ensures
      var last := |keys| - 1;
      Poppable(cols, keys) <==> Poppable(cols, keys[..last]) && keys[last] in cols && keys[last] !in keys[..last]
  {
    var last := |keys| - 1;
    assert forall j :: 0 <= j < last ==> keys[..last][j] == keys[j];
  }

  lemma {:induction false} PoppedCountPrefix<V>(cols: map<Key, seq<V>>, keys: seq<Key>, i: nat)
    requires i < |keys| && PoppedCount(cols, keys[..i]) == i
    ensures PoppedCount(cols, keys[..i + 1]) == i + 1 <==> keys[i] in cols && keys[i] !in keys[..i]
    ensures !(keys[i] in cols && keys[i] !in keys[..i]) ==> PoppedCount(cols, keys) == i
    decreases |keys|
  {
    assert keys[..i + 1][..i] == keys[..i];
    if i + 1 == |keys| {
      assert keys[..i + 1] == keys;
    } else {
      var front := keys[..|keys| - 1];
      assert front[..i] == keys[..i] && front[i] == keys[i] && front[..i + 1] == keys[..i + 1];
      PoppedCountPrefix(cols, front, i);
    }
  }

  lemma PopColsNext<V>(cols: map<Key, seq<V>>, keys: seq<Key>, i: nat)
    requires i < |keys|
    ensures keys[i] in cols ==> PopCols(cols, keys[..i + 1]) == PopCols(cols, keys[..i])[keys[i] := cols[keys[i]]]
    ensures keys[i] in cols - PopCols(cols, keys[..i]).Keys <==> keys[i] in cols && keys[i] !in keys[..i]
  {
    assert keys[..i + 1] == keys[..i] + [keys[i]];
  }

  /** The loop of `pop` over one dictionary: it stops at the first key that is absent or was popped already. */
  method PopKeys<V>(cols: map<Key, seq<V>>, keys: seq<Key>)
      returns (ok: bool, popped: map<Key, seq<V>>, rest: map<Key, seq<V>>)
    ensures ok <==> Poppable(cols, keys)
    ensures popped == PopCols(cols, keys[..PoppedCount(cols, keys)]) && rest == cols - popped.Keys
    ensures ok ==> popped == PopCols(cols, keys)
  {
    popped, rest, ok := map[], cols, true;
    assert keys[..0] == [];
    for i := 0 to |keys|
      invariant PoppedCount(cols, keys[..i]) == i
      invariant popped == PopCols(cols, keys[..i]) && rest == cols - popped.Keys
    {
      PoppedCountPrefix(cols, keys, i);
      PopColsNext(cols, keys, i);
      if keys[i] !in rest {
        ok := false;
        return;
      }
      popped, rest := popped[keys[i] := cols[keys[i]]], rest - {keys[i]};
    }
    assert keys[..|keys|] == keys;
  }

  /** A union that failed half-way: own tensors are all kept, and columns of the other may have been laid over. */
  ghost predicate PartUnited<V>(before: Data<V>, other: Data<V>, after: Data<V>)
    requires before.batch.Some? && other.batch.Some?
  {
    && after.batch.Some? && after.batch.value.size == before.batch.value.size
    && PartlyOverlaid(after.batch.value.cols, before.batch.value.cols, other.batch.value.cols)
    && (forall k :: k in before.batch.value.cols ==> after.batch.value.cols[k] == before.batch.value.cols[k])
    && PartlyOverlaid(after.nonTensor, before.nonTensor, other.nonTensor)
  }

  class DataProto<V(==)> {
    var batch: Option<TensorDict<V>>
    var nonTensor: map<Key, seq<V>>

    function Value(): Data<V>
      reads this
    {
      Data(batch, nonTensor)
    }

    constructor (d: Data<V>)
      ensures Value() == d
    {
      batch, nonTensor := d.batch, d.nonTensor;
    }

    /** `union`: merges the other object's columns into this one. */
    method UnionWith(other: DataProto<V>, same: (seq<V>, seq<V>) -> bool) returns (r: Result<DataProto<V>>)
      modifies this
      ensures old(Union(Value(), other.Value(), same)).Ok? ==>
        r == Ok(this) && Value() == old(Union(Value(), other.Value(), same)).value
      ensures old(Union(Value(), other.Value(), same)).Err? ==> r == Err(old(Union(Value(), other.Value(), same)).error)
      ensures r == Err(AttributeError) ==> Value() == old(Value())
      ensures r == Err(AssertionError) ==> PartUnited(old(Value()), old(other.Value()), Value())
    {
      if batch.None? || other.batch.None? {
        return Err(AttributeError);
      }
      ghost var before, second := Value(), other.Value();
      var ok, cols := UnionTensorDict(batch.value, other.batch.value);
      batch := Some(TensorDict(batch.value.size, cols));
      if !ok {
        OverlaidNone(before.nonTensor, second.nonTensor);
        return Err(AssertionError);
      }
      var united, arrays := UnionNumpyDict(nonTensor, other.nonTensor, same);
      nonTensor := arrays;
      if !united {
        return Err(AssertionError);
      }
      r := Ok(this);
    }

    /** `reorder`, in place; when an array cannot be indexed, the batch has been reordered already. */
    method ReorderBy(indices: seq<int>) returns (r: Result<()>)
      modifies this
      ensures r.Ok? ==> forall n :: Aligned(old(Value()), n) && HasColumn(old(Value())) ==>
        RowsAt(Value(), old(Value()), n, indices)
      ensures old(Reorder(Value(), indices)).Ok? ==> r.Ok? && Value() == old(Reorder(Value(), indices)).value
      ensures old(Reorder(Value(), indices)).Err? ==> r == Err(old(Reorder(Value(), indices)).error)
      ensures r.Err? ==> nonTensor == old(nonTensor)
      ensures r.Err? ==> batch == BatchReordered(old(batch), indices)
    {
      if batch.None? {
        return Err(TypeError);
      }
      var cols := IndexCols(batch.value.cols, indices);
      if cols.Err? {
        return Err(IndexError);
      }
      batch := Some(TensorDict(|indices|, cols.value));
      var arrays := IndexCols(nonTensor, indices);
      if arrays.Err? {
        return Err(IndexError);
      }
      nonTensor := arrays.value;
      r := Ok(());
      forall n | Aligned(old(Value()), n) && HasColumn(old(Value())) ensures RowsAt(Value(), old(Value()), n, indices) {
        ReorderRows(old(Value()), n, indices);
      }
    }

    /** `padding`: append copies of the first row, or for any other candidate of the last. */
    method Padding(size: nat, candidate: string, ghost n: nat) returns (r: Result<()>)
      requires Aligned(Value(), n)
      modifies this
      ensures r.Ok? <==> size == 0 || n > 0 || !HasColumn(old(Value()))
      ensures r.Ok? && n > 0 && HasColumn(old(Value())) ==>
        Value() == Pick(old(Value()), n, PaddedRows(n, size, if candidate == "first" then 0 else n - 1))
      ensures !HasColumn(old(Value())) ==> Value() == Resized(old(Value()), n + size)
      ensures r.Err? || (n == 0 && HasColumn(old(Value()))) ==> Value() == old(Value())
    {
      ghost var before := Value();
      if size == 0 {
        if n > 0 {
          PickAll(before, n);
          assert PaddedRows(n, 0, if candidate == "first" then 0 else n - 1) == Range(0, n);
        }
        return Ok(());
      }
      var len := Length(Value(), n);
      var at: int := if candidate == "first" then 0 else len as int - 1;
      PaddingSelect(before, n, at);
      var row := SelectIdxs(Value(), [at]);
      if row.Err? {
        return Err(row.error);
      }
      if HasColumn(before) {
        PaddingConcat(before, n, at, size, row.value);
      } else {
        PaddingWithoutColumns(before, n, size);
      }
      var part := Repeat(row.value, size, true).value;
      var padded := Concat([Value(), part]).value;
      batch, nonTensor := padded.batch, padded.nonTensor;
      r := Ok(());
    }

    /**
     * `pop`: moves columns out into a new object, which has a tensor batch only if a tensor column was popped. The
     * columns taken out before a key fails are gone.
     */
    method Pop(batchKeys: seq<Key>, arrayKeys: seq<Key>) returns (r: Result<DataProto<V>>)
      requires Consistent(Value())
      modifies this
      ensures r.Ok? <==> CanPop(old(Value()), batchKeys, arrayKeys)
      ensures r.Ok? ==> fresh(r.value)
      ensures r.Ok? ==> Popped(old(Value()), batchKeys, arrayKeys, r.value.Value(), Value())
      ensures Value() == AfterPop(old(Value()), batchKeys, arrayKeys)
    {
      var tensors: map<Key, seq<V>> := map[];
      if batchKeys != [] {
        if batch.None? {
          return Err(AttributeError);
        }
        var ok, popped, rest := PopKeys(batch.value.cols, batchKeys);
        batch := Some(TensorDict(batch.value.size, rest));
        if !ok {
          return Err(AssertionError);
        }
        assert batchKeys[0] in popped;
        tensors := popped;
      }
      var ok, arrays, rest := PopKeys(nonTensor, arrayKeys);
      nonTensor := rest;
      if !ok {
        return Err(AssertionError);
      }
      if tensors.Keys != {} {
        var k :| k in tensors.Keys;
        r := MakeProto(Some(TensorDict(|tensors[k]|, tensors)), arrays);
      } else {
        r := MakeProto(None, arrays);
      }
    }

    static method MakeProto(batch: Option<TensorDict<V>>, nonTensor: map<Key, seq<V>>) returns (r: Result<DataProto<V>>)
      ensures r.Ok? <==> Build(batch, nonTensor).Ok?
      ensures r.Ok? ==> fresh(r.value) && r.value.Value() == Data(batch, nonTensor)
    {
      var value := Build(batch, nonTensor);
      if value.Err? {
        return Err(value.error);
      }
      var p := new DataProto(value.value);
      r := Ok(p);
    }
  }

  function PaddedRows(n: nat, size: nat, at: nat): (idx: seq<nat>)
    requires at < n
    ensures InRange(idx, n)
  {
    Range(0, n) + Copies(at, size)
  }

  predicate CanPop<V>(d: Data<V>, batchKeys: seq<Key>, arrayKeys: seq<Key>) {
    && (batchKeys == [] || (d.batch.Some? && Poppable(d.batch.value.cols, batchKeys)))
    && Poppable(d.nonTensor, arrayKeys)
  }

  /** What is left of a dictionary after popping keys up to the first that fails. */
  function RestCols<V>(cols: map<Key, seq<V>>, keys: seq<Key>): map<Key, seq<V>> {
    cols - PopCols(cols, keys[..PoppedCount(cols, keys)]).Keys
  }

  /** What `pop` leaves of `d`, also when it fails. */
  function AfterPop<V>(d: Data<V>, batchKeys: seq<Key>, arrayKeys: seq<Key>): Data<V> {
    if batchKeys == [] then Data(d.batch, RestCols(d.nonTensor, arrayKeys))
    else if d.batch.None? then d
    else
      var batch := Some(TensorDict(d.batch.value.size, RestCols(d.batch.value.cols, batchKeys)));
      Data(batch, if Poppable(d.batch.value.cols, batchKeys) then RestCols(d.nonTensor, arrayKeys) else d.nonTensor)
  }

  /** What `pop` did to `d`: the columns named are in `popped`, the others stayed, each unchanged. */
  ghost predicate Popped<V>(d: Data<V>, batchKeys: seq<Key>, arrayKeys: seq<Key>, popped: Data<V>, rest: Data<V>) {
    && popped.nonTensor == PopCols(d.nonTensor, arrayKeys)
    && rest.nonTensor == d.nonTensor - popped.nonTensor.Keys
    && (batchKeys == [] ==> popped.batch == None && rest.batch == d.batch)
    && (batchKeys != [] ==> d.batch.Some? && PoppedBatch(d.batch.value, batchKeys, popped.batch, rest.batch))
  }

  ghost predicate PoppedBatch<V>(td: TensorDict<V>, keys: seq<Key>, popped: Option<TensorDict<V>>, rest: Option<TensorDict<V>>) {
    && popped == Some(TensorDict(td.size, PopCols(td.cols, keys)))
    && rest == Some(TensorDict(td.size, td.cols - PopCols(td.cols, keys).Keys))
  }

  lemma RejoinCols<V>(cols: map<Key, seq<V>>, keys: seq<Key>)
    ensures (cols - PopCols(cols, keys).Keys).Keys !! PopCols(cols, keys).Keys
    ensures (cols - PopCols(cols, keys).Keys) + PopCols(cols, keys) == cols
    ensures PopCols(cols, keys) + (cols - PopCols(cols, keys).Keys) == cols
  {
  }

  /** `union` puts back what `pop` took out exactly when some tensor column was popped. */
  lemma UnionUndoesPop<V>(d: Data<V>, batchKeys: seq<Key>, arrayKeys: seq<Key>, popped: Data<V>, rest: Data<V>,
                          same: (seq<V>, seq<V>) -> bool)
    requires Consistent(d) && Popped(d, batchKeys, arrayKeys, popped, rest)
    ensures Union(rest, popped, same) == Ok(d) <==> batchKeys != []
    ensures batchKeys == [] ==> Union(rest, popped, same) == Err(AttributeError)
  {
    RejoinCols(d.nonTensor, arrayKeys);
    if batchKeys != [] {
      RejoinCols(d.batch.value.cols, batchKeys);
    }
  }

  lemma PaddingSelect<V>(d: Data<V>, n: nat, at: int)
    requires Aligned(d, n) && -1 <= at && (n > 0 ==> 0 <= at < n)
    ensures n > 0 && HasColumn(d) ==> InRange([at], n) && SelectIdxs(d, [at]) == Ok(Pick(d, n, [at]))
    ensures n == 0 && HasColumn(d) ==> SelectIdxs(d, [at]).Err?
    ensures !HasColumn(d) ==> SelectIdxs(d, [at]) == Ok(Resized(d, 1))
  {
    SelectIsPick(d, n, [at]);
    assert [at][0] == at;
    if n > 0 {
      assert WrapAll([at], n) == [at];
    }
  }

  lemma PaddingWithoutColumns<V>(d: Data<V>, n: nat, size: nat)
    requires Aligned(d, n) && !HasColumn(d)
    ensures Repeat(Resized(d, 1), size, true) == Ok(Resized(d, size))
    ensures Concat([d, Resized(d, size)]) == Ok(Resized(d, n + size))
  {
    var ds := [d, Resized(d, size)];
    assert NoStrayKeys(ds);
    if d.batch.Some? {
      assert BatchSizes(ds) == [n, size];
      assert [n, size][1..] == [size] && [size][1..] == [];
      assert Sum([size]) == size;
    }
  }

  lemma RepeatOneRow(size: nat)
    ensures RepeatRows(1, size, true) == Copies(0, size)
  {
    assert Copies(size, 1)[..0] == [];
    assert RepeatIndex([]) == [];
  }

  lemma RepeatPickedRow<V>(d: Data<V>, n: nat, at: nat, size: nat, row: Data<V>)
    requires Aligned(d, n) && at < n && InRange([at], n) && row == Pick(d, n, [at])
    ensures InRange(Copies(at, size), n) && Repeat(row, size, true) == Ok(Pick(d, n, Copies(at, size)))
  {
    var idx := RepeatRows(1, size, true);
    RepeatIsPick(row, 1, size, true);
    RepeatOneRow(size);
    PickTwice(d, n, [at], idx);
    assert Gather([at], idx) == Copies(at, size);
  }

  lemma FlattenTwo<T>(a: seq<T>, b: seq<T>)
    ensures Flatten([a, b]) == a + b
  {
    FlattenAppend([a], b);
    FlattenAppend([], a);
    assert [a] + [b] == [a, b] && [] + [a] == [a];
  }

  lemma ConcatTwo<V>(d: Data<V>, n: nat, idx: seq<nat>)
    requires Aligned(d, n) && InRange(idx, n)
    ensures InRange(Range(0, n) + idx, n) && Concat([d, Pick(d, n, idx)]) == Ok(Pick(d, n, Range(0, n) + idx))
  {
    PickAll(d, n);
    ConcatPicks(d, n, [Range(0, n), idx]);
    assert PickEach(d, n, [Range(0, n), idx]) == [d, Pick(d, n, idx)];
    FlattenTwo(Range(0, n), idx);
  }

  lemma PaddingConcat<V>(d: Data<V>, n: nat, at: nat, size: nat, row: Data<V>)
    requires Aligned(d, n) && at < n && InRange([at], n) && row == Pick(d, n, [at])
    ensures Repeat(row, size, true).Ok?
    ensures Concat([d, Repeat(row, size, true).value]) == Ok(Pick(d, n, PaddedRows(n, size, at)))
  {
    RepeatPickedRow(d, n, at, size, row);
    ConcatTwo(d, n, Copies(at, size));
  }
}

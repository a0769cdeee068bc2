/**
 * `DataProto.union` as a value: tensors of a common key must be equal, arrays of a common key must compare equal
 * and are overwritten by the second. `same` is the comparison of arrays.
 */
module Unions {
  import opened Wrappers
  import opened Rows
  import opened DataProtos
  import opened Transfer

  predicate AgreeBy<C>(a: map<Key, C>, b: map<Key, C>, same: (C, C) -> bool) {
    forall k :: k in a && k in b ==> same(a[k], b[k])
  }

  function Equal<C(==)>(x: C, y: C): bool {
    x == y
  }

  predicate Agree<C(==)>(a: map<Key, C>, b: map<Key, C>) {
    AgreeBy(a, b, Equal)
  }

  /** Accepted arrays are equal. */
  ghost predicate Sound<C(!new)>(same: (C, C) -> bool) {
    forall x, y :: same(x, y) ==> x == y
  }

  /** The value `union` leaves behind. */
  function Union<V(==)>(a: Data<V>, b: Data<V>, same: (seq<V>, seq<V>) -> bool): Result<Data<V>> {
    if a.batch.None? || b.batch.None? then Err(AttributeError)
    else if a.batch.value.size != b.batch.value.size || !Agree(a.batch.value.cols, b.batch.value.cols)
      || !AgreeBy(a.nonTensor, b.nonTensor, same) then Err(AssertionError)
    else Ok(Data(Some(TensorDict(a.batch.value.size, a.batch.value.cols + b.batch.value.cols)),
                 a.nonTensor + b.nonTensor))
  }

  /** A successful union keeps every column of both sides exactly when the accepted arrays are equal. */
  lemma UnionKeepsIff<V>(a: Data<V>, b: Data<V>, same: (seq<V>, seq<V>) -> bool)
    requires Union(a, b, same).Ok?
    ensures
      var u := Union(a, b, same).value;
      && (forall k :: k in a.batch.value.cols ==> k in u.batch.value.cols && u.batch.value.cols[k] == a.batch.value.cols[k])
      && (forall k :: k in b.batch.value.cols ==> k in u.batch.value.cols && u.batch.value.cols[k] == b.batch.value.cols[k])
      && (forall k :: k in b.nonTensor ==> k in u.nonTensor && u.nonTensor[k] == b.nonTensor[k])
      && ((forall k :: k in a.nonTensor ==> u.nonTensor[k] == a.nonTensor[k]) <==> Agree(a.nonTensor, b.nonTensor))
  {
  }

  lemma SoundAgrees<C(!new)>(a: map<Key, C>, b: map<Key, C>, same: (C, C) -> bool)
    requires Sound(same) && AgreeBy(a, b, same)
    ensures Agree(a, b)
  {
  }

  // ----- the same rows of both sides

  lemma PickColsUnion<V>(a: map<Key, seq<V>>, b: map<Key, seq<V>>, n: nat, idx: seq<nat>)
    requires Long(a, n) && Long(b, n) && InRange(idx, n) && Agree(a, b)
    ensures Agree(PickCols(a, n, idx), PickCols(b, n, idx))
    ensures PickCols(a, n, idx) + PickCols(b, n, idx) == PickCols(a + b, n, idx)
  {
  }

  /** Union commutes with picking rows: the same rows of both sides stay rows of one union. */
  lemma UnionOfPicks<V>(a: Data<V>, b: Data<V>, n: nat, idx: seq<nat>)
    requires Aligned(a, n) && Aligned(b, n) && InRange(idx, n) && Union(a, b, Equal).Ok?
    ensures Aligned(Union(a, b, Equal).value, n)
    ensures Union(Pick(a, n, idx), Pick(b, n, idx), Equal) == Ok(Pick(Union(a, b, Equal).value, n, idx))
  {
    PickColsUnion(a.nonTensor, b.nonTensor, n, idx);
    PickColsUnion(a.batch.value.cols, b.batch.value.cols, n, idx);
  }

  // ----- different rows of the two sides

  ghost predicate SameRow<V>(d: Data<V>, n: nat, p: nat, q: nat)
    requires Aligned(d, n) && p < n && q < n
  {
    RowAt(d, n, p) == RowAt(d, n, q)
  }

  lemma SameCell<V>(cols: map<Key, seq<V>>, n: nat, p: nat, q: nat, k: Key)
    requires Long(cols, n) && p < n && q < n && k in cols && CellsAt(cols, n, p) == CellsAt(cols, n, q)
    ensures cols[k][p] == cols[k][q]
  {
    assert CellsAt(cols, n, p)[k] == cols[k][p] && CellsAt(cols, n, q)[k] == cols[k][q];
  }

  /** Two index lists with the same rows, position by position, pick the same. */
  ghost predicate SameRows<V>(d: Data<V>, n: nat, i: seq<nat>, l: seq<nat>)
    requires Aligned(d, n) && InRange(i, n) && InRange(l, n)
  {
    |i| == |l| && forall r :: 0 <= r < |i| ==> SameRow(d, n, l[r], i[r])
  }

  lemma SameColsPicked<V>(cols: map<Key, seq<V>>, n: nat, i: seq<nat>, l: seq<nat>)
    requires Long(cols, n) && InRange(i, n) && InRange(l, n) && |i| == |l|
    ensures PickCols(cols, n, i) == PickCols(cols, n, l)
       <==> forall r :: 0 <= r < |i| ==> CellsAt(cols, n, l[r]) == CellsAt(cols, n, i[r])
  {
    if forall r :: 0 <= r < |i| ==> CellsAt(cols, n, l[r]) == CellsAt(cols, n, i[r]) {
      forall k | k in cols ensures Gather(cols[k], i) == Gather(cols[k], l) {
        forall r | 0 <= r < |i| ensures cols[k][i[r]] == cols[k][l[r]] {
          SameCell(cols, n, l[r], i[r], k);
        }
      }
    }
    if PickCols(cols, n, i) == PickCols(cols, n, l) {
      forall r | 0 <= r < |i| ensures CellsAt(cols, n, l[r]) == CellsAt(cols, n, i[r]) {
        forall k | k in cols ensures cols[k][l[r]] == cols[k][i[r]] {
          assert PickCols(cols, n, i)[k][r] == PickCols(cols, n, l)[k][r];
        }
      }
    }
  }

  lemma SameRowsPicked<V>(d: Data<V>, n: nat, i: seq<nat>, l: seq<nat>)
    requires Aligned(d, n) && InRange(i, n) && InRange(l, n) && |i| == |l|
    ensures Pick(d, n, i) == Pick(d, n, l) <==> SameRows(d, n, i, l)
  {
    SameColsPicked(d.nonTensor, n, i, l);
    if d.batch.Some? {
      SameColsPicked(d.batch.value.cols, n, i, l);
    }
  }

  /** The rows `i` of `a` and `j` of `b`, side by side, are rows of one and the same index list `l`. */
  ghost predicate OneList<V>(a: Data<V>, b: Data<V>, n: nat, i: seq<nat>, j: seq<nat>, l: seq<nat>)
    requires Aligned(a, n) && Aligned(b, n) && InRange(i, n) && InRange(j, n) && InRange(l, n)
  {
    SameRows(a, n, i, l) && SameRows(b, n, j, l)
  }

  /** A position where some row of both sides pairs what the two lists pair. */
  ghost predicate Pairs<V>(a: Data<V>, b: Data<V>, n: nat, p: nat, q: nat)
    requires Aligned(a, n) && Aligned(b, n) && p < n && q < n
  {
    exists r: nat :: r < n && SameRow(a, n, r, p) && SameRow(b, n, r, q)
  }

  lemma UnionByList<V>(a: Data<V>, b: Data<V>, n: nat, i: seq<nat>, j: seq<nat>, l: seq<nat>)
    requires Aligned(a, n) && Aligned(b, n) && InRange(i, n) && InRange(j, n) && InRange(l, n)
    requires Union(a, b, Equal).Ok? && Union(Pick(a, n, i), Pick(b, n, j), Equal).Ok?
    ensures Aligned(Union(a, b, Equal).value, n)
    ensures Union(Pick(a, n, i), Pick(b, n, j), Equal).value == Pick(Union(a, b, Equal).value, n, l)
       <==> OneList(a, b, n, i, j, l)
  {
    var u := Union(Pick(a, n, i), Pick(b, n, j), Equal).value;
    UnionOfPicks(a, b, n, l);
    var v := Pick(Union(a, b, Equal).value, n, l);
    if |i| == |l| {
      SameRowsPicked(a, n, i, l);
      SameRowsPicked(b, n, j, l);
      if u == v {
        UnionParts(Pick(a, n, i), Pick(b, n, j), Pick(a, n, l), Pick(b, n, l));
      }
    }
  }

  /** A union determines the two sides, given their keys. */
  lemma UnionParts<V>(a: Data<V>, b: Data<V>, c: Data<V>, d: Data<V>)
    requires Union(a, b, Equal).Ok? && Union(a, b, Equal) == Union(c, d, Equal)
    requires a.batch.value.cols.Keys == c.batch.value.cols.Keys && b.batch.value.cols.Keys == d.batch.value.cols.Keys
    requires a.nonTensor.Keys == c.nonTensor.Keys && b.nonTensor.Keys == d.nonTensor.Keys
    ensures a == c && b == d
  {
    UnionKeepsIff(a, b, Equal);
    UnionKeepsIff(c, d, Equal);
    assert a.batch.value.cols == c.batch.value.cols && b.batch.value.cols == d.batch.value.cols;
    assert a.nonTensor == c.nonTensor && b.nonTensor == d.nonTensor;
  }

  /** `part` is made of whole rows of `whole`. */
  ghost predicate RowsOf<V>(part: Data<V>, whole: Data<V>, n: nat)
    requires Aligned(whole, n)
  {
    exists l: seq<nat> :: InRange(l, n) && part == Pick(whole, n, l)
  }

  /**
   * The union of picks by two index lists picks rows of the union exactly when every pair of rows the lists put side
   * by side also stands side by side in some row of the two wholes.
   */
  lemma UnionOfPicksIff<V>(a: Data<V>, b: Data<V>, n: nat, i: seq<nat>, j: seq<nat>)
    requires Aligned(a, n) && Aligned(b, n) && InRange(i, n) && InRange(j, n)
    requires Union(a, b, Equal).Ok? && Union(Pick(a, n, i), Pick(b, n, j), Equal).Ok?
    ensures |i| == |j| && Aligned(Union(a, b, Equal).value, n)
    ensures RowsOf(Union(Pick(a, n, i), Pick(b, n, j), Equal).value, Union(a, b, Equal).value, n)
       <==> forall r :: 0 <= r < |i| ==> Pairs(a, b, n, i[r], j[r])
  {
    UnionByList(a, b, n, i, j, i);
    if forall r :: 0 <= r < |i| ==> Pairs(a, b, n, i[r], j[r]) {
      var l := Paired(a, b, n, i, j);
      UnionByList(a, b, n, i, j, l);
    }
    var part, whole := Union(Pick(a, n, i), Pick(b, n, j), Equal).value, Union(a, b, Equal).value;
    if RowsOf(part, whole, n) {
      var l: seq<nat> :| InRange(l, n) && part == Pick(whole, n, l);
      UnionByList(a, b, n, i, j, l);
      forall r | 0 <= r < |i| ensures Pairs(a, b, n, i[r], j[r]) {
        assert SameRow(a, n, l[r], i[r]) && SameRow(b, n, l[r], j[r]);
      }
    }
  }

  lemma {:induction false} Paired<V>(a: Data<V>, b: Data<V>, n: nat, i: seq<nat>, j: seq<nat>) returns (l: seq<nat>)
    requires Aligned(a, n) && Aligned(b, n) && InRange(i, n) && InRange(j, n) && |i| == |j|
    requires forall r :: 0 <= r < |i| ==> Pairs(a, b, n, i[r], j[r])
    ensures InRange(l, n) && OneList(a, b, n, i, j, l)
  {
    if i == [] {
      l := [];
    } else {
      var rest := Paired(a, b, n, i[1..], j[1..]);
      assert Pairs(a, b, n, i[0], j[0]);
      var r: nat :| r < n && SameRow(a, n, r, i[0]) && SameRow(b, n, r, j[0]);
      l := [r] + rest;
    }
  }

  /** When the rows of `a` are all different, that is so exactly when both lists pick the same rows of `b`. */
  lemma UnionOfDistinctPicks<V>(a: Data<V>, b: Data<V>, n: nat, i: seq<nat>, j: seq<nat>)
    requires Aligned(a, n) && Aligned(b, n) && InRange(i, n) && InRange(j, n)
    requires Union(a, b, Equal).Ok? && Union(Pick(a, n, i), Pick(b, n, j), Equal).Ok?
    requires forall p: nat, q: nat :: p < n && q < n && SameRow(a, n, p, q) ==> p == q
    ensures |i| == |j|
    ensures (forall r :: 0 <= r < |i| ==> Pairs(a, b, n, i[r], j[r])) <==> Pick(b, n, i) == Pick(b, n, j)
  {
    SameRowsPicked(b, n, j, i);
    if Pick(b, n, i) == Pick(b, n, j) {
      forall r | 0 <= r < |i| ensures Pairs(a, b, n, i[r], j[r]) {
        assert SameRow(a, n, i[r], i[r]) && SameRow(b, n, i[r], j[r]);
      }
    }
    if forall r :: 0 <= r < |i| ==> Pairs(a, b, n, i[r], j[r]) {
      forall r | 0 <= r < |i| ensures SameRow(b, n, i[r], j[r]) {
        assert Pairs(a, b, n, i[r], j[r]);
      }
    }
  }

  /** `reorder` of one side only: the union succeeds and pairs the first row of `a` with the second of `b`. */
  lemma UnionMixesRows<V>(ka: Key, kb: Key, x: V, y: V, u: V, v: V)
    requires ka != kb && x != y && u != v
    ensures
      var a, b := Data(Some(TensorDict(2, map[ka := [x, y]])), map[]), Data(Some(TensorDict(2, map[kb := [u, v]])), map[]);
      && Aligned(a, 2) && Aligned(b, 2) && InRange([0, 1], 2) && InRange([1, 0], 2)
      && Union(a, b, Equal).Ok? && Aligned(Union(a, b, Equal).value, 2)
      && Union(Pick(a, 2, [0, 1]), Pick(b, 2, [1, 0]), Equal).Ok?
      && !RowsOf(Union(Pick(a, 2, [0, 1]), Pick(b, 2, [1, 0]), Equal).value, Union(a, b, Equal).value, 2)
  {
    var a, b := Data(Some(TensorDict(2, map[ka := [x, y]])), map[]), Data(Some(TensorDict(2, map[kb := [u, v]])), map[]);
    UnionOfPicksIff(a, b, 2, [0, 1], [1, 0]);
    assert !Pairs(a, b, 2, [0, 1][0], [1, 0][0]) by {
      forall r: nat | r < 2 ensures !SameRow(a, 2, r, 0) || !SameRow(b, 2, r, 1) {
        if SameRow(a, 2, r, 0) && SameRow(b, 2, r, 1) {
          SameCell(a.batch.value.cols, 2, r, 0, ka);
          SameCell(b.batch.value.cols, 2, r, 1, kb);
        }
      }
    }
  }
}

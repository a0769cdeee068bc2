/**
 * `unfold_column_chunks`: the second dimension of some columns is cut in pieces that become rows, the other
 * columns are repeated to match. Tensors and arrays are row-major, and an element stands for everything behind
 * the second dimension.
 */
module UnfoldColumns {
  import opened Wrappers
  import opened Arith
  import opened Seqs
  import opened Tensors
  import opened Rows
  import opened DataProtos

  /** A one-dimensional column, or one whose rows are `width` elements wide. */
  datatype Column<E> = Flat(xs: seq<E>) | Wide(width: nat, rows: seq<seq<E>>)

  predicate Proper<E>(c: Column<E>) {
    c.Wide? ==> forall i :: 0 <= i < |c.rows| ==> |c.rows[i]| == c.width
  }

  function Height<E>(c: Column<E>): nat {
    match c
    case Flat(xs) => |xs|
    case Wide(_, rows) => |rows|
  }

  predicate SameSize(rows: nat, width: nat, s: nat)
    requires s > 0
  {
    rows * width == (rows * s) * (width / s)
  }

  /** `reshape` to `s` times the rows of `width // s` elements; refused when that is another number of elements. */
  function SplitColumn<E>(c: Column<E>, s: nat): Result<Column<E>>
    requires s > 0 && Proper(c)
  {
    match c
    case Flat(_) => Err(IndexError)
    case Wide(width, rows) =>
      if SameSize(|rows|, width, s) then
        ReshapeFits(rows, width, s);
        Ok(Wide(width / s, Blocks(Flatten(rows), width / s, Times(|rows|, s))))
      else Err(RuntimeError)
  }

  lemma ReshapeFits<E>(rows: seq<seq<E>>, width: nat, s: nat)
    requires s > 0 && (forall i :: 0 <= i < |rows| ==> |rows[i]| == width) && SameSize(|rows|, width, s)
    ensures Times(Times(|rows|, s), width / s) == |Flatten(rows)|
  {
    FlattenLength(rows, width);
    TimesIsProduct(|rows|, width);
    TimesIsProduct(|rows|, s);
    TimesIsProduct(Times(|rows|, s), width / s);
  }

  /** `np.repeat` and `torch.repeat_interleave` of every row. */
  function RepeatColumn<E>(c: Column<E>, s: nat): Column<E> {
    match c
    case Flat(xs) => Flat(NpRepeat(xs, Copies(s, |xs|)))
    case Wide(width, rows) => Wide(width, NpRepeat(rows, Copies(s, |rows|)))
  }

  /** Splitting is accepted exactly when the pieces come out even, or there is no row. */
  lemma SplitOkIff<E>(c: Column<E>, s: nat)
    requires s > 0 && Proper(c)
    ensures SplitColumn(c, s).Ok? <==> c.Wide? && (|c.rows| == 0 || c.width % s == 0)
  {
    if c.Wide? {
      EvenIff(|c.rows|, c.width, s);
    }
  }

  lemma EvenIff(rows: nat, width: nat, s: nat)
    requires s > 0
    ensures SameSize(rows, width, s) <==> rows == 0 || width % s == 0
  {
    var q, r := width / s, width % s;
    DivModBack(width, s);
    assert (rows * s) * q == rows * (s * q);
    assert rows * (s * q + r) == rows * (s * q) + rows * r;
    if rows > 0 && r > 0 {
      MulMono(rows, 1, r);
    }
  }

  /** The `j`-th of the `s` pieces of a row. */
  function Piece<E>(row: seq<E>, s: nat, j: nat): seq<E>
    requires s > 0 && j < s && |row| == Times(s, |row| / s)
  {
    PieceInRow(j, s, |row| / s);
    row[Times(j, |row| / s)..Times(j + 1, |row| / s)]
  }

  /** A view of the whole buffer as short rows is the short rows of each row in turn. */
  lemma {:induction false} BlocksOfRows<E>(rows: seq<seq<E>>, c: nat, s: nat)
    requires forall i :: 0 <= i < |rows| ==> |rows[i]| == Times(s, c)
    ensures |Flatten(rows)| == Times(Times(|rows|, s), c)
    ensures Blocks(Flatten(rows), c, Times(|rows|, s))
         == Flatten(seq(|rows|, i requires 0 <= i < |rows| => Blocks(rows[i], c, s)))
  {
    var views := seq(|rows|, i requires 0 <= i < |rows| => Blocks(rows[i], c, s));
    if rows != [] {
      BlocksOfRows(rows[1..], c, s);
      BlocksAppend(rows[0], Flatten(rows[1..]), c, s, Times(|rows| - 1, s));
      TimesAdd(s, Times(|rows| - 1, s), c);
      assert views[1..] == seq(|rows[1..]|, i requires 0 <= i < |rows[1..]| => Blocks(rows[1..][i], c, s));
    }
  }

  lemma ShortRow<E>(rows: seq<seq<E>>, c: nat, s: nat, q: nat, i: nat)
    requires (forall j :: 0 <= j < |rows| ==> |rows[j]| == Times(s, c)) && q < |rows| && i < s
    ensures |Flatten(rows)| == Times(Times(|rows|, s), c) && Times(q, s) + i < Times(|rows|, s)
    ensures Blocks(Flatten(rows), c, Times(|rows|, s))[Times(q, s) + i] == Blocks(rows[q], c, s)[i]
  {
    var views := seq(|rows|, j requires 0 <= j < |rows| => Blocks(rows[j], c, s));
    BlocksOfRows(rows, c, s);
    RowInBlock(views, s, q, i);
  }

  lemma EvenWidth<E>(c: Column<E>, s: nat)
    requires s > 0 && Proper(c) && SplitColumn(c, s).Ok? && |c.rows| > 0
    ensures c.width == Times(s, c.width / s)
  {
    SplitOkIff(c, s);
    DivModBack(c.width, s);
    TimesIsProduct(s, c.width / s);
  }

  lemma SplitRowAt<E>(c: Column<E>, s: nat, w: nat, q: nat, i: nat)
    requires Proper(c) && c.Wide? && c.width == Times(s, w) && q < |c.rows| && i < s
    ensures |Flatten(c.rows)| == Times(Times(|c.rows|, s), w) && Times(q, s) + i < Times(|c.rows|, s)
    ensures Times(i, w) <= Times(i + 1, w) <= c.width
    ensures Blocks(Flatten(c.rows), w, Times(|c.rows|, s))[Times(q, s) + i] == c.rows[q][Times(i, w)..Times(i + 1, w)]
  {
    ShortRow(c.rows, w, s, q, i);
    BlockAt(c.rows[q], w, s, i);
  }

  /** Row `r` of a split column is piece `r % s` of source row `r / s`. */
  lemma SplitRow<E>(c: Column<E>, s: nat, r: nat)
    requires s > 0 && Proper(c) && SplitColumn(c, s).Ok? && r < Times(Height(c), s)
    ensures Height(SplitColumn(c, s).value) == Times(Height(c), s)
    ensures r / s < |c.rows| && |c.rows[r / s]| == Times(s, |c.rows[r / s]| / s)
    ensures SplitColumn(c, s).value.rows[r] == Piece(c.rows[r / s], s, r % s)
  {
    RowPosition(r, |c.rows|, s);
    EvenWidth(c, s);
    SplitRowAt(c, s, c.width / s, r / s, r % s);
  }

  /** Row `r` of a repeated column is source row `r / s`. */
  lemma RepeatRow<E>(c: Column<E>, s: nat, r: nat)
    requires s > 0 && r < Times(Height(c), s)
    ensures Height(RepeatColumn(c, s)) == Times(Height(c), s) && r / s < Height(c)
    ensures c.Wide? ==> RepeatColumn(c, s).rows[r] == c.rows[r / s]
    ensures c.Flat? ==> RepeatColumn(c, s).xs[r] == c.xs[r / s]
  {
    match c
    case Flat(xs) => RepeatedRow(xs, s, r);
    case Wide(_, rows) => RepeatedRow(rows, s, r);
  }

  // ----- all columns

  datatype Unfoldable<E> = Unfoldable(batch: Option<map<Key, Column<E>>>, size: nat, nonTensor: map<Key, Column<E>>)

  predicate Tall<E>(cols: map<Key, Column<E>>, n: nat) {
    forall k :: k in cols ==> Proper(cols[k]) && Height(cols[k]) == n
  }

  /** Every split key among the columns can be split. */
  predicate CanSplit<E>(cols: map<Key, Column<E>>, keys: set<Key>, s: nat)
    requires s > 0 && forall k :: k in cols ==> Proper(cols[k])
  {
    forall k :: k in cols && k in keys ==> SplitColumn(cols[k], s).Ok?
  }

  function UnfoldCols<E>(cols: map<Key, Column<E>>, keys: set<Key>, s: nat): map<Key, Column<E>>
    requires s > 0 && (forall k :: k in cols ==> Proper(cols[k])) && CanSplit(cols, keys, s)
  {
    map k | k in cols :: if k in keys then SplitColumn(cols[k], s).value else RepeatColumn(cols[k], s)
  }

  /**
   * `unfold_column_chunks`. Without `split_keys` the tensor columns are all repeated, but any numpy column makes
   * the membership test fail. An error is `TypeError` for that, else whatever a column raised.
   */
  function Unfold<E>(d: Unfoldable<E>, s: nat, splitKeys: Option<set<Key>>): Result<Unfoldable<E>>
    requires s > 0 && Tall(d.nonTensor, d.size) && (d.batch.Some? ==> Tall(d.batch.value, d.size))
  {
    var keys := if splitKeys.Some? then splitKeys.value else {};
    if d.batch.Some? && !CanSplit(d.batch.value, keys, s) then Err(RuntimeError)
    else if splitKeys.None? && d.nonTensor.Keys != {} then Err(TypeError)
    else if !CanSplit(d.nonTensor, keys, s) then Err(ValueError)
    else Ok(Unfoldable(if d.batch.Some? then Some(UnfoldCols(d.batch.value, keys, s)) else None,
                       d.size * s, UnfoldCols(d.nonTensor, keys, s)))
  }

  /** Row `r` of an unfolded column: a piece of, or all of, source row `r / s`. */
  ghost predicate UnfoldedRow<E>(c: Column<E>, split: bool, s: nat, r: nat, out: Column<E>)
    requires s > 0 && Proper(c) && r / s < Height(c) && r < Height(out)
  {
    if split then
      c.Wide? && out.Wide? && |c.rows[r / s]| == Times(s, |c.rows[r / s]| / s)
      && out.rows[r] == Piece(c.rows[r / s], s, r % s)
    else
      (c.Wide? ==> out.Wide? && out.rows[r] == c.rows[r / s]) && (c.Flat? ==> out.Flat? && out.xs[r] == c.xs[r / s])
  }

  lemma UnfoldedCol<E>(cols: map<Key, Column<E>>, n: nat, keys: set<Key>, s: nat, k: Key, r: nat)
    requires s > 0 && Tall(cols, n) && CanSplit(cols, keys, s) && k in cols && r < n * s
    ensures r / s < n && Height(UnfoldCols(cols, keys, s)[k]) == n * s
    ensures UnfoldedRow(cols[k], k in keys, s, r, UnfoldCols(cols, keys, s)[k])
  {
    TimesIsProduct(n, s);
    if k in keys {
      SplitRow(cols[k], s, r);
    } else {
      RepeatRow(cols[k], s, r);
    }
  }

  /**
   * At output row `r` every split column, tensor or numpy, holds piece `r % s` and every other column all of one
   * and the same source row, `r / s`.
   */
  lemma UnfoldRows<E>(d: Unfoldable<E>, s: nat, splitKeys: Option<set<Key>>, r: nat)
    requires s > 0 && Tall(d.nonTensor, d.size) && (d.batch.Some? ==> Tall(d.batch.value, d.size))
    requires Unfold(d, s, splitKeys).Ok? && r < d.size * s
    ensures
      var keys := if splitKeys.Some? then splitKeys.value else {};
      var out := Unfold(d, s, splitKeys).value;
      && r / s < d.size && out.size == d.size * s && out.nonTensor.Keys == d.nonTensor.Keys
      && (forall k :: k in d.nonTensor ==>
            Height(out.nonTensor[k]) == d.size * s && UnfoldedRow(d.nonTensor[k], k in keys, s, r, out.nonTensor[k]))
      && out.batch.Some? == d.batch.Some? && (d.batch.Some? ==> out.batch.value.Keys == d.batch.value.Keys)
      && (d.batch.Some? ==> forall k :: k in d.batch.value ==>
            Height(out.batch.value[k]) == d.size * s
            && UnfoldedRow(d.batch.value[k], k in keys, s, r, out.batch.value[k]))
  {
    var keys := if splitKeys.Some? then splitKeys.value else {};
    TimesIsProduct(d.size, s);
    RowPosition(r, d.size, s);
    forall k | k in d.nonTensor
      ensures Height(UnfoldCols(d.nonTensor, keys, s)[k]) == d.size * s
      ensures UnfoldedRow(d.nonTensor[k], k in keys, s, r, UnfoldCols(d.nonTensor, keys, s)[k])
    {
      UnfoldedCol(d.nonTensor, d.size, keys, s, k, r);
    }
    if d.batch.Some? {
      var cols := d.batch.value;
      forall k | k in cols
        ensures Height(UnfoldCols(cols, keys, s)[k]) == d.size * s
        ensures UnfoldedRow(cols[k], k in keys, s, r, UnfoldCols(cols, keys, s)[k])
      {
        UnfoldedCol(cols, d.size, keys, s, k, r);
      }
    }
  }

  ghost predicate EvenKeys<E>(cols: map<Key, Column<E>>, keys: set<Key>, s: nat)
    requires s > 0
  {
    forall k :: k in cols && k in keys ==> cols[k].Wide? && (|cols[k].rows| == 0 || cols[k].width % s == 0)
  }

  /** When it succeeds: split keys name wide columns that divide, and keys are given if there is a numpy column. */
  lemma UnfoldOkIff<E>(d: Unfoldable<E>, s: nat, splitKeys: Option<set<Key>>)
    requires s > 0 && Tall(d.nonTensor, d.size) && (d.batch.Some? ==> Tall(d.batch.value, d.size))
    ensures
      var keys := if splitKeys.Some? then splitKeys.value else {};
      Unfold(d, s, splitKeys).Ok? <==>
      ((splitKeys.Some? || d.nonTensor.Keys == {}) && EvenKeys(d.nonTensor, keys, s)
       && (d.batch.Some? ==> EvenKeys(d.batch.value, keys, s)))
  {
    var keys := if splitKeys.Some? then splitKeys.value else {};
    CanSplitIff(d.nonTensor, keys, s);
    if d.batch.Some? {
      CanSplitIff(d.batch.value, keys, s);
    }
  }

  lemma CanSplitIff<E>(cols: map<Key, Column<E>>, keys: set<Key>, s: nat)
    requires s > 0 && forall k :: k in cols ==> Proper(cols[k])
    ensures CanSplit(cols, keys, s) <==> EvenKeys(cols, keys, s)
  {
    forall k | k in cols
      ensures SplitColumn(cols[k], s).Ok? <==> cols[k].Wide? && (|cols[k].rows| == 0 || cols[k].width % s == 0)
    {
      SplitOkIff(cols[k], s);
    }
  }
}

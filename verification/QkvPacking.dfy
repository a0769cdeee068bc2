/** Fused query/key/value weights: the converter's packings per query group, and the merger that takes
    tensor-parallel shards of the fused rows apart again. */
module QkvPacking {
  import opened Seqs
  import opened Tensors

  // ----- the converter's packings

  /** `torch.cat([q, k, v], dim=1)` on three lists of groups. */
  function CatGroups<T>(qs: seq<seq<T>>, ks: seq<seq<T>>, vs: seq<seq<T>>): (gs: seq<seq<T>>)
    requires |qs| == |ks| == |vs|
    ensures |gs| == |qs|
  {
    seq(|qs|, g requires 0 <= g < |qs| => qs[g] + ks[g] + vs[g])
  }

  /** The sizes of a layer: `groups` key/value heads, `perGroup` query heads each, `headDim` rows a head. */
  predicate Sizes<T>(q: seq<T>, k: seq<T>, v: seq<T>, groups: nat, perGroup: nat, headDim: nat) {
    && |q| == Times(groups, Times(perGroup, headDim))
    && |k| == |v| == Times(groups, headDim)
  }

  /** The packing of the text model: per group its query rows, then its key rows, then its value rows. */
  function Pack<T>(q: seq<T>, k: seq<T>, v: seq<T>, groups: nat, perGroup: nat, headDim: nat): seq<T>
    requires Sizes(q, k, v, groups, perGroup, headDim)
  {
    Flatten(CatGroups(Blocks(q, Times(perGroup, headDim), groups), Blocks(k, headDim, groups), Blocks(v, headDim, groups)))
  }

  /** The packing of the vision-language model's text layers: a four-dimensional view whose second
      dimension counts heads. */
  function PackByHead<T>(q: seq<T>, k: seq<T>, v: seq<T>, groups: nat, perGroup: nat, headDim: nat): seq<T>
    requires Sizes(q, k, v, groups, perGroup, headDim)
  {
    TimesTimes(groups, perGroup, headDim);
    TimesOne(groups);
    Flatten(Flatten(CatGroups(
      Blocks(Blocks(q, headDim, Times(groups, perGroup)), perGroup, groups),
      Blocks(Blocks(k, headDim, groups), 1, groups),
      Blocks(Blocks(v, headDim, groups), 1, groups))))
  }

  lemma {:induction false} TimesOne(n: nat)
    ensures Times(n, 1) == n
  {
    if n > 0 {
      TimesOne(n - 1);
    }
  }

  /** The packing of the vision tower: view `(3, groups, perGroup * headDim)`, transpose the first two
      dimensions, flatten. */
  function PackVision<T>(w: seq<T>, groups: nat, rows: nat): seq<T>
    requires |w| == Times(3, Times(groups, rows))
  {
    Flatten(Flatten(Transposed(w, groups, rows)))
  }

  /** The view with its first two dimensions swapped: `[g][c]` is component `c` of group `g`. */
  function Transposed<T>(w: seq<T>, groups: nat, rows: nat): (bs: seq<seq<seq<T>>>)
    requires |w| == Times(3, Times(groups, rows))
    ensures |bs| == groups
  {
    var thirds := Blocks(w, Times(groups, rows), 3);
    seq(groups, g requires 0 <= g < groups =>
      seq(3, c requires 0 <= c < 3 => Blocks(thirds[c], rows, groups)[g]))
  }

  // ----- the packings agree

  lemma {:induction false} FlattenNested<T>(bs: seq<seq<seq<T>>>)
    ensures Flatten(Flatten(bs)) == Flatten(FlattenEach(bs))
  {
    if bs != [] {
      FlattenNested(bs[1..]);
      FlattenConcat(bs[0], Flatten(bs[1..]));
      assert FlattenEach(bs)[1..] == FlattenEach(bs[1..]);
    }
  }

  function FlattenEach<T>(bs: seq<seq<seq<T>>>): (r: seq<seq<T>>)
    ensures |r| == |bs|
  {
    seq(|bs|, i requires 0 <= i < |bs| => Flatten(bs[i]))
  }

  /** Blocks of blocks are larger blocks. */
  lemma {:induction false} BlocksOfBlocks<T>(xs: seq<T>, c: nat, m: nat, n: nat)
    requires |xs| == Times(n, Times(m, c)) == Times(Times(n, m), c)
    ensures FlattenEach(Blocks(Blocks(xs, c, Times(n, m)), m, n)) == Blocks(xs, Times(m, c), n)
  {
    if n > 0 {
      var size := Times(m, c);
      TimesTimes(n - 1, m, c);
      var head, tail := xs[..size], xs[size..];
      assert xs == head + tail;
      BlocksAppend(head, tail, c, m, Times(n - 1, m));
      var heads := Blocks(xs, c, Times(n, m));
      assert heads[..m] == Blocks(head, c, m) && heads[m..] == Blocks(tail, c, Times(n - 1, m));
      FlattenBlocks(head, c, m);
      BlocksOfBlocks(tail, c, m, n - 1);
      assert Blocks(heads, m, n) == [heads[..m]] + Blocks(heads[m..], m, n - 1);
      assert FlattenEach(Blocks(heads, m, n)) == [head] + FlattenEach(Blocks(heads[m..], m, n - 1));
    }
  }

  lemma FlattenThree<T>(a: seq<seq<T>>, b: seq<seq<T>>, c: seq<seq<T>>)
    ensures Flatten(a + b + c) == Flatten(a) + Flatten(b) + Flatten(c)
  {
    FlattenConcat(a + b, c);
    FlattenConcat(a, b);
  }

  lemma CatFlattened<T>(qs: seq<seq<seq<T>>>, ks: seq<seq<seq<T>>>, vs: seq<seq<seq<T>>>)
    requires |qs| == |ks| == |vs|
    ensures FlattenEach(CatGroups(qs, ks, vs)) == CatGroups(FlattenEach(qs), FlattenEach(ks), FlattenEach(vs))
  {
    forall g | 0 <= g < |qs|
      ensures FlattenEach(CatGroups(qs, ks, vs))[g] == CatGroups(FlattenEach(qs), FlattenEach(ks), FlattenEach(vs))[g]
    {
      FlattenThree(qs[g], ks[g], vs[g]);
    }
  }

  /** The two packings of text layers are the same. */
  lemma PacksAgree<T>(q: seq<T>, k: seq<T>, v: seq<T>, groups: nat, perGroup: nat, headDim: nat)
    requires Sizes(q, k, v, groups, perGroup, headDim)
    ensures PackByHead(q, k, v, groups, perGroup, headDim) == Pack(q, k, v, groups, perGroup, headDim)
  {
    TimesTimes(groups, perGroup, headDim);
    TimesOne(groups);
    assert Times(1, headDim) == headDim + Times(0, headDim);
    var qs := Blocks(Blocks(q, headDim, Times(groups, perGroup)), perGroup, groups);
    var ks := Blocks(Blocks(k, headDim, groups), 1, groups);
    var vs := Blocks(Blocks(v, headDim, groups), 1, groups);
    BlocksOfBlocks(q, headDim, perGroup, groups);
    BlocksOfBlocks(k, headDim, 1, groups);
    BlocksOfBlocks(v, headDim, 1, groups);
    FlattenNested(CatGroups(qs, ks, vs));
    CatFlattened(qs, ks, vs);
  }

  /** The vision packing is the text packing of the three thirds of the fused weight. */
  lemma VisionIsPack<T>(w: seq<T>, groups: nat, rows: nat)
    requires |w| == Times(3, Times(groups, rows))
    ensures var thirds := Blocks(w, Times(groups, rows), 3);
      && Times(1, rows) == rows
      && PackVision(w, groups, rows) == Pack(thirds[0], thirds[1], thirds[2], groups, 1, rows)
  {
    var thirds := Blocks(w, Times(groups, rows), 3);
    var qs, ks, vs := Blocks(thirds[0], rows, groups), Blocks(thirds[1], rows, groups), Blocks(thirds[2], rows, groups);
    assert Times(1, rows) == rows + Times(0, rows);
    var transposed := Transposed(w, groups, rows);
    FlattenNested(transposed);
    forall g | 0 <= g < groups
      ensures FlattenEach(transposed)[g] == CatGroups(qs, ks, vs)[g]
    {
      assert transposed[g] == [qs[g], ks[g], vs[g]];
      FlattenTriple(qs[g], ks[g], vs[g]);
    }
    assert FlattenEach(transposed) == CatGroups(qs, ks, vs);
  }

  lemma FlattenTriple<T>(a: seq<T>, b: seq<T>, c: seq<T>)
    ensures Flatten([a, b, c]) == a + b + c
  {
    FlattenAppend([a, b], c);
    FlattenAppend([a], b);
    FlattenAppend([], a);
    assert [a] + [b] == [a, b] && [a, b] + [c] == [a, b, c] && [] + [a] == [a];
  }

  lemma {:induction false} CellOfBlock<T>(xs: seq<T>, c: nat, n: nat, i: nat, r: nat)
    requires Times(n, c) <= |xs| && i < n && r < c
    ensures Times(i, c) + r < |xs| && Blocks(xs, c, n)[i][r] == xs[Times(i, c) + r]
  {
    if i > 0 {
      CellOfBlock(xs[c..], c, n - 1, i - 1, r);
    }
  }

  lemma TransposedAt<T>(w: seq<T>, groups: nat, rows: nat, g: nat, c: nat, r: nat)
    requires |w| == Times(3, Times(groups, rows)) && g < groups && c < 3 && r < rows
    ensures Times(c, Times(groups, rows)) + Times(g, rows) + r < |w|
    ensures |Transposed(w, groups, rows)[g]| == 3 && |Transposed(w, groups, rows)[g][c]| == rows
    ensures Transposed(w, groups, rows)[g][c][r] == w[Times(c, Times(groups, rows)) + Times(g, rows) + r]
  {
    var third := Blocks(w, Times(groups, rows), 3)[c];
    assert Transposed(w, groups, rows)[g][c] == Blocks(third, rows, groups)[g];
    CellOfThird(w, Times(groups, rows), 3, third, groups, rows, g, c, r);
  }

  lemma CellOfThird<T>(w: seq<T>, size: nat, n: nat, third: seq<T>, groups: nat, rows: nat, g: nat, c: nat, r: nat)
    requires size == Times(groups, rows) && Times(n, size) <= |w| && g < groups && c < n && r < rows
    requires third == Blocks(w, size, n)[c]
    ensures Times(c, size) + Times(g, rows) + r < |w|
    ensures Blocks(third, rows, groups)[g][r] == w[Times(c, size) + Times(g, rows) + r]
  {
    CellOfBlock(third, rows, groups, g, r);
    CellOfBlock(w, size, n, c, Times(g, rows) + r);
  }

  /** Where a row of a three-dimensional view lands when it is flattened. */
  lemma FlattenedAt<T>(bs: seq<seq<seq<T>>>, n: nat, rows: nat, g: nat, c: nat, r: nat)
    requires forall i :: 0 <= i < |bs| ==> |bs[i]| == n
    requires forall i, j :: 0 <= i < |bs| && 0 <= j < |bs[i]| ==> |bs[i][j]| == rows
    requires g < |bs| && c < n && r < rows
    ensures Times(Times(g, n) + c, rows) + r < |Flatten(Flatten(bs))|
    ensures Flatten(Flatten(bs))[Times(Times(g, n) + c, rows) + r] == bs[g][c][r]
  {
    var flat := Flatten(bs);
    RowInBlock(bs, n, g, c);
    forall i | 0 <= i < |flat|
      ensures |flat[i]| == rows
    {
      RowsOfFlat(bs, rows, i);
    }
    RowInBlock(flat, rows, Times(g, n) + c, r);
  }

  /** Row by row: component `c` of group `g` moves from block `c * groups + g` to block `3 * g + c`. */
  lemma VisionRow<T>(w: seq<T>, groups: nat, rows: nat, g: nat, c: nat, r: nat)
    requires |w| == Times(3, Times(groups, rows)) && g < groups && c < 3 && r < rows
    ensures Times(c, Times(groups, rows)) + Times(g, rows) + r < |w|
    ensures Times(Times(g, 3) + c, rows) + r < |PackVision(w, groups, rows)|
    ensures PackVision(w, groups, rows)[Times(Times(g, 3) + c, rows) + r]
         == w[Times(c, Times(groups, rows)) + Times(g, rows) + r]
  {
    TransposedAt(w, groups, rows, g, c, r);
    FlattenedAt(Transposed(w, groups, rows), 3, rows, g, c, r);
  }

  /** Where row `i` of the packed weight comes from: row `r` of component `c` of group `g`. */
  function SourceRow(groups: nat, rows: nat, i: nat): nat
    requires rows > 0
  {
    var g, c, r := i / rows / 3, i / rows % 3, i % rows;
    Times(c, Times(groups, rows)) + Times(g, rows) + r
  }

  /** Where row `j` of the fused weight goes to. */
  function PackedRow(groups: nat, rows: nat, j: nat): nat
    requires rows > 0 && Times(groups, rows) > 0
  {
    var c, g, r := j / Times(groups, rows), j % Times(groups, rows) / rows, j % Times(groups, rows) % rows;
    Times(Times(g, 3) + c, rows) + r
  }

  /** `g`, `c` and `r` are the coordinates of row `i` of the packed weight. */
  predicate PackedCoordinates(groups: nat, rows: nat, g: nat, c: nat, r: nat, i: nat) {
    g < groups && c < 3 && r < rows && i == Times(Times(g, 3) + c, rows) + r
  }

  predicate FusedCoordinates(groups: nat, rows: nat, g: nat, c: nat, r: nat, j: nat) {
    g < groups && c < 3 && r < rows && j == Times(c, Times(groups, rows)) + Times(g, rows) + r
  }

  lemma PackedCoordinatesOf(groups: nat, rows: nat, i: nat) returns (g: nat, c: nat, r: nat)
    requires i < Times(3, Times(groups, rows))
    ensures PackedCoordinates(groups, rows, g, c, r, i)
  {
    NoEmptyBlock(3, Times(groups, rows));
    NoEmptyBlock(groups, rows);
    TimesTimes(3, groups, rows);
    RowPosition(i, Times(3, groups), rows);
    TimesIsProduct(3, groups);
    TimesIsProduct(groups, 3);
    RowPosition(i / rows, groups, 3);
    g, c, r := i / rows / 3, i / rows % 3, i % rows;
  }

  lemma {:induction false} NoEmptyBlock(n: nat, c: nat)
    requires Times(n, c) > 0
    ensures n > 0 && c > 0
  {
    if n > 0 && c == 0 {
      NoEmptyBlock(n - 1, c);
    }
  }

  lemma FusedCoordinatesOf(groups: nat, rows: nat, j: nat) returns (g: nat, c: nat, r: nat)
    requires j < Times(3, Times(groups, rows))
    ensures FusedCoordinates(groups, rows, g, c, r, j)
  {
    var size := Times(groups, rows);
    NoEmptyBlock(3, size);
    NoEmptyBlock(groups, rows);
    RowPosition(j, 3, size);
    RowPosition(j % size, groups, rows);
    g, c, r := j % size / rows, j / size, j % size % rows;
  }

  lemma SourceOfPacked(groups: nat, rows: nat, g: nat, c: nat, r: nat, i: nat)
    requires PackedCoordinates(groups, rows, g, c, r, i)
    ensures FusedCoordinates(groups, rows, g, c, r, SourceRow(groups, rows, i))
  {
    PositionOfRow(Times(g, 3) + c, rows, r);
    PositionOfRow(g, 3, c);
  }

  lemma PackedOfSource(groups: nat, rows: nat, g: nat, c: nat, r: nat, j: nat)
    requires FusedCoordinates(groups, rows, g, c, r, j)
    ensures Times(groups, rows) > 0
    ensures PackedCoordinates(groups, rows, g, c, r, PackedRow(groups, rows, j))
  {
    var size := Times(groups, rows);
    PieceInRow(g, groups, rows);
    assert Times(g, rows) + r < Times(g + 1, rows) <= size;
    PositionOfRow(c, size, Times(g, rows) + r);
    PositionOfRow(g, rows, r);
  }

  /**
   * The vision packing is a permutation of the rows: as many rows come out as went in, row `i` is the source's
   * row `SourceRow(i)`, and `PackedRow` takes every source row to the one place it came to.
   */
  lemma VisionIsPermutation<T>(w: seq<T>, groups: nat, rows: nat, i: nat)
    requires |w| == Times(3, Times(groups, rows))
    ensures |PackVision(w, groups, rows)| == |w|
    ensures i < |w| ==>
      && rows > 0 && Times(groups, rows) > 0
      && SourceRow(groups, rows, i) < |w| && PackedRow(groups, rows, i) < |w|
      && PackVision(w, groups, rows)[i] == w[SourceRow(groups, rows, i)]
      && PackedRow(groups, rows, SourceRow(groups, rows, i)) == i
      && SourceRow(groups, rows, PackedRow(groups, rows, i)) == i
  {
    VisionLength(w, groups, rows);
    if i < |w| {
      var g, c, r := PackedCoordinatesOf(groups, rows, i);
      SourceOfPacked(groups, rows, g, c, r, i);
      PackedOfSource(groups, rows, g, c, r, SourceRow(groups, rows, i));
      VisionRow(w, groups, rows, g, c, r);
      var g', c', r' := FusedCoordinatesOf(groups, rows, i);
      PackedOfSource(groups, rows, g', c', r', i);
      SourceOfPacked(groups, rows, g', c', r', PackedRow(groups, rows, i));
      VisionRow(w, groups, rows, g', c', r');
    }
  }

  lemma VisionLength<T>(w: seq<T>, groups: nat, rows: nat)
    requires |w| == Times(3, Times(groups, rows))
    ensures |PackVision(w, groups, rows)| == |w|
  {
    var transposed := Transposed(w, groups, rows);
    var flat := Flatten(transposed);
    FlattenLength(transposed, 3);
    forall i | 0 <= i < |flat|
      ensures |flat[i]| == rows
    {
      RowsOfFlat(transposed, rows, i);
    }
    FlattenLength(flat, rows);
    TimesIsProduct(groups, 3);
    TimesIsProduct(3, groups);
    TimesTimes(3, groups, rows);
  }

  lemma {:induction false} RowsOfFlat<T>(bs: seq<seq<seq<T>>>, rows: nat, i: nat)
    requires forall g, c :: 0 <= g < |bs| && 0 <= c < |bs[g]| ==> |bs[g][c]| == rows
    requires i < |Flatten(bs)|
    ensures |Flatten(bs)[i]| == rows
  {
    if i >= |bs[0]| {
      RowsOfFlat(bs[1..], rows, i - |bs[0]|);
    }
  }

  // ----- packing is the same permutation on rows of any kind

  lemma {:induction false} MapBlocks<T, U>(f: T -> U, xs: seq<T>, c: nat, n: nat)
    requires Times(n, c) <= |xs|
    ensures forall i :: 0 <= i < n ==> Blocks(Map(f, xs), c, n)[i] == Map(f, Blocks(xs, c, n)[i])
  {
    if n > 0 {
      assert Map(f, xs)[..c] == Map(f, xs[..c]) && Map(f, xs)[c..] == Map(f, xs[c..]);
      MapBlocks(f, xs[c..], c, n - 1);
    }
  }

  lemma {:induction false} MapFlatten<T, U>(f: T -> U, bs: seq<seq<T>>, cs: seq<seq<U>>)
    requires |bs| == |cs| && forall i :: 0 <= i < |bs| ==> cs[i] == Map(f, bs[i])
    ensures Flatten(cs) == Map(f, Flatten(bs))
  {
    if bs != [] {
      MapFlatten(f, bs[1..], cs[1..]);
    }
  }

  /** Packing commutes with any function of a row, so biases are permuted exactly as weight rows are. */
  lemma PackIsNatural<T, U>(
    f: T -> U, q: seq<T>, k: seq<T>, v: seq<T>, groups: nat, perGroup: nat, headDim: nat)
    requires Sizes(q, k, v, groups, perGroup, headDim)
    ensures Pack(Map(f, q), Map(f, k), Map(f, v), groups, perGroup, headDim)
         == Map(f, Pack(q, k, v, groups, perGroup, headDim))
  {
    var a := Times(perGroup, headDim);
    var qs, ks, vs := Blocks(q, a, groups), Blocks(k, headDim, groups), Blocks(v, headDim, groups);
    var qs', ks', vs' := Blocks(Map(f, q), a, groups), Blocks(Map(f, k), headDim, groups), Blocks(Map(f, v), headDim, groups);
    MapBlocks(f, q, a, groups);
    MapBlocks(f, k, headDim, groups);
    MapBlocks(f, v, headDim, groups);
    forall g | 0 <= g < groups
      ensures CatGroups(qs', ks', vs')[g] == Map(f, CatGroups(qs, ks, vs)[g])
    {
    }
    MapFlatten(f, CatGroups(qs, ks, vs), CatGroups(qs', ks', vs'));
  }
}

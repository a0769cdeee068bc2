/** Tensors as lists of rows: `view` into equal blocks, `torch.chunk` and `split`. */
module Tensors {
  import opened Arith
  import opened Seqs

  /** `n * c`, by repeated addition. */
  function Times(n: nat, c: nat): nat {
    if n == 0 then 0 else c + Times(n - 1, c)
  }

  lemma {:induction false} TimesIsProduct(n: nat, c: nat)
    ensures Times(n, c) == n * c
  {
    if n > 0 {
      TimesIsProduct(n - 1, c);
      assert n * c == (n - 1) * c + c;
    }
  }

  lemma {:induction false} TimesAdd(m: nat, n: nat, c: nat)
    ensures Times(m + n, c) == Times(m, c) + Times(n, c)
  {
    if m > 0 {
      TimesAdd(m - 1, n, c);
    }
  }

  lemma {:induction false} TimesTimes(n: nat, m: nat, c: nat)
    ensures Times(n, Times(m, c)) == Times(Times(n, m), c)
  {
    if n > 0 {
      TimesTimes(n - 1, m, c);
      TimesAdd(m, Times(n - 1, m), c);
    }
  }

  // ----- equal blocks

  /** `view(n, c, ...)`: the first `n` blocks of `c` rows. */
  function Blocks<T>(xs: seq<T>, c: nat, n: nat): (bs: seq<seq<T>>)
    requires Times(n, c) <= |xs|
    ensures |bs| == n && forall i :: 0 <= i < n ==> |bs[i]| == c
  {
    if n == 0 then [] else [xs[..c]] + Blocks(xs[c..], c, n - 1)
  }

  /** `view(-1, ...)` undoes a `view` into blocks. */
  lemma {:induction false} FlattenBlocks<T>(xs: seq<T>, c: nat, n: nat)
    requires |xs| == Times(n, c)
    ensures Flatten(Blocks(xs, c, n)) == xs
  {
    if n > 0 {
      FlattenBlocks(xs[c..], c, n - 1);
      assert Blocks(xs, c, n)[1..] == Blocks(xs[c..], c, n - 1);
    }
  }

  lemma {:induction false} FlattenLength<T>(bs: seq<seq<T>>, c: nat)
    requires forall i :: 0 <= i < |bs| ==> |bs[i]| == c
    ensures |Flatten(bs)| == Times(|bs|, c)
  {
    if bs != [] {
      FlattenLength(bs[1..], c);
    }
  }

  lemma {:induction false} BlocksOfFlatten<T>(bs: seq<seq<T>>, c: nat)
    requires forall i :: 0 <= i < |bs| ==> |bs[i]| == c
    ensures |Flatten(bs)| == Times(|bs|, c)
    ensures Blocks(Flatten(bs), c, |bs|) == bs
  {
    if bs != [] {
      BlocksOfFlatten(bs[1..], c);
      assert Flatten(bs)[..c] == bs[0] && Flatten(bs)[c..] == Flatten(bs[1..]);
    }
  }

  lemma {:induction false} BlocksAppend<T>(xs: seq<T>, ys: seq<T>, c: nat, m: nat, n: nat)
    requires |xs| == Times(m, c) && Times(n, c) <= |ys|
    ensures Times(m + n, c) <= |xs + ys|
    ensures Blocks(xs + ys, c, m + n) == Blocks(xs, c, m) + Blocks(ys, c, n)
  {
    TimesAdd(m, n, c);
    if m == 0 {
      assert xs + ys == ys;
    } else {
      BlocksAppend(xs[c..], ys, c, m - 1, n);
      assert (xs + ys)[..c] == xs[..c] && (xs + ys)[c..] == xs[c..] + ys;
    }
  }

  /** Row `i` of block `q` in the concatenation of equal blocks. */
  lemma {:induction false} RowInBlock<T>(bs: seq<seq<T>>, c: nat, q: nat, i: nat)
    requires (forall j :: 0 <= j < |bs| ==> |bs[j]| == c) && q < |bs| && i < c
    ensures Times(q, c) + i < |Flatten(bs)| && Flatten(bs)[Times(q, c) + i] == bs[q][i]
  {
    if q > 0 {
      RowInBlock(bs[1..], c, q - 1, i);
    }
  }

  lemma {:induction false} PieceInRow(j: nat, s: nat, c: nat)
    requires j < s
    ensures Times(j, c) <= Times(j + 1, c) <= Times(s, c)
  {
    TimesAdd(j + 1, s - j - 1, c);
  }

  lemma SliceOfDrop<T>(xs: seq<T>, c: nat, lo: nat, hi: nat)
    requires lo <= hi && c + hi <= |xs|
    ensures xs[c..][lo..hi] == xs[c + lo..c + hi]
  {
  }

  lemma {:induction false} BlockAt<T>(xs: seq<T>, c: nat, n: nat, j: nat)
    requires Times(n, c) <= |xs| && j < n
    ensures Times(j, c) <= Times(j + 1, c) <= |xs|
    ensures Blocks(xs, c, n)[j] == xs[Times(j, c)..Times(j + 1, c)]
  {
    PieceInRow(j, n, c);
    if j > 0 {
      BlockAt(xs[c..], c, n - 1, j - 1);
      var lo, hi := Times(j - 1, c), Times(j, c);
      assert hi == c + lo && Times(j + 1, c) == c + hi;
      SliceOfDrop(xs, c, lo, hi);
    }
  }

  lemma DivStep(r: nat, c: nat)
    requires r >= c > 0
    ensures r / c == (r - c) / c + 1 && r % c == (r - c) % c
  {
    DivMod(c, (r - c) / c + 1, (r - c) % c);
    DivModBack(r - c, c);
    assert c * ((r - c) / c + 1) == c * ((r - c) / c) + c;
  }

  /** The block and the position in it that row `r` falls on. */
  lemma {:induction false} RowPosition(r: nat, n: nat, c: nat)
    requires c > 0 && r < Times(n, c)
    ensures r / c < n && 0 <= r % c < c && r == Times(r / c, c) + r % c
    decreases n
  {
    if r >= c {
      DivStep(r, c);
      RowPosition(r - c, n - 1, c);
    } else {
      DivMod(c, 0, r);
    }
  }

  lemma PositionOfRow(q: nat, c: nat, i: nat)
    requires i < c
    ensures (Times(q, c) + i) / c == q && (Times(q, c) + i) % c == i
  {
    TimesIsProduct(q, c);
    DivMod(c, q, i);
  }

  // ----- `torch.chunk` and `split`

  /** `split(size)`: pieces of `size` rows, the last one possibly shorter. */
  function SplitBy<T>(xs: seq<T>, size: nat): (ps: seq<seq<T>>)
    requires size > 0
    ensures ps != []
    decreases |xs|
  {
    if |xs| <= size then [xs] else [xs[..size]] + SplitBy(xs[size..], size)
  }

  /** `torch.chunk`: pieces of `ceil(|xs| / n)` rows, which may be fewer than `n` pieces. */
  function TorchChunk<T>(xs: seq<T>, n: nat): seq<seq<T>>
    requires n > 0
  {
    var size := (|xs| + n - 1) / n;
    if size == 0 then seq(n, _ => []) else SplitBy(xs, size)
  }

  /** `split` keeps every row in order; all pieces but the last have `size` rows, the last at most as many. */
  lemma {:induction false} SplitByIs<T>(xs: seq<T>, size: nat)
    requires size > 0
    ensures
      var ps := SplitBy(xs, size);
      && Flatten(ps) == xs && |ps[|ps| - 1]| <= size && (xs != [] ==> ps[|ps| - 1] != [])
      && forall i :: 0 <= i < |ps| - 1 ==> |ps[i]| == size
    decreases |xs|
  {
    if |xs| <= size {
      assert Flatten([xs]) == xs + Flatten([]);
    } else {
      SplitByIs(xs[size..], size);
      assert xs == xs[..size] + xs[size..];
    }
  }

  /** `torch.chunk` keeps every row in order, and all pieces but the last have the rounded-up size. */
  lemma TorchChunkIs<T>(xs: seq<T>, n: nat)
    requires n > 0 && xs != []
    ensures
      var ps := TorchChunk(xs, n);
      && ps != [] && Flatten(ps) == xs && 0 < |ps[|ps| - 1]| <= (|xs| + n - 1) / n
      && forall i :: 0 <= i < |ps| - 1 ==> |ps[i]| == (|xs| + n - 1) / n
  {
    DivModBack(|xs| + n - 1, n);
    if (|xs| + n - 1) / n <= 0 {
      MulMono(n, (|xs| + n - 1) / n, 0);
    }
    SplitByIs(xs, (|xs| + n - 1) / n);
  }

  lemma {:induction false} SplitByBlocks<T>(xs: seq<T>, c: nat, n: nat)
    requires c > 0 && n > 0 && |xs| == Times(n, c)
    ensures SplitBy(xs, c) == Blocks(xs, c, n)
  {
    if n == 1 {
      assert xs[..c] == xs && Blocks(xs[c..], c, 0) == [];
    } else {
      assert n - 1 == (n - 2) + 1;
      SplitByBlocks(xs[c..], c, n - 1);
    }
  }

  lemma CeilExact(n: nat, c: nat, rows: nat)
    requires n > 0 && rows == n * c
    ensures (rows + n - 1) / n == c
  {
    DivMod(n, c, n - 1);
  }

  /** An even chunk is a view into equal blocks. */
  lemma ChunkEvenly<T>(xs: seq<T>, c: nat, n: nat)
    requires n > 0 && |xs| == Times(n, c)
    ensures TorchChunk(xs, n) == Blocks(xs, c, n)
  {
    assert (|xs| + n - 1) / n == c by {
      TimesIsProduct(n, c);
      CeilExact(n, c, |xs|);
    }
    if c == 0 {
      EmptyBlocks(xs, n);
    } else {
      SplitByBlocks(xs, c, n);
    }
  }

  lemma {:induction false} EmptyBlocks<T>(xs: seq<T>, n: nat)
    requires xs == [] && Times(n, 0) <= |xs|
    ensures Blocks(xs, 0, n) == seq(n, _ => [])
  {
    if n > 0 {
      EmptyBlocks(xs[0..], n - 1);
    }
  }

  // ----- the same function on every row

  function Map<T, U>(f: T -> U, xs: seq<T>): (ys: seq<U>)
    ensures |ys| == |xs| && forall i :: 0 <= i < |xs| ==> ys[i] == f(xs[i])
  {
    seq(|xs|, i requires 0 <= i < |xs| => f(xs[i]))
  }
}

/**
 * Column-level row operations of `DataProto`. Tensor columns go through torch and non-tensor columns through
 * numpy, by different algorithms; each is shown here to gather rows by an index vector that depends on the
 * number of rows only, which is what keeps the two kinds of column aligned.
 */
module Rows {
  import opened Wrappers
  import opened Arith
  import opened Seqs
  import opened Tensors

  // ----- gathering

  predicate InRange(idx: seq<nat>, n: nat) {
    forall i :: 0 <= i < |idx| ==> idx[i] < n
  }

  /** Advanced indexing `xs[idx]`. */
  function Gather<T>(xs: seq<T>, idx: seq<nat>): (ys: seq<T>)
    requires InRange(idx, |xs|)
    ensures |ys| == |idx| && forall i :: 0 <= i < |idx| ==> ys[i] == xs[idx[i]]
  {
    seq(|idx|, i requires 0 <= i < |idx| => xs[idx[i]])
  }

  /** `a, a + 1, ..., a + n - 1`. */
  function Range(a: nat, n: nat): (idx: seq<nat>)
    ensures |idx| == n && forall i :: 0 <= i < n ==> idx[i] == a + i
  {
    seq(n, i requires 0 <= i < n => a + i)
  }

  lemma GatherGather<T>(xs: seq<T>, a: seq<nat>, b: seq<nat>)
    requires InRange(a, |xs|) && InRange(b, |a|)
    ensures InRange(Gather(a, b), |xs|)
    ensures Gather(Gather(xs, a), b) == Gather(xs, Gather(a, b))
  {
  }

  lemma GatherRange<T>(xs: seq<T>, a: nat, n: nat)
    requires a + n <= |xs|
    ensures InRange(Range(a, n), |xs|) && Gather(xs, Range(a, n)) == xs[a..a + n]
  {
  }

  // ----- several index vectors at once

  predicate AllInRange(parts: seq<seq<nat>>, n: nat) {
    forall i :: 0 <= i < |parts| ==> InRange(parts[i], n)
  }

  function GatherEach<T>(xs: seq<T>, parts: seq<seq<nat>>): (ps: seq<seq<T>>)
    requires AllInRange(parts, |xs|)
    ensures |ps| == |parts| && forall i :: 0 <= i < |parts| ==> ps[i] == Gather(xs, parts[i])
  {
    seq(|parts|, i requires 0 <= i < |parts| => Gather(xs, parts[i]))
  }

  /** Concatenating gathered pieces gathers by the concatenated indices. */
  lemma {:induction false} FlattenGathers<T>(xs: seq<T>, parts: seq<seq<nat>>)
    requires AllInRange(parts, |xs|)
    ensures InRange(Flatten(parts), |xs|)
    ensures Flatten(GatherEach(xs, parts)) == Gather(xs, Flatten(parts))
  {
    if parts != [] {
      FlattenGathers(xs, parts[1..]);
      assert GatherEach(xs, parts)[1..] == GatherEach(xs, parts[1..]);
    }
  }

  // ----- consecutive pieces

  /** The index ranges of consecutive pieces of the given sizes, from row `a` on. */
  function Ranges(a: nat, sizes: seq<nat>): (parts: seq<seq<nat>>)
    ensures |parts| == |sizes|
    decreases |sizes|
  {
    if sizes == [] then [] else [Range(a, sizes[0])] + Ranges(a + sizes[0], sizes[1..])
  }

  lemma {:induction false} RangesInRange(a: nat, sizes: seq<nat>, n: nat)
    requires a + Sum(sizes) <= n
    ensures AllInRange(Ranges(a, sizes), n)
    decreases |sizes|
  {
    if sizes != [] {
      RangesInRange(a + sizes[0], sizes[1..], n);
    }
  }

  lemma {:induction false} RangeLength(a: nat, sizes: seq<nat>, i: nat)
    requires i < |sizes|
    ensures |Ranges(a, sizes)[i]| == sizes[i]
    decreases |sizes|
  {
    if i > 0 {
      RangeLength(a + sizes[0], sizes[1..], i - 1);
    }
  }

  lemma RangeAppend(a: nat, m: nat, n: nat)
    ensures Range(a, m) + Range(a + m, n) == Range(a, m + n)
  {
  }

  lemma {:induction false} FlattenRanges(a: nat, sizes: seq<nat>)
    ensures Flatten(Ranges(a, sizes)) == Range(a, Sum(sizes))
    decreases |sizes|
  {
    if sizes != [] {
      FlattenRanges(a + sizes[0], sizes[1..]);
      RangeAppend(a, sizes[0], Sum(sizes[1..]));
      assert Ranges(a, sizes)[1..] == Ranges(a + sizes[0], sizes[1..]);
    }
  }

  lemma RangesFacts(a: nat, sizes: seq<nat>, n: nat)
    requires a + Sum(sizes) <= n
    ensures AllInRange(Ranges(a, sizes), n)
    ensures forall i :: 0 <= i < |sizes| ==> |Ranges(a, sizes)[i]| == sizes[i]
    ensures Flatten(Ranges(a, sizes)) == Range(a, Sum(sizes))
  {
    RangesInRange(a, sizes, n);
    FlattenRanges(a, sizes);
    forall i | 0 <= i < |sizes| ensures |Ranges(a, sizes)[i]| == sizes[i] {
      RangeLength(a, sizes, i);
    }
  }

  /** Sizes of the pieces when at most `size` rows are cut off at a time: at least one piece. */
  function PieceSizes(n: nat, size: nat): (sizes: seq<nat>)
    requires n > 0 ==> size > 0
    ensures sizes != [] && Sum(sizes) == n
  {
    if n <= size then assert Sum([n]) == n + Sum([]); [n] else [size] + PieceSizes(n - size, size)
  }

  /** All pieces but the last have `size` rows, and the last has at most as many, but some unless there is no row. */
  lemma {:induction false} PieceSizesAre(n: nat, size: nat)
    requires n > 0 ==> size > 0
    ensures
      var sizes := PieceSizes(n, size);
      && (forall i :: 0 <= i < |sizes| - 1 ==> sizes[i] == size)
      && sizes[|sizes| - 1] <= size && (n > 0 ==> 0 < sizes[|sizes| - 1])
  {
    if n > size {
      PieceSizesAre(n - size, size);
    }
  }

  lemma {:induction false} EvenPieces(count: nat, size: nat)
    requires count > 0 && size > 0
    ensures PieceSizes(Times(count, size), size) == Copies(size, count)
  {
    if count > 1 {
      assert Times(count - 1, size) == size + Times(count - 2, size);
      EvenPieces(count - 1, size);
      assert [size] + Copies(size, count - 1) == Copies(size, count);
    } else {
      assert Times(1, size) == size + Times(0, size);
    }
  }

  /** `TensorDict.split`: the loop cutting off `size` rows at a time from row `a`. */
  function TorchSplit<T>(xs: seq<T>, a: nat, size: nat): (ps: seq<seq<T>>)
    requires a <= |xs| && (a < |xs| ==> size > 0)
    decreases |xs| - a
  {
    if |xs| - a <= size then [xs[a..]] else [xs[a..a + size]] + TorchSplit(xs, a + size, size)
  }

  lemma {:induction false} TorchSplitIsRanges<T>(xs: seq<T>, a: nat, size: nat, sizes: seq<nat>)
    requires a <= |xs| && (a < |xs| ==> size > 0) && sizes == PieceSizes(|xs| - a, size)
    ensures AllInRange(Ranges(a, sizes), |xs|)
    ensures TorchSplit(xs, a, size) == GatherEach(xs, Ranges(a, sizes))
    decreases |xs| - a
  {
    GatherRange(xs, a, sizes[0]);
    if |xs| - a <= size {
      assert xs[a..] == xs[a..a + sizes[0]];
      assert Ranges(a, sizes) == [Range(a, sizes[0])] + [];
    } else {
      TorchSplitIsRanges(xs, a + size, size, sizes[1..]);
    }
  }

  /** `xs[a:b]` for non-negative bounds. */
  function Cut<T>(xs: seq<T>, a: nat, b: nat): seq<T> {
    if b <= |xs| then (if a <= b then xs[a..b] else []) else if a <= |xs| then xs[a..] else []
  }

  /** `np.array_split` at cut points: pieces between consecutive cuts, from row `a`, the last one to the end. */
  function ArraySplit<T>(xs: seq<T>, a: nat, cuts: seq<nat>): (ps: seq<seq<T>>)
    ensures |ps| == |cuts| + 1
    decreases |cuts|
  {
    if cuts == [] then [Cut(xs, a, |xs|)] else [Cut(xs, a, cuts[0])] + ArraySplit(xs, cuts[0], cuts[1..])
  }

  /** `np.cumsum(sizes)[:-1]`, offset by `a`. */
  function InnerCuts(a: nat, sizes: seq<nat>): (cuts: seq<nat>)
    requires sizes != []
    ensures |cuts| == |sizes| - 1
    decreases |sizes|
  {
    if |sizes| == 1 then [] else [a + sizes[0]] + InnerCuts(a + sizes[0], sizes[1..])
  }

  lemma {:induction false} ArraySplitIsRanges<T>(xs: seq<T>, a: nat, sizes: seq<nat>)
    requires sizes != [] && a + Sum(sizes) == |xs|
    ensures AllInRange(Ranges(a, sizes), |xs|)
    ensures ArraySplit(xs, a, InnerCuts(a, sizes)) == GatherEach(xs, Ranges(a, sizes))
    decreases |sizes|
  {
    GatherRange(xs, a, sizes[0]);
    if |sizes| == 1 {
      assert Sum(sizes[1..]) == 0;
      assert Ranges(a, sizes) == [Range(a, sizes[0])] + [];
    } else {
      var b := a + sizes[0];
      ArraySplitIsRanges(xs, b, sizes[1..]);
    }
  }

  /** `np.array_split` into a number of sections: the first `n % sections` of them get one row more. */
  function SectionSizes(n: nat, sections: nat): (sizes: seq<nat>)
    requires sections > 0
    ensures |sizes| == sections
  {
    seq(sections, i requires 0 <= i < sections => if i < n % sections then n / sections + 1 else n / sections)
  }

  /** No two sections differ by more than one row, and the larger ones come first. */
  lemma SectionSizesAre(n: nat, sections: nat)
    requires sections > 0
    ensures var sizes := SectionSizes(n, sections);
      forall i, j :: 0 <= i <= j < sections ==> sizes[j] <= sizes[i] <= sizes[j] + 1
  {
  }

  lemma {:induction false} SumOfTwoSizes(sizes: seq<nat>, extra: nat, each: nat)
    requires extra <= |sizes|
    requires forall i :: 0 <= i < |sizes| ==> sizes[i] == if i < extra then each + 1 else each
    ensures Sum(sizes) == Times(|sizes|, each) + extra
  {
    if sizes != [] {
      SumOfTwoSizes(sizes[1..], if extra > 0 then extra - 1 else 0, each);
    }
  }

  lemma SectionSizesSum(n: nat, sections: nat)
    requires sections > 0
    ensures Sum(SectionSizes(n, sections)) == n
  {
    SumOfTwoSizes(SectionSizes(n, sections), n % sections, n / sections);
    TimesIsProduct(sections, n / sections);
    DivModBack(n, sections);
  }

  // ----- repeating

  function Copies<T>(x: T, n: nat): (xs: seq<T>)
    ensures |xs| == n && forall i :: 0 <= i < n ==> xs[i] == x
  {
    seq(n, _ => x)
  }

  /** `np.repeat`: every row in turn, as often as its count says. */
  function NpRepeat<T>(xs: seq<T>, counts: seq<nat>): seq<T>
    requires |xs| == |counts|
  {
    if xs == [] then [] else Copies(xs[0], counts[0]) + NpRepeat(xs[1..], counts[1..])
  }

  /** The index vector `torch.repeat_interleave(counts)` builds before it selects rows. */
  function RepeatIndex(counts: seq<nat>): (idx: seq<nat>)
    ensures InRange(idx, |counts|)
  {
    if counts == [] then [] else
      var last := |counts| - 1;
      RepeatIndex(counts[..last]) + Copies(last, counts[last])
  }

  /** `tensor.repeat_interleave(counts, dim=0)`. */
  function TorchRepeat<T>(xs: seq<T>, counts: seq<nat>): seq<T>
    requires |xs| == |counts|
  {
    Gather(xs, RepeatIndex(counts))
  }

  lemma {:induction false} NpRepeatAppend<T>(xs: seq<T>, counts: seq<nat>)
    requires |xs| == |counts| > 0
    ensures NpRepeat(xs, counts)
         == NpRepeat(xs[..|xs| - 1], counts[..|xs| - 1]) + Copies(xs[|xs| - 1], counts[|xs| - 1])
  {
    var last := |xs| - 1;
    if last > 0 {
      NpRepeatAppend(xs[1..], counts[1..]);
      assert xs[1..][..last - 1] == xs[..last][1..] && counts[1..][..last - 1] == counts[..last][1..];
    }
  }

  lemma {:induction false} RepeatsAgree<T>(xs: seq<T>, counts: seq<nat>)
    requires |xs| == |counts|
    ensures NpRepeat(xs, counts) == TorchRepeat(xs, counts)
    decreases |xs|
  {
    if xs != [] {
      var last := |xs| - 1;
      NpRepeatAppend(xs, counts);
      RepeatsAgree(xs[..last], counts[..last]);
      var idx := RepeatIndex(counts[..last]);
      assert Gather(xs[..last], idx) == Gather(xs, idx);
    }
  }

  lemma {:induction false} RepeatIndexLength(counts: seq<nat>)
    ensures |RepeatIndex(counts)| == Sum(counts)
  {
    if counts != [] {
      var last := |counts| - 1;
      RepeatIndexLength(counts[..last]);
      SumAppend(counts[..last], counts[last]);
      assert counts[..last] + [counts[last]] == counts;
    }
  }

  /** Row `q` fills the positions after those of the rows before it, as many as its count says. */
  lemma {:induction false} RepeatIndexAt(counts: seq<nat>, q: nat, i: nat)
    requires q < |counts| && i < counts[q]
    ensures Sum(counts[..q]) + i < |RepeatIndex(counts)| && RepeatIndex(counts)[Sum(counts[..q]) + i] == q
    decreases |counts|
  {
    var last := |counts| - 1;
    RepeatIndexLength(counts[..last]);
    if q < last {
      RepeatIndexAt(counts[..last], q, i);
      assert counts[..last][..q] == counts[..q];
    }
  }

  // ----- positions in a list of equal blocks

  /** Row `i` of the `q`-th batch of copies is row `q` itself. */
  lemma {:induction false} RepeatedAt<T>(xs: seq<T>, n: nat, q: nat, i: nat)
    requires q < |xs| && i < n
    ensures Times(q, n) + i < |NpRepeat(xs, Copies(n, |xs|))|
    ensures NpRepeat(xs, Copies(n, |xs|))[Times(q, n) + i] == xs[q]
  {
    assert Copies(n, |xs|)[1..] == Copies(n, |xs[1..]|);
    if q > 0 {
      RepeatedAt(xs[1..], n, q - 1, i);
    }
  }

  lemma {:induction false} RepeatedLength<T>(xs: seq<T>, n: nat)
    ensures |NpRepeat(xs, Copies(n, |xs|))| == Times(|xs|, n)
  {
    if xs != [] {
      assert Copies(n, |xs|)[1..] == Copies(n, |xs[1..]|);
      RepeatedLength(xs[1..], n);
    }
  }

  /** Repeating every row `n` times puts row `r / n` at position `r`. */
  lemma RepeatedRow<T>(xs: seq<T>, n: nat, r: nat)
    requires n > 0 && r < Times(|xs|, n)
    ensures |NpRepeat(xs, Copies(n, |xs|))| == Times(|xs|, n)
    ensures r / n < |xs| && NpRepeat(xs, Copies(n, |xs|))[r] == xs[r / n]
  {
    RowPosition(r, |xs|, n);
    RepeatedLength(xs, n);
    RepeatedAt(xs, n, r / n, r % n);
  }

  // ----- tiling

  /** `np.tile`: the whole column `n` times over. */
  function NpTile<T>(xs: seq<T>, n: nat): (ys: seq<T>)
    ensures |ys| == Times(n, |xs|)
  {
    if n == 0 then [] else xs + NpTile(xs, n - 1)
  }

  /** The row a tensor `expand`ed to `(n, rows, ...)` and `reshape`d to `(n * rows, ...)` reads at each position. */
  function TileIndex(n: nat, rows: nat): (idx: seq<nat>)
    ensures InRange(idx, rows) && |idx| == Times(n, rows)
  {
    if rows == 0 then ZeroRows(n); [] else seq(Times(n, rows), i requires 0 <= i < Times(n, rows) => i % rows)
  }

  lemma {:induction false} ZeroRows(n: nat)
    ensures Times(n, 0) == 0
  {
    if n > 0 {
      ZeroRows(n - 1);
    }
  }

  /** `tensor.unsqueeze(0).expand(n, ...).reshape(-1, ...)`. */
  function TorchTile<T>(xs: seq<T>, n: nat): seq<T> {
    Gather(xs, TileIndex(n, |xs|))
  }

  lemma {:induction false} TiledRow<T>(xs: seq<T>, n: nat, r: nat)
    requires r < Times(n, |xs|)
    ensures 0 < |xs| && NpTile(xs, n)[r] == xs[r % |xs|]
  {
    ZeroRows(n);
    if r < |xs| {
      DivMod(|xs|, 0, r);
    } else {
      DivStep(r, |xs|);
      TiledRow(xs, n - 1, r - |xs|);
    }
  }

  lemma TilesAgree<T>(xs: seq<T>, n: nat)
    ensures NpTile(xs, n) == TorchTile(xs, n)
  {
    if xs == [] {
      ZeroRows(n);
    } else {
      forall r | 0 <= r < Times(n, |xs|) ensures NpTile(xs, n)[r] == TorchTile(xs, n)[r] {
        TiledRow(xs, n, r);
      }
    }
  }

  // ----- Python slices

  /** `first, first + step, ...` below `stop`. */
  function StepUp(first: nat, stop: int, step: nat, n: nat): (idx: seq<nat>)
    requires step > 0 && stop <= n
    ensures InRange(idx, n)
    decreases stop - first
  {
    if first >= stop then [] else [first] + StepUp(first + step, stop, step, n)
  }

  /** `first, first - step, ...` above `stop`. */
  function StepDown(first: int, stop: int, step: nat, n: nat): (idx: seq<nat>)
    requires step > 0 && -1 <= stop && first < n
    ensures InRange(idx, n)
    decreases first - stop
  {
    if first <= stop then [] else [first] + StepDown(first - step, stop, step, n)
  }

  function Clamp(i: int, low: int, high: int): int {
    if i < low then low else if i > high then high else i
  }

  /** A bound of a Python slice on `n` rows: negative bounds count from the end, then clamp. */
  function Bound(b: Option<int>, default: int, n: nat, low: int, high: int): int {
    match b
    case None => default
    case Some(i) => Clamp(if i < 0 then i + n else i, low, high)
  }

  /** The rows `start:stop:step` selects out of `n`; the step is not zero. */
  function SliceIndex(n: nat, start: Option<int>, stop: Option<int>, step: int): (idx: seq<nat>)
    requires step != 0
    ensures InRange(idx, n)
  {
    if step > 0 then StepUp(Bound(start, 0, n, 0, n), Bound(stop, n, n, 0, n), step, n)
    else StepDown(Bound(start, n - 1, n, -1, n - 1), Bound(stop, -1, n, -1, n - 1), -step, n)
  }

  predicate Ascending(idx: seq<nat>) {
    forall i, j :: 0 <= i < j < |idx| ==> idx[i] < idx[j]
  }

  predicate Descending(idx: seq<nat>) {
    forall i, j :: 0 <= i < j < |idx| ==> idx[i] > idx[j]
  }

  lemma ModStep(a: nat, step: nat)
    requires step > 0
    ensures a >= step ==> (a % step == 0 <==> (a - step) % step == 0)
    ensures a < step ==> (a % step == 0 <==> a == 0)
  {
    if a >= step {
      DivStep(a, step);
    } else {
      DivMod(step, 0, a);
    }
  }

  lemma {:induction false} StepUpHas(first: nat, stop: int, step: nat, n: nat, r: nat)
    requires step > 0 && stop <= n
    ensures r in StepUp(first, stop, step, n) <==> first <= r < stop && (r - first) % step == 0
    decreases stop - first
  {
    if first < stop {
      StepUpHas(first + step, stop, step, n, r);
      if first <= r {
        ModStep(r - first, step);
        assert (r - first) - step == r - (first + step);
      }
    }
  }

  lemma {:induction false} StepUpAscends(first: nat, stop: int, step: nat, n: nat)
    requires step > 0 && stop <= n
    ensures Ascending(StepUp(first, stop, step, n))
    ensures forall i :: 0 <= i < |StepUp(first, stop, step, n)| ==> first <= StepUp(first, stop, step, n)[i]
    decreases stop - first
  {
    if first < stop {
      StepUpAscends(first + step, stop, step, n);
    }
  }

  lemma {:induction false} StepDownHas(first: int, stop: int, step: nat, n: nat, r: nat)
    requires step > 0 && -1 <= stop && first < n
    ensures r in StepDown(first, stop, step, n) <==> stop < r <= first && (first - r) % step == 0
    decreases first - stop
  {
    if first > stop {
      StepDownHas(first - step, stop, step, n, r);
      if r <= first {
        ModStep(first - r, step);
        assert (first - r) - step == (first - step) - r;
      }
    }
  }

  lemma {:induction false} StepDownDescends(first: int, stop: int, step: nat, n: nat)
    requires step > 0 && -1 <= stop && first < n
    ensures Descending(StepDown(first, stop, step, n))
    ensures forall i :: 0 <= i < |StepDown(first, stop, step, n)| ==> StepDown(first, stop, step, n)[i] <= first
    decreases first - stop
  {
    if first > stop {
      StepDownDescends(first - step, stop, step, n);
    }
  }

  /** A bound counted from the front. */
  function FromFront(i: int, n: nat): int {
    if i < 0 then i + n else i
  }

  /** The first row a slice can reach: a missing or too large start is the end it starts from. */
  function FirstRow(start: Option<int>, n: nat, step: int): int
    requires step != 0
  {
    if step > 0 then if start.None? || FromFront(start.value, n) < 0 then 0 else FromFront(start.value, n)
    else if start.None? || FromFront(start.value, n) >= n then n - 1
    else FromFront(start.value, n)
  }

  /** `start:stop:step` selects row `r`. */
  predicate Selects(n: nat, start: Option<int>, stop: Option<int>, step: int, r: int)
    requires step != 0
  {
    var first := FirstRow(start, n, step);
    && 0 <= r < n
    && (step > 0 ==> first <= r && (stop.Some? ==> r < FromFront(stop.value, n)) && (r - first) % step == 0)
    && (step < 0 ==> r <= first && (stop.Some? ==> FromFront(stop.value, n) < r) && (first - r) % (-step) == 0)
  }

  lemma SliceHas(n: nat, start: Option<int>, stop: Option<int>, step: int, r: nat)
    requires step != 0
    ensures r in SliceIndex(n, start, stop, step) <==> Selects(n, start, stop, step, r)
  {
    if step > 0 {
      StepUpHas(Bound(start, 0, n, 0, n), Bound(stop, n, n, 0, n), step, n, r);
    } else {
      StepDownHas(Bound(start, n - 1, n, -1, n - 1), Bound(stop, -1, n, -1, n - 1), -step, n, r);
    }
  }

  /** A slice selects the rows from its start on in steps, up or down, that come before its stop. */
  lemma SliceIndexIs(n: nat, start: Option<int>, stop: Option<int>, step: int)
    requires step != 0
    ensures forall r: nat :: r in SliceIndex(n, start, stop, step) <==> Selects(n, start, stop, step, r)
    ensures if step > 0 then Ascending(SliceIndex(n, start, stop, step)) else Descending(SliceIndex(n, start, stop, step))
  {
    if step > 0 {
      StepUpAscends(Bound(start, 0, n, 0, n), Bound(stop, n, n, 0, n), step, n);
    } else {
      StepDownDescends(Bound(start, n - 1, n, -1, n - 1), Bound(stop, -1, n, -1, n - 1), -step, n);
    }
    forall r: nat ensures r in SliceIndex(n, start, stop, step) <==> Selects(n, start, stop, step, r) {
      SliceHas(n, start, stop, step, r);
    }
  }

  lemma {:induction false} StepUpByOne(first: nat, stop: nat, n: nat)
    requires first <= stop <= n
    ensures StepUp(first, stop, 1, n) == Range(first, stop - first)
    decreases stop - first
  {
    if first < stop {
      StepUpByOne(first + 1, stop, n);
      assert Range(first, stop - first) == [first] + Range(first + 1, stop - (first + 1));
    }
  }

  /** A plain `a:b` with `0 <= a <= b`. */
  lemma SliceBetween(n: nat, a: nat, b: nat)
    requires a <= b
    ensures SliceIndex(n, Some(a), Some(b), 1)
         == Range(if a < n then a else n, (if b < n then b else n) - (if a < n then a else n))
  {
    StepUpByOne(if a < n then a else n, if b < n then b else n, n);
  }

  /** `:b` with `0 <= b <= n`, and `:-c` with `0 < c <= n`. */
  lemma SlicePrefix(n: nat, b: nat)
    requires b <= n
    ensures SliceIndex(n, None, Some(b), 1) == Range(0, b)
    ensures b < n ==> SliceIndex(n, None, Some(b - n), 1) == Range(0, b)
  {
    StepUpByOne(0, b, n);
  }
}

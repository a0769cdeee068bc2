/** Which experts an expert-parallel rank copies, and the element count that is checked after each layer. */
module Experts {
  import opened Wrappers
  import opened Arith
  import opened Seqs
  import opened Tensors

  /** An expert's projections as flat buffers. */
  datatype Expert<T> = Expert(gate: seq<T>, up: seq<T>, down: seq<T>)

  /** What is copied for one expert: gate and up fused, and down. */
  datatype Weights<T> = Weights(fc1: seq<T>, fc2: seq<T>)

  function Fused<T>(e: Expert<T>): Weights<T> {
    Weights(e.gate + e.up, e.down)
  }

  function FusedAll<T>(es: seq<Expert<T>>): (ws: seq<Weights<T>>)
    ensures |ws| == |es| && forall i :: 0 <= i < |es| ==> ws[i] == Fused(es[i])
  {
    seq(|es|, i requires 0 <= i < |es| => Fused(es[i]))
  }

  function Numel<T>(es: seq<Expert<T>>): nat {
    if es == [] then 0 else |es[0].gate| + |es[0].up| + |es[0].down| + Numel(es[1..])
  }

  lemma {:induction false} NumelAppend<T>(es: seq<Expert<T>>, e: Expert<T>)
    ensures Numel(es + [e]) == Numel(es) + |e.gate| + |e.up| + |e.down|
  {
    if es == [] {
      assert es + [e] == [e] && [e][1..] == [];
    } else {
      NumelAppend(es[1..], e);
      assert (es + [e])[1..] == es[1..] + [e];
    }
  }

  // ----- the loop over the experts of one layer

  function LocalCount(experts: nat, epSize: nat): nat
    requires epSize > 0
  {
    experts / epSize
  }

  lemma RankInside(experts: nat, epSize: nat, rank: nat)
    requires epSize > 0 && rank < epSize
    ensures Times(rank, LocalCount(experts, epSize)) + LocalCount(experts, epSize)
         == Times(rank + 1, LocalCount(experts, epSize)) <= experts
  {
    var local := LocalCount(experts, epSize);
    PieceInRow(rank, epSize, local);
    TimesIsProduct(epSize, local);
    DivModBack(experts, epSize);
  }

  /** The weights are numbered from 0, number `j` being expert `start + j`. */
  ghost predicate Numbered<T>(es: seq<Expert<T>>, start: nat, count: nat, locals: map<nat, Weights<T>>)
    requires start + count <= |es|
  {
    forall j: nat :: (j in locals <==> j < count) && (j in locals ==> locals[j] == Fused(es[start + j]))
  }

  /** After looking at the first `i` experts: those from `start` on, at most up to `stop`, are copied. */
  ghost predicate CopiedSoFar<T>(es: seq<Expert<T>>, start: nat, stop: nat, i: nat, locals: map<nat, Weights<T>>,
                                 numel: nat, numelW2: Option<nat>)
    requires start <= stop <= |es| && i <= |es|
  {
    var end := if i < start then start else if i < stop then i else stop;
    && Numbered(es, start, end - start, locals)
    && numel == Numel(es[start..end])
    && numelW2 == if end == start then None else Some(|es[end - 1].down|)
  }

  lemma CopyStep<T>(es: seq<Expert<T>>, start: nat, stop: nat, i: nat, locals: map<nat, Weights<T>>, numel: nat,
                    numelW2: Option<nat>, locals': map<nat, Weights<T>>, numel': nat, numelW2': Option<nat>)
    requires start <= i < stop <= |es| && CopiedSoFar(es, start, stop, i, locals, numel, numelW2)
    requires locals' == locals[i - start := Weights(es[i].gate + es[i].up, es[i].down)]
    requires numel' == numel + |es[i].gate + es[i].up| + |es[i].down| && numelW2' == Some(|es[i].down|)
    ensures CopiedSoFar(es, start, stop, i + 1, locals', numel', numelW2')
  {
    NumelAppend(es[start..i], es[i]);
    assert es[start..i + 1] == es[start..i] + [es[i]];
  }

  lemma CopySkip<T>(es: seq<Expert<T>>, start: nat, stop: nat, i: nat, locals: map<nat, Weights<T>>,
                    numel: nat, numelW2: Option<nat>)
    requires start <= stop <= |es| && i < |es| && CopiedSoFar(es, start, stop, i, locals, numel, numelW2)
    requires i < start || stop <= i
    ensures CopiedSoFar(es, start, stop, i + 1, locals, numel, numelW2)
  {
  }

  lemma RankBounds(experts: nat, epSize: nat, rank: nat, start: nat, stop: nat)
    requires rank < epSize && start == Times(rank, LocalCount(experts, epSize))
    requires stop == start + LocalCount(experts, epSize)
    ensures stop <= experts && rank * (experts / epSize) == start && (rank + 1) * (experts / epSize) == stop
  {
    RankInside(experts, epSize, rank);
    TimesIsProduct(rank, experts / epSize);
    TimesIsProduct(rank + 1, experts / epSize);
  }

  /**
   * The grouped loop: rank `epRank` copies experts `[epRank * local, (epRank + 1) * local)` into its numbered
   * weights, adds up their elements, and is left with the size of the last down projection, if it copied any.
   */
  method CopyExperts<T>(es: seq<Expert<T>>, epSize: nat, epRank: nat)
      returns (locals: map<nat, Weights<T>>, numel: nat, numelW2: Option<nat>)
    requires epRank < epSize
    ensures
      var local := LocalCount(|es|, epSize);
      var start := Times(epRank, local);
      && start + local <= |es|
      && Numbered(es, start, local, locals)
      && numel == Numel(es[start..start + local])
      && numelW2 == if local == 0 then None else Some(|es[start + local - 1].down|)
  {
    ghost var local := LocalCount(|es|, epSize);
    ghost var low, high := Times(epRank, local), Times(epRank, local) + local;
    RankBounds(|es|, epSize, epRank, low, high);
    locals, numel, numelW2 := map[], 0, None;
    assert es[low..low] == [];
    for i := 0 to |es|
      invariant CopiedSoFar(es, low, high, i, locals, numel, numelW2)
    {
      var start, stop := epRank * (|es| / epSize), (epRank + 1) * (|es| / epSize);
      if i < start || i >= stop {
        CopySkip(es, low, high, i, locals, numel, numelW2);
        continue;
      }
      ghost var before := (locals, numel, numelW2);
      var fc1 := es[i].gate + es[i].up;
      locals := locals[i - start := Weights(fc1, es[i].down)];
      numel := numel + |fc1|;
      numelW2 := Some(|es[i].down|);
      numel := numel + numelW2.value;
      CopyStep(es, low, high, i, before.0, before.1, before.2, locals, numel, numelW2);
    }
  }

  // ----- all ranks together

  /** The weights on rank `rank`, by local number. */
  function OnRank<T>(es: seq<Expert<T>>, epSize: nat, rank: nat): seq<Weights<T>>
    requires rank < epSize
  {
    RankInside(|es|, epSize, rank);
    FusedAll(es)[Times(rank, LocalCount(|es|, epSize))..Times(rank + 1, LocalCount(|es|, epSize))]
  }

  lemma {:induction false} CutBlocks<T>(xs: seq<T>, c: nat, n: nat)
    requires Times(n, c) <= |xs|
    ensures Flatten(Blocks(xs, c, n)) == xs[..Times(n, c)]
  {
    if n > 0 {
      CutBlocks(xs[c..], c, n - 1);
      assert Blocks(xs, c, n)[1..] == Blocks(xs[c..], c, n - 1);
      assert xs[..c] + xs[c..][..Times(n - 1, c)] == xs[..Times(n, c)];
    }
  }

  /** The ranks in order hold a front part of the experts, each expert once. */
  lemma RanksHoldFront<T>(es: seq<Expert<T>>, epSize: nat)
    requires epSize > 0
    ensures epSize * LocalCount(|es|, epSize) <= |es|
    ensures Flatten(seq(epSize, r requires 0 <= r < epSize => OnRank(es, epSize, r)))
         == FusedAll(es)[..epSize * LocalCount(|es|, epSize)]
  {
    var local := LocalCount(|es|, epSize);
    var ws := FusedAll(es);
    var ranks := seq(epSize, r requires 0 <= r < epSize => OnRank(es, epSize, r));
    RankInside(|es|, epSize, epSize - 1);
    TimesIsProduct(epSize, local);
    forall r | 0 <= r < epSize ensures ranks[r] == Blocks(ws, local, epSize)[r] {
      BlockAt(ws, local, epSize, r);
    }
    assert ranks == Blocks(ws, local, epSize);
    CutBlocks(ws, local, epSize);
  }

  lemma FrontIsAll<T>(xs: seq<T>, n: nat)
    requires n <= |xs|
    ensures xs[..n] == xs <==> n == |xs|
  {
  }

  /** No expert is lost exactly when the ranks divide the experts. */
  lemma NoExpertLostIff<T>(es: seq<Expert<T>>, epSize: nat)
    requires epSize > 0
    ensures Flatten(seq(epSize, r requires 0 <= r < epSize => OnRank(es, epSize, r))) == FusedAll(es)
       <==> |es| % epSize == 0
  {
    RanksHoldFront(es, epSize);
    DivModBack(|es|, epSize);
    FrontIsAll(FusedAll(es), epSize * LocalCount(|es|, epSize));
  }

  // ----- the numel check

  datatype Checked = Passed(numel: nat) | Mismatch | Unbound

  /**
   * The check after a layer with a router: what was copied must be the layer's elements less the share of the
   * other ranks, computed from the last down projection. That size is unbound when no expert was copied by the
   * grouped loop, which also is so for every layer of the ungrouped branch.
   */
  function CheckLayer(copied: nat, layer: nat, experts: nat, epSize: nat, numelW2: Option<nat>): Checked
    requires epSize > 0
  {
    if numelW2.None? then Unbound
    else if copied == layer - numelW2.value * 3 * experts / epSize * (epSize - 1) then Passed(copied)
    else Mismatch
  }

  /** The share of one rank is rounded down after everything else is multiplied. */
  lemma CheckedShare(copied: nat, layer: nat, experts: nat, epSize: nat, w: nat, share: nat)
    requires epSize > 0 && epSize * share <= w * 3 * experts < epSize * (share + 1)
    ensures CheckLayer(copied, layer, experts, epSize, Some(w))
         == if copied == layer - share * (epSize - 1) then Passed(copied) else Mismatch
  {
    assert epSize * (share + 1) == epSize * share + epSize;
    DivMod(epSize, share, w * 3 * experts - epSize * share);
  }

  lemma {:induction false} EqualNumel<T>(es: seq<Expert<T>>, w: nat)
    requires forall i :: 0 <= i < |es| ==> |es[i].gate| == |es[i].up| == |es[i].down| == w
    ensures Numel(es) == (w * 3) * |es|
  {
    if es != [] {
      EqualNumel(es[1..], w);
      assert (w * 3) * |es| == (w * 3) * (|es| - 1) + w * 3;
    }
  }

  /** The subtracted share leaves one rank's part exactly when nothing is rounded off. */
  lemma ShareIff(x: nat, experts: nat, epSize: nat)
    requires epSize > 0
    ensures x * (experts / epSize) == x * experts - x * experts / epSize * (epSize - 1)
       <==> experts % epSize == 0 || x == 0
  {
    var all := x * experts;
    DivModBack(experts, epSize);
    DivModBack(all, epSize);
    ShareAt(x, epSize, experts / epSize, experts % epSize, all, x * (experts / epSize), all / epSize, all % epSize);
  }

  lemma ShareAt(x: nat, d: nat, local: nat, rem: nat, all: nat, y: nat, q: nat, t: nat)
    requires d > 0 && all == x * (d * local + rem) && y == x * local && all == d * q + t && t < d
    ensures y == all - q * (d - 1) <==> rem == 0 || x == 0
  {
    Expand(x, d, local, rem);
    LessOne(q, d);
    ProductZero(x, rem);
    ShareCases(d, all, y, q, t, x * rem);
  }

  lemma Expand(x: int, d: int, q: int, r: int)
    ensures x * (d * q + r) == d * (x * q) + x * r
  {
    assert x * (d * q) == d * (x * q);
  }

  lemma LessOne(q: int, d: int)
    ensures q * (d - 1) == d * q - q
  {
  }

  lemma ProductZero(x: nat, y: nat)
    ensures 0 <= x * y && (x * y == 0 <==> x == 0 || y == 0)
  {
    if x > 0 && y > 0 {
      MulMono(x, 1, y);
    }
  }

  lemma ShareCases(d: nat, all: nat, y: nat, q: nat, t: nat, z: nat)
    requires d > 0 && all == d * y + z && all == d * q + t && t < d
    ensures q + t == y <==> z == 0
  {
    var gap := y - q;
    assert d * gap == t - z by {
      assert d * gap == d * y - d * q;
    }
    MulMono(t, 1, d);
    assert gap == t ==> d * gap == t * d;
    if z == 0 {
      DivMod(d, y, 0);
      DivMod(d, q, t);
    }
  }

  /**
   * For experts of equal shape, the layer's other elements counted alike on both sides: a rank that copied an
   * expert passes the check exactly when no expert is lost (or experts are empty); one that copied none is unbound.
   */
  lemma NumelCheckIff<T>(es: seq<Expert<T>>, w: nat, epSize: nat, rank: nat, rest: nat, local: nat, start: nat,
                         numelW2: Option<nat>)
    requires rank < epSize && forall i :: 0 <= i < |es| ==> |es[i].gate| == |es[i].up| == |es[i].down| == w
    requires local == LocalCount(|es|, epSize) && start == Times(rank, local) && start + local <= |es|
    requires numelW2 == if local == 0 then None else Some(|es[start + local - 1].down|)
    ensures CheckLayer(rest + Numel(es[start..start + local]), rest + Numel(es), |es|, epSize, numelW2)
         == if local == 0 then Unbound
            else if |es| % epSize == 0 || w == 0 then Passed(rest + Numel(es[start..start + local])) else Mismatch
  {
    EqualNumel(es, w);
    EqualNumel(es[start..start + local], w);
    ShareIff(w * 3, |es|, epSize);
  }
}

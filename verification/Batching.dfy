/** The batching loop of `run_hf`: requests are taken in order and a batch is sent to `generate`
    as soon as it may not grow by the next request. */
module Batching {
  import opened Seqs

  const TOKEN_BUDGET := 2048

  datatype Request = Request(prompt: string, promptLen: int, outputLen: int)

  function Max(a: int, b: int): int {
    if a < b then b else a
  }

  function MaxPrompt(batch: seq<Request>): (m: int)
    ensures 0 <= m
  {
    if batch == [] then 0 else Max(MaxPrompt(batch[..|batch| - 1]), batch[|batch| - 1].promptLen)
  }

  function MaxOutput(batch: seq<Request>): (m: int)
    ensures 0 <= m
  {
    if batch == [] then 0 else Max(MaxOutput(batch[..|batch| - 1]), batch[|batch| - 1].outputLen)
  }

  /** A batch that may be sent: any single request, or several within both limits. */
  predicate Feasible(batch: seq<Request>, maxBatchSize: int) {
    |batch| == 1
    || (2 <= |batch| <= maxBatchSize && MaxPrompt(batch) + MaxOutput(batch) <= TOKEN_BUDGET)
  }

  predicate Sized(batch: seq<Request>) {
    forall i :: 0 <= i < |batch| ==> 0 <= batch[i].promptLen && 0 <= batch[i].outputLen
  }

  /** `m` is the longest output of the batch. */
  ghost predicate IsMaxOutput(batch: seq<Request>, m: int) {
    && (forall i :: 0 <= i < |batch| ==> batch[i].outputLen <= m)
    && (exists i :: 0 <= i < |batch| && batch[i].outputLen == m)
  }

  ghost predicate IsMaxPrompt(batch: seq<Request>, m: int) {
    && (forall i :: 0 <= i < |batch| ==> batch[i].promptLen <= m)
    && (exists i :: 0 <= i < |batch| && batch[i].promptLen == m)
  }

  lemma {:induction false} MaximaAre(batch: seq<Request>)
    requires batch != [] && Sized(batch)
    ensures IsMaxPrompt(batch, MaxPrompt(batch)) && IsMaxOutput(batch, MaxOutput(batch))
  {
    var n := |batch| - 1;
    var front := batch[..n];
    if n > 0 {
      MaximaAre(front);
      var i :| 0 <= i < n && front[i].promptLen == MaxPrompt(front);
      var j :| 0 <= j < n && front[j].outputLen == MaxOutput(front);
      assert batch[i] == front[i] && batch[j] == front[j];
    }
    assert batch[n].promptLen == MaxPrompt(batch) || MaxPrompt(front) == MaxPrompt(batch);
    assert batch[n].outputLen == MaxOutput(batch) || MaxOutput(front) == MaxOutput(batch);
  }

  /** Every prompt of the batch fits with every output of it. */
  predicate Fits(batch: seq<Request>) {
    forall i, j :: 0 <= i < |batch| && 0 <= j < |batch| ==> batch[i].promptLen + batch[j].outputLen <= 2048
  }

  /** The limits, request by request. */
  lemma FeasibleIff(batch: seq<Request>, maxBatchSize: int)
    requires Sized(batch)
    ensures Feasible(batch, maxBatchSize) <==> |batch| == 1 || (2 <= |batch| <= maxBatchSize && Fits(batch))
  {
    if batch != [] {
      MaximaAre(batch);
    }
  }

  predicate AllFeasible(batches: seq<seq<Request>>, maxBatchSize: int) {
    forall i :: 0 <= i < |batches| ==> Feasible(batches[i], maxBatchSize)
  }

  /** Batch `i` may not take the first request of the batch after it. */
  predicate BlockedAt(batches: seq<seq<Request>>, i: nat, maxBatchSize: int)
    requires i + 1 < |batches|
  {
    batches[i + 1] != [] && !Feasible(batches[i] + [batches[i + 1][0]], maxBatchSize)
  }

  /** No batch but the last could have taken the request that follows it. */
  predicate NonExtendable(batches: seq<seq<Request>>, maxBatchSize: int) {
    forall i: nat :: i + 1 < |batches| ==> BlockedAt(batches, i, maxBatchSize)
  }

  lemma NonExtendableAppend(batches: seq<seq<Request>>, batch: seq<Request>, maxBatchSize: int)
    requires NonExtendable(batches, maxBatchSize) && batch != []
    requires batches != [] ==> !Feasible(batches[|batches| - 1] + [batch[0]], maxBatchSize)
    ensures NonExtendable(batches + [batch], maxBatchSize)
  {
    forall i: nat | i + 1 < |batches + [batch]|
      ensures BlockedAt(batches + [batch], i, maxBatchSize)
    {
      assert i + 1 < |batches| ==> BlockedAt(batches, i, maxBatchSize);
    }
  }

  lemma SliceOfPrefix<T>(xs: seq<T>, n: nat, lo: nat, hi: nat)
    requires lo <= hi <= n <= |xs|
    ensures xs[..n][lo..hi] == xs[lo..hi]
  {
  }

  lemma PrefixOfSlice<T>(xs: seq<T>, lo: nat, mid: nat, hi: nat)
    requires lo <= mid <= hi <= |xs|
    ensures xs[lo..hi][..mid - lo] == xs[lo..mid]
  {
  }

  /** The maxima only grow along a containing interval. */
  lemma {:induction false} MaximaOfInterval(batch: seq<Request>, lo: nat, hi: nat)
    requires lo <= hi <= |batch|
    ensures MaxPrompt(batch[lo..hi]) <= MaxPrompt(batch)
    ensures MaxOutput(batch[lo..hi]) <= MaxOutput(batch)
    decreases |batch|, hi
  {
    if lo < hi {
      var shorter := batch[..|batch| - 1];
      if hi < |batch| {
        SliceOfPrefix(batch, |batch| - 1, lo, hi);
        MaximaOfInterval(shorter, lo, hi);
      } else {
        SliceOfPrefix(batch, |batch| - 1, lo, hi - 1);
        PrefixOfSlice(batch, lo, hi - 1, hi);
        MaximaOfInterval(shorter, lo, hi - 1);
      }
    }
  }

  /** Feasibility is inherited by every non-empty interval of a batch. */
  lemma FeasibleInterval(batch: seq<Request>, lo: nat, hi: nat, maxBatchSize: int)
    requires lo < hi <= |batch|
    requires Feasible(batch, maxBatchSize)
    ensures Feasible(batch[lo..hi], maxBatchSize)
  {
    MaximaOfInterval(batch, lo, hi);
  }

  /** Greedy stays ahead: if `batches` covers a suffix of what `other` covers, it needs no more batches. */
  lemma {:induction false} StaysAhead(
    batches: seq<seq<Request>>, other: seq<seq<Request>>, skip: nat, maxBatchSize: int)
    requires AllFeasible(batches, maxBatchSize) && NonExtendable(batches, maxBatchSize)
    requires AllFeasible(other, maxBatchSize)
    requires skip <= |Flatten(other)| && Flatten(batches) == Flatten(other)[skip..]
    ensures |batches| <= |other|
    decreases |other|
  {
    if batches != [] {
      var b, more := batches[0], Flatten(batches[1..]);
      assert Flatten(batches) == b + more;
      assert Feasible(b, maxBatchSize);
      var o, rest := other[0], Flatten(other[1..]);
      assert Flatten(other) == o + rest;
      if |o| <= skip {
        assert Flatten(other)[skip..] == rest[skip - |o|..];
        StaysAhead(batches, other[1..], skip - |o|, maxBatchSize);
      } else {
        Reaches(batches, o, rest, skip, maxBatchSize);
        assert more == (o + rest)[skip..][|b|..] == rest[skip + |b| - |o|..];
        forall i: nat | i + 1 < |batches[1..]|
          ensures BlockedAt(batches[1..], i, maxBatchSize)
        {
          assert BlockedAt(batches, i + 1, maxBatchSize);
        }
        StaysAhead(batches[1..], other[1..], skip + |b| - |o|, maxBatchSize);
      }
    }
  }

  /** A blocked batch that starts inside a feasible one reaches at least as far. */
  lemma Reaches(batches: seq<seq<Request>>, o: seq<Request>, rest: seq<Request>, skip: nat, maxBatchSize: int)
    requires batches != [] && NonExtendable(batches, maxBatchSize)
    requires Feasible(o, maxBatchSize) && skip < |o|
    requires Flatten(batches) == (o + rest)[skip..]
    ensures |o| <= skip + |batches[0]|
  {
    var b, hi := batches[0], skip + |batches[0]|;
    if hi < |o| {
      assert Flatten(batches) == b + Flatten(batches[1..]);
      assert |Flatten(batches[1..])| > 0;
      var next := batches[1];
      assert Flatten(batches[1..]) == next + Flatten(batches[1..][1..]);
      assert BlockedAt(batches, 0, maxBatchSize);
      assert b + [next[0]] == Flatten(batches)[..|b| + 1] == o[skip..hi + 1];
      FeasibleInterval(o, skip, hi + 1, maxBatchSize);
    }
  }

  /** What has been sent when the requests below `done` have left the open batch. */
  ghost predicate Sent(
    batches: seq<seq<Request>>, newTokens: seq<int>, requests: seq<Request>, done: int, maxBatchSize: int)
  {
    && 0 <= done <= |requests|
    && Flatten(batches) == requests[..done]
    && AllFeasible(batches, maxBatchSize)
    && NonExtendable(batches, maxBatchSize)
    && (batches != [] && done < |requests| ==> !Feasible(batches[|batches| - 1] + [requests[done]], maxBatchSize))
    && |newTokens| == |batches|
    && (forall i :: 0 <= i < |batches| ==> newTokens[i] == MaxOutput(batches[i]))
  }

  lemma Send(
    batches: seq<seq<Request>>, newTokens: seq<int>, batch: seq<Request>,
    requests: seq<Request>, lo: nat, hi: nat, maxBatchSize: int)
    requires Sent(batches, newTokens, requests, lo, maxBatchSize)
    requires lo < hi <= |requests| && batch == requests[lo..hi] && Feasible(batch, maxBatchSize)
    requires hi < |requests| ==> !Feasible(batch + [requests[hi]], maxBatchSize)
    ensures Sent(batches + [batch], newTokens + [MaxOutput(batch)], requests, hi, maxBatchSize)
  {
    assert Flatten(batches + [batch]) == requests[..hi] by {
      FlattenAppend(batches, batch);
    }
    assert batch[0] == requests[lo];
    NonExtendableAppend(batches, batch, maxBatchSize);
    assert (batches + [batch])[|batches|] == batch;
  }

  /** The variables of the loop before request `i`. */
  datatype State = State(
    batches: seq<seq<Request>>, newTokens: seq<int>, progress: nat,
    batch: seq<Request>, maxPromptLen: int, maxOutputLen: int)

  ghost predicate Inv(s: State, requests: seq<Request>, i: int, maxBatchSize: int) {
    && Sent(s.batches, s.newTokens, requests, s.progress, maxBatchSize)
    && s.progress <= i <= |requests|
    && s.batch == requests[s.progress..i]
    && s.maxPromptLen == MaxPrompt(s.batch)
    && s.maxOutputLen == MaxOutput(s.batch)
    && (s.batch != [] ==> i < |requests| && Feasible(s.batch + [requests[i]], maxBatchSize))
  }

  /** Request `i` taken into the open batch. */
  function Take(s: State, request: Request): State {
    s.(batch := s.batch + [request],
       maxPromptLen := Max(s.maxPromptLen, request.promptLen),
       maxOutputLen := Max(s.maxOutputLen, request.outputLen))
  }

  /** Whether the batch that took request `i` stays open for the next one. */
  predicate StaysOpen(open: State, requests: seq<Request>, i: nat, maxBatchSize: int) {
    |open.batch| < maxBatchSize && i + 1 < |requests|
    && Max(open.maxPromptLen, requests[i + 1].promptLen) + Max(open.maxOutputLen, requests[i + 1].outputLen)
       <= TOKEN_BUDGET
  }

  function Close(open: State): State {
    State(open.batches + [open.batch], open.newTokens + [open.maxOutputLen], open.progress + |open.batch|, [], 0, 0)
  }

  /** The variables after the first `n` requests. */
  function Loop(requests: seq<Request>, n: nat, maxBatchSize: int): State
    requires n <= |requests|
  {
    if n == 0 then State([], [], 0, [], 0, 0)
    else
      var open := Take(Loop(requests, n - 1, maxBatchSize), requests[n - 1]);
      if StaysOpen(open, requests, n - 1, maxBatchSize) then open else Close(open)
  }

  /** Leaving the batch open. */
  lemma InvContinue(s: State, open: State, requests: seq<Request>, i: nat, maxBatchSize: int)
    requires i < |requests| - 1 && Inv(s, requests, i, maxBatchSize) && open == Take(s, requests[i])
    requires StaysOpen(open, requests, i, maxBatchSize)
    ensures Inv(open, requests, i + 1, maxBatchSize)
  {
  }

  lemma OpenBatch(s: State, open: State, requests: seq<Request>, i: nat, maxBatchSize: int)
    requires i < |requests| && Inv(s, requests, i, maxBatchSize) && open == Take(s, requests[i])
    ensures s.progress <= i && open.batch == requests[s.progress..i + 1] && Feasible(open.batch, maxBatchSize)
    ensures open.maxPromptLen == MaxPrompt(open.batch) && open.maxOutputLen == MaxOutput(open.batch)
  {
  }

  lemma CannotExtend(open: State, requests: seq<Request>, lo: nat, i: nat, maxBatchSize: int)
    requires lo <= i && i + 1 < |requests| && open.batch == requests[lo..i + 1]
    requires open.maxPromptLen == MaxPrompt(open.batch) && open.maxOutputLen == MaxOutput(open.batch)
    requires !StaysOpen(open, requests, i, maxBatchSize)
    ensures !Feasible(open.batch + [requests[i + 1]], maxBatchSize)
  {
  }

  /** Sending the batch. */
  lemma InvSend(s: State, open: State, requests: seq<Request>, i: nat, maxBatchSize: int)
    requires i < |requests| && Inv(s, requests, i, maxBatchSize) && open == Take(s, requests[i])
    requires !StaysOpen(open, requests, i, maxBatchSize)
    ensures Inv(Close(open), requests, i + 1, maxBatchSize)
  {
    OpenBatch(s, open, requests, i, maxBatchSize);
    if i + 1 < |requests| {
      CannotExtend(open, requests, s.progress, i, maxBatchSize);
    }
    Send(s.batches, s.newTokens, open.batch, requests, s.progress, i + 1, maxBatchSize);
    SendOpen(s, open, requests, i + 1, maxBatchSize);
  }

  lemma SendOpen(s: State, open: State, requests: seq<Request>, hi: nat, maxBatchSize: int)
    requires s.progress < hi <= |requests| && open.batch == requests[s.progress..hi]
    requires open.batches == s.batches && open.newTokens == s.newTokens && open.progress == s.progress
    requires Sent(s.batches + [open.batch], s.newTokens + [open.maxOutputLen], requests, hi, maxBatchSize)
    ensures Inv(Close(open), requests, hi, maxBatchSize)
  {
    Empty(s.batches + [open.batch], s.newTokens + [open.maxOutputLen], requests, hi, maxBatchSize);
  }

  lemma Empty(batches: seq<seq<Request>>, newTokens: seq<int>, requests: seq<Request>, hi: nat, maxBatchSize: int)
    requires hi <= |requests| && Sent(batches, newTokens, requests, hi, maxBatchSize)
    ensures Inv(State(batches, newTokens, hi, [], 0, 0), requests, hi, maxBatchSize)
  {
    assert requests[hi..hi] == [];
  }

  lemma {:induction false} LoopInv(requests: seq<Request>, n: nat, maxBatchSize: int)
    requires n <= |requests|
    ensures Inv(Loop(requests, n, maxBatchSize), requests, n, maxBatchSize)
  {
    if n == 0 {
      Empty([], [], requests, 0, maxBatchSize);
    } else {
      var s := Loop(requests, n - 1, maxBatchSize);
      var open := Take(s, requests[n - 1]);
      LoopInv(requests, n - 1, maxBatchSize);
      if StaysOpen(open, requests, n - 1, maxBatchSize) {
        InvContinue(s, open, requests, n - 1, maxBatchSize);
      } else {
        InvSend(s, open, requests, n - 1, maxBatchSize);
      }
    }
  }

  /** No division of the requests into feasible batches, in order, has fewer batches. */
  ghost predicate Fewest(batches: seq<seq<Request>>, requests: seq<Request>, maxBatchSize: int) {
    forall other :: Flatten(other) == requests && AllFeasible(other, maxBatchSize) ==> |batches| <= |other|
  }

  /** What has been sent at the end is a division of all requests with the fewest batches. */
  lemma SentAll(s: State, requests: seq<Request>, maxBatchSize: int)
    requires s == Loop(requests, |requests|, maxBatchSize)
    ensures s.progress == |requests| && Flatten(s.batches) == requests && AllFeasible(s.batches, maxBatchSize)
    ensures Fewest(s.batches, requests, maxBatchSize)
    ensures |s.newTokens| == |s.batches|
    ensures forall i :: 0 <= i < |s.batches| ==> s.newTokens[i] == MaxOutput(s.batches[i])
  {
    LoopInv(requests, |requests|, maxBatchSize);
    assert requests[..|requests|] == requests;
    forall other | Flatten(other) == requests && AllFeasible(other, maxBatchSize)
      ensures |s.batches| <= |other|
    {
      StaysAhead(s.batches, other, 0, maxBatchSize);
    }
  }

  lemma {:induction false} BatchesSized(batches: seq<seq<Request>>)
    requires Sized(Flatten(batches))
    ensures forall i :: 0 <= i < |batches| ==> Sized(batches[i])
  {
    if batches != [] {
      var b, more := batches[0], Flatten(batches[1..]);
      assert forall i :: 0 <= i < |b| ==> b[i] == Flatten(batches)[i];
      assert forall i :: 0 <= i < |more| ==> more[i] == Flatten(batches)[|b| + i];
      BatchesSized(batches[1..]);
    }
  }

  /** What was sent, request by request. */
  lemma SentWithinLimits(batches: seq<seq<Request>>, maxBatchSize: int, i: nat)
    requires Sized(Flatten(batches)) && AllFeasible(batches, maxBatchSize) && i < |batches|
    ensures |batches[i]| == 1 || (2 <= |batches[i]| <= maxBatchSize && Fits(batches[i]))
    ensures IsMaxOutput(batches[i], MaxOutput(batches[i]))
  {
    BatchesSized(batches);
    FeasibleIff(batches[i], maxBatchSize);
    MaximaAre(batches[i]);
  }

  /** `run_hf`: the requests, in order, each in exactly one batch; every batch within the limits; and
      no other order-preserving division within the limits has fewer batches.  `newTokens[i]` is the
      `max_new_tokens` given to `generate` with `batches[i]`, `progress` the progress bar at the end. */
  method RunHf(requests: seq<Request>, maxBatchSize: int)
    returns (batches: seq<seq<Request>>, newTokens: seq<int>, progress: nat)
    ensures Flatten(batches) == requests
    ensures AllFeasible(batches, maxBatchSize)
    ensures Fewest(batches, requests, maxBatchSize)
    ensures |newTokens| == |batches| && forall i :: 0 <= i < |batches| ==> newTokens[i] == MaxOutput(batches[i])
    ensures progress == |requests|
    ensures Sized(requests) ==> forall i :: 0 <= i < |batches| ==>
      (|batches[i]| == 1 || (|batches[i]| <= maxBatchSize && Fits(batches[i]))) && IsMaxOutput(batches[i], newTokens[i])
  {
    batches, newTokens, progress := [], [], 0;
    var batch: seq<Request> := [];
    var maxPromptLen, maxOutputLen := 0, 0;
    for i := 0 to |requests|
      invariant State(batches, newTokens, progress, batch, maxPromptLen, maxOutputLen)
             == Loop(requests, i, maxBatchSize)
    {
      batch := batch + [requests[i]];
      maxPromptLen := Max(maxPromptLen, requests[i].promptLen);
      maxOutputLen := Max(maxOutputLen, requests[i].outputLen);
      if |batch| < maxBatchSize && i != |requests| - 1 {
        var next := requests[i + 1];
        if Max(maxPromptLen, next.promptLen) + Max(maxOutputLen, next.outputLen) <= TOKEN_BUDGET {
          continue;
        }
      }
      batches, newTokens := batches + [batch], newTokens + [maxOutputLen];
      progress := progress + |batch|;
      batch := [];
      maxPromptLen, maxOutputLen := 0, 0;
    }
    SentAll(State(batches, newTokens, progress, batch, maxPromptLen, maxOutputLen), requests, maxBatchSize);
    if Sized(requests) {
      forall i | 0 <= i < |batches|
        ensures |batches[i]| == 1 || (|batches[i]| <= maxBatchSize && Fits(batches[i]))
        ensures IsMaxOutput(batches[i], newTokens[i])
      {
        SentWithinLimits(batches, maxBatchSize, i);
      }
    }
  }
}

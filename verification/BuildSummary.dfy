/** `Target` and the loop of `SummarizeEntries` that charges every target its weighted duration. */
module BuildSummary {
  import opened WeightedTime

  datatype Result<T> = Ok(value: T) | IndexError | KeyError | AssertionError

  datatype Summary = Summary(earliest: real, latest: real, totalCpuTime: real, weightedTotal: real, warned: bool)

  const EPSILON := 0.000002

  class Target {
    const start: real
    const end: real
    var targets: seq<string>
    var weightedDuration: real

    constructor (start: real, end: real)
      ensures this.start == start && this.end == end && targets == [] && weightedDuration == 0.0
    {
      this.start, this.end := start, end;
      targets, weightedDuration := [], 0.0;
    }

    function Duration(): real {
      end - start
    }

    method SetWeightedDuration(weightedDuration: real)
      modifies this`weightedDuration
      ensures this.weightedDuration == weightedDuration
    {
      this.weightedDuration := weightedDuration;
    }

    /** What `WeightedDuration()` asserts before it returns. */
    predicate AssertionPasses()
      reads this`weightedDuration
    {
      weightedDuration <= Duration() + EPSILON
    }

    /** `WeightedDuration()` with its runtime assertion. */
    method GetWeightedDuration() returns (r: Result<real>)
      ensures r.Ok? <==> AssertionPasses()
      ensures r.Ok? ==> r.value == weightedDuration
      ensures !r.Ok? ==> r.AssertionError?
    {
      if weightedDuration > Duration() + EPSILON {
        return AssertionError;
      }
      return Ok(weightedDuration);
    }
  }

  function Spans(entries: seq<Target>): (spans: seq<Span>)
    ensures |spans| == |entries|
  {
    seq(|entries|, i requires 0 <= i < |entries| => Span(entries[i].start, entries[i].end))
  }

  // ----- the running steps

  /** `ev` is the schedule of the steps.  That it is sorted and complete is used only where it is needed. */
  ghost predicate Planned(spans: seq<Span>, ev: seq<Event>) {
    && ev == Schedule(spans)
    && forall i :: 0 <= i < |ev| ==>
         ev[i].target < |spans|
         && ev[i] == if ev[i].stop then StopOf(spans, ev[i].target) else StartOf(spans, ev[i].target)
  }

  ghost predicate Started(spans: seq<Span>, ev: seq<Event>, t: nat, k: nat)
    requires t < |spans| && k <= |ev|
  {
    StartOf(spans, t) in ev[..k]
  }

  ghost predicate Stopped(spans: seq<Span>, ev: seq<Event>, t: nat, k: nat)
    requires t < |spans| && k <= |ev|
  {
    StopOf(spans, t) in ev[..k]
  }

  /** The steps started but not stopped by the first `k` events. */
  ghost function Running(spans: seq<Span>, ev: seq<Event>, k: nat): set<nat>
    requires k <= |ev|
  {
    set t: nat | t < |spans| && Started(spans, ev, t, k) && !Stopped(spans, ev, t, k)
  }

  lemma EventBefore(spans: seq<Span>, ev: seq<Event>, e: Event, k: nat)
    requires Planned(spans, ev) && 1 <= k < |ev| && ev[k - 1].time < ev[k].time
    requires e in ev
    ensures e in ev[..k] <==> e.time <= ev[k - 1].time
    ensures e !in ev[..k] <==> ev[k].time <= e.time
  {
    ScheduleFacts(spans);
    var i :| 0 <= i < |ev| && ev[i] == e;
    if i < k {
      assert ev[..k][i] == e;
      assert i < k - 1 ==> Leq(ev[i], ev[k - 1]);
    } else {
      assert i > k ==> Leq(ev[k], ev[i]);
      assert e !in ev[..k];
    }
  }

  /** Across a stretch of positive length, the running steps are exactly those that cover it. */
  lemma RunningIsCover(spans: seq<Span>, ev: seq<Event>, k: nat)
    requires Planned(spans, ev) && 1 <= k < |ev| && ev[k - 1].time < ev[k].time
    ensures Running(spans, ev, k) == Cover(spans, ev[k - 1].time, ev[k].time)
  {
    ScheduleFacts(spans);
    forall t: nat | t < |spans|
      ensures t in Running(spans, ev, k) <==> t in Cover(spans, ev[k - 1].time, ev[k].time)
    {
      EventBefore(spans, ev, StartOf(spans, t), k);
      EventBefore(spans, ev, StopOf(spans, t), k);
    }
  }

  /** What the sweep adds to `last_weighted_time` before event `k`. */
  ghost function Step(ev: seq<Event>, running: set<nat>, k: nat): real
    requires k < |ev|
  {
    PerTask(ev[k].time - ev[if k == 0 then 0 else k - 1].time, |running|)
  }

  lemma ChargedStep(spans: seq<Span>, ev: seq<Event>, t: nat, k: nat)
    requires Planned(spans, ev) && k < |ev|
    ensures Charged(spans, Grid(ev), t, k + 1)
         == Charged(spans, Grid(ev), t, k)
            + if t in Running(spans, ev, k) then Step(ev, Running(spans, ev, k), k) else 0.0
  {
    var g, running := Grid(ev), Running(spans, ev, k);
    if k == 0 {
      assert running == {};
    } else if ev[k - 1].time < ev[k].time {
      RunningIsCover(spans, ev, k);
    } else {
      ScheduleFacts(spans);
      assert Leq(ev[k - 1], ev[k]);
      NothingShared(spans, g[k - 1], g[k]);
      assert running != {} ==> Step(ev, running, k) == 0.0;
    }
  }

  lemma NothingShared(spans: seq<Span>, a: real, b: real)
    requires a == b
    ensures Share(spans, a, b) == 0.0
  {
  }

  /** How one more event changes what has started and stopped. */
  lemma EventMoves(spans: seq<Span>, ev: seq<Event>, k: nat, t: nat)
    requires Planned(spans, ev) && k < |ev| && t < |spans|
    ensures Started(spans, ev, t, k + 1) <==> Started(spans, ev, t, k) || ev[k] == StartOf(spans, t)
    ensures Stopped(spans, ev, t, k + 1) <==> Stopped(spans, ev, t, k) || ev[k] == StopOf(spans, t)
    ensures ev[k] == StartOf(spans, t) ==> !Started(spans, ev, t, k)
    ensures ev[k] == StopOf(spans, t) ==> !Stopped(spans, ev, t, k)
  {
    ScheduleFacts(spans);
    assert ev[..k + 1] == ev[..k] + [ev[k]];
    assert ev[k] !in ev[..k];
  }

  /** The start of a step never follows its stop, unless the step ends before it starts. */
  lemma StartBeforeStop(spans: seq<Span>, ev: seq<Event>, k: nat, t: nat)
    requires Planned(spans, ev) && k < |ev| && t < |spans|
    ensures ev[k] == StopOf(spans, t) ==> (Started(spans, ev, t, k) <==> spans[t].start <= spans[t].end)
    ensures ev[k] == StartOf(spans, t) && spans[t].start <= spans[t].end ==> !Stopped(spans, ev, t, k)
    ensures ev[k] == StartOf(spans, t) && Stopped(spans, ev, t, k) ==> spans[t].end < spans[t].start
  {
    ScheduleFacts(spans);
    var i :| 0 <= i < |ev| && ev[i] == StartOf(spans, t);
    var j :| 0 <= j < |ev| && ev[j] == StopOf(spans, t);
    if ev[k] == StopOf(spans, t) {
      assert j == k;
      if i < k {
        assert ev[..k][i] == StartOf(spans, t);
        assert Leq(ev[i], ev[k]);
      } else {
        assert Leq(ev[k], ev[i]);
      }
    }
    if ev[k] == StartOf(spans, t) {
      assert i == k;
      if j < k {
        assert Leq(ev[j], ev[k]);
      }
    }
  }

  // ----- one iteration of the loop

  /** The variables of the loop; `weights` are the durations set so far and `stopped` the targets they
      were set on. */
  datatype State = State(
    running: map<nat, real>, lastTime: real, lastWeightedTime: real, weightedTotal: real,
    weights: seq<real>, stopped: set<nat>)

  /** `last_weighted_time` once time has passed up to event `e`. */
  function Advance(s: State, e: Event): real {
    s.lastWeightedTime + PerTask(e.time - s.lastTime, |s.running.Keys|)
  }

  function Begin(s: State, e: Event): State {
    s.(running := s.running[e.target := Advance(s, e)], lastTime := e.time, lastWeightedTime := Advance(s, e))
  }

  function Finish(s: State, e: Event): State
    requires e.target < |s.weights| && e.target in s.running
  {
    var duration := Advance(s, e) - s.running[e.target];
    State(s.running - {e.target}, e.time, Advance(s, e), s.weightedTotal + duration,
          s.weights[e.target := duration], s.stopped + {e.target})
  }

  // ----- what the scan keeps

  ghost predicate Inv(spans: seq<Span>, ev: seq<Event>, k: nat, c: nat, s: State)
    requires k <= |ev| && c <= |ev|
  {
    && |s.weights| == |spans|
    && s.running.Keys == Running(spans, ev, k)
    && forall t: nat :: t < |spans| ==> InvAt(spans, ev, k, c, s, t)
  }

  /** What the scan keeps about step `t` when `k` events are handled and `c` grid points are charged. */
  ghost predicate InvAt(spans: seq<Span>, ev: seq<Event>, k: nat, c: nat, s: State, t: nat)
    requires k <= |ev| && c <= |ev| && t < |spans| == |s.weights|
  {
    var charged := Charged(spans, Grid(ev), t, c);
    && (t in s.running ==> s.lastWeightedTime - s.running[t] == charged)
    && (!Started(spans, ev, t, k) ==> charged == 0.0)
    && (Stopped(spans, ev, t, k) ==> s.weights[t] == charged && spans[t].start <= spans[t].end)
    && (t in s.stopped <==> Stopped(spans, ev, t, k))
  }

  /** Time passes up to event `k`. */
  lemma InvAdvance(spans: seq<Span>, ev: seq<Event>, k: nat, s: State, s': State)
    requires Planned(spans, ev) && k < |ev| && Inv(spans, ev, k, k, s)
    requires s' == s.(lastWeightedTime := s.lastWeightedTime + Step(ev, s.running.Keys, k))
    ensures Inv(spans, ev, k, k + 1, s')
  {
    var c := k + 1;
    forall t: nat | t < |spans|
      ensures InvAt(spans, ev, k, c, s', t)
    {
      assert InvAt(spans, ev, k, k, s, t);
      ChargedStep(spans, ev, t, k);
    }
  }

  lemma InvAtStart(spans: seq<Span>, ev: seq<Event>, k: nat, s: State, s': State, t: nat)
    requires Planned(spans, ev) && k < |ev| && !ev[k].stop
    requires t < |spans| == |s.weights| && InvAt(spans, ev, k, k + 1, s, t)
    requires s' == s.(running := s.running[ev[k].target := s.lastWeightedTime], lastTime := s'.lastTime)
    ensures InvAt(spans, ev, k + 1, k + 1, s', t)
    ensures t == ev[k].target ==> !Stopped(spans, ev, t, k)
  {
    EventMoves(spans, ev, k, t);
    StartBeforeStop(spans, ev, k, t);
  }

  /** A start event adds its step to the running ones. */
  lemma InvStart(spans: seq<Span>, ev: seq<Event>, k: nat, s: State, s': State)
    requires Planned(spans, ev) && k < |ev| && !ev[k].stop
    requires Inv(spans, ev, k, k + 1, s)
    requires s' == s.(running := s.running[ev[k].target := s.lastWeightedTime], lastTime := s'.lastTime)
    ensures Inv(spans, ev, k + 1, k + 1, s')
  {
    var c := k + 1;
    forall t: nat | t < |spans|
      ensures InvAt(spans, ev, c, c, s', t)
    {
      assert InvAt(spans, ev, k, c, s, t);
      InvAtStart(spans, ev, k, s, s', t);
    }
    assert InvAt(spans, ev, k, k + 1, s, ev[k].target);
    InvAtStart(spans, ev, k, s, s', ev[k].target);
    assert s'.running.Keys == s.running.Keys + {ev[k].target};
  }

  /** A stop event finds its step running unless the step ends before it starts. */
  lemma StopFindsStep(spans: seq<Span>, ev: seq<Event>, k: nat, s: State)
    requires Planned(spans, ev) && k < |ev| && ev[k].stop
    requires s.running.Keys == Running(spans, ev, k)
    ensures ev[k].target in s.running <==> spans[ev[k].target].start <= spans[ev[k].target].end
  {
    EventMoves(spans, ev, k, ev[k].target);
    StartBeforeStop(spans, ev, k, ev[k].target);
  }

  /** `s'` charges `target` what has passed since it started, and removes it. */
  predicate IsStop(s: State, s': State, target: nat) {
    && target < |s.weights| && target in s.running
    && s'.running == s.running - {target}
    && s'.lastWeightedTime == s.lastWeightedTime
    && s'.weights == s.weights[target := s.lastWeightedTime - s.running[target]]
    && s'.stopped == s.stopped + {target}
  }

  lemma InvAtStop(spans: seq<Span>, ev: seq<Event>, k: nat, s: State, s': State, t: nat)
    requires Planned(spans, ev) && k < |ev| && ev[k].stop && IsStop(s, s', ev[k].target)
    requires t < |spans| == |s.weights| && InvAt(spans, ev, k, k + 1, s, t)
    requires spans[ev[k].target].start <= spans[ev[k].target].end
    ensures InvAt(spans, ev, k + 1, k + 1, s', t)
  {
    EventMoves(spans, ev, k, t);
  }

  /** A stop event charges its step and removes it. */
  lemma InvStop(spans: seq<Span>, ev: seq<Event>, k: nat, s: State, s': State)
    requires Planned(spans, ev) && k < |ev| && ev[k].stop && IsStop(s, s', ev[k].target)
    requires Inv(spans, ev, k, k + 1, s)
    ensures Inv(spans, ev, k + 1, k + 1, s')
  {
    StopFindsStep(spans, ev, k, s);
    var c := k + 1;
    forall t: nat | t < |spans|
      ensures InvAt(spans, ev, c, c, s', t)
    {
      assert InvAt(spans, ev, k, c, s, t);
      InvAtStop(spans, ev, k, s, s', t);
    }
    assert s'.running.Keys == s.running.Keys - {ev[k].target};
  }

  lemma InvBegin(spans: seq<Span>, ev: seq<Event>, k: nat, s: State, s1: State, s': State)
    requires Planned(spans, ev) && k < |ev| && Inv(spans, ev, k, k, s) && !ev[k].stop
    requires s1 == s.(lastWeightedTime := s.lastWeightedTime + Step(ev, s.running.Keys, k))
    requires s' == s1.(running := s1.running[ev[k].target := s1.lastWeightedTime], lastTime := s'.lastTime)
    ensures Inv(spans, ev, k + 1, k + 1, s')
  {
    InvAdvance(spans, ev, k, s, s1);
    InvStart(spans, ev, k, s1, s');
  }

  lemma InvFinish(spans: seq<Span>, ev: seq<Event>, k: nat, s: State, s1: State, s': State)
    requires Planned(spans, ev) && k < |ev| && Inv(spans, ev, k, k, s) && ev[k].stop
    requires s1 == s.(lastWeightedTime := s.lastWeightedTime + Step(ev, s.running.Keys, k))
    requires IsStop(s1, s', ev[k].target)
    ensures Inv(spans, ev, k + 1, k + 1, s')
  {
    InvAdvance(spans, ev, k, s, s1);
    InvStop(spans, ev, k, s1, s');
  }

  /** The running total is the sum of the durations set. */
  ghost predicate TotalInv(spans: seq<Span>, ev: seq<Event>, k: nat, s: State)
    requires k <= |ev|
  {
    && |s.weights| == |spans|
    && s.weightedTotal == Sum(s.weights)
    && (forall t: nat :: t < |spans| && t !in s.stopped ==> s.weights[t] == 0.0)
    && (forall t :: t in s.stopped ==> t < |spans| && Stopped(spans, ev, t, k))
  }

  lemma TotalFinish(spans: seq<Span>, ev: seq<Event>, k: nat, s: State)
    requires Planned(spans, ev) && k < |ev| && TotalInv(spans, ev, k, s)
    requires ev[k].stop && ev[k].target in s.running
    ensures TotalInv(spans, ev, k + 1, Finish(s, ev[k]))
  {
    assert ev[..k + 1] == ev[..k] + [ev[k]];
    var t := ev[k].target;
    EventMoves(spans, ev, k, t);
    SumUpdate(s.weights, t, Finish(s, ev[k]).weights[t]);
  }

  /** Everything the loop keeps. */
  ghost predicate Good(spans: seq<Span>, ev: seq<Event>, k: nat, s: State)
    requires k <= |ev| && ev != []
  {
    && Inv(spans, ev, k, k, s)
    && TotalInv(spans, ev, k, s)
    && s.lastTime == ev[if k == 0 then 0 else k - 1].time
  }

  lemma GoodInit(spans: seq<Span>, ev: seq<Event>, weights: seq<real>)
    requires ev != [] && |weights| == |spans| && forall t :: 0 <= t < |spans| ==> weights[t] == 0.0
    ensures Good(spans, ev, 0, State(map[], ev[0].time, 0.0, 0.0, weights, {}))
  {
    assert ev[..0] == [];
    SumZero(weights);
  }

  lemma GoodBegin(spans: seq<Span>, ev: seq<Event>, k: nat, s: State)
    requires Planned(spans, ev) && k < |ev| && Good(spans, ev, k, s) && !ev[k].stop
    ensures Good(spans, ev, k + 1, Begin(s, ev[k]))
  {
    InvBegin(spans, ev, k, s, s.(lastWeightedTime := Advance(s, ev[k])), Begin(s, ev[k]));
    assert ev[..k + 1] == ev[..k] + [ev[k]];
  }

  lemma GoodFinish(spans: seq<Span>, ev: seq<Event>, k: nat, s: State)
    requires Planned(spans, ev) && k < |ev| && Good(spans, ev, k, s) && ev[k].stop
    ensures ev[k].target in s.running ==> Good(spans, ev, k + 1, Finish(s, ev[k]))
    ensures ev[k].target !in s.running ==> !WellFormed(spans)
  {
    StopFindsStep(spans, ev, k, s);
    if ev[k].target in s.running {
      InvFinish(spans, ev, k, s, s.(lastWeightedTime := Advance(s, ev[k])), Finish(s, ev[k]));
      TotalFinish(spans, ev, k, s);
    }
  }

  /** Every event handled: nothing is left running and every step is charged in full. */
  lemma InvDone(spans: seq<Span>, ev: seq<Event>, s: State)
    requires Planned(spans, ev) && Inv(spans, ev, |ev|, |ev|, s)
    ensures s.running == map[] && WellFormed(spans)
    ensures s.weights == Charges(spans, Grid(ev), |spans|, |ev|)
    ensures forall t: nat :: t < |spans| ==> t in s.stopped
  {
    ScheduleFacts(spans);
    assert ev[..|ev|] == ev;
    forall t: nat | t < |spans|
      ensures t !in s.running && t in s.stopped && spans[t].start <= spans[t].end
      ensures s.weights[t] == Charged(spans, Grid(ev), t, |ev|)
    {
      assert InvAt(spans, ev, |ev|, |ev|, s, t);
    }
    assert s.running.Keys == {};
  }

  // ----- the states of a scan

  predicate Follows(s: State, e: Event, s': State) {
    if !e.stop then s' == Begin(s, e)
    else e.target < |s.weights| && e.target in s.running && s' == Finish(s, e)
  }

  /** The loop can have the variables `s` after `k` events. */
  ghost predicate Reached(n: nat, ev: seq<Event>, k: nat, s: State)
    requires ev != [] && k <= |ev|
    decreases k, 1
  {
    if k == 0 then s == State(map[], ev[0].time, 0.0, 0.0, seq(n, _ => 0.0), {})
    else exists s0 :: ReachedBefore(n, ev, k, s0) && Follows(s0, ev[k - 1], s)
  }

  ghost predicate ReachedBefore(n: nat, ev: seq<Event>, k: nat, s: State)
    requires 0 < k <= |ev|
    decreases k, 0
  {
    Reached(n, ev, k - 1, s)
  }

  lemma ReachedNext(n: nat, ev: seq<Event>, k: nat, s: State, s': State)
    requires k < |ev| && Reached(n, ev, k, s) && Follows(s, ev[k], s')
    ensures Reached(n, ev, k + 1, s')
  {
    assert ReachedBefore(n, ev, k + 1, s);
  }

  lemma {:induction false} ReachedIsGood(spans: seq<Span>, ev: seq<Event>, k: nat, s: State)
    requires Planned(spans, ev) && ev != [] && k <= |ev| && Reached(|spans|, ev, k, s)
    ensures Good(spans, ev, k, s)
  {
    if k == 0 {
      GoodInit(spans, ev, s.weights);
    } else {
      var s0 :| ReachedBefore(|spans|, ev, k, s0) && Follows(s0, ev[k - 1], s);
      ReachedIsGood(spans, ev, k - 1, s0);
      if ev[k - 1].stop {
        GoodFinish(spans, ev, k - 1, s0);
      } else {
        GoodBegin(spans, ev, k - 1, s0);
      }
    }
  }

  /** A stop event that does not find its step belongs to a step that ends before it starts. */
  lemma ReachedStuck(spans: seq<Span>, ev: seq<Event>, k: nat, s: State)
    requires Planned(spans, ev) && k < |ev| && Reached(|spans|, ev, k, s)
    requires ev[k].stop && ev[k].target !in s.running
    ensures !WellFormed(spans)
  {
    ReachedIsGood(spans, ev, k, s);
    GoodFinish(spans, ev, k, s);
  }

  /** What every complete scan ends with. */
  lemma ReachedEnd(spans: seq<Span>, ev: seq<Event>, s: State)
    requires Planned(spans, ev) && ev != [] && Reached(|spans|, ev, |ev|, s)
    ensures s.running == map[] && WellFormed(spans)
    ensures s.weights == Charges(spans, Grid(ev), |spans|, |ev|)
    ensures s.weightedTotal == Sum(Charges(spans, Grid(ev), |spans|, |ev|))
    ensures forall t: nat :: t < |spans| ==> t in s.stopped
  {
    ReachedIsGood(spans, ev, |ev|, s);
    InvDone(spans, ev, s);
  }

  /** The scan of the sorted events.  It succeeds exactly when no step ends before it starts; then nothing
      is left running, and every target holds its weighted duration. */
  method Sweep(entries: seq<Target>, ev: seq<Event>) returns (r: Result<real>)
    requires forall i, j :: 0 <= i < j < |entries| ==> entries[i] != entries[j]
    requires Planned(Spans(entries), ev) && ev != []
    modifies entries`weightedDuration
    ensures r.Ok? || r.KeyError?
    ensures r.Ok? <==> WellFormed(Spans(entries))
    ensures r.Ok? ==> Weights(entries) == Charges(Spans(entries), Grid(ev), |entries|, |ev|)
    ensures r.Ok? ==> r.value == Sum(Weights(entries))
  {
    ghost var weights, stopped: set<nat> := seq(|entries|, _ => 0.0), {};
    var weightedTotal := 0.0;
    var running: map<nat, real> := map[];
    var lastTime := ev[0].time;
    var lastWeightedTime := 0.0;
    for k := 0 to |ev|
      invariant |weights| == |entries|
      invariant Reached(|entries|, ev, k,
                        State(running, lastTime, lastWeightedTime, weightedTotal, weights, stopped))
      invariant forall t: nat :: t < |entries| && t in stopped ==> entries[t].weightedDuration == weights[t]
    {
      ghost var s := State(running, lastTime, lastWeightedTime, weightedTotal, weights, stopped);
      var event := ev[k];
      var numRunning := |running.Keys|;
      if numRunning > 0 {
        lastWeightedTime := lastWeightedTime + PerTask(event.time - lastTime, numRunning);
      }
      assert lastWeightedTime == Advance(s, event);
      if !event.stop {
        running := running[event.target := lastWeightedTime];
      } else {
        if event.target !in running {
          ReachedStuck(Spans(entries), ev, k, s);
          return KeyError;
        }
        var weightedDuration := lastWeightedTime - running[event.target];
        entries[event.target].SetWeightedDuration(weightedDuration);
        weightedTotal := weightedTotal + weightedDuration;
        running := running - {event.target};
        weights, stopped := weights[event.target := weightedDuration], stopped + {event.target};
      }
      lastTime := event.time;
      ReachedNext(|entries|, ev, k, s,
                  State(running, lastTime, lastWeightedTime, weightedTotal, weights, stopped));
    }
    ReachedEnd(Spans(entries), ev, State(running, lastTime, lastWeightedTime, weightedTotal, weights, stopped));
    assert |running| == 0;
    assert Weights(entries) == weights;
    r := Ok(weightedTotal);
  }

  ghost function Weights(entries: seq<Target>): (w: seq<real>)
    reads entries
    ensures |w| == |entries|
  {
    seq(|entries|, i requires 0 <= i < |entries| reads entries => entries[i].weightedDuration)
  }

  // ----- `SummarizeEntries` up to its warning

  predicate NonNegative(spans: seq<Span>) {
    forall t :: 0 <= t < |spans| ==> 0.0 <= spans[t].start
  }

  function Durations(spans: seq<Span>): seq<real> {
    seq(|spans|, i requires 0 <= i < |spans| => spans[i].end - spans[i].start)
  }

  /** The stretch between the earliest start and the latest end during which nothing ran. */
  function IdleTime(spans: seq<Span>): real
    requires spans != []
  {
    Latest(spans) - Earliest(spans) - BusyTime(spans)
  }

  /** The first loop: the extremes, the total duration and the unsorted events. */
  method Collect(entries: seq<Target>)
    returns (earliest: real, latest: real, totalCpuTime: real, events: seq<Event>)
    ensures events == Events(Spans(entries), |entries|)
    ensures totalCpuTime == Sum(Durations(Spans(entries)))
    ensures entries != [] && NonNegative(Spans(entries)) && WellFormed(Spans(entries)) ==>
            earliest == Earliest(Spans(entries)) && latest == Latest(Spans(entries))
  {
    ghost var spans := Spans(entries);
    earliest, latest, totalCpuTime, events := -1.0, 0.0, 0.0, [];
    for i := 0 to |entries|
      invariant events == Events(spans, i)
      invariant totalCpuTime == Sum(Durations(spans)[..i])
      invariant i == 0 ==> earliest < 0.0 && latest == 0.0
      invariant i > 0 && NonNegative(spans) && WellFormed(spans) ==>
        earliest == Earliest(spans[..i]) >= 0.0 && latest == Latest(spans[..i])
    {
      var target := entries[i];
      assert spans[..i + 1][..i] == spans[..i];
      assert Durations(spans)[..i + 1][..i] == Durations(spans)[..i];
      if earliest < 0.0 || target.start < earliest {
        earliest := target.start;
      }
      if target.end > latest {
        latest := target.end;
      }
      totalCpuTime := totalCpuTime + target.Duration();
      events := events + [Event(target.start, false, i)];
      events := events + [Event(target.end, true, i)];
    }
    assert spans[..|spans|] == spans;
    assert Durations(spans)[..|spans|] == Durations(spans);
  }

  lemma SchedulePlanned(spans: seq<Span>)
    ensures Planned(spans, Schedule(spans)) && |Schedule(spans)| == 2 * |spans|
  {
    ScheduleFacts(spans);
  }

  /** `SummarizeEntries` up to its warning.  It fails on an empty list and on a step that ends before it
      starts.  Otherwise every target gets its weighted duration, at most its duration, so the assertion in
      `WeightedDuration()` cannot fire; the total is the busy time; and the warning tells whether the build
      was idle for more than 500. */
  method SummarizeEntries(entries: seq<Target>) returns (r: Result<Summary>)
    requires forall i, j :: 0 <= i < j < |entries| ==> entries[i] != entries[j]
    modifies entries`weightedDuration
    ensures r.IndexError? <==> entries == []
    ensures r.Ok? <==> entries != [] && WellFormed(Spans(entries))
    ensures r.Ok? || r.KeyError? || r.IndexError?
    ensures r.Ok? ==> forall t: nat :: t < |entries| ==>
      entries[t].weightedDuration == WeightedDuration(Spans(entries), t)
      && 0.0 <= entries[t].weightedDuration <= entries[t].Duration()
    ensures r.Ok? ==> forall t: nat :: t < |entries| ==> entries[t].AssertionPasses()
    ensures r.Ok? ==> r.value.weightedTotal == BusyTime(Spans(entries))
    ensures r.Ok? ==> r.value.totalCpuTime == Sum(Durations(Spans(entries)))
    ensures r.Ok? && NonNegative(Spans(entries)) ==>
      && r.value.earliest == Earliest(Spans(entries)) && r.value.latest == Latest(Spans(entries))
      && 0.0 <= IdleTime(Spans(entries))
      && (r.value.warned <==> IdleTime(Spans(entries)) > 500.0)
  {
    ghost var spans := Spans(entries);
    var earliest, latest, totalCpuTime, events := Collect(entries);
    var length := latest - earliest;
    SchedulePlanned(spans);
    events := Sort(events);
    if |events| == 0 {
      return IndexError;
    }
    var total := Sweep(entries, events);
    if total.KeyError? {
      return KeyError;
    }
    var weightedTotal := total.value;
    var difference := length - weightedTotal;
    var warned := (if difference < 0.0 then -difference else difference) > 500.0;
    r := Ok(Summary(earliest, latest, totalCpuTime, weightedTotal, warned));

    ChargesSumToBusy(spans, Grid(events), |events|);
    BusyTimeBound(spans);
    forall t: nat | t < |entries|
      ensures entries[t].weightedDuration == WeightedDuration(spans, t)
      ensures 0.0 <= WeightedDuration(spans, t) <= entries[t].Duration()
    {
      assert Weights(entries)[t] == Charged(spans, Grid(events), t, |events|);
      WeightedAtMostDuration(spans, t);
    }
  }
}

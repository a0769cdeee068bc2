/** The sweep of `SummarizeEntries`: start and stop events in time order, a map of the running steps,
    and a running total of elapsed time divided by the number of running steps. */
module WeightedTime {

  /** The two times of a build step. */
  datatype Span = Span(start: real, end: real)

  /** An entry of `task_start_stop_times`; the target is named by its index in the list of entries. */
  datatype Event = Event(time: real, stop: bool, target: nat)

  // ----- sorting the events

  /** The order of the sort key `(time, 'start' or 'stop')`. */
  predicate Leq(a: Event, b: Event) {
    a.time < b.time || (a.time == b.time && (a.stop ==> b.stop))
  }

  predicate Sorted(events: seq<Event>) {
    forall i, j :: 0 <= i < j < |events| ==> Leq(events[i], events[j])
  }

  predicate Distinct(events: seq<Event>) {
    forall i, j :: 0 <= i < j < |events| ==> events[i] != events[j]
  }

  /** Insertion after every event that is not larger. */
  function Insert(e: Event, events: seq<Event>): seq<Event> {
    var n := |events|;
    if n == 0 || Leq(events[n - 1], e) then events + [e] else Insert(e, events[..n - 1]) + [events[n - 1]]
  }

  /** The stable sort. */
  function Sort(events: seq<Event>): seq<Event> {
    var n := |events|;
    if n == 0 then [] else Insert(events[n - 1], Sort(events[..n - 1]))
  }

  lemma {:induction false} InsertFacts(e: Event, events: seq<Event>)
    requires Sorted(events)
    ensures Sorted(Insert(e, events)) && |Insert(e, events)| == |events| + 1
    ensures forall x :: x in Insert(e, events) <==> x == e || x in events
    ensures Distinct(events) && e !in events ==> Distinct(Insert(e, events))
  {
    var n := |events|;
    if n > 0 && !Leq(events[n - 1], e) {
      var front, last := events[..n - 1], events[n - 1];
      InsertFacts(e, front);
      assert events == front + [last];
      var r := Insert(e, front);
      forall i | 0 <= i < |r|
        ensures Leq(r[i], last)
        ensures Distinct(events) && e !in events ==> r[i] != last
      {
        assert r[i] in r;
      }
    }
  }

  lemma {:induction false} SortFacts(events: seq<Event>)
    ensures Sorted(Sort(events)) && |Sort(events)| == |events|
    ensures forall x :: x in Sort(events) <==> x in events
    ensures Distinct(events) ==> Distinct(Sort(events))
  {
    var n := |events|;
    if n > 0 {
      SortFacts(events[..n - 1]);
      InsertFacts(events[n - 1], Sort(events[..n - 1]));
      assert events == events[..n - 1] + [events[n - 1]];
    }
  }

  /** Events alike but for their targets are in the order of their targets. */
  predicate Stable(events: seq<Event>) {
    forall i, j :: 0 <= i < j < |events| && events[i].time == events[j].time && events[i].stop == events[j].stop ==>
      events[i].target < events[j].target
  }

  /** `e` comes after every event it is alike to. */
  predicate LastOfKind(e: Event, events: seq<Event>) {
    forall x :: x in events && x.time == e.time && x.stop == e.stop ==> x.target < e.target
  }

  lemma {:induction false} InsertIsStable(e: Event, events: seq<Event>)
    requires Sorted(events) && Stable(events) && LastOfKind(e, events)
    ensures Stable(Insert(e, events))
  {
    var n := |events|;
    if n > 0 && !Leq(events[n - 1], e) {
      var front, last := events[..n - 1], events[n - 1];
      InsertIsStable(e, front);
      InsertFacts(e, front);
      var r := Insert(e, front);
      forall i | 0 <= i < |r| && r[i].time == last.time && r[i].stop == last.stop ensures r[i].target < last.target {
        assert r[i] in r;
      }
    } else {
      assert forall i :: 0 <= i < n ==> events[i] in events;
    }
  }

  lemma {:induction false} SortIsStable(events: seq<Event>)
    requires forall i :: 0 <= i < |events| ==> LastOfKind(events[i], events[..i])
    ensures Stable(Sort(events))
  {
    var n := |events|;
    if n > 0 {
      var front := events[..n - 1];
      forall i | 0 <= i < |front| ensures LastOfKind(front[i], front[..i]) {
        assert front[..i] == events[..i] && LastOfKind(events[i], events[..i]);
      }
      SortIsStable(front);
      SortFacts(front);
      InsertIsStable(events[n - 1], Sort(front));
    }
  }

  // ----- the events of a list of steps

  function StartOf(spans: seq<Span>, t: nat): Event
    requires t < |spans|
  {
    Event(spans[t].start, false, t)
  }

  function StopOf(spans: seq<Span>, t: nat): Event
    requires t < |spans|
  {
    Event(spans[t].end, true, t)
  }

  /** `task_start_stop_times` before the sort, for the first `n` steps. */
  function Events(spans: seq<Span>, n: nat): seq<Event>
    requires n <= |spans|
  {
    seq(2 * n, i requires 0 <= i < 2 * n => if i % 2 == 0 then StartOf(spans, i / 2) else StopOf(spans, i / 2))
  }

  /** The sorted events of the steps, each exactly once. */
  ghost predicate IsSchedule(spans: seq<Span>, ev: seq<Event>) {
    && Sorted(ev) && Distinct(ev)
    && (forall t :: 0 <= t < |spans| ==> StartOf(spans, t) in ev && StopOf(spans, t) in ev)
    && (forall i :: 0 <= i < |ev| ==>
          ev[i].target < |spans|
          && ev[i] == if ev[i].stop then StopOf(spans, ev[i].target) else StartOf(spans, ev[i].target))
  }

  function Schedule(spans: seq<Span>): seq<Event> {
    Sort(Events(spans, |spans|))
  }

  lemma EventsDistinct(spans: seq<Span>)
    ensures Distinct(Events(spans, |spans|))
  {
  }

  lemma EventsComplete(spans: seq<Span>, t: nat)
    requires t < |spans|
    ensures StartOf(spans, t) in Events(spans, |spans|) && StopOf(spans, t) in Events(spans, |spans|)
  {
    var raw := Events(spans, |spans|);
    assert raw[2 * t] == StartOf(spans, t) && raw[2 * t + 1] == StopOf(spans, t);
  }

  lemma EventsSound(spans: seq<Span>, e: Event)
    requires e in Events(spans, |spans|)
    ensures e.target < |spans|
    ensures e == if e.stop then StopOf(spans, e.target) else StartOf(spans, e.target)
  {
  }

  lemma ScheduleFacts(spans: seq<Span>)
    ensures IsSchedule(spans, Schedule(spans)) && |Schedule(spans)| == 2 * |spans|
  {
    var raw, ev := Events(spans, |spans|), Schedule(spans);
    SortFacts(raw);
    EventsDistinct(spans);
    forall t | 0 <= t < |spans|
      ensures StartOf(spans, t) in ev && StopOf(spans, t) in ev
    {
      EventsComplete(spans, t);
    }
    forall i | 0 <= i < |ev|
      ensures ev[i].target < |spans|
      ensures ev[i] == if ev[i].stop then StopOf(spans, ev[i].target) else StartOf(spans, ev[i].target)
    {
      EventsSound(spans, ev[i]);
    }
  }

  /** The sort keeps the order of the steps among starts, and among stops, of one time. */
  lemma ScheduleIsStable(spans: seq<Span>)
    ensures Stable(Schedule(spans))
  {
    var raw := Events(spans, |spans|);
    forall i | 0 <= i < |raw| ensures LastOfKind(raw[i], raw[..i]) {
      forall x | x in raw[..i] && x.stop == raw[i].stop ensures x.target < raw[i].target {
        var j :| 0 <= j < i && raw[j] == x;
        assert raw[i] == if i % 2 == 0 then StartOf(spans, i / 2) else StopOf(spans, i / 2);
        assert raw[j] == if j % 2 == 0 then StartOf(spans, j / 2) else StopOf(spans, j / 2);
      }
    }
    SortIsStable(raw);
  }

  // ----- what a weighted duration is

  /** The steps that run throughout `[a, b]`. */
  function Cover(spans: seq<Span>, a: real, b: real): set<nat> {
    set t: nat | t < |spans| && spans[t].start <= a && b <= spans[t].end
  }

  /** `dt` divided evenly among `n` running steps. */
  function PerTask(dt: real, n: nat): real {
    if n == 0 then 0.0 else dt / n as real
  }

  /** The part of `[a, b]` that each step running through it is charged. */
  function Share(spans: seq<Span>, a: real, b: real): real {
    PerTask(b - a, |Cover(spans, a, b)|)
  }

  /** The time axis cut at every start and stop. */
  function Grid(ev: seq<Event>): (g: seq<real>)
    ensures |g| == |ev|
  {
    seq(|ev|, i requires 0 <= i < |ev| => ev[i].time)
  }

  /** What step `t` is charged over the first `k` points of the grid. */
  function Charged(spans: seq<Span>, g: seq<real>, t: nat, k: nat): real
    requires k <= |g|
  {
    if k < 2 then 0.0
    else Charged(spans, g, t, k - 1)
         + if t in Cover(spans, g[k - 2], g[k - 1]) then Share(spans, g[k - 2], g[k - 1]) else 0.0
  }

  /** The time within the first `k` points of the grid during which at least one step was running. */
  function Busy(spans: seq<Span>, g: seq<real>, k: nat): real
    requires k <= |g|
  {
    if k < 2 then 0.0
    else Busy(spans, g, k - 1) + if Cover(spans, g[k - 2], g[k - 1]) == {} then 0.0 else g[k - 1] - g[k - 2]
  }

  function GridOf(spans: seq<Span>): seq<real> {
    Grid(Schedule(spans))
  }

  /** The elapsed time of step `t`, each stretch divided by the number of steps running during it. */
  function WeightedDuration(spans: seq<Span>, t: nat): real {
    var g := GridOf(spans);
    Charged(spans, g, t, |g|)
  }

  function BusyTime(spans: seq<Span>): real {
    var g := GridOf(spans);
    Busy(spans, g, |g|)
  }

  function Sum(xs: seq<real>): real {
    if xs == [] then 0.0 else Sum(xs[..|xs| - 1]) + xs[|xs| - 1]
  }

  // ----- conservation

  lemma {:induction false} SumUpdate(xs: seq<real>, t: nat, x: real)
    requires t < |xs|
    ensures Sum(xs[t := x]) == Sum(xs) - xs[t] + x
  {
    var n := |xs| - 1;
    if t == n {
      assert xs[t := x][..n] == xs[..n];
    } else {
      assert xs[t := x][..n] == xs[..n][t := x];
      SumUpdate(xs[..n], t, x);
    }
  }

  function Charges(spans: seq<Span>, g: seq<real>, n: nat, k: nat): seq<real>
    requires k <= |g|
  {
    seq(n, (t: nat) => Charged(spans, g, t, k))
  }

  /** Adding `c` at the members of `s` adds `c` that many times. */
  lemma {:induction false} SumStep(xs: seq<real>, ys: seq<real>, s: set<nat>, c: real)
    requires |xs| == |ys| && forall t: nat :: t < |xs| ==> ys[t] == xs[t] + if t in s then c else 0.0
    requires forall t :: t in s ==> t < |xs|
    ensures Sum(ys) == Sum(xs) + Times(|s|, c)
  {
    var n := |xs|;
    if n == 0 {
      assert s == {};
    } else {
      var s' := s - {n - 1};
      SumStep(xs[..n - 1], ys[..n - 1], s', c);
      assert n - 1 in s ==> s == s' + {n - 1} && |s| == |s'| + 1;
      assert n - 1 !in s ==> s == s';
    }
  }

  function Times(n: nat, c: real): real {
    if n == 0 then 0.0 else Times(n - 1, c) + c
  }

  lemma {:induction false} TimesIsProduct(n: nat, c: real)
    ensures Times(n, c) == n as real * c
  {
    if n > 0 {
      TimesIsProduct(n - 1, c);
      assert (n - 1) as real * c == n as real * c - c;
    }
  }

  lemma {:induction false} ChargesSumToBusy(spans: seq<Span>, g: seq<real>, k: nat)
    requires k <= |g|
    ensures Sum(Charges(spans, g, |spans|, k)) == Busy(spans, g, k)
  {
    if k < 2 {
      SumZero(Charges(spans, g, |spans|, k));
    } else {
      ChargesSumToBusy(spans, g, k - 1);
      var cover, share := Cover(spans, g[k - 2], g[k - 1]), Share(spans, g[k - 2], g[k - 1]);
      SumStep(Charges(spans, g, |spans|, k - 1), Charges(spans, g, |spans|, k), cover, share);
      TimesIsProduct(|cover|, share);
      if cover != {} {
        Quotient(g[k - 1] - g[k - 2], |cover|);
      }
    }
  }

  lemma Quotient(x: real, n: nat)
    requires n > 0
    ensures n as real * (x / n as real) == x
  {
  }

  lemma {:induction false} SumZero(xs: seq<real>)
    requires forall i :: 0 <= i < |xs| ==> xs[i] == 0.0
    ensures Sum(xs) == 0.0
  {
    if xs != [] {
      SumZero(xs[..|xs| - 1]);
    }
  }

  /** Conservation: the weighted durations add up to the time during which some step was running. */
  lemma Conservation(spans: seq<Span>)
    ensures Sum(seq(|spans|, (t: nat) => WeightedDuration(spans, t))) == BusyTime(spans)
  {
    var g := GridOf(spans);
    ChargesSumToBusy(spans, g, |g|);
    assert seq(|spans|, (t: nat) => WeightedDuration(spans, t)) == Charges(spans, g, |spans|, |g|);
  }

  // ----- bounds

  predicate Ascending(g: seq<real>) {
    forall i, j :: 0 <= i <= j < |g| ==> g[i] <= g[j]
  }

  predicate WellFormed(spans: seq<Span>) {
    forall t :: 0 <= t < |spans| ==> spans[t].start <= spans[t].end
  }

  /** An ascending cut of the time axis that has every start and end, and possibly other points. */
  ghost predicate IsCut(spans: seq<Span>, h: seq<real>) {
    Ascending(h) && forall t :: 0 <= t < |spans| ==> spans[t].start in h && spans[t].end in h
  }

  /** A cut that has no other points. */
  ghost predicate IsGrid(spans: seq<Span>, g: seq<real>) {
    IsCut(spans, g) && forall i :: 0 <= i < |g| ==> IsEndpoint(spans, g[i])
  }

  ghost predicate IsEndpoint(spans: seq<Span>, x: real) {
    exists t :: 0 <= t < |spans| && (spans[t].start == x || spans[t].end == x)
  }

  lemma GridOfSchedule(spans: seq<Span>, ev: seq<Event>)
    requires IsSchedule(spans, ev)
    ensures IsGrid(spans, Grid(ev))
  {
    var g := Grid(ev);
    forall t | 0 <= t < |spans|
      ensures spans[t].start in g && spans[t].end in g
    {
      var i :| 0 <= i < |ev| && ev[i] == StartOf(spans, t);
      var j :| 0 <= j < |ev| && ev[j] == StopOf(spans, t);
      assert g[i] == spans[t].start && g[j] == spans[t].end;
    }
    forall i | 0 <= i < |g|
      ensures IsEndpoint(spans, g[i])
    {
      var t := ev[i].target;
      assert spans[t].start == g[i] || spans[t].end == g[i];
    }
  }

  lemma GridFacts(spans: seq<Span>)
    ensures IsGrid(spans, GridOf(spans))
  {
    ScheduleFacts(spans);
    GridOfSchedule(spans, Schedule(spans));
  }

  function Min(a: real, b: real): real {
    if a < b then a else b
  }

  lemma {:induction false} ChargedBounds(spans: seq<Span>, g: seq<real>, t: nat, k: nat)
    requires t < |spans| && spans[t].start <= spans[t].end
    requires Ascending(g) && 1 <= k <= |g|
    ensures 0.0 <= Charged(spans, g, t, k)
    ensures spans[t].start <= g[k - 1] ==> Charged(spans, g, t, k) <= Min(g[k - 1], spans[t].end) - spans[t].start
    ensures g[k - 1] < spans[t].start ==> Charged(spans, g, t, k) == 0.0
  {
    if k >= 2 {
      ChargedBounds(spans, g, t, k - 1);
      var a, b := g[k - 2], g[k - 1];
      if t in Cover(spans, a, b) {
        ShareBounds(spans, a, b, t);
      }
    }
  }

  lemma ShareBounds(spans: seq<Span>, a: real, b: real, t: nat)
    requires a <= b && t in Cover(spans, a, b)
    ensures 0.0 <= Share(spans, a, b) <= b - a
  {
    var n := |Cover(spans, a, b)|;
    assert Cover(spans, a, b) != {} && n >= 1;
    var q := (b - a) / n as real;
    assert q * n as real == b - a;
    assert q >= 0.0;
    assert q * (n as real - 1.0) >= 0.0;
  }

  /** The promise of `WeightedDuration()`: never negative and never more than the duration. */
  lemma WeightedAtMostDuration(spans: seq<Span>, t: nat)
    requires t < |spans| && spans[t].start <= spans[t].end
    ensures 0.0 <= WeightedDuration(spans, t) <= spans[t].end - spans[t].start
  {
    GridFacts(spans);
    var g := GridOf(spans);
    var i :| 0 <= i < |g| && g[i] == spans[t].start;
    ChargedBounds(spans, g, t, |g|);
  }

  // ----- busy time against elapsed time

  function Earliest(spans: seq<Span>): real
    requires spans != []
  {
    var n := |spans| - 1;
    if n == 0 then spans[0].start else Min(Earliest(spans[..n]), spans[n].start)
  }

  function Latest(spans: seq<Span>): real
    requires spans != []
  {
    var n := |spans| - 1;
    if n == 0 then spans[0].end
    else if Latest(spans[..n]) < spans[n].end then spans[n].end
    else Latest(spans[..n])
  }

  lemma {:induction false} Extremes(spans: seq<Span>)
    requires spans != []
    ensures forall t :: 0 <= t < |spans| ==> Earliest(spans) <= spans[t].start && spans[t].end <= Latest(spans)
    ensures exists t :: 0 <= t < |spans| && spans[t].start == Earliest(spans)
    ensures exists t :: 0 <= t < |spans| && spans[t].end == Latest(spans)
  {
    var n := |spans| - 1;
    if n > 0 {
      Extremes(spans[..n]);
      var i :| 0 <= i < n && spans[..n][i].start == Earliest(spans[..n]);
      var j :| 0 <= j < n && spans[..n][j].end == Latest(spans[..n]);
      assert spans[i].start == Earliest(spans) || spans[n].start == Earliest(spans);
      assert spans[j].end == Latest(spans) || spans[n].end == Latest(spans);
    } else {
      assert spans[0].start == Earliest(spans) && spans[0].end == Latest(spans);
    }
  }

  lemma GridEnds(spans: seq<Span>, g: seq<real>)
    requires spans != [] && WellFormed(spans) && IsGrid(spans, g)
    ensures g != [] && g[0] == Earliest(spans) && g[|g| - 1] == Latest(spans)
  {
    Extremes(spans);
    assert spans[0].start in g;
    assert Earliest(spans) in g && Latest(spans) in g;
    assert IsEndpoint(spans, g[0]) && IsEndpoint(spans, g[|g| - 1]);
  }

  /** Some step is running just after `x`. */
  ghost predicate RunningAt(spans: seq<Span>, x: real) {
    exists t :: 0 <= t < |spans| && spans[t].start <= x < spans[t].end
  }

  /** Every stretch of positive length among the first `k` grid points is covered. */
  ghost predicate NoIdleCell(spans: seq<Span>, g: seq<real>, k: nat)
    requires k <= |g|
  {
    forall i {:trigger g[i]} :: 0 <= i < k - 1 && g[i] < g[i + 1] ==> Cover(spans, g[i], g[i + 1]) != {}
  }

  lemma {:induction false} BusyAtMostElapsed(spans: seq<Span>, g: seq<real>, k: nat)
    requires Ascending(g) && 1 <= k <= |g|
    ensures Busy(spans, g, k) <= g[k - 1] - g[0]
    ensures Busy(spans, g, k) == g[k - 1] - g[0] <==> NoIdleCell(spans, g, k)
  {
    if k >= 2 {
      BusyAtMostElapsed(spans, g, k - 1);
    }
  }

  /** The grid cell that holds `x`. */
  lemma {:induction false} FindCell(g: seq<real>, x: real) returns (i: nat)
    requires |g| >= 1 && g[0] <= x < g[|g| - 1]
    ensures i + 1 < |g| && g[i] <= x < g[i + 1]
    decreases |g|
  {
    var n := |g| - 1;
    if g[n - 1] <= x {
      i := n - 1;
    } else {
      i := FindCell(g[..n], x);
    }
  }

  /** A step running at a point of a cut runs through the cell that starts there. */
  lemma CellCovered(spans: seq<Span>, g: seq<real>, i: nat)
    requires IsCut(spans, g) && i + 1 < |g| && g[i] < g[i + 1]
    ensures RunningAt(spans, g[i]) <==> Cover(spans, g[i], g[i + 1]) != {}
  {
    if RunningAt(spans, g[i]) {
      var t :| 0 <= t < |spans| && spans[t].start <= g[i] < spans[t].end;
      var j :| 0 <= j < |g| && g[j] == spans[t].end;
      assert i < j;
      assert t in Cover(spans, g[i], g[i + 1]);
    }
    if Cover(spans, g[i], g[i + 1]) != {} {
      var t :| t in Cover(spans, g[i], g[i + 1]);
      assert spans[t].start <= g[i] < spans[t].end;
    }
  }

  lemma IdleCells(spans: seq<Span>, g: seq<real>)
    requires IsGrid(spans, g) && g != []
    ensures NoIdleCell(spans, g, |g|) <==> forall x: real :: g[0] <= x < g[|g| - 1] ==> RunningAt(spans, x)
  {
    if NoIdleCell(spans, g, |g|) {
      forall x: real | g[0] <= x < g[|g| - 1]
        ensures RunningAt(spans, x)
      {
        var i := FindCell(g, x);
        var t :| t in Cover(spans, g[i], g[i + 1]);
        assert spans[t].start <= x < spans[t].end;
      }
    }
    if forall x: real :: g[0] <= x < g[|g| - 1] ==> RunningAt(spans, x) {
      forall i | 0 <= i < |g| - 1 && g[i] < g[i + 1]
        ensures Cover(spans, g[i], g[i + 1]) != {}
      {
        CellCovered(spans, g, i);
      }
    }
  }

  /** The weighted durations never add up to more than the elapsed time, and reach it exactly when there
      is no idle gap between the earliest start and the latest end. */
  lemma BusyTimeBound(spans: seq<Span>)
    requires spans != [] && WellFormed(spans)
    ensures BusyTime(spans) <= Latest(spans) - Earliest(spans)
    ensures BusyTime(spans) == Latest(spans) - Earliest(spans) <==>
            forall x: real :: Earliest(spans) <= x < Latest(spans) ==> RunningAt(spans, x)
  {
    var g := GridOf(spans);
    GridFacts(spans);
    GridEnds(spans, g);
    IdleCells(spans, g);
    BusyAtMostElapsed(spans, g, |g|);
  }

  // ----- busy time is the length of the union of the steps

  /** The part of `[a, b]` before `x`. */
  function Clip(a: real, b: real, x: real): real {
    if x <= a then 0.0 else Min(x, b) - a
  }

  /** The time before `x`, within the first `k` points, during which some step was running. */
  ghost function Ran(spans: seq<Span>, g: seq<real>, k: nat, x: real): real
    requires k <= |g|
  {
    if k < 2 then 0.0
    else Ran(spans, g, k - 1, x) + if RunningAt(spans, g[k - 2]) then Clip(g[k - 2], g[k - 1], x) else 0.0
  }

  /** No point of `g` lies strictly between `x` and `y`. */
  predicate NoneBetween(g: seq<real>, x: real, y: real) {
    forall p :: p in g ==> p <= x || y <= p
  }

  /** The same steps are running at `x` as at the last point before it. */
  lemma RunningInCell(spans: seq<Span>, g: seq<real>, i: nat, x: real)
    requires IsCut(spans, g) && i + 1 < |g| && g[i] <= x < g[i + 1]
    ensures RunningAt(spans, g[i]) <==> RunningAt(spans, x)
  {
    assert forall p :: p in g ==> p <= g[i] || g[i + 1] <= p;
    if RunningAt(spans, x) {
      var t :| 0 <= t < |spans| && spans[t].start <= x < spans[t].end;
      assert spans[t].start <= g[i] < spans[t].end;
    }
    if RunningAt(spans, g[i]) {
      var t :| 0 <= t < |spans| && spans[t].start <= g[i] < spans[t].end;
      assert spans[t].start <= x < spans[t].end;
    }
  }

  /** What a stretch without a point of the cut inside adds. */
  lemma {:induction false} RanAcross(spans: seq<Span>, g: seq<real>, k: nat, x: real, y: real)
    requires IsCut(spans, g) && 1 <= k <= |g| && x < y && NoneBetween(g, x, y)
    ensures Ran(spans, g, k, y) - Ran(spans, g, k, x)
         == if g[0] <= x && y <= g[k - 1] && RunningAt(spans, x) then y - x else 0.0
  {
    if k >= 2 {
      RanAcross(spans, g, k - 1, x, y);
      var a, b := g[k - 2], g[k - 1];
      assert a in g && b in g;
      if a <= x && y <= b {
        RunningInCell(spans, g, k - 2, x);
      }
    }
  }

  lemma RanThrough(spans: seq<Span>, g: seq<real>, x: real, y: real)
    requires IsCut(spans, g) && g != [] && x < y && NoneBetween(g, x, y)
    ensures Ran(spans, g, |g|, y) - Ran(spans, g, |g|, x) == if RunningAt(spans, x) then y - x else 0.0
  {
    RanAcross(spans, g, |g|, x, y);
    if RunningAt(spans, x) {
      var t :| 0 <= t < |spans| && spans[t].start <= x < spans[t].end;
      assert spans[t].start in g && spans[t].end in g;
    }
  }

  lemma {:induction false} RanBefore(spans: seq<Span>, g: seq<real>, k: nat, x: real)
    requires Ascending(g) && k <= |g| && (g != [] ==> x <= g[0])
    ensures Ran(spans, g, k, x) == 0.0
  {
    if k >= 2 {
      RanBefore(spans, g, k - 1, x);
    }
  }

  /** Past the last point everything that ran has run. */
  lemma {:induction false} RanAfter(spans: seq<Span>, g: seq<real>, k: nat, x: real)
    requires IsCut(spans, g) && 1 <= k <= |g| && g[k - 1] <= x
    ensures Ran(spans, g, k, x) == Busy(spans, g, k)
  {
    if k >= 2 {
      RanAfter(spans, g, k - 1, x);
      if g[k - 2] < g[k - 1] {
        CellCovered(spans, g, k - 2);
      }
    }
  }

  /** Along a finer cut the busy time grows as `Ran` does. */
  lemma {:induction false} BusyAlong(spans: seq<Span>, g: seq<real>, h: seq<real>, l: nat)
    requires IsCut(spans, g) && IsCut(spans, h) && g != [] && 1 <= l <= |h|
    requires forall p :: p in g ==> p in h
    ensures Busy(spans, h, l) == Ran(spans, g, |g|, h[l - 1]) - Ran(spans, g, |g|, h[0])
  {
    if l >= 2 {
      BusyAlong(spans, g, h, l - 1);
      var x, y := h[l - 2], h[l - 1];
      if x < y {
        assert NoneBetween(h, x, y);
        RanThrough(spans, g, x, y);
        CellCovered(spans, h, l - 2);
      }
    }
  }

  lemma {:induction false} NoPoints(spans: seq<Span>, h: seq<real>, k: nat)
    requires spans == [] && k <= |h|
    ensures Busy(spans, h, k) == 0.0
  {
    if k >= 2 {
      NoPoints(spans, h, k - 1);
    }
  }

  /** On every cut of the time axis, however fine, the cells during which a step runs have the busy time as
      their total length: it is the length of the union of the steps. */
  lemma BusyTimeOnAnyCut(spans: seq<Span>, h: seq<real>)
    requires IsCut(spans, h)
    ensures Busy(spans, h, |h|) == BusyTime(spans)
  {
    var g := GridOf(spans);
    GridFacts(spans);
    if spans == [] {
      NoPoints(spans, h, |h|);
      NoPoints(spans, g, |g|);
    } else {
      assert spans[0].start in g && spans[0].start in h;
      assert forall p :: p in g ==> IsEndpoint(spans, p) && p in h;
      assert g[0] in h && g[|g| - 1] in h;
      BusyAlong(spans, g, h, |h|);
      RanBefore(spans, g, |g|, h[0]);
      RanAfter(spans, g, |g|, h[|h| - 1]);
    }
  }
}

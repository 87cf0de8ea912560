/** The weighted-time sweep of tools/report_build_time_ninja.py (`SummarizeEntries`), over
    the reals. Tasks are identified by their position in the list of entries. */
module NinjaSweep {
  import opened Wrappers

  datatype Interval = Interval(start: real, end: real)

  datatype Event = Event(time: real, stop: bool, task: nat)

  // ---------------------------------------------------------------- events in time order

  function StartOf(ivs: seq<Interval>, i: nat): Event
    requires i < |ivs|
  {
    Event(ivs[i].start, false, i)
  }

  function StopOf(ivs: seq<Interval>, i: nat): Event
    requires i < |ivs|
  {
    Event(ivs[i].end, true, i)
  }

  function Events(ivs: seq<Interval>, n: nat): seq<Event>
    requires n <= |ivs|
  {
    if n == 0 then [] else Events(ivs, n - 1) + [StartOf(ivs, n - 1), StopOf(ivs, n - 1)]
  }

  /** The order of `(time, action)` keys: "start" sorts before "stop". */
  predicate Before(e: Event, f: Event) {
    e.time < f.time || (e.time == f.time && (!e.stop || f.stop))
  }

  ghost predicate Sorted(ev: seq<Event>) {
    forall i, j :: 0 <= i < j < |ev| ==> Before(ev[i], ev[j])
  }

  /** `ev` is one of the ways to sort the events; ties may come in any order. */
  ghost predicate Arranged(ivs: seq<Interval>, ev: seq<Event>) {
    multiset(ev) == multiset(Events(ivs, |ivs|)) && Sorted(ev)
  }

  function Insert(e: Event, ev: seq<Event>): seq<Event> {
    if ev == [] || !Before(ev[|ev| - 1], e) then
      if ev == [] then [e] else Insert(e, ev[..|ev| - 1]) + [ev[|ev| - 1]]
    else ev + [e]
  }

  function Sort(ev: seq<Event>): seq<Event> {
    if ev == [] then [] else Insert(ev[|ev| - 1], Sort(ev[..|ev| - 1]))
  }

  lemma {:induction false} InInserted(e: Event, ev: seq<Event>, r: seq<Event>, i: nat)
    requires multiset(r) == multiset(ev) + multiset{e} && i < |r|
    ensures r[i] == e || r[i] in ev
  {
    assert r[i] in multiset(r);
  }

  lemma {:induction false} InsertKeeps(e: Event, ev: seq<Event>)
    requires Sorted(ev)
    ensures Sorted(Insert(e, ev)) && multiset(Insert(e, ev)) == multiset(ev) + multiset{e}
    decreases |ev|
  {
    if ev != [] {
      var init, last := ev[..|ev| - 1], ev[|ev| - 1];
      assert ev == init + [last];
      if !Before(last, e) {
        InsertKeeps(e, init);
        var r := Insert(e, init);
        forall i | 0 <= i < |r| ensures Before(r[i], last) {
          InInserted(e, init, r, i);
        }
        assert Insert(e, ev) == r + [last];
      }
    }
  }

  lemma {:induction false} SortArranges(ev: seq<Event>)
    ensures Sorted(Sort(ev)) && multiset(Sort(ev)) == multiset(ev)
    decreases |ev|
  {
    if ev != [] {
      assert ev == ev[..|ev| - 1] + [ev[|ev| - 1]];
      SortArranges(ev[..|ev| - 1]);
      InsertKeeps(ev[|ev| - 1], Sort(ev[..|ev| - 1]));
    }
  }

  /** Each task has exactly one start and one stop. */
  ghost predicate IsEvent(ivs: seq<Interval>, n: nat, e: Event)
    requires n <= |ivs|
  {
    e.task < n && e == if e.stop then StopOf(ivs, e.task) else StartOf(ivs, e.task)
  }

  lemma {:induction false} EventCounts(ivs: seq<Interval>, n: nat, e: Event)
    requires n <= |ivs|
    ensures multiset(Events(ivs, n))[e] == if IsEvent(ivs, n, e) then 1 else 0
  {
    if n > 0 {
      EventCounts(ivs, n - 1, e);
      CountTwo(Events(ivs, n - 1), StartOf(ivs, n - 1), StopOf(ivs, n - 1), e);
      IsEventStep(ivs, n, e);
    }
  }

  lemma {:induction false} CountTwo(s: seq<Event>, a: Event, b: Event, e: Event)
    requires a != b
    ensures multiset(s + [a, b])[e] == multiset(s)[e] + if e == a || e == b then 1 else 0
  {
    assert multiset(s + [a, b]) == multiset(s) + multiset{a, b};
  }

  lemma {:induction false} IsEventStep(ivs: seq<Interval>, n: nat, e: Event)
    requires 0 < n <= |ivs|
    ensures IsEvent(ivs, n, e) <==> IsEvent(ivs, n - 1, e) || e == StartOf(ivs, n - 1) || e == StopOf(ivs, n - 1)
    ensures IsEvent(ivs, n - 1, e) ==> e != StartOf(ivs, n - 1) && e != StopOf(ivs, n - 1)
  {
  }

  lemma {:induction false} ArrangedEvents(ivs: seq<Interval>, ev: seq<Event>)
    requires Arranged(ivs, ev)
    ensures forall e :: e in ev <==> IsEvent(ivs, |ivs|, e)
    ensures forall i, j :: 0 <= i < j < |ev| ==> ev[i] != ev[j]
  {
    forall e ensures e in ev <==> IsEvent(ivs, |ivs|, e) {
      EventCounts(ivs, |ivs|, e);
      assert e in ev <==> e in multiset(ev);
    }
    forall i, j | 0 <= i < j < |ev| ensures ev[i] != ev[j] {
      EventCounts(ivs, |ivs|, ev[i]);
      assert ev == ev[..j] + [ev[j]] + ev[j + 1..];
      assert ev[i] in ev[..j] && ev[i] in multiset(ev[..j]);
      assert multiset(ev)[ev[i]] >= multiset(ev[..j])[ev[i]] + multiset([ev[j]])[ev[i]];
    }
  }

  function Times(ev: seq<Event>): (ts: seq<real>)
    ensures |ts| == |ev|
  {
    seq(|ev|, i requires 0 <= i < |ev| => ev[i].time)
  }

  // ---------------------------------------------------------------- meaning of weighted time

  /** Task `i` runs throughout the elementary segment from `ts[m - 1]` to `ts[m]`. */
  predicate Spans(ivs: seq<Interval>, ts: seq<real>, i: nat, m: nat)
    requires i < |ivs| && 1 <= m < |ts|
  {
    ivs[i].start <= ts[m - 1] && ts[m] <= ivs[i].end
  }

  function Active(ivs: seq<Interval>, ts: seq<real>, m: nat): set<nat>
    requires 1 <= m < |ts|
  {
    set j: nat | j < |ivs| && Spans(ivs, ts, j, m)
  }

  /** The part of segment `m` that task `i` is charged with. */
  function Share(ivs: seq<Interval>, ts: seq<real>, i: nat, m: nat): real
    requires i < |ivs| && 1 <= m < |ts|
  {
    if Spans(ivs, ts, i, m) then
      assert i in Active(ivs, ts, m);
      (ts[m] - ts[m - 1]) / |Active(ivs, ts, m)| as real
    else 0.0
  }

  /** Time charged to task `i` up to the `k`-th time stamp. */
  function Weighted(ivs: seq<Interval>, ts: seq<real>, i: nat, k: nat): real
    requires i < |ivs| && k <= |ts|
  {
    if k <= 1 then 0.0 else Weighted(ivs, ts, i, k - 1) + Share(ivs, ts, i, k - 1)
  }

  /** Time up to the `k`-th time stamp during which at least one task runs. */
  function Busy(ivs: seq<Interval>, ts: seq<real>, k: nat): real
    requires k <= |ts|
  {
    if k <= 1 then 0.0
    else Busy(ivs, ts, k - 1) + if Active(ivs, ts, k - 1) != {} then ts[k - 1] - ts[k - 2] else 0.0
  }

  /** Sum of the weighted times of the first `n` tasks. */
  function Total(ivs: seq<Interval>, ts: seq<real>, n: nat, k: nat): real
    requires n <= |ivs| && k <= |ts|
  {
    if n == 0 then 0.0 else Total(ivs, ts, n - 1, k) + Weighted(ivs, ts, n - 1, k)
  }

  // ---------------------------------------------------------------- conservation and bounds

  function ShareSum(ivs: seq<Interval>, ts: seq<real>, n: nat, m: nat): real
    requires n <= |ivs| && 1 <= m < |ts|
  {
    if n == 0 then 0.0 else ShareSum(ivs, ts, n - 1, m) + Share(ivs, ts, n - 1, m)
  }

  function ActiveBelow(ivs: seq<Interval>, ts: seq<real>, n: nat, m: nat): set<nat>
    requires n <= |ivs| && 1 <= m < |ts|
  {
    set j: nat | j < n && Spans(ivs, ts, j, m)
  }

  lemma {:induction false} OneMore(c: nat, unit: real)
    ensures (c + 1) as real * unit == c as real * unit + unit
  {
  }

  lemma {:induction false} ActiveBelowStep(ivs: seq<Interval>, ts: seq<real>, n: nat, m: nat)
    requires 0 < n <= |ivs| && 1 <= m < |ts|
    ensures |ActiveBelow(ivs, ts, n, m)| == |ActiveBelow(ivs, ts, n - 1, m)| + if Spans(ivs, ts, n - 1, m) then 1 else 0
  {
    if Spans(ivs, ts, n - 1, m) {
      assert ActiveBelow(ivs, ts, n, m) == ActiveBelow(ivs, ts, n - 1, m) + {n - 1};
    } else {
      assert ActiveBelow(ivs, ts, n, m) == ActiveBelow(ivs, ts, n - 1, m);
    }
  }

  lemma {:induction false} ShareSumCounts(ivs: seq<Interval>, ts: seq<real>, n: nat, m: nat, unit: real)
    requires n <= |ivs| && 1 <= m < |ts|
    requires forall i: nat :: i < |ivs| && Spans(ivs, ts, i, m) ==> Share(ivs, ts, i, m) == unit
    ensures ShareSum(ivs, ts, n, m) == |ActiveBelow(ivs, ts, n, m)| as real * unit
  {
    if n == 0 {
      assert ActiveBelow(ivs, ts, n, m) == {};
    } else {
      ShareSumCounts(ivs, ts, n - 1, m, unit);
      ActiveBelowStep(ivs, ts, n, m);
      OneMore(|ActiveBelow(ivs, ts, n - 1, m)|, unit);
    }
  }

  /** Every segment in which something runs is charged in full. */
  lemma {:induction false} SegmentConserved(ivs: seq<Interval>, ts: seq<real>, m: nat)
    requires 1 <= m < |ts|
    ensures ShareSum(ivs, ts, |ivs|, m) == if Active(ivs, ts, m) != {} then ts[m] - ts[m - 1] else 0.0
  {
    if Active(ivs, ts, m) != {} {
      var unit := (ts[m] - ts[m - 1]) / |Active(ivs, ts, m)| as real;
      ShareSumCounts(ivs, ts, |ivs|, m, unit);
      assert ActiveBelow(ivs, ts, |ivs|, m) == Active(ivs, ts, m);
    } else {
      NothingActive(ivs, ts, |ivs|, m);
    }
  }

  lemma {:induction false} NothingActive(ivs: seq<Interval>, ts: seq<real>, n: nat, m: nat)
    requires n <= |ivs| && 1 <= m < |ts| && Active(ivs, ts, m) == {}
    ensures ShareSum(ivs, ts, n, m) == 0.0
  {
    if n > 0 {
      NothingActive(ivs, ts, n - 1, m);
      assert n - 1 !in Active(ivs, ts, m);
    }
  }

  lemma {:induction false} TotalStep(ivs: seq<Interval>, ts: seq<real>, n: nat, k: nat)
    requires n <= |ivs| && 1 < k <= |ts|
    ensures Total(ivs, ts, n, k) == Total(ivs, ts, n, k - 1) + ShareSum(ivs, ts, n, k - 1)
  {
    if n > 0 { TotalStep(ivs, ts, n - 1, k); }
  }

  lemma {:induction false} TotalAtStart(ivs: seq<Interval>, ts: seq<real>, n: nat, k: nat)
    requires n <= |ivs| && k <= |ts| && k <= 1
    ensures Total(ivs, ts, n, k) == 0.0
  {
    if n > 0 { TotalAtStart(ivs, ts, n - 1, k); }
  }

  /** Conservation: the weighted times add up to the time during which anything runs. */
  lemma {:induction false} WeightedTimeIsConserved(ivs: seq<Interval>, ts: seq<real>, k: nat)
    requires k <= |ts|
    ensures Total(ivs, ts, |ivs|, k) == Busy(ivs, ts, k)
  {
    if k <= 1 {
      TotalAtStart(ivs, ts, |ivs|, k);
    } else {
      WeightedTimeIsConserved(ivs, ts, k - 1);
      TotalStep(ivs, ts, |ivs|, k);
      SegmentConserved(ivs, ts, k - 1);
    }
  }

  /** How long task `i` has run by time `t`. */
  function Elapsed(iv: Interval, t: real): real {
    if t <= iv.start then 0.0 else if t <= iv.end then t - iv.start else iv.end - iv.start
  }

  lemma {:induction false} ShareIsBounded(ivs: seq<Interval>, ts: seq<real>, i: nat, m: nat)
    requires i < |ivs| && 1 <= m < |ts| && ts[m - 1] <= ts[m] && ivs[i].start <= ivs[i].end
    ensures 0.0 <= Share(ivs, ts, i, m) <= Elapsed(ivs[i], ts[m]) - Elapsed(ivs[i], ts[m - 1])
  {
    if Spans(ivs, ts, i, m) {
      assert i in Active(ivs, ts, m);
      DivideByCount(ts[m] - ts[m - 1], |Active(ivs, ts, m)|);
    }
  }

  lemma {:induction false} DivideByCount(x: real, n: nat)
    requires x >= 0.0 && n > 0
    ensures 0.0 <= x / n as real <= x
  {
    var q := x / n as real;
    assert q * n as real == x;
  }

  /** A weighted time lies between zero and the task's duration. */
  lemma {:induction false} WeightedIsBounded(ivs: seq<Interval>, ts: seq<real>, i: nat, k: nat)
    requires i < |ivs| && k <= |ts| && ivs[i].start <= ivs[i].end
    requires forall m :: 1 <= m < k ==> ts[m - 1] <= ts[m]
    ensures 0.0 <= Weighted(ivs, ts, i, k) <= (if k == 0 then 0.0 else Elapsed(ivs[i], ts[k - 1]))
    ensures Weighted(ivs, ts, i, k) <= ivs[i].end - ivs[i].start
  {
    if k > 1 {
      WeightedIsBounded(ivs, ts, i, k - 1);
      ShareIsBounded(ivs, ts, i, k - 1);
    }
  }

  // ---------------------------------------------------------------- ties do not matter

  function Without(ev: seq<Event>, p: nat): seq<Event>
    requires p < |ev|
  {
    ev[..p] + ev[p + 1..]
  }

  lemma {:induction false} WithoutKeeps(ev: seq<Event>, p: nat)
    requires p < |ev| && Sorted(ev)
    ensures Sorted(Without(ev, p)) && multiset(Without(ev, p)) == multiset(ev) - multiset{ev[p]}
  {
    assert ev == ev[..p] + [ev[p]] + ev[p + 1..];
  }

  /** Removing one of the earliest events removes the first time stamp. */
  lemma {:induction false} WithoutTimes(ev: seq<Event>, p: nat)
    requires p < |ev| && Sorted(ev) && ev[p].time == ev[0].time
    ensures Times(Without(ev, p)) == Times(ev)[1..]
  {
    forall i | 0 <= i < |ev| - 1 ensures Times(Without(ev, p))[i] == Times(ev)[1..][i] {
      if i < p {
        assert Before(ev[0], ev[i + 1]) && (i + 1 == p || Before(ev[i + 1], ev[p]));
        assert i == 0 || Before(ev[0], ev[i]);
      }
    }
  }

  lemma {:induction false} SameFirstTime(ev: seq<Event>, fv: seq<Event>, p: nat)
    requires Sorted(ev) && Sorted(fv) && multiset(ev) == multiset(fv) && ev != [] && p < |fv| && fv[p] == ev[0]
    ensures fv[0].time == ev[0].time
  {
    assert fv[0] in multiset(fv) && fv[0] in multiset(ev);
    var q :| 0 <= q < |ev| && ev[q] == fv[0];
    assert q == 0 || Before(ev[0], ev[q]);
    assert p == 0 || Before(fv[0], fv[p]);
  }

  lemma {:induction false} SameTimes(ev: seq<Event>, fv: seq<Event>)
    requires Sorted(ev) && Sorted(fv) && multiset(ev) == multiset(fv)
    ensures Times(ev) == Times(fv)
    decreases |ev|
  {
    assert |ev| == |multiset(ev)| == |multiset(fv)| == |fv|;
    if ev != [] {
      assert ev[0] in multiset(ev) && ev[0] in multiset(fv);
      var p :| 0 <= p < |fv| && fv[p] == ev[0];
      SameFirstTime(ev, fv, p);
      WithoutKeeps(ev, 0);
      WithoutKeeps(fv, p);
      WithoutTimes(ev, 0);
      WithoutTimes(fv, p);
      SameTimes(Without(ev, 0), Without(fv, p));
      FirstTime(ev);
      FirstTime(fv);
    }
  }

  lemma {:induction false} FirstTime(ev: seq<Event>)
    requires ev != []
    ensures Times(ev) == [ev[0].time] + Times(ev)[1..]
  {
  }

  /** However ties are sorted, every task is charged the same time. */
  lemma {:induction false} TiesDoNotMatter(ivs: seq<Interval>, ev: seq<Event>, fv: seq<Event>, i: nat)
    requires Arranged(ivs, ev) && Arranged(ivs, fv) && i < |ivs|
    ensures |ev| == |fv| && Weighted(ivs, Times(ev), i, |ev|) == Weighted(ivs, Times(fv), i, |fv|)
  {
    SameTimes(ev, fv);
  }

  // ---------------------------------------------------------------- the sweep

  /** The tasks that have started and not stopped in the first `k` events. */
  function Running(ivs: seq<Interval>, ev: seq<Event>, k: nat): set<nat>
    requires k <= |ev|
  {
    set j: nat | j < |ivs| && StartOf(ivs, j) in ev[..k] && StopOf(ivs, j) !in ev[..k]
  }

  function Increment(ivs: seq<Interval>, ev: seq<Event>, k: nat): real
    requires k < |ev|
  {
    if k == 0 || Running(ivs, ev, k) == {} then 0.0
    else (ev[k].time - ev[k - 1].time) / |Running(ivs, ev, k)| as real
  }

  lemma {:induction false} PrefixTimes(ivs: seq<Interval>, ev: seq<Event>, k: nat, e: Event)
    requires Arranged(ivs, ev) && 1 <= k < |ev| && ev[k - 1].time < ev[k].time && e in ev
    ensures e in ev[..k] ==> e.time <= ev[k - 1].time
    ensures e !in ev[..k] ==> ev[k].time <= e.time
  {
    var a :| 0 <= a < |ev| && ev[a] == e;
    if a < k {
      assert ev[..k][a] == e;
    } else if e in ev[..k] {
      var b :| 0 <= b < k && ev[..k][b] == e;
      ArrangedEvents(ivs, ev);
      assert false;
    }
  }

  /** Over a segment of positive length, the running tasks are those that span it. */
  lemma {:induction false} RunningIsActive(ivs: seq<Interval>, ev: seq<Event>, k: nat)
    requires Arranged(ivs, ev) && 1 <= k < |ev| && ev[k - 1].time < ev[k].time
    ensures Running(ivs, ev, k) == Active(ivs, Times(ev), k)
  {
    ArrangedEvents(ivs, ev);
    forall j: nat | j < |ivs| ensures j in Running(ivs, ev, k) <==> j in Active(ivs, Times(ev), k) {
      assert IsEvent(ivs, |ivs|, StartOf(ivs, j)) && IsEvent(ivs, |ivs|, StopOf(ivs, j));
      PrefixTimes(ivs, ev, k, StartOf(ivs, j));
      PrefixTimes(ivs, ev, k, StopOf(ivs, j));
    }
  }

  /** Each event advances every running task by the same increment, and no other task. */
  lemma {:induction false} SweepStep(ivs: seq<Interval>, ev: seq<Event>, k: nat, j: nat)
    requires Arranged(ivs, ev) && k < |ev| && j < |ivs|
    ensures Weighted(ivs, Times(ev), j, k + 1) ==
            Weighted(ivs, Times(ev), j, k) + if j in Running(ivs, ev, k) then Increment(ivs, ev, k) else 0.0
  {
    var ts := Times(ev);
    if k > 0 {
      assert Before(ev[k - 1], ev[k]);
      if ts[k - 1] < ts[k] {
        RunningIsActive(ivs, ev, k);
      } else {
        assert ts[k] - ts[k - 1] == 0.0;
        ZeroShare(ivs, ts, j, k);
      }
    } else {
      assert ev[..0] == [];
    }
  }

  lemma {:induction false} ZeroShare(ivs: seq<Interval>, ts: seq<real>, i: nat, m: nat)
    requires i < |ivs| && 1 <= m < |ts| && ts[m] == ts[m - 1]
    ensures Share(ivs, ts, i, m) == 0.0
  {
    if Spans(ivs, ts, i, m) {
      assert i in Active(ivs, ts, m);
      DivideByCount(ts[m] - ts[m - 1], |Active(ivs, ts, m)|);
    }
  }

  function SumReals(s: seq<real>): real {
    if s == [] then 0.0 else SumReals(s[..|s| - 1]) + s[|s| - 1]
  }

  lemma {:induction false} SumUpdate(s: seq<real>, i: nat, x: real)
    requires i < |s|
    ensures SumReals(s[i := x]) == SumReals(s) - s[i] + x
    decreases |s|
  {
    var last := |s| - 1;
    if i < last {
      SumUpdate(s[..last], i, x);
      assert s[i := x][..last] == s[..last][i := x];
    } else {
      assert s[i := x][..last] == s[..last];
    }
  }

  lemma {:induction false} SumIsTotal(ivs: seq<Interval>, ts: seq<real>, s: seq<real>)
    requires |s| <= |ivs| && forall j :: 0 <= j < |s| ==> s[j] == Weighted(ivs, ts, j, |ts|)
    ensures SumReals(s) == Total(ivs, ts, |s|, |ts|)
    decreases |s|
  {
    if s != [] { SumIsTotal(ivs, ts, s[..|s| - 1]); }
  }

  lemma {:induction false} SumZeros(n: nat)
    ensures SumReals(seq(n, _ => 0.0)) == 0.0
  {
    if n > 0 {
      SumZeros(n - 1);
      assert seq(n, _ => 0.0)[..n - 1] == seq(n - 1, _ => 0.0);
    }
  }

  // ---------------------------------------------------------------- targets and the summary

  class Target {
    const start: real
    const end: real
    var targets: seq<string>
    var weightedDuration: real

    constructor (start: real, end: real)
      ensures this.start == start && this.end == end && targets == [] && weightedDuration == 0.0
    {
      this.start, this.end := start, end;
      targets, weightedDuration := [], 0.0;
    }
  }

  ghost predicate DistinctTargets(entries: seq<Target>) {
    forall i, j :: 0 <= i < j < |entries| ==> entries[i] != entries[j]
  }

  function Intervals(entries: seq<Target>): (ivs: seq<Interval>)
    ensures |ivs| == |entries|
  {
    seq(|entries|, i requires 0 <= i < |entries| => Interval(entries[i].start, entries[i].end))
  }

  ghost predicate Forward(ivs: seq<Interval>) {
    forall i :: 0 <= i < |ivs| ==> ivs[i].start <= ivs[i].end
  }

  /** The time stamps of the sweep, which do not depend on how ties are sorted. */
  function Stamps(ivs: seq<Interval>): seq<real> {
    Times(Sort(Events(ivs, |ivs|)))
  }

  /** What the sweep knows about task `j` after `k` events: stopped and charged, running since
      the clock value recorded for it, or not started. */
  ghost predicate Entry(ivs: seq<Interval>, ev: seq<Event>, k: nat, clock: real, running: map<nat, real>, done: seq<real>, j: nat)
    requires k <= |ev| && |done| == |ivs| && j < |ivs|
  {
    var weighted := Weighted(ivs, Times(ev), j, k);
    if StopOf(ivs, j) in ev[..k] then StartOf(ivs, j) in ev[..k] && ivs[j].start <= ivs[j].end && done[j] == weighted
    else if StartOf(ivs, j) in ev[..k] then j in running && clock - running[j] == weighted && done[j] == 0.0
    else weighted == 0.0 && done[j] == 0.0
  }

  ghost predicate Books(ivs: seq<Interval>, ev: seq<Event>, k: nat, clock: real, running: map<nat, real>, done: seq<real>)
    requires k <= |ev| && |done| == |ivs|
  {
    running.Keys == Running(ivs, ev, k) && forall j :: 0 <= j < |ivs| ==> Entry(ivs, ev, k, clock, running, done, j)
  }

  lemma {:induction false} EventAt(ivs: seq<Interval>, ev: seq<Event>, k: nat)
    requires Arranged(ivs, ev) && k < |ev|
    ensures ev[k].task < |ivs| && ev[k] == (if ev[k].stop then StopOf(ivs, ev[k].task) else StartOf(ivs, ev[k].task))
    ensures ev[..k + 1] == ev[..k] + [ev[k]] && ev[k] !in ev[..k]
  {
    ArrangedEvents(ivs, ev);
    assert ev[k] in ev;
    assert IsEvent(ivs, |ivs|, ev[k]);
  }

  lemma {:induction false} EntryAfterStart(
    ivs: seq<Interval>, ev: seq<Event>, k: nat, clock: real, clock': real,
    running: map<nat, real>, running': map<nat, real>, done: seq<real>, j: nat)
    requires Arranged(ivs, ev) && k < |ev| && !ev[k].stop && |done| == |ivs| && j < |ivs|
    requires running.Keys == Running(ivs, ev, k) && Entry(ivs, ev, k, clock, running, done, j)
    requires clock' == clock + Increment(ivs, ev, k) && running' == running[ev[k].task := clock']
    ensures Entry(ivs, ev, k + 1, clock', running', done, j)
  {
    EventAt(ivs, ev, k);
    SweepStep(ivs, ev, k, j);
    assert StartOf(ivs, j) in ev[..k + 1] <==> StartOf(ivs, j) in ev[..k] || j == ev[k].task;
    assert StopOf(ivs, j) in ev[..k + 1] <==> StopOf(ivs, j) in ev[..k];
  }

  lemma {:induction false} EntryAfterStop(
    ivs: seq<Interval>, ev: seq<Event>, k: nat, clock: real, clock': real,
    running: map<nat, real>, running': map<nat, real>, done: seq<real>, done': seq<real>, j: nat)
    requires Arranged(ivs, ev) && k < |ev| && ev[k].stop && |done| == |ivs| && j < |ivs|
    requires running.Keys == Running(ivs, ev, k) && Entry(ivs, ev, k, clock, running, done, j)
    requires ev[k].task in running && ev[k].task < |ivs|
    requires clock' == clock + Increment(ivs, ev, k) && running' == running - {ev[k].task}
    requires done' == done[ev[k].task := clock' - running[ev[k].task]]
    ensures Entry(ivs, ev, k + 1, clock', running', done', j)
  {
    EventAt(ivs, ev, k);
    SweepStep(ivs, ev, k, j);
    assert StartOf(ivs, j) in ev[..k + 1] <==> StartOf(ivs, j) in ev[..k];
    assert StopOf(ivs, j) in ev[..k + 1] <==> StopOf(ivs, j) in ev[..k] || j == ev[k].task;
    if j == ev[k].task {
      var a :| 0 <= a < k && ev[..k][a] == StartOf(ivs, j);
      assert Before(ev[a], ev[k]);
    }
  }

  lemma {:induction false} RunningAfter(ivs: seq<Interval>, ev: seq<Event>, k: nat)
    requires Arranged(ivs, ev) && k < |ev|
    requires !ev[k].stop ==> ev[k].task < |ivs| && StopOf(ivs, ev[k].task) !in ev[..k]
    ensures Running(ivs, ev, k + 1) ==
            if ev[k].stop then Running(ivs, ev, k) - {ev[k].task} else Running(ivs, ev, k) + {ev[k].task}
  {
    EventAt(ivs, ev, k);
  }

  lemma {:induction false} BooksAfterStart(
    ivs: seq<Interval>, ev: seq<Event>, k: nat, clock: real, clock': real,
    running: map<nat, real>, running': map<nat, real>, done: seq<real>)
    requires Arranged(ivs, ev) && k < |ev| && !ev[k].stop && |done| == |ivs|
    requires Books(ivs, ev, k, clock, running, done)
    requires clock' == clock + Increment(ivs, ev, k) && running' == running[ev[k].task := clock']
    ensures Books(ivs, ev, k + 1, clock', running', done)
  {
    EventAt(ivs, ev, k);
    assert Entry(ivs, ev, k, clock, running, done, ev[k].task);
    RunningAfter(ivs, ev, k);
    var next := k + 1;
    forall j | 0 <= j < |ivs| ensures Entry(ivs, ev, next, clock', running', done, j) {
      assert Entry(ivs, ev, k, clock, running, done, j);
      EntryAfterStart(ivs, ev, k, clock, clock', running, running', done, j);
    }
  }

  lemma {:induction false} RunningIsUncharged(
    ivs: seq<Interval>, ev: seq<Event>, k: nat, clock: real, running: map<nat, real>, done: seq<real>, i: nat)
    requires k <= |ev| && |done| == |ivs| && Books(ivs, ev, k, clock, running, done) && i in running && i < |ivs|
    ensures done[i] == 0.0
  {
    assert Entry(ivs, ev, k, clock, running, done, i);
  }

  lemma {:induction false} BooksAfterStop(
    ivs: seq<Interval>, ev: seq<Event>, k: nat, clock: real, clock': real,
    running: map<nat, real>, running': map<nat, real>, done: seq<real>, done': seq<real>)
    requires Arranged(ivs, ev) && k < |ev| && ev[k].stop && |done| == |ivs|
    requires Books(ivs, ev, k, clock, running, done) && ev[k].task in running && ev[k].task < |ivs|
    requires clock' == clock + Increment(ivs, ev, k) && running' == running - {ev[k].task}
    requires done' == done[ev[k].task := clock' - running[ev[k].task]]
    ensures Books(ivs, ev, k + 1, clock', running', done')
  {
    RunningAfter(ivs, ev, k);
    EntriesAfterStop(ivs, ev, k, clock, clock', running, running', done, done');
  }

  lemma {:induction false} EntriesAfterStop(
    ivs: seq<Interval>, ev: seq<Event>, k: nat, clock: real, clock': real,
    running: map<nat, real>, running': map<nat, real>, done: seq<real>, done': seq<real>)
    requires Arranged(ivs, ev) && k < |ev| && ev[k].stop && |done| == |ivs|
    requires Books(ivs, ev, k, clock, running, done) && ev[k].task in running && ev[k].task < |ivs|
    requires clock' == clock + Increment(ivs, ev, k) && running' == running - {ev[k].task}
    requires done' == done[ev[k].task := clock' - running[ev[k].task]]
    ensures var next := k + 1; forall j :: 0 <= j < |ivs| ==> Entry(ivs, ev, next, clock', running', done', j)
  {
    var next := k + 1;
    forall j | 0 <= j < |ivs| ensures Entry(ivs, ev, next, clock', running', done', j) {
      assert Entry(ivs, ev, k, clock, running, done, j);
      EntryAfterStop(ivs, ev, k, clock, clock', running, running', done, done', j);
    }
  }

  /** A stop whose task is not running comes from a task that ends before it starts. */
  lemma {:induction false} UnmatchedStop(ivs: seq<Interval>, ev: seq<Event>, k: nat)
    requires Arranged(ivs, ev) && k < |ev| && ev[k].stop && ev[k].task !in Running(ivs, ev, k)
    ensures !Forward(ivs)
  {
    var i := ev[k].task;
    EventAt(ivs, ev, k);
    ArrangedEvents(ivs, ev);
    var start := StartOf(ivs, i);
    assert IsEvent(ivs, |ivs|, start);
    assert start !in ev[..k];
    assert ev == ev[..k] + ev[k..];
    var a :| k <= a < |ev| && ev[a] == start;
    assert Before(ev[k], ev[a]);
  }

  /** At the end nothing runs, every task has been charged, and every task goes forward. */
  lemma {:induction false} BooksAtEnd(ivs: seq<Interval>, ev: seq<Event>, clock: real, running: map<nat, real>, done: seq<real>)
    requires Arranged(ivs, ev) && |done| == |ivs| && Books(ivs, ev, |ev|, clock, running, done)
    ensures running == map[] && Forward(ivs)
    ensures forall j :: 0 <= j < |ivs| ==> done[j] == Weighted(ivs, Times(ev), j, |ev|)
    ensures SumReals(done) == Busy(ivs, Times(ev), |ev|)
  {
    ArrangedEvents(ivs, ev);
    assert ev[..|ev|] == ev;
    forall j: nat | j < |ivs| ensures StopOf(ivs, j) in ev {
      assert IsEvent(ivs, |ivs|, StopOf(ivs, j));
    }
    assert running.Keys == {};
    forall j | 0 <= j < |ivs| ensures done[j] == Weighted(ivs, Times(ev), j, |ev|) && ivs[j].start <= ivs[j].end {
      assert Entry(ivs, ev, |ev|, clock, running, done, j);
    }
    SumIsTotal(ivs, Times(ev), done);
    WeightedTimeIsConserved(ivs, Times(ev), |ev|);
  }

  lemma {:induction false} BooksAtStart(ivs: seq<Interval>, ev: seq<Event>, done: seq<real>)
    requires |done| == |ivs| && forall j :: 0 <= j < |ivs| ==> done[j] == 0.0
    ensures Books(ivs, ev, 0, 0.0, map[], done)
  {
    assert ev[..0] == [];
  }

  lemma {:induction false} IncrementIs(
    ivs: seq<Interval>, ev: seq<Event>, k: nat, running: map<nat, real>, lastTime: real, clock: real, clock': real)
    requires k < |ev| && running.Keys == Running(ivs, ev, k) && lastTime == ev[if k == 0 then 0 else k - 1].time
    requires clock' == if |running| > 0 then clock + (ev[k].time - lastTime) / |running| as real else clock
    ensures clock' == clock + Increment(ivs, ev, k)
  {
    assert |running| == |running.Keys|;
    if k == 0 { assert ev[..0] == []; }
  }

  /** The targets stopped so far hold their weighted times. */
  ghost predicate Charged(entries: seq<Target>, events: seq<Event>, k: nat, done: seq<real>)
    requires k <= |events| && |done| == |entries|
    reads entries
  {
    forall i :: 0 <= i < |entries| && Event(entries[i].end, true, i) in events[..k] ==> entries[i].weightedDuration == done[i]
  }

  /** Advances the weighted clock to the time of event `k`. */
  method AdvanceClock(events: seq<Event>, k: nat, lastTime: real, clock: real, running: map<nat, real>, ghost ivs: seq<Interval>)
    returns (clock': real)
    requires k < |events| && running.Keys == Running(ivs, events, k) && lastTime == events[if k == 0 then 0 else k - 1].time
    ensures clock' == clock + Increment(ivs, events, k)
  {
    clock' := clock;
    if |running| > 0 {
      clock' := clock + (events[k].time - lastTime) / |running| as real;
    }
    IncrementIs(ivs, events, k, running, lastTime, clock, clock');
  }

  /** Stops a running task: its target gets the weighted time since it was started. */
  method StopTask(
    entries: seq<Target>, events: seq<Event>, k: nat, clock: real, clock': real,
    running: map<nat, real>, total: real, ghost done: seq<real>)
    returns (running': map<nat, real>, total': real, ghost done': seq<real>)
    requires DistinctTargets(entries) && Arranged(Intervals(entries), events) && k < |events| && |done| == |entries|
    requires Books(Intervals(entries), events, k, clock, running, done) && Charged(entries, events, k, done)
    requires total == SumReals(done) && clock' == clock + Increment(Intervals(entries), events, k)
    requires events[k].stop && events[k].task in running && events[k].task < |entries|
    modifies entries`weightedDuration
    ensures |done'| == |entries| && total' == SumReals(done')
    ensures Books(Intervals(entries), events, k + 1, clock', running', done')
    ensures Charged(entries, events, k + 1, done')
  {
    ghost var ivs := Intervals(entries);
    EventAt(ivs, events, k);
    var event := events[k];
    var weightedDuration := clock' - running[event.task];
    entries[event.task].weightedDuration := weightedDuration;
    total' := total + weightedDuration;
    running' := running - {event.task};
    done' := done[event.task := weightedDuration];
    BooksAfterStop(ivs, events, k, clock, clock', running, running', done, done');
    RunningIsUncharged(ivs, events, k, clock, running, done, event.task);
    SumUpdate(done, event.task, weightedDuration);
  }

  /** One event: advance the weighted clock, then start or stop the task. */
  method ProcessEvent(
    entries: seq<Target>, events: seq<Event>, k: nat, lastTime: real,
    clock: real, running: map<nat, real>, total: real, ghost done: seq<real>)
    returns (ok: bool, clock': real, running': map<nat, real>, total': real, ghost done': seq<real>)
    requires DistinctTargets(entries) && Arranged(Intervals(entries), events) && k < |events| && |done| == |entries|
    requires Books(Intervals(entries), events, k, clock, running, done) && Charged(entries, events, k, done)
    requires total == SumReals(done) && lastTime == events[if k == 0 then 0 else k - 1].time
    modifies entries`weightedDuration
    ensures !ok ==> !Forward(Intervals(entries))
    ensures ok ==> |done'| == |entries| && total' == SumReals(done')
    ensures ok ==> Books(Intervals(entries), events, k + 1, clock', running', done')
    ensures ok ==> Charged(entries, events, k + 1, done')
  {
    ghost var ivs := Intervals(entries);
    EventAt(ivs, events, k);
    var event := events[k];
    ok, running', total', done' := true, running, total, done;
    clock' := AdvanceClock(events, k, lastTime, clock, running, ivs);
    if !event.stop {
      running' := running[event.task := clock'];
      BooksAfterStart(ivs, events, k, clock, clock', running, running', done);
    } else if event.task !in running {
      UnmatchedStop(ivs, events, k);
      ok := false;
    } else {
      running', total', done' := StopTask(entries, events, k, clock, clock', running, total, done);
    }
  }

  /** The loop over the events. It fails, with the KeyError of a task that is not running, iff
      some task ends before it starts; otherwise each target gets its weighted time, and the
      running total is the time during which anything ran. */
  method Sweep(entries: seq<Target>, events: seq<Event>) returns (r: Result<real>)
    requires entries != [] && DistinctTargets(entries) && Arranged(Intervals(entries), events)
    modifies entries`weightedDuration
    ensures r.Success? <==> Forward(Intervals(entries))
    ensures r.Failure? ==> r.error == KeyError
    ensures r.Success? ==>
              && r.value == Busy(Intervals(entries), Times(events), |events|)
              && forall i :: 0 <= i < |entries| ==>
                   entries[i].weightedDuration == Weighted(Intervals(entries), Times(events), i, |events|)
  {
    ghost var ivs := Intervals(entries);
    ghost var done := seq(|entries|, _ => 0.0);
    SumZeros(|entries|);
    var runningTasks: map<nat, real> := map[];
    var lastWeightedTime, weightedTotal := 0.0, 0.0;
    NonEmptyEvents(ivs, events);
    var lastTime := events[0].time;
    BooksAtStart(ivs, events, done);
    assert events[..0] == [];
    for k := 0 to |events|
      invariant |done| == |entries| && Books(ivs, events, k, lastWeightedTime, runningTasks, done)
      invariant weightedTotal == SumReals(done) && Charged(entries, events, k, done)
      invariant lastTime == events[if k == 0 then 0 else k - 1].time
    {
      var ok;
      ok, lastWeightedTime, runningTasks, weightedTotal, done :=
        ProcessEvent(entries, events, k, lastTime, lastWeightedTime, runningTasks, weightedTotal, done);
      if !ok {
        return Failure(KeyError);
      }
      lastTime := events[k].time;
    }
    BooksAtEnd(ivs, events, lastWeightedTime, runningTasks, done);
    AllStopped(ivs, events);
    assert forall i: nat :: i < |entries| ==> StopOf(ivs, i) == Event(entries[i].end, true, i);
    return Success(weightedTotal);
  }

  lemma {:induction false} NonEmptyEvents(ivs: seq<Interval>, ev: seq<Event>)
    requires Arranged(ivs, ev) && ivs != []
    ensures ev != []
  {
    ArrangedEvents(ivs, ev);
    assert IsEvent(ivs, |ivs|, StartOf(ivs, 0));
  }

  lemma {:induction false} AllStopped(ivs: seq<Interval>, ev: seq<Event>)
    requires Arranged(ivs, ev)
    ensures forall i: nat :: i < |ivs| ==> StopOf(ivs, i) in ev[..|ev|]
  {
    ArrangedEvents(ivs, ev);
    assert ev[..|ev|] == ev;
    forall i: nat | i < |ivs| ensures StopOf(ivs, i) in ev {
      assert IsEvent(ivs, |ivs|, StopOf(ivs, i));
    }
  }

  // ---------------------------------------------------------------- the reported length

  lemma {:induction false} StampBounds(ivs: seq<Interval>, ev: seq<Event>, earliest: real, latest: real)
    requires Arranged(ivs, ev) && ivs != [] && Forward(ivs)
    requires forall i :: 0 <= i < |ivs| ==> earliest <= ivs[i].start && ivs[i].end <= latest
    requires (exists i :: 0 <= i < |ivs| && ivs[i].start == earliest) && (exists i :: 0 <= i < |ivs| && ivs[i].end == latest)
    ensures ev != [] && ev[0].time == earliest && ev[|ev| - 1].time == latest
  {
    ArrangedEvents(ivs, ev);
    NonEmptyEvents(ivs, ev);
    var i :| 0 <= i < |ivs| && ivs[i].start == earliest;
    var j :| 0 <= j < |ivs| && ivs[j].end == latest;
    assert IsEvent(ivs, |ivs|, StartOf(ivs, i)) && IsEvent(ivs, |ivs|, StopOf(ivs, j));
    var a :| 0 <= a < |ev| && ev[a] == StartOf(ivs, i);
    var b :| 0 <= b < |ev| && ev[b] == StopOf(ivs, j);
    var last := |ev| - 1;
    assert a == 0 || Before(ev[0], ev[a]);
    assert b == last || Before(ev[b], ev[last]);
    assert ev[0] in ev && ev[last] in ev;
    assert IsEvent(ivs, |ivs|, ev[0]) && IsEvent(ivs, |ivs|, ev[last]);
  }

  /** All times are zero or later, as in a log. */
  ghost predicate NotNegative(entries: seq<Target>) {
    forall i :: 0 <= i < |entries| ==> 0.0 <= entries[i].start && 0.0 <= entries[i].end
  }

  /** `first` is the smallest start and `last` the largest end. */
  ghost predicate Extremes(entries: seq<Target>, first: real, last: real) {
    && (forall i :: 0 <= i < |entries| ==> first <= entries[i].start && entries[i].end <= last)
    && (exists i :: 0 <= i < |entries| && entries[i].start == first)
    && (exists i :: 0 <= i < |entries| && entries[i].end == last)
  }

  /** Sum of the durations of the first `n` entries. */
  function CpuTime(entries: seq<Target>, n: nat): real
    requires n <= |entries|
  {
    if n == 0 then 0.0 else CpuTime(entries, n - 1) + (entries[n - 1].end - entries[n - 1].start)
  }

  /** The first start and the last end, with the sentinels of the source, and the sum of the
      durations. */
  method Length(entries: seq<Target>) returns (earliest: real, latest: real, cpuTime: real)
    requires entries != []
    ensures NotNegative(entries) ==> Extremes(entries, earliest, latest)
    ensures cpuTime == CpuTime(entries, |entries|)
  {
    earliest, latest, cpuTime := -1.0, 0.0, 0.0;
    ghost var good := NotNegative(entries);
    for k := 0 to |entries|
      invariant cpuTime == CpuTime(entries, k)
      invariant good && k == 0 ==> earliest < 0.0 && latest == 0.0
      invariant good && k > 0 ==> earliest >= 0.0 && Extremes(entries[..k], earliest, latest)
    {
      ghost var first, last := earliest, latest;
      if earliest < 0.0 || entries[k].start < earliest {
        earliest := entries[k].start;
      }
      if entries[k].end > latest {
        latest := entries[k].end;
      }
      cpuTime := cpuTime + (entries[k].end - entries[k].start);
      if good {
        ExtremesStep(entries, k, first, last, earliest, latest);
      }
    }
    assert entries[..|entries|] == entries;
  }

  lemma {:induction false} ExtremesStep(entries: seq<Target>, k: nat, first: real, last: real, first': real, last': real)
    requires k < |entries| && NotNegative(entries)
    requires if k == 0 then first < 0.0 && last == 0.0 else first >= 0.0 && Extremes(entries[..k], first, last)
    requires first' == if first < 0.0 || entries[k].start < first then entries[k].start else first
    requires last' == if entries[k].end > last then entries[k].end else last
    ensures Extremes(entries[..k + 1], first', last')
  {
    var longer := entries[..k + 1];
    assert longer[k] == entries[k];
    if k > 0 {
      var i :| 0 <= i < k && entries[..k][i].start == first;
      var j :| 0 <= j < k && entries[..k][j].end == last;
      assert longer[i].start == first && longer[j].end == last;
      assert forall m :: 0 <= m < k ==> entries[..k][m] == longer[m];
    }
  }

  /** The summary of the log: weighted times for all targets, their total, the length and the sum
      of the durations. The total is never more than the length, and equals it exactly when there
      is no idle gap; it is never more than the sum of the durations. */
  method SummarizeEntries(entries: seq<Target>) returns (r: Result<real>, length: real, cpuTime: real)
    requires entries != [] && DistinctTargets(entries)
    modifies entries`weightedDuration
    ensures r.Success? <==> Forward(Intervals(entries))
    ensures r.Failure? ==> r.error == KeyError
    ensures r.Success? ==>
              var ivs := Intervals(entries);
              && r.value == Busy(ivs, Stamps(ivs), |Stamps(ivs)|)
              && (forall i :: 0 <= i < |entries| ==>
                    && entries[i].weightedDuration == Weighted(ivs, Stamps(ivs), i, |Stamps(ivs)|)
                    && 0.0 <= entries[i].weightedDuration <= entries[i].end - entries[i].start)
    ensures NotNegative(entries) ==> exists first, last :: Extremes(entries, first, last) && length == last - first
    ensures cpuTime == CpuTime(entries, |entries|)
    ensures r.Success? ==> r.value <= cpuTime
    ensures r.Success? && NotNegative(entries) ==>
              r.value <= length && (r.value == length <==> NeverIdle(Intervals(entries)))
  {
    var ivs := Intervals(entries);
    var events := Sort(Events(ivs, |ivs|));
    SortArranges(Events(ivs, |ivs|));
    var earliest, latest;
    earliest, latest, cpuTime := Length(entries);
    length := latest - earliest;
    r := Sweep(entries, events);
    if r.Success? {
      NonEmptyEvents(ivs, events);
      OrderedTimes(events);
      forall i | 0 <= i < |entries| ensures 0.0 <= entries[i].weightedDuration <= entries[i].end - entries[i].start {
        WeightedIsBounded(ivs, Times(events), i, |events|);
      }
      TotalIsBounded(entries, Times(events), |entries|);
      WeightedTimeIsConserved(ivs, Times(events), |events|);
      if NotNegative(entries) {
        BusyAndLength(entries, events, earliest, latest);
      }
    }
  }

  lemma {:induction false} TotalIsBounded(entries: seq<Target>, ts: seq<real>, n: nat)
    requires n <= |entries| && Forward(Intervals(entries)) && forall m :: 1 <= m < |ts| ==> ts[m - 1] <= ts[m]
    ensures Total(Intervals(entries), ts, n, |ts|) <= CpuTime(entries, n)
  {
    if n > 0 {
      TotalIsBounded(entries, ts, n - 1);
      WeightedIsBounded(Intervals(entries), ts, n - 1, |ts|);
    }
  }

  // ---------------------------------------------------------------- idle time

  /** Time up to the `k`-th time stamp during which nothing runs. */
  function Idle(ivs: seq<Interval>, ts: seq<real>, k: nat): real
    requires k <= |ts|
  {
    if k <= 1 then 0.0
    else Idle(ivs, ts, k - 1) + if Active(ivs, ts, k - 1) == {} then ts[k - 1] - ts[k - 2] else 0.0
  }

  /** Busy and idle time make up the whole time. */
  lemma {:induction false} BusyAndIdle(ivs: seq<Interval>, ts: seq<real>, k: nat)
    requires 1 <= k <= |ts|
    ensures Busy(ivs, ts, k) + Idle(ivs, ts, k) == ts[k - 1] - ts[0]
  {
    if k > 1 { BusyAndIdle(ivs, ts, k - 1); }
  }

  lemma {:induction false} IdleIsGaps(ivs: seq<Interval>, ts: seq<real>, k: nat)
    requires k <= |ts| && forall m :: 1 <= m < k ==> ts[m - 1] <= ts[m]
    ensures Idle(ivs, ts, k) >= 0.0
    ensures Idle(ivs, ts, k) == 0.0 <==> forall m :: 1 <= m < k && ts[m - 1] < ts[m] ==> Active(ivs, ts, m) != {}
  {
    if k > 1 {
      IdleIsGaps(ivs, ts, k - 1);
      assert ts[k - 2] <= ts[k - 1];
    }
  }

  lemma {:induction false} BusyAndLength(entries: seq<Target>, events: seq<Event>, earliest: real, latest: real)
    requires entries != [] && Forward(Intervals(entries)) && Extremes(entries, earliest, latest)
    requires events == Sort(Events(Intervals(entries), |entries|)) && Arranged(Intervals(entries), events)
    ensures var busy := Busy(Intervals(entries), Times(events), |events|);
            busy <= latest - earliest && (busy == latest - earliest <==> NeverIdle(Intervals(entries)))
  {
    var ivs := Intervals(entries);
    OrderedTimes(events);
    ReachedEnds(entries, ivs, earliest, latest);
    StampBounds(ivs, events, earliest, latest);
    assert Stamps(ivs) == Times(events);
    BusyAndIdle(ivs, Times(events), |events|);
    IdleIsGaps(ivs, Times(events), |events|);
    NoIdleGapIff(ivs, events);
  }

  /** Between the first start and the last end something runs at every moment. */
  ghost predicate NeverIdle(ivs: seq<Interval>) {
    forall t: real :: Begun(ivs, t) && !Over(ivs, t) ==> Runs(ivs, t)
  }

  ghost predicate Begun(ivs: seq<Interval>, t: real) { exists i :: 0 <= i < |ivs| && ivs[i].start <= t }

  ghost predicate Over(ivs: seq<Interval>, t: real) { forall i :: 0 <= i < |ivs| ==> ivs[i].end < t }

  ghost predicate Runs(ivs: seq<Interval>, t: real) { exists i :: 0 <= i < |ivs| && ivs[i].start <= t <= ivs[i].end }

  /** A time stamp is the start or the end of a task. */
  lemma {:induction false} StampOfTask(ivs: seq<Interval>, ev: seq<Event>, m: nat) returns (i: nat)
    requires Arranged(ivs, ev) && Forward(ivs) && m < |ev|
    ensures i < |ivs| && ivs[i].start <= ev[m].time <= ivs[i].end
  {
    EventAt(ivs, ev, m);
    i := ev[m].task;
  }

  /** Where the start and the end of a task stand relative to a segment. */
  lemma {:induction false} OutsideSegment(ivs: seq<Interval>, ev: seq<Event>, m: nat, i: nat)
    requires Arranged(ivs, ev) && 1 <= m < |ev| && i < |ivs|
    ensures ivs[i].start < ev[m].time ==> ivs[i].start <= ev[m - 1].time
    ensures ivs[i].end > ev[m - 1].time ==> ivs[i].end >= ev[m].time
  {
    ArrangedEvents(ivs, ev);
    assert IsEvent(ivs, |ivs|, StartOf(ivs, i)) && IsEvent(ivs, |ivs|, StopOf(ivs, i));
    var a :| 0 <= a < |ev| && ev[a] == StartOf(ivs, i);
    var b :| 0 <= b < |ev| && ev[b] == StopOf(ivs, i);
    InOrder(ev, a, m - 1);
    InOrder(ev, m, a);
    InOrder(ev, b, m - 1);
    InOrder(ev, m, b);
  }

  lemma {:induction false} InOrder(ev: seq<Event>, a: nat, b: nat)
    requires Sorted(ev) && a < |ev| && b < |ev|
    ensures a <= b ==> ev[a].time <= ev[b].time
  {
    assert a < b ==> Before(ev[a], ev[b]);
  }

  /** The segment in which a moment lies that is no time stamp. */
  lemma {:induction false} SegmentOf(ev: seq<Event>, t: real, n: nat) returns (m: nat)
    requires n < |ev| && ev[0].time < t < ev[n].time && forall k :: 0 <= k < |ev| ==> ev[k].time != t
    ensures 1 <= m < |ev| && ev[m - 1].time < t < ev[m].time
    decreases n
  {
    if ev[n - 1].time < t {
      m := n;
    } else {
      m := SegmentOf(ev, t, n - 1);
    }
  }

  /** No segment is idle exactly when no moment is. */
  lemma {:induction false} NoIdleGapIff(ivs: seq<Interval>, ev: seq<Event>)
    requires ivs != [] && Forward(ivs) && Arranged(ivs, ev) && Times(ev) == Stamps(ivs)
    ensures NoIdleGap(ivs) <==> NeverIdle(ivs)
  {
    if NoIdleGap(ivs) {
      forall t: real | Begun(ivs, t) && !Over(ivs, t) ensures Runs(ivs, t) {
        MomentRuns(ivs, ev, t);
      }
    } else {
      var m :| 1 <= m < |ev| && Times(ev)[m - 1] < Times(ev)[m] && Active(ivs, Times(ev), m) == {};
      GapIsIdle(ivs, ev, m);
    }
  }

  lemma {:induction false} GapIsIdle(ivs: seq<Interval>, ev: seq<Event>, m: nat)
    requires Forward(ivs) && Arranged(ivs, ev)
    requires 1 <= m < |ev| && ev[m - 1].time < ev[m].time && Active(ivs, Times(ev), m) == {}
    ensures !NeverIdle(ivs)
  {
    var t := (ev[m - 1].time + ev[m].time) / 2.0;
    var a := StampOfTask(ivs, ev, m - 1);
    var b := StampOfTask(ivs, ev, m);
    assert Begun(ivs, t) && !Over(ivs, t);
    forall i | 0 <= i < |ivs| ensures !(ivs[i].start <= t <= ivs[i].end) {
      assert i !in Active(ivs, Times(ev), m);
      OutsideSegment(ivs, ev, m, i);
    }
  }

  lemma {:induction false} MomentRuns(ivs: seq<Interval>, ev: seq<Event>, t: real)
    requires Forward(ivs) && Arranged(ivs, ev) && Times(ev) == Stamps(ivs) && NoIdleGap(ivs)
    requires Begun(ivs, t) && !Over(ivs, t)
    ensures Runs(ivs, t)
  {
    if k :| 0 <= k < |ev| && ev[k].time == t {
      var i := StampOfTask(ivs, ev, k);
    } else {
      var a := StampBefore(ivs, ev, t);
      var b := StampAfter(ivs, ev, t);
      InOrder(ev, 0, a);
      var m := SegmentOf(ev, t, b);
      assert Times(ev)[m - 1] < Times(ev)[m];
      var i :| i in Active(ivs, Times(ev), m);
      assert ivs[i].start <= t <= ivs[i].end;
    }
  }

  lemma {:induction false} StampBefore(ivs: seq<Interval>, ev: seq<Event>, t: real) returns (a: nat)
    requires Arranged(ivs, ev) && Begun(ivs, t)
    ensures a < |ev| && ev[a].time <= t
  {
    var i :| 0 <= i < |ivs| && ivs[i].start <= t;
    ArrangedEvents(ivs, ev);
    assert IsEvent(ivs, |ivs|, StartOf(ivs, i));
    a :| 0 <= a < |ev| && ev[a] == StartOf(ivs, i);
  }

  lemma {:induction false} StampAfter(ivs: seq<Interval>, ev: seq<Event>, t: real) returns (b: nat)
    requires Arranged(ivs, ev) && !Over(ivs, t)
    ensures b < |ev| && t <= ev[b].time
  {
    var i :| 0 <= i < |ivs| && t <= ivs[i].end;
    ArrangedEvents(ivs, ev);
    assert IsEvent(ivs, |ivs|, StopOf(ivs, i));
    b :| 0 <= b < |ev| && ev[b] == StopOf(ivs, i);
  }

  /** Between two different time stamps something always runs. */
  ghost predicate NoIdleGap(ivs: seq<Interval>) {
    var ts := Stamps(ivs);
    forall m :: 1 <= m < |ts| && ts[m - 1] < ts[m] ==> Active(ivs, ts, m) != {}
  }

  lemma {:induction false} OrderedTimes(ev: seq<Event>)
    requires Sorted(ev)
    ensures forall m :: 1 <= m < |ev| ==> Times(ev)[m - 1] <= Times(ev)[m]
  {
    forall m | 1 <= m < |ev| ensures Times(ev)[m - 1] <= Times(ev)[m] {
      assert Before(ev[m - 1], ev[m]);
    }
  }

  lemma {:induction false} ReachedEnds(entries: seq<Target>, ivs: seq<Interval>, earliest: real, latest: real)
    requires ivs == Intervals(entries)
    requires forall i :: 0 <= i < |entries| ==> earliest <= entries[i].start && entries[i].end <= latest
    requires exists i :: 0 <= i < |entries| && entries[i].start == earliest
    requires exists i :: 0 <= i < |entries| && entries[i].end == latest
    ensures forall i :: 0 <= i < |ivs| ==> earliest <= ivs[i].start && ivs[i].end <= latest
    ensures (exists i :: 0 <= i < |ivs| && ivs[i].start == earliest) && (exists i :: 0 <= i < |ivs| && ivs[i].end == latest)
  {
    var i :| 0 <= i < |entries| && entries[i].start == earliest;
    var j :| 0 <= j < |entries| && entries[j].end == latest;
    assert ivs[i].start == earliest && ivs[j].end == latest;
  }
}

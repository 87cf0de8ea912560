/** How many tasks run at once (tools/report_build_time_ninja.py, `SummarizeEntries`): the sum of
    the durations, against the time during which anything runs. */
module NinjaParallel {
  import opened NinjaSweep

  // ---------------------------------------------------------------- counting running tasks

  /** Every moment up to the `k`-th time stamp, counted once for each task that runs then. */
  function Demand(ivs: seq<Interval>, ts: seq<real>, k: nat): real
    requires k <= |ts|
  {
    if k <= 1 then 0.0
    else Demand(ivs, ts, k - 1) + |Active(ivs, ts, k - 1)| as real * (ts[k - 1] - ts[k - 2])
  }

  /** How long task `i` runs up to the `k`-th time stamp. */
  function Ran(ivs: seq<Interval>, ts: seq<real>, i: nat, k: nat): real
    requires i < |ivs| && k <= |ts|
  {
    if k <= 1 then 0.0 else Ran(ivs, ts, i, k - 1) + if Spans(ivs, ts, i, k - 1) then ts[k - 1] - ts[k - 2] else 0.0
  }

  function RanAll(ivs: seq<Interval>, ts: seq<real>, n: nat, k: nat): real
    requires n <= |ivs| && k <= |ts|
  {
    if n == 0 then 0.0 else RanAll(ivs, ts, n - 1, k) + Ran(ivs, ts, n - 1, k)
  }

  lemma {:induction false} RanStep(ivs: seq<Interval>, ts: seq<real>, i: nat, k: nat, x: real)
    requires i < |ivs| && 1 < k <= |ts| && x == ts[k - 1] - ts[k - 2]
    ensures Ran(ivs, ts, i, k) == Ran(ivs, ts, i, k - 1) + if Spans(ivs, ts, i, k - 1) then x else 0.0
  {
  }

  lemma {:induction false} RanAllStep(ivs: seq<Interval>, ts: seq<real>, n: nat, k: nat, x: real)
    requires n <= |ivs| && 1 < k <= |ts| && x == ts[k - 1] - ts[k - 2]
    ensures RanAll(ivs, ts, n, k) == RanAll(ivs, ts, n, k - 1) + |ActiveBelow(ivs, ts, n, k - 1)| as real * x
  {
    if n == 0 {
      assert ActiveBelow(ivs, ts, n, k - 1) == {};
    } else {
      RanAllStep(ivs, ts, n - 1, k, x);
      RanStep(ivs, ts, n - 1, k, x);
      ActiveBelowStep(ivs, ts, n, k - 1);
      OneMoreCounts(|ActiveBelow(ivs, ts, n - 1, k - 1)|, |ActiveBelow(ivs, ts, n, k - 1)|, x);
    }
  }

  lemma {:induction false} OneMoreCounts(c: nat, c': nat, x: real)
    requires c' == c || c' == c + 1
    ensures c' as real * x == c as real * x + if c' == c then 0.0 else x
  {
    OneMore(c, x);
  }

  lemma {:induction false} NoneRan(ivs: seq<Interval>, ts: seq<real>, n: nat, k: nat)
    requires n <= |ivs| && k <= |ts| && k <= 1
    ensures RanAll(ivs, ts, n, k) == 0.0
  {
    if n > 0 { NoneRan(ivs, ts, n - 1, k); }
  }

  lemma {:induction false} DemandIsRan(ivs: seq<Interval>, ts: seq<real>, k: nat)
    requires k <= |ts|
    ensures Demand(ivs, ts, k) == RanAll(ivs, ts, |ivs|, k)
  {
    if k <= 1 {
      NoneRan(ivs, ts, |ivs|, k);
    } else {
      DemandIsRan(ivs, ts, k - 1);
      RanAllStep(ivs, ts, |ivs|, k, ts[k - 1] - ts[k - 2]);
      assert ActiveBelow(ivs, ts, |ivs|, k - 1) == Active(ivs, ts, k - 1);
    }
  }

  // ---------------------------------------------------------------- durations

  lemma {:induction false} RanIsElapsed(ivs: seq<Interval>, ev: seq<Event>, i: nat, k: nat)
    requires Arranged(ivs, ev) && Forward(ivs) && i < |ivs| && 1 <= k <= |ev|
    ensures Ran(ivs, Times(ev), i, k) == Elapsed(ivs[i], ev[k - 1].time) - Elapsed(ivs[i], ev[0].time)
  {
    if k > 1 {
      RanIsElapsed(ivs, ev, i, k - 1);
      OutsideSegment(ivs, ev, k - 1, i);
      InOrder(ev, k - 2, k - 1);
      assert Times(ev)[k - 1] == ev[k - 1].time && Times(ev)[k - 2] == ev[k - 2].time;
    }
  }

  lemma {:induction false} RanIsDuration(ivs: seq<Interval>, ev: seq<Event>, i: nat)
    requires Arranged(ivs, ev) && Forward(ivs) && i < |ivs|
    ensures Ran(ivs, Times(ev), i, |ev|) == ivs[i].end - ivs[i].start
  {
    ArrangedEvents(ivs, ev);
    assert IsEvent(ivs, |ivs|, StartOf(ivs, i)) && IsEvent(ivs, |ivs|, StopOf(ivs, i));
    var a :| 0 <= a < |ev| && ev[a] == StartOf(ivs, i);
    var b :| 0 <= b < |ev| && ev[b] == StopOf(ivs, i);
    InOrder(ev, 0, a);
    InOrder(ev, b, |ev| - 1);
    RanIsElapsed(ivs, ev, i, |ev|);
  }

  lemma {:induction false} CpuTimeIsRan(entries: seq<Target>, ev: seq<Event>, n: nat)
    requires n <= |entries| && Forward(Intervals(entries)) && Arranged(Intervals(entries), ev)
    ensures CpuTime(entries, n) == RanAll(Intervals(entries), Times(ev), n, |ev|)
  {
    if n > 0 {
      CpuTimeIsRan(entries, ev, n - 1);
      RanIsDuration(Intervals(entries), ev, n - 1);
    }
  }

  // ---------------------------------------------------------------- overlapping tasks

  lemma {:induction false} CountedOnce(c: nat, x: real)
    requires x >= 0.0 && c > 0
    ensures x <= c as real * x && (x == c as real * x <==> x == 0.0 || c == 1)
  {
    OneMore(c - 1, x);
    if c > 1 { OneMore(c - 2, x); }
    NotNegativeTimes(c - 1, x);
    if c > 1 { NotNegativeTimes(c - 2, x); }
  }

  lemma {:induction false} NotNegativeTimes(c: nat, x: real)
    requires x >= 0.0
    ensures c as real * x >= 0.0
  {
  }

  /** What segment `m` adds to the time during which anything runs, and to the demand. */
  function BusyIn(ivs: seq<Interval>, ts: seq<real>, m: nat): real
    requires 1 <= m < |ts|
  {
    if Active(ivs, ts, m) != {} then ts[m] - ts[m - 1] else 0.0
  }

  function DemandIn(ivs: seq<Interval>, ts: seq<real>, m: nat): real
    requires 1 <= m < |ts|
  {
    |Active(ivs, ts, m)| as real * (ts[m] - ts[m - 1])
  }

  predicate AtMostOne(ivs: seq<Interval>, ts: seq<real>, m: nat)
    requires 1 <= m < |ts|
  {
    ts[m - 1] < ts[m] ==> |Active(ivs, ts, m)| <= 1
  }

  predicate Rises(ts: seq<real>, m: nat)
    requires 1 <= m < |ts|
  {
    ts[m - 1] <= ts[m]
  }

  lemma {:induction false} DemandOf(n: nat, from: real, to: real, x: real)
    requires x == to - from
    ensures n as real * (to - from) == n as real * x
  {
  }

  lemma {:induction false} SegmentDemand(ivs: seq<Interval>, ts: seq<real>, m: nat)
    requires 1 <= m < |ts| && Rises(ts, m)
    ensures BusyIn(ivs, ts, m) <= DemandIn(ivs, ts, m)
    ensures BusyIn(ivs, ts, m) == DemandIn(ivs, ts, m) <==> AtMostOne(ivs, ts, m)
  {
    var n, x := |Active(ivs, ts, m)|, ts[m] - ts[m - 1];
    DemandOf(n, ts[m - 1], ts[m], x);
    if n > 0 {
      CountedOnce(n, x);
    }
  }

  lemma {:induction false} OneMoreSegment(ivs: seq<Interval>, ts: seq<real>, k: nat)
    requires 1 < k <= |ts|
    ensures Busy(ivs, ts, k) == Busy(ivs, ts, k - 1) + BusyIn(ivs, ts, k - 1)
    ensures Demand(ivs, ts, k) == Demand(ivs, ts, k - 1) + DemandIn(ivs, ts, k - 1)
  {
  }

  /** In no segment that takes time do two tasks run. */
  ghost predicate OneAtATime(ivs: seq<Interval>, ts: seq<real>, k: nat)
    requires k <= |ts|
  {
    forall m :: 1 <= m < k ==> AtMostOne(ivs, ts, m)
  }

  lemma {:induction false} OneAtATimeStep(ivs: seq<Interval>, ts: seq<real>, k: nat)
    requires 1 < k <= |ts|
    ensures OneAtATime(ivs, ts, k) <==> OneAtATime(ivs, ts, k - 1) && AtMostOne(ivs, ts, k - 1)
  {
    assert OneAtATime(ivs, ts, k) ==> AtMostOne(ivs, ts, k - 1);
  }

  lemma {:induction false} SumsAgree(a: real, b: real, x: real, y: real)
    requires a <= b && x <= y
    ensures a + x <= b + y && (a + x == b + y <==> a == b && x == y)
  {
  }

  lemma {:induction false} BusyAndDemand(ivs: seq<Interval>, ts: seq<real>, k: nat)
    requires k <= |ts| && forall m :: 1 <= m < k ==> Rises(ts, m)
    ensures Busy(ivs, ts, k) <= Demand(ivs, ts, k)
    ensures Busy(ivs, ts, k) == Demand(ivs, ts, k) <==> OneAtATime(ivs, ts, k)
  {
    if k > 1 {
      BusyAndDemand(ivs, ts, k - 1);
      SegmentDemand(ivs, ts, k - 1);
      OneMoreSegment(ivs, ts, k);
      OneAtATimeStep(ivs, ts, k);
      SumsAgree(Busy(ivs, ts, k - 1), Demand(ivs, ts, k - 1), BusyIn(ivs, ts, k - 1), DemandIn(ivs, ts, k - 1));
    }
  }

  predicate Inside(iv: Interval, t: real) { iv.start < t < iv.end }

  /** No moment lies inside two tasks. */
  ghost predicate NoOverlap(ivs: seq<Interval>) {
    forall i, j, t: real :: 0 <= i < j < |ivs| && Inside(ivs[i], t) ==> !Inside(ivs[j], t)
  }

  lemma {:induction false} SegmentFrom(ev: seq<Event>, t: real, n: nat) returns (m: nat)
    requires n < |ev| && ev[0].time <= t < ev[n].time
    ensures 1 <= m < |ev| && ev[m - 1].time <= t < ev[m].time
    decreases n
  {
    if ev[n - 1].time <= t {
      m := n;
    } else {
      m := SegmentFrom(ev, t, n - 1);
    }
  }

  /** A moment inside two tasks lies in a segment during which both run. */
  lemma {:induction false} OverlapIsCounted(ivs: seq<Interval>, ev: seq<Event>, i: nat, j: nat, t: real)
    requires Arranged(ivs, ev) && i < j < |ivs| && Inside(ivs[i], t) && Inside(ivs[j], t)
    ensures !OneAtATime(ivs, Times(ev), |ev|)
  {
    assert Begun(ivs, t) && !Over(ivs, t);
    var a := StampBefore(ivs, ev, t);
    ArrangedEvents(ivs, ev);
    assert IsEvent(ivs, |ivs|, StopOf(ivs, i));
    var b :| 0 <= b < |ev| && ev[b] == StopOf(ivs, i);
    InOrder(ev, 0, a);
    var m := SegmentFrom(ev, t, b);
    OutsideSegment(ivs, ev, m, i);
    OutsideSegment(ivs, ev, m, j);
    BothActive(ivs, Times(ev), m, i, j);
    assert !AtMostOne(ivs, Times(ev), m);
  }

  lemma {:induction false} BothActive(ivs: seq<Interval>, ts: seq<real>, m: nat, i: nat, j: nat)
    requires 1 <= m < |ts| && i < j < |ivs| && Spans(ivs, ts, i, m) && Spans(ivs, ts, j, m)
    ensures |Active(ivs, ts, m)| >= 2
  {
    var rest := Active(ivs, ts, m) - {i};
    assert j in rest && Active(ivs, ts, m) == rest + {i};
  }

  lemma {:induction false} CountedIsOverlap(ivs: seq<Interval>, ts: seq<real>, m: nat)
    requires 1 <= m < |ts| && ts[m - 1] < ts[m] && |Active(ivs, ts, m)| >= 2
    ensures !NoOverlap(ivs)
  {
    var i :| i in Active(ivs, ts, m);
    var rest := Active(ivs, ts, m) - {i};
    assert Active(ivs, ts, m) == rest + {i};
    var j :| j in rest;
    var t := (ts[m - 1] + ts[m]) / 2.0;
    assert Inside(ivs[i], t) && Inside(ivs[j], t);
    assert i < j || j < i;
  }

  lemma {:induction false} OneAtATimeIff(ivs: seq<Interval>, ev: seq<Event>)
    requires Arranged(ivs, ev)
    ensures OneAtATime(ivs, Times(ev), |ev|) <==> NoOverlap(ivs)
  {
    if NoOverlap(ivs) {
      forall m | 1 <= m < |ev| ensures AtMostOne(ivs, Times(ev), m) {
        if !AtMostOne(ivs, Times(ev), m) {
          CountedIsOverlap(ivs, Times(ev), m);
        }
      }
    } else {
      var i, j, t: real :| 0 <= i < j < |ivs| && Inside(ivs[i], t) && Inside(ivs[j], t);
      OverlapIsCounted(ivs, ev, i, j, t);
    }
  }

  /** The sum of the durations counts every moment once for each task that runs then. The total of
      the weighted times is never more, and equals it exactly when no moment lies inside two tasks. */
  lemma {:induction false} CpuTimeCountsTasks(entries: seq<Target>)
    requires Forward(Intervals(entries))
    ensures var ivs := Intervals(entries); var ts := Stamps(ivs);
            && CpuTime(entries, |entries|) == Demand(ivs, ts, |ts|)
            && Busy(ivs, ts, |ts|) <= CpuTime(entries, |entries|)
            && (Busy(ivs, ts, |ts|) == CpuTime(entries, |entries|) <==> NoOverlap(ivs))
  {
    var ivs := Intervals(entries);
    var ev := Sort(Events(ivs, |ivs|));
    SortArranges(Events(ivs, |ivs|));
    OrderedTimes(ev);
    CpuTimeIsRan(entries, ev, |entries|);
    DemandIsRan(ivs, Times(ev), |ev|);
    BusyAndDemand(ivs, Times(ev), |ev|);
    OneAtATimeIff(ivs, ev);
  }
}

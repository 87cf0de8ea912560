/** Slices of the flat container (vllm/logprobs.py, `__getitem__` of a slice). */
module LogprobsSlices {
  import opened Wrappers
  import opened Arithmetic
  import opened Logprobs

  // ---------------------------------------------------------------- Python's slices

  datatype Slice = Slice(start: Option<int>, stop: Option<int>, step: Option<int>)

  function Step(s: Slice): int { if s.step.Some? then s.step.value else 1 }

  function Bound(i: int, n: nat, low: int, high: int): int {
    var j := Wrap(i, n);
    if j < low then low else if j > high then high else j
  }

  function First(s: Slice, n: nat): int {
    if Step(s) > 0 then (if s.start.Some? then Bound(s.start.value, n, 0, n) else 0)
    else (if s.start.Some? then Bound(s.start.value, n, -1, n - 1) else n - 1)
  }

  function Stop(s: Slice, n: nat): int {
    if Step(s) > 0 then (if s.stop.Some? then Bound(s.stop.value, n, 0, n) else n)
    else (if s.stop.Some? then Bound(s.stop.value, n, -1, n - 1) else -1)
  }

  /** Length of `range(lo, hi, step)`. */
  function Count(lo: int, hi: int, step: int): nat
    requires step != 0
  {
    if step > 0 then (if lo < hi then (hi - lo - 1) / step + 1 else 0)
    else (if hi < lo then (lo - hi - 1) / -step + 1 else 0)
  }

  lemma {:induction false} DivBound(k: nat, d: nat, step: int)
    requires step > 0 && k <= d / step
    ensures 0 <= k * step <= d
  {
    MulMono(k, d / step, step);
    assert d == d / step * step + d % step;
  }

  /** `lo`, `lo + step`, and so on. */
  function Progression(lo: int, step: int, count: nat): (r: seq<int>)
    ensures |r| == count
  {
    if count == 0 then [] else Progression(lo, step, count - 1) + [lo + (count - 1) * step]
  }

  lemma {:induction false} ProgressionAt(lo: int, step: int, count: nat, k: nat)
    requires k < count
    ensures Progression(lo, step, count)[k] == lo + k * step
    decreases count
  {
    if k < count - 1 {
      ProgressionAt(lo, step, count - 1, k);
    }
  }

  lemma {:induction false} RangeBounds(lo: int, hi: int, step: int, k: nat)
    requires step != 0 && k < Count(lo, hi, step)
    ensures if step > 0 then lo <= lo + k * step < hi else hi < lo + k * step <= lo
  {
    if step > 0 {
      DivBound(k, hi - lo - 1, step);
    } else {
      DivBound(k, lo - hi - 1, -step);
      assert k * step == -(k * -step);
    }
  }

  lemma {:induction false} SelectedInRange(s: Slice, n: nat)
    requires Step(s) != 0
    ensures var count := Count(First(s, n), Stop(s, n), Step(s));
            forall k :: 0 <= k < count ==> 0 <= Progression(First(s, n), Step(s), count)[k] < n
  {
    var lo, hi, step := First(s, n), Stop(s, n), Step(s);
    var count := Count(lo, hi, step);
    forall k | 0 <= k < count ensures 0 <= Progression(lo, step, count)[k] < n {
      ProgressionAt(lo, step, count, k);
      RangeBounds(lo, hi, step, k);
    }
  }

  /** The positions that the slice picks from a list of length `n`. */
  function Selected(s: Slice, n: nat): (r: seq<nat>)
    requires Step(s) != 0
    ensures |r| == Count(First(s, n), Stop(s, n), Step(s))
    ensures forall k :: 0 <= k < |r| ==> r[k] < n
  {
    SelectedInRange(s, n);
    Progression(First(s, n), Step(s), Count(First(s, n), Stop(s, n), Step(s)))
  }

  function Pick<T>(l: seq<T>, positions: seq<nat>): (r: seq<T>)
    requires forall k :: 0 <= k < |positions| ==> positions[k] < |l|
    ensures |r| == |positions|
  {
    seq(|positions|, k requires 0 <= k < |positions| => l[positions[k]])
  }

  function PySlice<T>(l: seq<T>, lo: int, hi: int): seq<T> {
    var a, b := Bound(lo, |l|, 0, |l|), Bound(hi, |l|, 0, |l|);
    if a < b then l[a..b] else []
  }

  // ---------------------------------------------------------------- slicing the container

  function Shifted(l: seq<int>, offset: int): (r: seq<int>)
    ensures |r| == |l|
  {
    seq(|l|, k requires 0 <= k < |l| => l[k] - offset)
  }

  /** The container with the chosen positions only, its indices moved to begin at zero. */
  function Rebased(f: Flat, positions: seq<nat>): Flat
    requires SameLengths(f) && positions != []
    requires forall k :: 0 <= k < |positions| ==> positions[k] < |f.starts|
  {
    var starts, ends := Pick(f.starts, positions), Pick(f.ends, positions);
    Cut(f, starts, ends, starts[0], ends[|ends| - 1])
  }

  /** The positions at `starts` and `ends`, over the entries from `lo` to `hi`. */
  function Cut(f: Flat, starts: seq<int>, ends: seq<int>, lo: int, hi: int): Flat {
    Kept(f, lo, hi).(starts := Shifted(starts, lo), ends := Shifted(ends, lo))
  }

  function Kept(f: Flat, lo: int, hi: int): Flat {
    Flat([], [], PySlice(f.tokenIds, lo, hi), PySlice(f.logprobs, lo, hi), PySlice(f.ranks, lo, hi),
         PySlice(f.decodedTokens, lo, hi))
  }

  /** `__getitem__` of a slice. */
  function TakeSlice(f: Flat, s: Slice): Result<Flat>
    requires SameLengths(f)
  {
    if Step(s) == 0 then Failure(ValueError)
    else if Selected(s, |f.starts|) == [] then Failure(IndexError)
    else Success(Rebased(f, Selected(s, |f.starts|)))
  }

  ghost predicate Increasing(positions: seq<nat>) {
    forall i, j :: 0 <= i < j < |positions| ==> positions[i] < positions[j]
  }

  ghost predicate Decreasing(positions: seq<nat>) {
    forall i, j :: 0 <= i < j < |positions| ==> positions[i] > positions[j]
  }

  lemma {:induction false} SelectedIsMonotone(s: Slice, n: nat)
    requires Step(s) != 0
    ensures if Step(s) > 0 then Increasing(Selected(s, n)) else Decreasing(Selected(s, n))
  {
    var lo, step := First(s, n), Step(s);
    var r := Selected(s, n);
    forall i, j | 0 <= i < j < |r| ensures if step > 0 then r[i] < r[j] else r[i] > r[j] {
      ProgressionAt(lo, step, |r|, i);
      ProgressionAt(lo, step, |r|, j);
      ProgressionMoves(lo, step, i, j);
    }
  }

  lemma {:induction false} ProgressionMoves(lo: int, step: int, i: int, j: int)
    requires i < j && step != 0
    ensures if step > 0 then lo + i * step < lo + j * step else lo + i * step > lo + j * step
  {
    assert j * step - i * step == (j - i) * step;
    if step > 0 {
      MulMono(1, j - i, step);
    } else {
      MulMono(1, j - i, -step);
      assert (j - i) * -step == -((j - i) * step);
    }
  }

  /** Python's rule: `p` lies between the bounds, in the direction of the step. A negative bound
      counts from the end, and a missing bound is no bound. */
  predicate Inside(s: Slice, n: nat, p: int) {
    && 0 <= p < n
    && (s.start.None? || if Step(s) > 0 then Wrap(s.start.value, n) <= p else p <= Wrap(s.start.value, n))
    && (s.stop.None? || if Step(s) > 0 then p < Wrap(s.stop.value, n) else Wrap(s.stop.value, n) < p)
  }

  lemma {:induction false} InsideIsBetween(s: Slice, n: nat, p: int)
    ensures Inside(s, n, p) <==> if Step(s) > 0 then First(s, n) <= p < Stop(s, n) else Stop(s, n) < p <= First(s, n)
  {
  }

  /** The step is the given one, or 1. */
  ghost predicate StepIs(s: Slice, step: int) {
    s.step == Some(step) || (s.step.None? && step == 1)
  }

  /** The slice begins at the first position inside, goes on by the step, and ends with the last
      position that is inside. */
  lemma {:induction false} SelectedByRule(s: Slice, n: nat, step: int, p: int)
    requires StepIs(s, step) && step != 0
    ensures Inside(s, n, p) ==> Selected(s, n) != [] && if step > 0 then Selected(s, n)[0] <= p else p <= Selected(s, n)[0]
    ensures forall k :: 0 <= k < |Selected(s, n)| ==> Inside(s, n, Selected(s, n)[k])
    ensures forall k :: 1 <= k < |Selected(s, n)| ==> Selected(s, n)[k] == Selected(s, n)[k - 1] + step
    ensures Selected(s, n) != [] ==> !Inside(s, n, Selected(s, n)[|Selected(s, n)| - 1] + step)
  {
    var r := Selected(s, n);
    if r != [] {
      SelectedPlace(s, n, step, 0);
      LastSelected(s, n, step);
    }
    BeginsInside(s, n, step, p);
    forall k | 0 <= k < |r| ensures Inside(s, n, r[k]) && (k > 0 ==> r[k] == r[k - 1] + step) {
      SelectedPlace(s, n, step, k);
      if k > 0 {
        SelectedPlace(s, n, step, k - 1);
        NextOf(First(s, n), step, k);
      }
    }
  }

  lemma {:induction false} BeginsInside(s: Slice, n: nat, step: int, p: int)
    requires StepIs(s, step) && step != 0
    ensures Inside(s, n, p) ==> Selected(s, n) != [] && if step > 0 then First(s, n) <= p else p <= First(s, n)
  {
    InsideIsBetween(s, n, p);
  }

  lemma {:induction false} SelectedPlace(s: Slice, n: nat, step: int, k: nat)
    requires StepIs(s, step) && step != 0 && k < |Selected(s, n)|
    ensures Selected(s, n)[k] == First(s, n) + k * step && Inside(s, n, Selected(s, n)[k])
  {
    var lo, hi := First(s, n), Stop(s, n);
    ProgressionAt(lo, step, |Selected(s, n)|, k);
    RangeBounds(lo, hi, step, k);
    InsideIsBetween(s, n, lo + k * step);
  }

  lemma {:induction false} LastSelected(s: Slice, n: nat, step: int)
    requires StepIs(s, step) && step != 0 && Selected(s, n) != []
    ensures !Inside(s, n, Selected(s, n)[|Selected(s, n)| - 1] + step)
  {
    var lo, hi, count := First(s, n), Stop(s, n), |Selected(s, n)|;
    SelectedPlace(s, n, step, count - 1);
    NextOf(lo, step, count);
    RangeEnds(lo, hi, step);
    InsideIsBetween(s, n, lo + count * step);
  }

  lemma {:induction false} NextOf(lo: int, step: int, k: nat)
    requires k > 0
    ensures lo + k * step == lo + (k - 1) * step + step
  {
  }

  lemma {:induction false} RangeEnds(lo: int, hi: int, step: int)
    requires step != 0 && Count(lo, hi, step) > 0
    ensures if step > 0 then lo + Count(lo, hi, step) * step >= hi else lo + Count(lo, hi, step) * step <= hi
  {
    if step > 0 {
      QuotientEnds(hi - lo - 1, step);
    } else {
      QuotientEnds(lo - hi - 1, -step);
      assert Count(lo, hi, step) * step == -(Count(lo, hi, step) * -step);
    }
  }

  lemma {:induction false} QuotientEnds(d: nat, step: int)
    requires step > 0
    ensures (d / step + 1) * step > d
  {
    assert d == d / step * step + d % step;
  }

  // ---------------------------------------------------------------- positive steps

  ghost predicate Picks(f: Flat, positions: seq<nat>) {
    Valid(f) && positions != [] && forall k :: 0 <= k < |positions| ==> positions[k] < |f.starts|
  }

  lemma {:induction false} RebasedIndices(f: Flat, positions: seq<nat>, k: nat)
    requires Picks(f, positions) && Increasing(positions) && k < |positions|
    ensures var r, lo := Rebased(f, positions), f.starts[positions[0]];
            && SameLengths(r)
            && r.starts[k] == f.starts[positions[k]] - lo
            && r.ends[k] == f.ends[positions[k]] - lo
            && 0 <= r.starts[k] <= r.ends[k] <= |r.tokenIds|
  {
    var last := |positions| - 1;
    assert k == 0 || f.ends[positions[0]] <= f.starts[positions[k]];
    assert k == last || f.ends[positions[k]] <= f.starts[positions[last]];
  }

  lemma {:induction false} RebasedItem(f: Flat, positions: seq<nat>, i: nat)
    requires Picks(f, positions) && Increasing(positions)
    requires SameLengths(Rebased(f, positions)) && i < |Rebased(f, positions).tokenIds|
    ensures f.starts[positions[0]] + i < |f.tokenIds|
    ensures ItemAt(Rebased(f, positions), i) == ItemAt(f, f.starts[positions[0]] + i)
  {
  }

  lemma {:induction false} RebasedItems(f: Flat, positions: seq<nat>, k: nat)
    requires Picks(f, positions) && Increasing(positions) && k < |positions|
    requires Valid(Rebased(f, positions))
    ensures var r := Rebased(f, positions);
            Items(r, r.starts[k], r.ends[k]) == Items(f, f.starts[positions[k]], f.ends[positions[k]])
  {
    var r := Rebased(f, positions);
    RebasedIndices(f, positions, k);
    forall i | r.starts[k] <= i < r.ends[k]
      ensures ItemAt(r, i) == ItemAt(f, f.starts[positions[0]] + i)
    {
      RebasedItem(f, positions, i);
    }
  }

  lemma {:induction false} RebasedIsValid(f: Flat, positions: seq<nat>)
    requires Picks(f, positions) && Increasing(positions)
    ensures Valid(Rebased(f, positions)) && |Rebased(f, positions).starts| == |positions|
  {
    var r := Rebased(f, positions);
    forall k | 0 <= k < |positions|
      ensures 0 <= r.starts[k] <= r.ends[k] <= |r.tokenIds|
    {
      RebasedIndices(f, positions, k);
    }
    forall i, j | 0 <= i < j < |positions| ensures r.ends[i] <= r.starts[j] {
      RebasedIndices(f, positions, i);
      RebasedIndices(f, positions, j);
    }
    RebasedIndices(f, positions, 0);
  }

  /** Choosing positions in order refines choosing them from the list of dictionaries. */
  lemma {:induction false} RebasedView(f: Flat, positions: seq<nat>)
    requires Picks(f, positions) && Increasing(positions)
    ensures Valid(Rebased(f, positions))
    ensures View(Rebased(f, positions)) == Pick(View(f), positions)
  {
    RebasedIsValid(f, positions);
    var r := Rebased(f, positions);
    forall k | 0 <= k < |positions| ensures View(r)[k] == View(f)[positions[k]] {
      RebasedItems(f, positions, k);
    }
  }

  // ---------------------------------------------------------------- negative steps

  /** Positions in reverse order lose every entry: only empty positions can be read. */
  lemma {:induction false} ReversedRead(f: Flat, positions: seq<nat>, k: nat)
    requires Picks(f, positions) && Decreasing(positions) && |positions| > 1 && k < |positions|
    ensures SameLengths(Rebased(f, positions)) && |Rebased(f, positions).starts| == |positions|
    ensures Read(Rebased(f, positions), k) ==
            if f.starts[positions[k]] == f.ends[positions[k]] then Success([]) else Failure(IndexError)
  {
    var r, last := Rebased(f, positions), |positions| - 1;
    assert f.ends[positions[last]] <= f.starts[positions[0]];
    assert r.tokenIds == [] && r.logprobs == [] && r.ranks == [] && r.decodedTokens == [];
    EmptyReadRange(r, r.starts[k], r.ends[k]);
  }

  lemma {:induction false} EmptyReadRange(r: Flat, lo: int, hi: int)
    requires SameLengths(r) && r.tokenIds == []
    ensures ReadRange(r, lo, hi) == if lo >= hi then Success([]) else Failure(IndexError)
    decreases hi - lo
  {
    if lo < hi {
      EmptyReadRange(r, lo, hi - 1);
    }
  }

  // ---------------------------------------------------------------- main results

  /** Every position of the slice reads what the sliced list of dictionaries holds there. */
  ghost predicate ReadsBack(f: Flat, positions: seq<nat>)
    requires Picks(f, positions)
  {
    forall k :: 0 <= k < |positions| ==>
      SameLengths(Rebased(f, positions)) && Read(Rebased(f, positions), k) == Success(View(f)[positions[k]])
  }

  ghost predicate AllEmpty(f: Flat, positions: seq<nat>)
    requires Picks(f, positions)
  {
    forall k :: 0 <= k < |positions| ==> f.starts[positions[k]] == f.ends[positions[k]]
  }

  /** A slice reads back as a slice of the list exactly when its step is positive, it has one
      position, or all its positions are empty. */
  lemma {:induction false} SliceReadsBack(f: Flat, s: Slice)
    requires Valid(f) && Step(s) != 0 && Selected(s, |f.starts|) != []
    ensures TakeSlice(f, s).Success?
    ensures var positions := Selected(s, |f.starts|);
            ReadsBack(f, positions) <==> Step(s) > 0 || |positions| == 1 || AllEmpty(f, positions)
  {
    var positions := Selected(s, |f.starts|);
    SelectedIsMonotone(s, |f.starts|);
    if Step(s) > 0 || |positions| == 1 {
      InOrderReadsBack(f, positions);
    } else {
      ReverseReadsBack(f, positions);
    }
  }

  lemma {:induction false} InOrderReadsBack(f: Flat, positions: seq<nat>)
    requires Picks(f, positions) && Increasing(positions)
    ensures ReadsBack(f, positions)
  {
    RebasedView(f, positions);
    var r := Rebased(f, positions);
    forall k | 0 <= k < |positions| ensures Read(r, k) == Success(View(f)[positions[k]]) {
      ReadIsList(r, k);
    }
  }

  lemma {:induction false} ReverseReadsBack(f: Flat, positions: seq<nat>)
    requires Picks(f, positions) && Decreasing(positions) && |positions| > 1
    ensures ReadsBack(f, positions) <==> AllEmpty(f, positions)
  {
    var r := Rebased(f, positions);
    ReversedRead(f, positions, 0);
    forall k | 0 <= k < |positions|
      ensures Read(r, k) == Success(View(f)[positions[k]]) <==> f.starts[positions[k]] == f.ends[positions[k]]
    {
      ReversedRead(f, positions, k);
      assert f.starts[positions[k]] == f.ends[positions[k]] ==> View(f)[positions[k]] == [];
    }
    if AllEmpty(f, positions) {
      forall k | 0 <= k < |positions| ensures Read(r, k) == Success(View(f)[positions[k]]) {
        assert f.starts[positions[k]] == f.ends[positions[k]];
      }
    } else {
      var k :| 0 <= k < |positions| && f.starts[positions[k]] != f.ends[positions[k]];
      assert Read(r, k) != Success(View(f)[positions[k]]);
    }
  }

  /** A position that holds something cannot be read from a slice that goes backwards over
      more than one position. */
  lemma {:induction false} BackwardPositionIsLost(f: Flat, s: Slice, k: nat)
    requires Valid(f) && Step(s) < 0 && |Selected(s, |f.starts|)| > 1 && k < |Selected(s, |f.starts|)|
    requires f.starts[Selected(s, |f.starts|)[k]] < f.ends[Selected(s, |f.starts|)[k]]
    ensures var r := TakeSlice(f, s); r.Success? && SameLengths(r.value) && Read(r.value, k) == Failure(IndexError)
  {
    SelectedIsMonotone(s, |f.starts|);
    ReversedRead(f, Selected(s, |f.starts|), k);
  }

  /** An example: reversing two positions with one token each loses both. */
  lemma {:induction false} ReversedSliceLosesEntries(f: Flat, s: Slice)
    requires f == Flat([0, 1], [1, 2], [5, 7], [0.0, 0.0], [None, None], [None, None])
    requires s == Slice(None, None, Some(-1))
    ensures Valid(f)
    ensures var r := TakeSlice(f, s);
            r.Success? && SameLengths(r.value) && Read(r.value, 0) == Read(r.value, 1) == Failure(IndexError)
  {
    ReversalSize(s, 2);
    assert forall p :: 0 <= p < 2 ==> f.starts[p] < f.ends[p];
    BackwardPositionIsLost(f, s, 0);
    BackwardPositionIsLost(f, s, 1);
  }

  lemma {:induction false} ReversalSize(s: Slice, n: nat)
    requires s == Slice(None, None, Some(-1))
    ensures |Selected(s, n)| == n
  {
  }

  /** The slice that takes `outer` and then `inner`. */
  function Composed(outer: Slice, inner: Slice, n: nat): Slice
    requires Step(outer) > 0
  {
    var m := |Selected(outer, n)|;
    Slice(Some(First(outer, n) + First(inner, m) * Step(outer)),
          Some(First(outer, n) + (Stop(inner, m) - 1) * Step(outer) + 1),
          Some(Step(outer) * Step(inner)))
  }

  /** Slices of slices compose: the second slice of the first is one slice, with the same six
      lists. */
  lemma {:induction false} SlicesCompose(f: Flat, outer: Slice, inner: Slice)
    requires Valid(f) && Step(outer) > 0 && Step(inner) > 0
    requires Selected(outer, |f.starts|) != [] && Selected(inner, |Selected(outer, |f.starts|)|) != []
    ensures var first := Rebased(f, Selected(outer, |f.starts|));
            && TakeSlice(f, outer) == Success(first)
            && SameLengths(first)
            && TakeSlice(first, inner) == TakeSlice(f, Composed(outer, inner, |f.starts|))
  {
    var n := |f.starts|;
    var one := Selected(outer, n);
    var two := Selected(inner, |one|);
    SelectedIsMonotone(outer, n);
    SelectedIsMonotone(inner, |one|);
    RebasedIsValid(f, one);
    SelectionsCompose(outer, inner, n);
    RebasedTwice(f, one, two);
  }

  lemma {:induction false} SelectionsCompose(outer: Slice, inner: Slice, n: nat)
    requires Step(outer) > 0 && Step(inner) > 0
    requires Selected(outer, n) != [] && Selected(inner, |Selected(outer, n)|) != []
    ensures Step(Composed(outer, inner, n)) > 0
    ensures Selected(Composed(outer, inner, n), n) == Pick(Selected(outer, n), Selected(inner, |Selected(outer, n)|))
  {
    var m := |Selected(outer, n)|;
    var a, p, lo, hi, q := First(outer, n), Step(outer), First(inner, m), Stop(inner, m), Step(inner);
    ComposedBounds(outer, inner, n);
    ComposedCount(a, p, lo, hi, q);
    ProgressionsCompose(a, p, m, lo, q, Selected(inner, m));
  }

  lemma {:induction false} ComposedBounds(outer: Slice, inner: Slice, n: nat)
    requires Step(outer) > 0 && Step(inner) > 0
    requires Selected(outer, n) != [] && Selected(inner, |Selected(outer, n)|) != []
    ensures var a, p, m, c := First(outer, n), Step(outer), |Selected(outer, n)|, Composed(outer, inner, n);
            && Step(c) > 0
            && First(c, n) == a + First(inner, m) * p
            && Stop(c, n) == a + (Stop(inner, m) - 1) * p + 1
  {
    var a, b, p, m := First(outer, n), Stop(outer, n), Step(outer), |Selected(outer, n)|;
    RangeBounds(a, b, p, First(inner, m));
    RangeBounds(a, b, p, Stop(inner, m) - 1);
    MulMono(1, Step(inner), p);
  }

  lemma {:induction false} ProgressionsCompose(a: int, p: int, m: nat, lo: int, q: int, two: seq<nat>)
    requires two == Progression(lo, q, |two|)
    requires forall k :: 0 <= k < |two| ==> two[k] < m
    ensures Pick(Progression(a, p, m), two) == Progression(a + lo * p, p * q, |two|)
  {
    forall k | 0 <= k < |two| ensures Progression(a + lo * p, p * q, |two|)[k] == Progression(a, p, m)[two[k]] {
      ProgressionAt(a + lo * p, p * q, |two|, k);
      ProgressionAt(lo, q, |two|, k);
      ProgressionAt(a, p, m, two[k]);
      assert (lo + k * q) * p == lo * p + k * (p * q);
    }
  }

  lemma {:induction false} ComposedCount(a: int, p: int, lo: int, hi: int, q: int)
    requires p > 0 && q > 0 && lo < hi
    ensures p * q > 0
    ensures Count(a + lo * p, a + (hi - 1) * p + 1, p * q) == Count(lo, hi, q)
  {
    CountScales(hi - 1 - lo, p, q);
    assert (hi - 1) * p - lo * p == (hi - 1 - lo) * p;
    MulMono(lo, hi - 1, p);
  }

  lemma {:induction false} CountScales(d: nat, p: int, q: int)
    requires p > 0 && q > 0
    ensures p * q > 0 && d * p / (p * q) == d / q
  {
    MulMono(1, q, p);
    var k, r := d / q, d % q;
    assert d * p == k * (p * q) + r * p by {
      assert d == k * q + r;
      assert (k * q + r) * p == k * (p * q) + r * p;
    }
    MulMono(r, q - 1, p);
    MulMono(0, r, p);
    assert (q - 1) * p == p * q - p;
    DivUnique(d * p, p * q, k, r * p);
  }

  lemma {:induction false} RebasedTwice(f: Flat, one: seq<nat>, two: seq<nat>)
    requires Picks(f, one) && Increasing(one)
    requires Picks(Rebased(f, one), two) && Increasing(two)
    requires |Rebased(f, one).starts| == |one|
    ensures Rebased(Rebased(f, one), two) == Rebased(f, Pick(one, two))
  {
    RebasedWindow(f, one, two);
    IndicesTwice(f, one, two);
    var g, last := Rebased(f, one), |two| - 1;
    var base, top, lo, hi := f.starts[one[0]], f.ends[one[|one| - 1]], g.starts[two[0]], g.ends[two[last]];
    KeptTwice(f, Pick(f.starts, one), Pick(f.ends, one), base, top, lo, hi);
  }

  ghost predicate Window(f: Flat, one: seq<nat>, two: seq<nat>)
    requires SameLengths(f) && one != [] && two != []
    requires forall k :: 0 <= k < |one| ==> one[k] < |f.starts|
    requires forall k :: 0 <= k < |two| ==> two[k] < |one|
  {
    var g, last := Rebased(f, one), |two| - 1;
    var base, top, lo, hi := f.starts[one[0]], f.ends[one[|one| - 1]], g.starts[two[0]], g.ends[two[last]];
    && 0 <= base <= top <= |f.tokenIds| && 0 <= lo <= hi <= top - base
    && base + lo == f.starts[one[two[0]]] && base + hi == f.ends[one[two[last]]]
  }

  lemma {:induction false} KeptTwice(f: Flat, starts: seq<int>, ends: seq<int>, base: int, top: int, lo: int, hi: int)
    requires SameLengths(f) && 0 <= base <= top <= |f.tokenIds| && 0 <= lo <= hi <= top - base
    ensures Kept(Cut(f, starts, ends, base, top), lo, hi) == Kept(f, base + lo, base + hi)
  {
    PySliceTwice(f.tokenIds, base, top, lo, hi);
    PySliceTwice(f.logprobs, base, top, lo, hi);
    PySliceTwice(f.ranks, base, top, lo, hi);
    PySliceTwice(f.decodedTokens, base, top, lo, hi);
  }

  /** The entries kept by the second choice, within those kept by the first. */
  lemma {:induction false} RebasedWindow(f: Flat, one: seq<nat>, two: seq<nat>)
    requires Picks(f, one) && Increasing(one)
    requires Picks(Rebased(f, one), two) && Increasing(two)
    requires |Rebased(f, one).starts| == |one|
    ensures Window(f, one, two)
  {
    var g, last := Rebased(f, one), |two| - 1;
    RebasedIndices(f, one, two[0]);
    RebasedIndices(f, one, two[last]);
    assert last == 0 || g.ends[two[0]] <= g.starts[two[last]];
    assert |one| == 1 || f.ends[one[0]] <= f.starts[one[|one| - 1]];
  }

  lemma {:induction false} IndicesTwice(f: Flat, one: seq<nat>, two: seq<nat>)
    requires Picks(f, one) && Increasing(one)
    requires Picks(Rebased(f, one), two)
    requires |Rebased(f, one).starts| == |one|
    ensures var g, both := Rebased(f, one), Pick(one, two);
            && Shifted(Pick(g.starts, two), g.starts[two[0]]) == Shifted(Pick(f.starts, both), f.starts[both[0]])
            && Shifted(Pick(g.ends, two), g.starts[two[0]]) == Shifted(Pick(f.ends, both), f.starts[both[0]])
  {
    var g, both := Rebased(f, one), Pick(one, two);
    forall k | 0 <= k < |two|
      ensures Pick(g.starts, two)[k] == Pick(f.starts, both)[k] - f.starts[one[0]]
      ensures Pick(g.ends, two)[k] == Pick(f.ends, both)[k] - f.starts[one[0]]
    {
      RebasedIndices(f, one, two[k]);
    }
    ShiftedTwice(Pick(g.starts, two), Pick(f.starts, both), f.starts[one[0]], g.starts[two[0]]);
    ShiftedTwice(Pick(g.ends, two), Pick(f.ends, both), f.starts[one[0]], g.starts[two[0]]);
  }

  lemma {:induction false} ShiftedTwice(inner: seq<int>, outer: seq<int>, base: int, lo: int)
    requires |inner| == |outer| && forall k :: 0 <= k < |inner| ==> inner[k] == outer[k] - base
    ensures Shifted(inner, lo) == Shifted(outer, base + lo)
  {
  }

  lemma {:induction false} PySliceTwice<T>(l: seq<T>, base: int, top: int, lo: int, hi: int)
    requires 0 <= base <= top <= |l| && 0 <= lo <= hi <= top - base
    ensures PySlice(PySlice(l, base, top), lo, hi) == PySlice(l, base + lo, base + hi)
  {
    InRangeSlice(l, base, top);
    InRangeSlice(l[base..top], lo, hi);
    InRangeSlice(l, base + lo, base + hi);
    SubSlice(l, base, top, lo, hi);
  }

  lemma {:induction false} SubSlice<T>(l: seq<T>, base: int, top: int, lo: int, hi: int)
    requires 0 <= base <= top <= |l| && 0 <= lo <= hi <= top - base
    ensures l[base..top][lo..hi] == l[base + lo..base + hi]
  {
    var a, b := l[base..top][lo..hi], l[base + lo..base + hi];
    assert |a| == |b|;
    forall i | 0 <= i < |a| ensures a[i] == b[i] {
    }
  }

  lemma {:induction false} InRangeSlice<T>(l: seq<T>, lo: int, hi: int)
    requires 0 <= lo <= hi <= |l|
    ensures PySlice(l, lo, hi) == l[lo..hi]
  {
  }
}

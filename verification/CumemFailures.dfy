/** What failing driver calls leave behind in `unmap_and_release` (csrc/cumem_allocator.cpp): every
    later call is still made, and the first error is the one reported. */
module CumemFailures {
  import opened Wrappers
  import opened ChunkPlan
  import opened CumemDriver
  import opened CumemProofs

  /** A page stays exactly when its own release fails. */
  lemma {:induction false} ReleaseEach(d: Driver, err: int, o: Oracle, t: nat, hs: seq<nat>, i: nat)
    requires NoRepeats(hs) && Elements(hs) <= d.pages.Keys && i < |hs|
    ensures hs[i] in ReleaseLoop(d, err, o, t, hs).0.pages <==> o.fault(t + i) != 0
    decreases |hs|
  {
    FirstElement(hs);
    var code, d1 := ReleaseCode(d, o, t, hs[0]), ReleaseOne(d, o, t, hs[0]);
    ReleaseLoopFrame(d1, FirstError(err, code), o, t + 1, hs[1..]);
    if i > 0 {
      ReleaseEach(d1, FirstError(err, code), o, t + 1, hs[1..], i - 1);
    }
  }

  /** The first chunk stays mapped exactly when its own unmapping fails; the other chunks are still
      there. */
  lemma {:induction false} UnmapFirst(d: Driver, o: Oracle, t: nat, addr: nat, sizes: seq<nat>, hs: seq<nat>)
    requires |hs| == |sizes| && Positive(sizes) && sizes != [] && Contains(d.mappings, Tiles(addr, sizes, hs))
    ensures addr in UnmapOne(d, o, t, addr, sizes[0]).mappings <==> o.fault(t) != 0
    ensures Contains(UnmapOne(d, o, t, addr, sizes[0]).mappings, Tiles(addr + sizes[0], sizes[1..], hs[1..]))
    ensures addr !in Tiles(addr + sizes[0], sizes[1..], hs[1..])
  {
    TilesCons(addr, sizes, hs);
    assert addr in Tiles(addr, sizes, hs);
  }

  lemma {:induction false} UnmapLoopFirst(d: Driver, err: int, o: Oracle, t: nat, addr: nat, sizes: seq<nat>, hs: seq<nat>)
    requires |hs| == |sizes| && Positive(sizes) && sizes != [] && Contains(d.mappings, Tiles(addr, sizes, hs))
    ensures addr in UnmapLoop(d, err, o, t, addr, sizes).0.mappings <==> o.fault(t) != 0
  {
    UnmapFirst(d, o, t, addr, sizes, hs);
    var err1, d1 := FirstError(err, UnmapCode(d, o, t, addr, sizes[0])), UnmapOne(d, o, t, addr, sizes[0]);
    assert Positive(sizes[1..]);
    UnmapLoopUndoes(d1, err1, o, t + 1, addr + sizes[0], sizes[1..], hs[1..]);
  }

  lemma {:induction false} SumOfFront(sizes: seq<nat>, i: nat)
    requires 0 < i <= |sizes|
    ensures Sum(sizes[..i]) == sizes[0] + Sum(sizes[1..][..i - 1])
  {
    SumFront(sizes[..i]);
    assert sizes[..i][0] == sizes[0] && sizes[..i][1..] == sizes[1..][..i - 1];
  }

  /** A chunk stays mapped exactly when its own unmapping fails. */
  lemma {:induction false} UnmapEach(d: Driver, err: int, o: Oracle, t: nat, addr: nat, sizes: seq<nat>, hs: seq<nat>, i: nat)
    requires |hs| == |sizes| && Positive(sizes) && Contains(d.mappings, Tiles(addr, sizes, hs)) && i < |sizes|
    ensures addr + Sum(sizes[..i]) in UnmapLoop(d, err, o, t, addr, sizes).0.mappings <==> o.fault(t + i) != 0
    decreases |sizes|
  {
    if i == 0 {
      assert sizes[..0] == [];
      UnmapLoopFirst(d, err, o, t, addr, sizes, hs);
    } else {
      var err1, d1 := FirstError(err, UnmapCode(d, o, t, addr, sizes[0])), UnmapOne(d, o, t, addr, sizes[0]);
      UnmapFirst(d, o, t, addr, sizes, hs);
      SumOfFront(sizes, i);
      assert Positive(sizes[1..]);
      UnmapEach(d1, err1, o, t + 1, addr + sizes[0], sizes[1..], hs[1..], i - 1);
    }
  }

  /** Mapping stops with the error of the call it stops at; a range that is mapped already, or a dead
      handle, is an invalid value. */
  lemma {:induction false} MapErrorIsReported(p: Progress, o: Oracle, t: nat, addr: nat, sizes: seq<nat>, hs: seq<nat>)
    requires p.err == 0 && p.done <= |sizes| == |hs|
    ensures var r := MapLoop(p, o, t, addr, sizes, hs);
            && p.done <= r.done <= |sizes|
            && (r.done < |sizes| ==> var fault := o.fault(t + r.done - p.done); r.err == if fault != 0 then fault else 1)
    decreases |sizes| - p.done
  {
    if p.done < |sizes| && MapCode(p.d, o, t, addr, hs[p.done]) == 0 {
      var d1 := WithMapping(p.d, addr, sizes[p.done], hs[p.done]);
      MapErrorIsReported(Progress(d1, 0, p.done + 1), o, t + 1, addr + sizes[p.done], sizes, hs);
    }
  }

  /** The error of `create_and_map` is the one of the driver call that made it stop, whatever the
      rollback meets. */
  lemma {:induction false} CreateErrorIsReported(d: Driver, o: Oracle, t: nat, addr: nat, sizes: seq<nat>)
    requires d.Valid() && Positive(sizes)
    ensures var fault := o.fault(StoppedAt(d, o, t, addr, sizes));
            fault != 0 ==> CreateAndMapSpec(d, 0, o, t, addr, sizes).err == fault
  {
    var n, c := |sizes|, CreateLoop(Progress(d, 0, 0), o, t, sizes);
    CreateLoopStops(Progress(d, 0, 0), o, t, sizes);
    if c.done >= n {
      MapErrorIsReported(Progress(c.d, 0, 0), o, t + n, addr, sizes, NewHandles(d, n));
    }
  }

  /** For every pattern of failures: chunk `i` stays mapped exactly when its unmapping fails, and its
      page stays exactly when its release fails, whatever happened before. */
  lemma {:induction false} EachCallCounts(d: Driver, err: int, o: Oracle, t: nat, addr: nat, size: nat, sizes: seq<nat>, hs: seq<nat>, i: nat)
    requires AwakeAt(d, addr, sizes, hs) && i < |sizes|
    ensures var out := UnmapAndReleaseSpec(d, err, o, t, addr, size, sizes, hs);
            && (addr + Sum(sizes[..i]) in out.d.mappings <==> o.fault(t + i) != 0)
            && (hs[i] in out.d.pages <==> o.fault(t + |sizes| + i) != 0)
  {
    var n := |sizes|;
    var (d1, e1) := UnmapLoop(d, 0, o, t, addr, sizes);
    UnmapEach(d, 0, o, t, addr, sizes, hs, i);
    UnmapKeepsPages(d, 0, o, t, addr, sizes);
    ReleaseEach(d1, e1, o, t + n, hs, i);
    ReleaseLoopFrame(d1, e1, o, t + n, hs);
    LoopErrorEnds(d, err, o, t, addr, size, sizes, hs);
  }

  lemma {:induction false} UnmapKeepsError(d: Driver, err: int, o: Oracle, t: nat, addr: nat, sizes: seq<nat>)
    requires err != 0
    ensures UnmapLoop(d, err, o, t, addr, sizes).1 == err
    decreases |sizes|
  {
    if sizes != [] {
      UnmapKeepsError(UnmapOne(d, o, t, addr, sizes[0]), err, o, t + 1, addr + sizes[0], sizes[1..]);
    }
  }

  lemma {:induction false} FirstUnmapError(d: Driver, o: Oracle, t: nat, addr: nat, sizes: seq<nat>, hs: seq<nat>, j: nat)
    requires |hs| == |sizes| && Positive(sizes) && Contains(d.mappings, Tiles(addr, sizes, hs)) && j < |sizes|
    requires AllOk(o, t, t + j) && o.fault(t + j) != 0
    ensures UnmapLoop(d, 0, o, t, addr, sizes).1 == o.fault(t + j)
    decreases |sizes|
  {
    TilesCons(addr, sizes, hs);
    assert addr in Tiles(addr, sizes, hs);
    var d1 := UnmapOne(d, o, t, addr, sizes[0]);
    if j == 0 {
      UnmapKeepsError(d1, o.fault(t), o, t + 1, addr + sizes[0], sizes[1..]);
    } else {
      AllOkFirst(o, t, t + j);
      assert Contains(d1.mappings, Tiles(addr + sizes[0], sizes[1..], hs[1..]));
      FirstUnmapError(d1, o, t + 1, addr + sizes[0], sizes[1..], hs[1..], j - 1);
    }
  }

  lemma {:induction false} FirstReleaseError(d: Driver, o: Oracle, t: nat, hs: seq<nat>, j: nat)
    requires NoRepeats(hs) && Elements(hs) <= d.pages.Keys && j < |hs| && AllOk(o, t, t + j) && o.fault(t + j) != 0
    ensures ReleaseLoop(d, 0, o, t, hs).1 == o.fault(t + j)
    decreases |hs|
  {
    FirstElement(hs);
    var d1 := ReleaseOne(d, o, t, hs[0]);
    if j == 0 {
      ReleaseLoopFrame(d1, o.fault(t), o, t + 1, hs[1..]);
    } else {
      AllOkFirst(o, t, t + j);
      FirstReleaseError(d1, o, t + 1, hs[1..], j - 1);
    }
  }

  /** The first failing unmap or release is the error that is reported, and then the reservation
      stays as it is. */
  lemma {:induction false} FirstErrorIsReported(
    d: Driver, err: int, o: Oracle, t: nat, addr: nat, size: nat, sizes: seq<nat>, hs: seq<nat>, j: nat)
    requires AwakeAt(d, addr, sizes, hs) && j < |sizes| + |sizes| && AllOk(o, t, t + j) && o.fault(t + j) != 0
    ensures var out := UnmapAndReleaseSpec(d, err, o, t, addr, size, sizes, hs);
            out.err == o.fault(t + j) && out.d.reservations == d.reservations
  {
    var n := |sizes|;
    var (d1, e1) := UnmapLoop(d, 0, o, t, addr, sizes);
    UnmapKeepsPages(d, 0, o, t, addr, sizes);
    ReleaseLoopFrame(d1, e1, o, t + n, hs);
    LoopErrorEnds(d, err, o, t, addr, size, sizes, hs);
    FirstOfTheLoops(d, o, t, addr, sizes, hs, j);
  }

  lemma {:induction false} FirstOfTheLoops(d: Driver, o: Oracle, t: nat, addr: nat, sizes: seq<nat>, hs: seq<nat>, j: nat)
    requires AwakeAt(d, addr, sizes, hs) && j < |sizes| + |sizes| && AllOk(o, t, t + j) && o.fault(t + j) != 0
    ensures var (d1, e1) := UnmapLoop(d, 0, o, t, addr, sizes);
            ReleaseLoop(d1, e1, o, t + |sizes|, hs).1 == o.fault(t + j)
  {
    var n := |sizes|;
    var (d1, e1) := UnmapLoop(d, 0, o, t, addr, sizes);
    if j < n {
      FirstUnmapError(d, o, t, addr, sizes, hs, j);
      ReleaseLoopFrame(d1, e1, o, t + n, hs);
    } else {
      AllOkSplit(o, t, t + n, t + j);
      UnmapsAll(d, o, t, addr, sizes, hs);
      UnmapKeepsPages(d, 0, o, t, addr, sizes);
      FirstReleaseError(d1, o, t + n, hs, j - n);
    }
  }

  /** An error of the two loops ends the call. */
  lemma {:induction false} LoopErrorEnds(d: Driver, err: int, o: Oracle, t: nat, addr: nat, size: nat, sizes: seq<nat>, hs: seq<nat>)
    requires |hs| == |sizes|
    ensures var (d1, e1) := UnmapLoop(d, 0, o, t, addr, sizes);
            var (d2, e2) := ReleaseLoop(d1, e1, o, t + |sizes|, hs);
            var out := UnmapAndReleaseSpec(d, err, o, t, addr, size, sizes, hs);
            && (e2 != 0 ==> out.err == e2 && out.d == d2)
            && out.d.pages == d2.pages && out.d.mappings == d2.mappings
  {
  }

  lemma {:induction false} UnmapKeepsPages(d: Driver, err: int, o: Oracle, t: nat, addr: nat, sizes: seq<nat>)
    ensures var (d1, e1) := UnmapLoop(d, err, o, t, addr, sizes); d1.pages == d.pages && d1.reservations == d.reservations
    decreases |sizes|
  {
    if sizes != [] {
      UnmapKeepsPages(UnmapOne(d, o, t, addr, sizes[0]), FirstError(err, UnmapCode(d, o, t, addr, sizes[0])),
                      o, t + 1, addr + sizes[0], sizes[1..]);
    }
  }

  /** A reservation that lands elsewhere is given back, if that call succeeds; either way an error is
      reported and the old address is no longer reserved. */
  lemma {:induction false} StrayIsGivenBack(d: Driver, err: int, o: Oracle, t: nat, addr: nat, size: nat, other: nat)
    requires addr in d.reservations && d.reservations[addr] == size && other !in d.reservations
    requires o.fault(t) == 0 && o.fault(t + 1) == 0 && o.moved(t + 1) == Some(other)
    ensures var out := CycleAddress(d, err, o, t, addr, size);
            && out.err == 1 && addr !in out.d.reservations
            && out.d.reservations ==
                 if o.fault(t + 2) == 0 then d.reservations - {addr} else (d.reservations - {addr})[other := size]
  {
    var kept := d.reservations - {addr};
    assert kept[other := size] - {other} == kept;
  }
}

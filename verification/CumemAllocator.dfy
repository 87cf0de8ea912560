/** The ROCm build of csrc/cumem_allocator.cpp as it runs: global error code, chunk arrays
    and driver state changed call by call. */
module CumemAllocator {
  import opened Wrappers
  import opened ChunkPlan
  import opened CumemDriver
  import opened CumemProofs

  /** The range `[addr, addr + size)` is new and keeps clear of all reserved ranges. */
  ghost predicate Unreserved(d: Driver, addr: nat, size: nat) {
    addr !in d.reservations &&
    forall a :: a in d.reservations ==> addr + size <= a || (a < addr && a + d.reservations[a] <= addr)
  }

  /** After a failed driver call: nothing live is left behind, and the address is given back,
      iff the whole rollback succeeds; but when the failing call is the last one, which sets access, the
      chunks stay mapped. */
  ghost predicate AfterFailure(reserved: Driver, t: nat, o: Oracle, place: nat, sizes: seq<nat>, d: Driver, clock: nat) {
    var stopped := StoppedAt(reserved, o, t, place, sizes);
    if stopped < t + |sizes| + |sizes|
    then SameLive(d, reserved.(reservations := reserved.reservations - {place})) <==> AllOk(o, stopped + 1, clock)
    else Contains(d.mappings, Tiles(place, sizes, NewHandles(reserved, |sizes|)))
  }

  /** Giving the address back completes the rollback. */
  lemma {:induction false} FreeCompletesRollback(reserved: Driver, t: nat, o: Oracle, place: nat, sizes: seq<nat>, out: Outcome, d: Driver)
    requires place in reserved.reservations && out.d.reservations == reserved.reservations
    requires var stopped := StoppedAt(reserved, o, t, place, sizes);
             && stopped < out.clock
             && (if stopped < t + |sizes| + |sizes| then SameLive(out.d, reserved) <==> AllOk(o, stopped + 1, out.clock)
                 else Contains(out.d.mappings, Tiles(place, sizes, NewHandles(reserved, |sizes|))))
    requires d == if o.fault(out.clock) != 0 then out.d else out.d.(reservations := out.d.reservations - {place})
    ensures AfterFailure(reserved, t, o, place, sizes, d, out.clock + 1)
  {
    var stopped := StoppedAt(reserved, o, t, place, sizes);
    assert AllOk(o, stopped + 1, out.clock + 1) <==> AllOk(o, stopped + 1, out.clock) && o.fault(out.clock) == 0;
    assert place !in reserved.reservations - {place};
  }

  ghost function WithReservation(d: Driver, place: nat, size: nat): Driver {
    d.(reservations := d.reservations[place := size])
  }

  class Allocator {
    const o: Oracle
    var d: Driver
    var errorCode: int
    var clock: nat  // number of the next driver call

    constructor (o: Oracle)
      ensures this.o == o && errorCode == 0 && clock == 0
      ensures d == Driver(map[], map[], map[], 0) && d.Valid()
    {
      this.o := o;
      d := Driver(map[], map[], map[], 0);
      errorCode := 0;
      clock := 0;
    }

    /** The library as it stands between two calls, without an error. */
    constructor At(o: Oracle, d: Driver, clock: nat)
      ensures this.o == o && this.d == d && this.clock == clock && errorCode == 0
    {
      this.o, this.d, this.clock := o, d, clock;
      errorCode := 0;
    }

    method ReleaseHandles(hs: seq<nat>, firstError: int) returns (err: int)
      modifies this`d, this`clock
      ensures (d, err) == ReleaseLoop(old(d), firstError, o, old(clock), hs)
      ensures clock == old(clock) + |hs|
    {
      err := firstError;
      for j := 0 to |hs|
        invariant clock == old(clock) + j
        invariant ReleaseLoop(d, err, o, clock, hs[j..]) == ReleaseLoop(old(d), firstError, o, old(clock), hs)
      {
        assert hs[j..][0] == hs[j] && hs[j..][1..] == hs[j + 1..];
        err := FirstError(err, ReleaseCode(d, o, clock, hs[j]));
        d := ReleaseOne(d, o, clock, hs[j]);
        clock := clock + 1;
      }
    }

    method UnmapChunks(dMem: nat, sizes: seq<nat>) returns (err: int)
      modifies this`d, this`clock
      ensures (d, err) == UnmapLoop(old(d), 0, o, old(clock), dMem, sizes)
      ensures clock == old(clock) + |sizes|
    {
      err := 0;
      var unmapped := 0;
      for j := 0 to |sizes|
        invariant clock == old(clock) + j
        invariant UnmapLoop(d, err, o, clock, dMem + unmapped, sizes[j..]) == UnmapLoop(old(d), 0, o, old(clock), dMem, sizes)
      {
        assert sizes[j..][0] == sizes[j] && sizes[j..][1..] == sizes[j + 1..];
        var addr := dMem + unmapped;
        err := FirstError(err, UnmapCode(d, o, clock, addr, sizes[j]));
        d := UnmapOne(d, o, clock, addr, sizes[j]);
        unmapped := unmapped + sizes[j];
        clock := clock + 1;
      }
    }

    method CreateAndMap(dMem: nat, sizes: seq<nat>, handles: array<nat>)
      requires handles.Length == |sizes|
      modifies this`d, this`clock, this`errorCode, handles
      ensures Outcome(d, errorCode, clock) == CreateAndMapSpec(old(d), old(errorCode), o, old(clock), dMem, sizes)
      ensures errorCode == 0 ==> handles[..] == NewHandles(old(d), |sizes|)
    {
      var done := CreateUntilError(sizes, handles);
      if done < |sizes| {
        var _ := ReleaseHandles(handles[..done], 0);
        return;
      }
      assert handles[..] == handles[..done];
      MapChunks(dMem, sizes, handles[..]);
    }

    /** Creates page after page until the error code is set; `done` is where it stopped. */
    method CreateUntilError(sizes: seq<nat>, handles: array<nat>) returns (done: nat)
      requires handles.Length == |sizes|
      modifies this`d, this`clock, this`errorCode, handles
      ensures Progress(d, errorCode, done) == CreateLoop(Progress(old(d), old(errorCode), 0), o, old(clock), sizes)
      ensures done <= |sizes| && clock == old(clock) + done + (if done < |sizes| then 1 else 0)
      ensures done < |sizes| ==> errorCode != 0
      ensures handles[..done] == NewHandles(old(d), done)
    {
      done := 0;
      while done < |sizes|
        invariant done <= |sizes| && clock == old(clock) + done && d.nextHandle == old(d).nextHandle + done
        invariant handles[..done] == NewHandles(old(d), done)
        invariant CreateLoop(Progress(d, errorCode, done), o, clock, sizes)
               == CreateLoop(Progress(old(d), old(errorCode), 0), o, old(clock), sizes)
      {
        ghost var before := handles[..done];
        if o.fault(clock) == 0 {
          handles[done] := d.nextHandle;
        }
        assert handles[..done] == before && handles[..done + 1] == before + [handles[done]];
        var p := CreateOne(Progress(d, errorCode, done), o, clock, sizes[done]);
        d, errorCode := p.d, p.err;
        clock := clock + 1;
        if errorCode != 0 { return; }
        done := done + 1;
      }
    }

    method UndoMapped(i: nat, dMem: nat, sizes: seq<nat>, hs: seq<nat>)
      requires i <= |sizes|
      modifies this`d, this`clock
      ensures Outcome(d, errorCode, clock) == UndoMaps(Progress(old(d), errorCode, i), o, old(clock), dMem, sizes, hs)
    {
      var _ := UnmapChunks(dMem, sizes[..i]);
      var _ := ReleaseHandles(hs, 0);
    }

    /** Maps chunk after chunk until one fails; `done` is where it stopped. */
    method MapUntilError(dMem: nat, sizes: seq<nat>, hs: seq<nat>) returns (done: nat)
      requires |hs| == |sizes|
      modifies this`d, this`clock, this`errorCode
      ensures Progress(d, errorCode, done) == MapLoop(Progress(old(d), old(errorCode), 0), o, old(clock), dMem, sizes, hs)
      ensures done <= |sizes| && clock == old(clock) + done + (if done < |sizes| then 1 else 0)
    {
      var offset := 0;
      done := 0;
      while done < |sizes|
        invariant done <= |sizes| && clock == old(clock) + done
        invariant MapLoop(Progress(d, errorCode, done), o, clock, dMem + offset, sizes, hs)
               == MapLoop(Progress(old(d), old(errorCode), 0), o, old(clock), dMem, sizes, hs)
      {
        var p := MapOne(Progress(d, errorCode, done), o, clock, dMem + offset, sizes[done], hs[done]);
        d, errorCode := p.d, p.err;
        clock := clock + 1;
        if errorCode != 0 { return; }
        offset := offset + sizes[done];
        done := done + 1;
      }
    }

    /** The mapping half of `create_and_map`, with its rollback. */
    method MapChunks(dMem: nat, sizes: seq<nat>, hs: seq<nat>)
      requires |hs| == |sizes|
      modifies this`d, this`clock, this`errorCode
      ensures Outcome(d, errorCode, clock) == MapPhase(old(d), old(errorCode), o, old(clock), dMem, sizes, hs)
    {
      var done := MapUntilError(dMem, sizes, hs);
      if done < |sizes| {
        UndoMapped(done, dMem, sizes, hs);
        return;
      }
      var access := o.fault(clock);
      if access != 0 {
        errorCode := access;
      }
      clock := clock + 1;
    }

    method UnmapAndRelease(dMem: nat, size: nat, sizes: seq<nat>, handles: array<nat>)
      requires handles.Length == |sizes|
      modifies this`d, this`clock, this`errorCode
      ensures Outcome(d, errorCode, clock) ==
              UnmapAndReleaseSpec(old(d), old(errorCode), o, old(clock), dMem, size, sizes, handles[..])
    {
      var firstError := UnmapChunks(dMem, sizes);
      firstError := ReleaseHandles(handles[..], firstError);
      if firstError != 0 {
        errorCode := firstError;
      } else {
        CycleReservation(dMem, size);
      }
    }

    method CycleReservation(dMem: nat, size: nat)
      modifies this`d, this`clock, this`errorCode
      ensures Outcome(d, errorCode, clock) == CycleAddress(old(d), old(errorCode), o, old(clock), dMem, size)
    {
      var firstError := AddressFreeCode(d, o, clock, dMem, size);
      clock := clock + 1;
      if firstError == 0 {
        d := d.(reservations := d.reservations - {dMem});
        firstError := o.fault(clock);
        var dMemNew := match o.moved(clock) case None => dMem case Some(other) => other;
        clock := clock + 1;
        if firstError == 0 {
          d := d.(reservations := d.reservations[dMemNew := size]);
          if dMemNew != dMem {
            if o.fault(clock) == 0 {
              d := d.(reservations := d.reservations - {dMemNew});
            }
            clock := clock + 1;
            errorCode := INVALID_VALUE;
            return;
          }
        }
      }
      if firstError != 0 {
        errorCode := firstError;
      }
    }

    /** The end of `my_malloc`: map the chunks, and give the address back on an error. */
    method MapReserved(place: nat, size: nat, sizes: seq<nat>, handles: array<nat>)
      requires d.Valid() && errorCode == 0 && Positive(sizes) && handles.Length == |sizes|
      requires place in d.reservations && d.reservations[place] == size
      modifies this`d, this`clock, this`errorCode, handles
      ensures errorCode == 0 ==> d.Valid() && Mapped(old(d), d, place, sizes) && handles[..] == NewHandles(old(d), |sizes|)
      ensures errorCode != 0 ==> AfterFailure(old(d), old(clock), o, place, sizes, d, clock)
      ensures errorCode == 0 <==> CreateAndMapSpec(old(d), 0, o, old(clock), place, sizes).err == 0
      ensures clock >= old(clock)
    {
      CreateAndMapAllOrNothing(d, o, clock, place, sizes);
      CreateAndMapKeepsReservations(d, o, clock, place, sizes);
      CreateAndMap(place, sizes, handles);
      if errorCode != 0 {
        ghost var out := Outcome(d, errorCode, clock);
        var status := AddressFreeCode(d, o, clock, place, size);
        if status == 0 {
          d := d.(reservations := d.reservations - {place});
        } else {
          errorCode := status;
        }
        clock := clock + 1;
        FreeCompletesRollback(old(d), old(clock), o, place, sizes, out, d);
      }
    }

    /** The granularity query and the reservation of an address. */
    method ReserveAddress(place: nat, alignedSize: nat) returns (ok: bool)
      modifies this`d, this`clock, this`errorCode
      ensures ok ==> old(errorCode) == errorCode == 0 && clock == old(clock) + 2
      ensures ok ==> d == WithReservation(old(d), place, alignedSize)
      ensures !ok ==> errorCode != 0 && d == old(d) && clock >= old(clock)
      ensures ok <==> old(errorCode) == 0 && o.fault(old(clock)) == 0 && o.fault(old(clock) + 1) == 0
    {
      var status := o.fault(clock);
      clock := clock + 1;
      if status != 0 { errorCode := status; }
      if errorCode != 0 { return false; }
      status := o.fault(clock);
      clock := clock + 1;
      if status != 0 {
        errorCode := status;
        return false;
      }
      d := d.(reservations := d.reservations[place := alignedSize]);
      return true;
    }

    /** `my_malloc`, with what the driver and the Python side decide as parameters: the
        granularity, the reserved address, and whether the malloc callback returns normally. */
    method MyMalloc(size: nat, granularity: nat, env: Option<nat>, place: nat, callbackOk: bool)
      returns (r: MallocResult, sizes: seq<nat>, handles: array<nat>)
      requires d.Valid() && size < U64 && 0 < granularity < U64
      requires Unreserved(d, place, AlignUp(size, granularity))
      modifies this`d, this`clock, this`errorCode
      ensures fresh(handles) && place !in old(d).reservations
      ensures r.Refused? <==> old(errorCode) != 0 || o.fault(old(clock)) != 0 || o.fault(old(clock) + 1) != 0
      ensures r.Refused? ==> errorCode != 0 && d == old(d)
      // A chunk size that wraps stops the program; a failed callback keeps the reservation.
      ensures r.Crashed? <==> !r.Refused? && MemcreateChunkSize(env) + granularity - 1 >= U64
      ensures r.NoCallback? <==> !r.Refused? && !r.Crashed? && !callbackOk
      ensures r.Crashed? || r.NoCallback? ==>
                errorCode == 0 && d == WithReservation(old(d), place, AlignUp(size, granularity))
      // Otherwise the chunks are mapped, or the failure is rolled back; they are the right ones iff no addition wraps.
      ensures r.Pointer? ==>
                var reserved := WithReservation(old(d), place, AlignUp(size, granularity));
                && r.address == place && errorCode == 0 && d.Valid()
                && Mapped(reserved, d, place, sizes) && handles[..] == NewHandles(reserved, |sizes|)
      ensures r.NotMapped? ==>
                && errorCode != 0
                && AfterFailure(WithReservation(old(d), place, AlignUp(size, granularity)), old(clock) + 2, o, place, sizes, d, clock)
                && CreateAndMapSpec(WithReservation(old(d), place, AlignUp(size, granularity)), 0, o, old(clock) + 2, place, sizes).err != 0
      ensures clock >= old(clock)
      ensures r.Pointer? || r.NotMapped? ==> RightIffNoWrap(sizes, size, granularity, env)
    {
      r, sizes, handles := Refused, [], new nat[0];
      var alignedSize := AlignUp(size, granularity);
      var ok := ReserveAddress(place, alignedSize);
      if ok {
        r, sizes, handles := FillReservation(size, granularity, env, place, callbackOk);
      }
    }

    /** `my_malloc` once the address is reserved. */
    method FillReservation(size: nat, granularity: nat, env: Option<nat>, place: nat, callbackOk: bool)
      returns (r: MallocResult, sizes: seq<nat>, handles: array<nat>)
      requires d.Valid() && size < U64 && 0 < granularity < U64 && errorCode == 0
      requires place in d.reservations && d.reservations[place] == AlignUp(size, granularity)
      modifies this`d, this`clock, this`errorCode
      ensures fresh(handles) && !r.Refused?
      ensures r.Crashed? <==> MemcreateChunkSize(env) + granularity - 1 >= U64
      ensures r.NoCallback? <==> !r.Crashed? && !callbackOk
      ensures r.Crashed? || r.NoCallback? ==> errorCode == 0 && d == old(d)
      ensures r.Pointer? ==>
                && r.address == place && errorCode == 0 && d.Valid()
                && Mapped(old(d), d, place, sizes) && handles[..] == NewHandles(old(d), |sizes|)
      ensures r.NotMapped? ==> errorCode != 0 && AfterFailure(old(d), old(clock), o, place, sizes, d, clock)
      ensures r.NotMapped? ==> CreateAndMapSpec(old(d), 0, o, old(clock), place, sizes).err != 0
      ensures clock >= old(clock)
      ensures r.Pointer? || r.NotMapped? ==> RightIffNoWrap(sizes, size, granularity, env)
    {
      sizes, handles := [], new nat[0];
      var alignedSize := AlignUp(size, granularity);
      var plan := PlanChunks(size, granularity, env);
      if plan.Failure? {
        r := Crashed;
        return;
      }
      sizes := plan.value[..];
      assert Positive(sizes);
      handles := new nat[|sizes|];
      if !callbackOk {
        r := NoCallback;
        return;
      }
      MapReserved(place, alignedSize, sizes, handles);
      r := if errorCode == 0 then Pointer(place) else NotMapped;
    }

    /** `my_free`, given the chunks that the free callback looked up. It ends without an error
        iff no driver call fails, the address comes back and the caller passes the reserved
        (aligned) size; pages and mappings are gone as soon as the unmap and release calls
        succeed, and a wrong size keeps the reservation. */
    method MyFree(dMem: nat, size: nat, sizes: seq<nat>, handles: array<nat>)
      requires handles.Length == |sizes|
      requires AwakeAt(d, dMem, sizes, handles[..]) && dMem in d.reservations
      modifies this`d, this`clock, this`errorCode
      ensures errorCode == 0 <==>
                && old(errorCode) == 0 && AllOk(o, old(clock), old(clock) + |sizes| + |sizes| + 3)
                && o.moved(old(clock) + |sizes| + |sizes| + 1) in {None, Some(dMem)} && size == old(d).reservations[dMem]
      ensures errorCode == 0 ==> d == Freed(old(d), dMem, sizes, handles[..]).(reservations := old(d).reservations - {dMem})
      ensures AllOk(o, old(clock), old(clock) + |sizes| + |sizes|) ==>
                d == Freed(old(d), dMem, sizes, handles[..]).(reservations := d.reservations)
      ensures size != old(d).reservations[dMem] ==> d.reservations == old(d).reservations
      ensures errorCode == 0 ==> clock == old(clock) + |sizes| + |sizes| + 3
    {
      FreeSteps(d, errorCode, o, clock, dMem, size, sizes, handles[..]);
      UnmapAndRelease(dMem, size, sizes, handles);
      var status := AddressFreeCode(d, o, clock, dMem, size);
      if status == 0 {
        d := d.(reservations := d.reservations - {dMem});
      } else {
        errorCode := status;
      }
      clock := clock + 1;
    }
  }

  /** What `my_malloc` can come to. */
  datatype MallocResult = Refused | Crashed | NoCallback | NotMapped | Pointer(address: nat)

  /** The driver without the pages and mappings of the chunks. */
  ghost function Freed(d: Driver, dMem: nat, sizes: seq<nat>, hs: seq<nat>): Driver
    requires |hs| == |sizes|
  {
    d.(mappings := d.mappings - Tiles(dMem, sizes, hs).Keys, pages := d.pages - Elements(hs))
  }

  lemma {:induction false} FreeSteps(d: Driver, err: int, o: Oracle, t: nat, dMem: nat, size: nat, sizes: seq<nat>, hs: seq<nat>)
    requires AwakeAt(d, dMem, sizes, hs) && dMem in d.reservations
    ensures var n := |sizes|;
            var out := UnmapAndReleaseSpec(d, err, o, t, dMem, size, sizes, hs);
            && (out.err == 0 <==> && err == 0 && AllOk(o, t, t + n + n + 2) && size == d.reservations[dMem]
                                  && o.moved(t + n + n + 1) in {None, Some(dMem)})
            && (out.err == 0 ==> out.d == Freed(d, dMem, sizes, hs) && out.clock == t + n + n + 2)
            && (AllOk(o, t, t + n + n) ==> out.d == Freed(d, dMem, sizes, hs).(reservations := out.d.reservations))
            && (size != d.reservations[dMem] ==> out.d.reservations == d.reservations)
  {
    var n := |sizes|;
    UnmapAndReleaseUndoes(d, o, t, dMem, size, sizes, hs);
    BothLoopsUndo(d, o, t, dMem, sizes, hs);
    LoopsKeepReservations(d, o, t, dMem, sizes, hs);
    AllOkSplit(o, t, t + n + n, t + n + n + 2);
  }

  lemma {:induction false} LoopsKeepReservations(d: Driver, o: Oracle, t: nat, dMem: nat, sizes: seq<nat>, hs: seq<nat>)
    requires |hs| == |sizes|
    ensures var (d1, e1) := UnmapLoop(d, 0, o, t, dMem, sizes);
            ReleaseLoop(d1, e1, o, t + |sizes|, hs).0.reservations == d.reservations
  {
    UnmapLoopReservations(d, 0, o, t, dMem, sizes);
    var (d1, e1) := UnmapLoop(d, 0, o, t, dMem, sizes);
    ReleaseLoopReservations(d1, e1, o, t + |sizes|, hs);
  }

  /** Freeing with the requested size 1 where the granularity reserved 2: the reservation stays
      and an error is left behind, although no driver call fails. */
  lemma {:induction false} RequestedSizeIsNotFreed(d: Driver, o: Oracle)
    requires d == Driver(map[0 := [5, 6]], map[10 := Mapping(2, 0)], map[10 := 2], 1)
    requires forall k :: o.fault(k) == 0
    ensures AwakeAt(d, 10, [2], [0])
    ensures var out := UnmapAndReleaseSpec(d, 0, o, 0, 10, 1, [2], [0]);
            out.err != 0 && out.d.reservations == d.reservations && out.d.pages == map[] && out.d.mappings == map[]
  {
    assert Tiles(10, [2], [0]) == map[10 := Mapping(2, 0)];
    FreeSteps(d, 0, o, 0, 10, 1, [2], [0]);
    assert d.pages - Elements([0]) == map[] && d.mappings - {10} == map[];
  }

  /** Only setting access fails: the call reports the error and the chunk stays mapped. */
  lemma {:induction false} AccessFailureStaysMapped(d: Driver, o: Oracle)
    requires d == Driver(map[], map[], map[10 := 2], 0) && forall k :: o.fault(k) == if k == 2 then 7 else 0
    ensures var out := CreateAndMapSpec(d, 0, o, 0, 10, [2]);
            out.err == 7 && 10 in out.d.mappings && out.d.pages.Keys == {0}
  {
    var created := d.(pages := map[0 := NewPage(o, 2)], nextHandle := 1);
    var mapped := created.(mappings := map[10 := Mapping(2, 0)]);
    assert CreateLoop(Progress(created, 0, 1), o, 1, [2]) == Progress(created, 0, 1);
    assert CreateLoop(Progress(d, 0, 0), o, 0, [2]) == Progress(created, 0, 1);
    assert NewHandles(d, 1) == [0];
    assert MapLoop(Progress(mapped, 0, 1), o, 2, 12, [2], [0]) == Progress(mapped, 0, 1);
    assert MapLoop(Progress(created, 0, 0), o, 1, 10, [2], [0]) == Progress(mapped, 0, 1);
  }
}

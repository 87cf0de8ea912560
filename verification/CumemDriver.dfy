/** The device driver as the allocator sees it, and the ROCm branches of `create_and_map`
    and `unmap_and_release` (csrc/cumem_allocator.cpp) as functions of the driver's state
    and of an arbitrary stream of driver failures. */
module CumemDriver {
  import opened Wrappers
  import opened ChunkPlan

  datatype Mapping = Mapping(size: nat, handle: nat)

  /** Physical pages by handle, mapped ranges by start address, reserved ranges by start
      address. Handles are handed out in increasing order. */
  datatype Driver = Driver(
    pages: map<nat, seq<int>>,
    mappings: map<nat, Mapping>,
    reservations: map<nat, nat>,
    nextHandle: nat
  ) {
    ghost predicate Valid() {
      forall h :: h in pages ==> h < nextHandle
    }
  }

  /** What each driver call, numbered in order, returns: 0 or an error code; where a
      re-reservation lands when it does not get the address it asked for; and what new
      pages contain. */
  datatype Oracle = Oracle(fault: nat -> int, moved: nat -> Option<nat>, junk: nat -> int)

  const INVALID_VALUE: int := 1

  // ---------------------------------------------------------------- single driver calls

  function NewPage(o: Oracle, size: nat): (page: seq<int>)
    ensures |page| == size
  {
    seq(size, i requires 0 <= i < size => o.junk(i))
  }

  function MemCreate(d: Driver, o: Oracle, t: nat, size: nat): Driver {
    if o.fault(t) != 0 then d
    else d.(pages := d.pages[d.nextHandle := NewPage(o, size)], nextHandle := d.nextHandle + 1)
  }

  /** The driver refuses a start address that is mapped already and a handle that is not
      live; any other refusal is part of the failure stream. */
  function MapCode(d: Driver, o: Oracle, t: nat, addr: nat, h: nat): int {
    if o.fault(t) != 0 then o.fault(t)
    else if addr in d.mappings || h !in d.pages then INVALID_VALUE
    else 0
  }

  function UnmapCode(d: Driver, o: Oracle, t: nat, addr: nat, size: nat): int {
    if o.fault(t) != 0 then o.fault(t)
    else if addr !in d.mappings || d.mappings[addr].size != size then INVALID_VALUE
    else 0
  }

  function ReleaseCode(d: Driver, o: Oracle, t: nat, h: nat): int {
    if o.fault(t) != 0 then o.fault(t) else if h !in d.pages then INVALID_VALUE else 0
  }

  function AddressFreeCode(d: Driver, o: Oracle, t: nat, addr: nat, size: nat): int {
    if o.fault(t) != 0 then o.fault(t)
    else if addr !in d.reservations || d.reservations[addr] != size then INVALID_VALUE
    else 0
  }

  // ---------------------------------------------------------------- loops over chunks

  /** State after a loop: the driver, the error code, and at which chunk the loop stopped. */
  datatype Progress = Progress(d: Driver, err: int, done: nat)

  function CreateOne(p: Progress, o: Oracle, t: nat, size: nat): Progress {
    Progress(MemCreate(p.d, o, t, size), if o.fault(t) != 0 then o.fault(t) else p.err, p.done)
  }

  function CreateLoop(p: Progress, o: Oracle, t: nat, sizes: seq<nat>): Progress
    decreases |sizes| - p.done
  {
    if p.done >= |sizes| then p
    else
      var q := CreateOne(p, o, t, sizes[p.done]);
      if q.err != 0 then q else CreateLoop(q.(done := p.done + 1), o, t + 1, sizes)
  }

  function MapOne(p: Progress, o: Oracle, t: nat, addr: nat, size: nat, h: nat): Progress {
    var code := MapCode(p.d, o, t, addr, h);
    if code != 0 then Progress(p.d, code, p.done)
    else Progress(p.d.(mappings := p.d.mappings[addr := Mapping(size, h)]), p.err, p.done)
  }

  function MapLoop(p: Progress, o: Oracle, t: nat, addr: nat, sizes: seq<nat>, hs: seq<nat>): Progress
    requires |hs| == |sizes|
    decreases |sizes| - p.done
  {
    if p.done >= |sizes| then p
    else
      var q := MapOne(p, o, t, addr, sizes[p.done], hs[p.done]);
      if q.err != 0 then q else MapLoop(q.(done := p.done + 1), o, t + 1, addr + sizes[p.done], sizes, hs)
  }

  function FirstError(err: int, code: int): int {
    if code != 0 && err == 0 then code else err
  }

  function UnmapOne(d: Driver, o: Oracle, t: nat, addr: nat, size: nat): Driver {
    if UnmapCode(d, o, t, addr, size) != 0 then d else d.(mappings := d.mappings - {addr})
  }

  /** Unmaps chunk after chunk; `err` keeps the first error. */
  function UnmapLoop(d: Driver, err: int, o: Oracle, t: nat, addr: nat, sizes: seq<nat>): (Driver, int)
    decreases |sizes|
  {
    if sizes == [] then (d, err)
    else UnmapLoop(UnmapOne(d, o, t, addr, sizes[0]), FirstError(err, UnmapCode(d, o, t, addr, sizes[0])),
                   o, t + 1, addr + sizes[0], sizes[1..])
  }

  function ReleaseOne(d: Driver, o: Oracle, t: nat, h: nat): Driver {
    if ReleaseCode(d, o, t, h) != 0 then d else d.(pages := d.pages - {h})
  }

  function ReleaseLoop(d: Driver, err: int, o: Oracle, t: nat, hs: seq<nat>): (Driver, int)
    decreases |hs|
  {
    if hs == [] then (d, err)
    else ReleaseLoop(ReleaseOne(d, o, t, hs[0]), FirstError(err, ReleaseCode(d, o, t, hs[0])), o, t + 1, hs[1..])
  }

  // ---------------------------------------------------------------- the two operations

  /** The handles that creating `n` chunks yields. */
  function NewHandles(d: Driver, n: nat): (hs: seq<nat>)
    ensures |hs| == n
    ensures forall i :: 0 <= i < n ==> hs[i] == d.nextHandle + i
  {
    if n == 0 then [] else NewHandles(d, n - 1) + [d.nextHandle + n - 1]
  }

  /** Result of an operation: driver, error code, and number of the next driver call. */
  datatype Outcome = Outcome(d: Driver, err: int, clock: nat)

  /** Rollback after the map loop stopped at `m.done`: unmap what was mapped, release all. */
  function UndoMaps(m: Progress, o: Oracle, t: nat, addr: nat, sizes: seq<nat>, hs: seq<nat>): Outcome
    requires m.done <= |sizes|
  {
    var u := UnmapLoop(m.d, 0, o, t, addr, sizes[..m.done]).0;
    Outcome(ReleaseLoop(u, 0, o, t + m.done, hs).0, m.err, t + m.done + |hs|)
  }

  /** The second half of `create_and_map`, from the driver state after creation. */
  function MapPhase(d: Driver, err: int, o: Oracle, t: nat, addr: nat, sizes: seq<nat>, hs: seq<nat>): Outcome
    requires |hs| == |sizes|
  {
    var m := MapLoop(Progress(d, err, 0), o, t, addr, sizes, hs);
    if m.done < |sizes| then UndoMaps(m, o, t + m.done + 1, addr, sizes, hs)
    else
      var access := o.fault(t + |sizes|);
      Outcome(m.d, if access != 0 then access else m.err, t + |sizes| + 1)
  }

  function CreateAndMapSpec(d: Driver, err: int, o: Oracle, t: nat, addr: nat, sizes: seq<nat>): Outcome {
    var c := CreateLoop(Progress(d, err, 0), o, t, sizes);
    if c.done < |sizes| then
      var t1 := t + c.done + 1;
      Outcome(ReleaseLoop(c.d, 0, o, t1, NewHandles(d, c.done)).0, c.err, t1 + c.done)
    else MapPhase(c.d, c.err, o, t + |sizes|, addr, sizes, NewHandles(d, |sizes|))
  }

  /** Frees the address range and reserves it again at the same address. */
  function CycleAddress(d: Driver, err: int, o: Oracle, t: nat, addr: nat, size: nat): Outcome {
    var code := AddressFreeCode(d, o, t, addr, size);
    if code != 0 then Outcome(d, code, t + 1)
    else
      var d' := d.(reservations := d.reservations - {addr});
      if o.fault(t + 1) != 0 then Outcome(d', o.fault(t + 1), t + 2)
      else
        var place := match o.moved(t + 1) case None => addr case Some(other) => other;
        var d'' := d'.(reservations := d'.reservations[place := size]);
        if place == addr then Outcome(d'', err, t + 2)
        // a stray reservation is given back; the result of that call is ignored
        else if o.fault(t + 2) != 0 then Outcome(d'', INVALID_VALUE, t + 3)
        else Outcome(d''.(reservations := d''.reservations - {place}), INVALID_VALUE, t + 3)
  }

  function UnmapAndReleaseSpec(d: Driver, err: int, o: Oracle, t: nat, addr: nat, size: nat, sizes: seq<nat>, hs: seq<nat>): Outcome
    requires |hs| == |sizes|
  {
    var n := |sizes|;
    var (d1, e1) := UnmapLoop(d, 0, o, t, addr, sizes);
    var (d2, e2) := ReleaseLoop(d1, e1, o, t + n, hs);
    if e2 != 0 then Outcome(d2, e2, t + n + n) else CycleAddress(d2, err, o, t + n + n, addr, size)
  }
}

/** Runs of a whole pool: allocations come, go to sleep, wake up and go (vllm/device_allocator/cumem.py
    over csrc/cumem_allocator.cpp), in any order. */
module CumemLifecycle {
  import opened Wrappers
  import opened CumemDriver
  import opened ChunkPlan
  import opened CumemProofs
  import opened CumemAllocator
  import opened CumemMemory

  // ---------------------------------------------------------------- allocating and freeing

  /** Memory is mapped in reserved ranges only. */
  ghost predicate MappedInside(d: Driver) {
    forall k :: k in d.mappings ==> InReservation(d, k)
  }

  ghost predicate InReservation(d: Driver, k: nat)
    requires k in d.mappings
  {
    d.mappings[k].size > 0 &&
    exists a :: a in d.reservations && a <= k && k + d.mappings[k].size <= a + d.reservations[a]
  }

  lemma {:induction false} NewRangeIsFree(d: Driver, place: nat, size: nat)
    requires MappedInside(d) && Unreserved(d, place, size)
    ensures OwnRange(WithReservation(d, place, size).mappings, place, place + size, map[])
  {
    forall k | k in d.mappings ensures place + size <= k || (k < place && k + d.mappings[k].size <= place) {
      assert InReservation(d, k);
      var a :| a in d.reservations && a <= k && k + d.mappings[k].size <= a + d.reservations[a];
    }
  }

  lemma {:induction false} SameNewHandles(d: Driver, d': Driver, n: nat)
    requires d'.nextHandle == d.nextHandle
    ensures NewHandles(d', n) == NewHandles(d, n)
  {
  }

  /** Reserving a new range does not concern an allocation of the pool. */
  lemma {:induction false} ReservingKeeps(d: Driver, place: nat, size: nat, q: nat, b: Allocation, awake: bool)
    requires Laid(d, q, b, awake) && Unreserved(d, place, size)
    ensures Laid(WithReservation(d, place, size), q, b, awake)
    ensures place + size <= q || q + Sum(b.sizes) <= place
  {
  }

  /** What `my_malloc` returns can be added to the pool; the other allocations keep their contents. */
  lemma {:induction false} MallocExtendsPool(
    d: Driver, d': Driver, allocs: map<nat, Allocation>, awake: set<nat>, place: nat, sizes: seq<nat>, tag: string)
    requires Consistent(d, allocs, awake) && MappedInside(d) && Positive(sizes) && Unreserved(d, place, Sum(sizes))
    requires Mapped(WithReservation(d, place, Sum(sizes)), d', place, sizes) && d'.Valid()
    ensures place !in allocs && MappedInside(d')
    ensures Consistent(d', allocs[place := Allocation(sizes, NewHandles(d, |sizes|), tag, None)], awake + {place})
    ensures forall q :: q in awake ==> SameContents(d, d', allocs[q])
  {
    var reserved, hs := WithReservation(d, place, Sum(sizes)), NewHandles(d, |sizes|);
    SameNewHandles(d, reserved, |sizes|);
    var a := Allocation(sizes, hs, tag, None);
    NewRangeIsFree(d, place, Sum(sizes));
    assert Laid(reserved, place, a, false);
    MappedIsLaid(reserved, d', place, a);
    forall q | q in allocs
      ensures q != place && Laid(d', q, allocs[q], q in awake) && Apart(place, a, q, allocs[q])
      ensures q in awake ==> SameContents(d, d', allocs[q]) && Elements(allocs[q].handles) !! Elements(hs)
      ensures q !in awake ==> Released(d', allocs[q])
    {
      MallocKeeps(d, d', place, a, q, allocs[q], q in awake);
    }
    StaysInside(d, d', place, sizes, hs);
    ConsistentWith(d', allocs, awake, place, a);
  }

  /** Another allocation while `place` is allocated. */
  lemma {:induction false} MallocKeeps(d: Driver, d': Driver, place: nat, a: Allocation, q: nat, b: Allocation, awake: bool)
    requires d.Valid() && Unreserved(d, place, Sum(a.sizes)) && Laid(WithReservation(d, place, Sum(a.sizes)), place, a, false)
    requires Mapped(WithReservation(d, place, Sum(a.sizes)), d', place, a.sizes)
    requires Laid(d, q, b, awake) && (!awake ==> Released(d, b))
    ensures q != place && Laid(d', q, b, awake) && Apart(place, a, q, b)
    ensures awake ==> SameContents(d, d', b) && Elements(b.handles) !! Elements(NewHandles(d, |a.sizes|))
    ensures !awake ==> Released(d', b)
  {
    var reserved := WithReservation(d, place, Sum(a.sizes));
    SameNewHandles(d, reserved, |a.sizes|);
    ReservingKeeps(d, place, Sum(a.sizes), q, b, awake);
    WakeKeeps(reserved, d', place, a, q, b, awake);
    if !awake {
      ReleasedStays(reserved, d', a.sizes, place, b);
    }
  }

  lemma {:induction false} ConsistentWith(d: Driver, allocs: map<nat, Allocation>, awake: set<nat>, place: nat, a: Allocation)
    requires d.Valid() && awake <= allocs.Keys && place !in allocs && Laid(d, place, a, true)
    requires AllLaid(d, allocs, awake) && AllReleased(d, allocs, awake) && AllApart(allocs) && NoneShared(allocs, awake)
    requires forall q :: q in allocs ==> Apart(place, a, q, allocs[q])
    requires forall q :: q in awake ==> Elements(allocs[q].handles) !! Elements(a.handles)
    ensures Consistent(d, allocs[place := a], awake + {place})
  {
  }

  lemma {:induction false} StaysInside(d: Driver, d': Driver, place: nat, sizes: seq<nat>, hs: seq<nat>)
    requires MappedInside(d) && Positive(sizes) && |hs| == |sizes| && place !in d.reservations
    requires d'.mappings == d.mappings + Tiles(place, sizes, hs) && d'.reservations == d.reservations[place := Sum(sizes)]
    ensures MappedInside(d')
  {
    TilesBounds(place, sizes, hs);
    forall k | k in d'.mappings ensures InReservation(d', k) {
      if k in Tiles(place, sizes, hs) {
        assert place in d'.reservations;
      } else {
        assert InReservation(d, k);
        var a :| a in d.reservations && a <= k && k + d.mappings[k].size <= a + d.reservations[a];
        assert a in d'.reservations;
      }
    }
  }

  /** What `my_free` leaves is the pool without the allocation. */
  lemma {:induction false} FreeShrinksPool(d: Driver, d': Driver, allocs: map<nat, Allocation>, awake: set<nat>, p: nat)
    requires Consistent(d, allocs, awake) && p in awake
    requires d' == Freed(d, p, allocs[p].sizes, allocs[p].handles).(reservations := d.reservations - {p})
    ensures Consistent(d', allocs - {p}, awake - {p})
    ensures forall q :: q in awake && q != p ==> SameContents(d, d', allocs[q])
    ensures MappedInside(d) ==> MappedInside(d')
  {
    if MappedInside(d) {
      FreeingStaysInside(d, d', p, allocs[p]);
    }
    SleepOne(d, allocs, awake, p, None);
    var asleep := Unmapped(d, p, allocs[p]);
    assert d' == asleep.(reservations := d.reservations - {p});
    forall q | q in allocs - {p} ensures Laid(d', q, allocs[q], q in awake - {p}) {
      assert Laid(asleep, q, allocs[q], q in awake - {p});
    }
    var rest := allocs - {p};
    forall q | q in rest && q !in awake - {p} ensures Released(d', rest[q]) {
      assert Released(asleep, allocs[q]);
    }
    forall q | q in awake && q != p ensures SameContents(d, d', allocs[q]) {
      assert SameContents(d, asleep, allocs[q]);
    }
  }

  lemma {:induction false} FreeingStaysInside(d: Driver, d': Driver, p: nat, a: Allocation)
    requires MappedInside(d) && Laid(d, p, a, true)
    requires d' == Freed(d, p, a.sizes, a.handles).(reservations := d.reservations - {p})
    ensures MappedInside(d')
  {
    forall k | k in d'.mappings ensures InReservation(d', k) {
      assert InReservation(d, k);
      var r :| r in d.reservations && r <= k && k + d.mappings[k].size <= r + d.reservations[r];
      assert r in d'.reservations;
    }
  }

  // ---------------------------------------------------------------- single steps

  /** The driver, the table of allocations, and which of them are awake. */
  datatype Pool = Pool(d: Driver, allocs: map<nat, Allocation>, awake: set<nat>)

  /** A consistent pool, with memory mapped in reserved ranges only and no backup of what is awake. */
  ghost predicate Good(s: Pool) {
    && Consistent(s.d, s.allocs, s.awake) && MappedInside(s.d)
    && NoBackups(s.allocs, s.awake)
  }

  ghost function GoodPools(): iset<Pool> {
    iset s | Good(s)
  }

  datatype Op = Malloc(p: nat, sizes: seq<nat>, tag: string) | Free(p: nat) | Sleep(p: nat, offload: set<string>) | Wake(p: nat)

  /** `my_malloc` maps new pages at a new address, and the callback records it. */
  ghost predicate Mallocs(s: Pool, p: nat, sizes: seq<nat>, tag: string, s': Pool) {
    && Positive(sizes) && Unreserved(s.d, p, Sum(sizes))
    && Mapped(WithReservation(s.d, p, Sum(sizes)), s'.d, p, sizes)
    && s'.allocs == s.allocs[p := Allocation(sizes, NewHandles(s.d, |sizes|), tag, None)] && s'.awake == s.awake + {p}
  }

  /** `my_free` gives the pages and the address of an awake allocation back. */
  ghost predicate Frees(s: Pool, p: nat, s': Pool) {
    && p in s.awake && p in s.allocs && |s.allocs[p].handles| == |s.allocs[p].sizes|
    && s'.d == Freed(s.d, p, s.allocs[p].sizes, s.allocs[p].handles).(reservations := s.d.reservations - {p})
    && s'.allocs == s.allocs - {p} && s'.awake == s.awake - {p}
  }

  /** One iteration of `sleep`: reads the bytes if the tag asks for it, then gives the pages back. */
  ghost predicate Sleeps(s: Pool, p: nat, offload: set<string>, s': Pool) {
    && p in s.awake && p in s.allocs && |s.allocs[p].handles| == |s.allocs[p].sizes|
    && var a := s.allocs[p];
       && s'.d == Unmapped(s.d, p, a) && s'.awake == s.awake - {p}
       && s'.allocs == s.allocs[p := a.(backup := if a.tag in offload then Read(s.d, p, Sum(a.sizes)) else a.backup)]
  }

  /** One iteration of `wake_up`: maps new pages at the old address, then copies the backup. */
  ghost predicate Wakes(s: Pool, p: nat, s': Pool) {
    && p in s.allocs && p !in s.awake
    && var a := s.allocs[p];
       && s'.allocs == s.allocs[p := a.(handles := NewHandles(s.d, |a.sizes|), backup := None)] && s'.awake == s.awake + {p}
       && exists mid :: Mapped(s.d, mid, p, a.sizes) && Restores(mid, p, a.backup, s'.d)
  }

  ghost predicate Restores(mid: Driver, p: nat, backup: Option<seq<int>>, d': Driver) {
    match backup
    case None => d' == mid
    case Some(bytes) => Write(mid, p, bytes) == Some(d')
  }

  ghost predicate Step(s: Pool, op: Op, s': Pool) {
    match op
    case Malloc(p, sizes, tag) => Mallocs(s, p, sizes, tag, s')
    case Free(p) => Frees(s, p, s')
    case Sleep(p, offload) => Sleeps(s, p, offload, s')
    case Wake(p) => Wakes(s, p, s')
  }

  /** No allocation other than `p` changes, nor do the bytes of one that is awake. */
  ghost predicate OnlyAt(s: Pool, p: nat, s': Pool) {
    forall q :: q in s.allocs && q != p ==>
      && q in s'.allocs && s'.allocs[q] == s.allocs[q] && (q in s'.awake <==> q in s.awake)
      && (q in s.awake ==> SameContents(s.d, s'.d, s.allocs[q]))
  }

  /** The pages that do not belong to an awake allocation. */
  ghost function Foreign(s: Pool): map<nat, seq<int>> {
    s.d.pages - HandlesOf(s.allocs, s.awake)
  }

  lemma {:induction false} ForeignAfterMore(s: Pool, p: nat, hs: set<nat>, s': Pool)
    requires p !in s.awake && s.awake <= s.allocs.Keys && s'.awake == s.awake + {p} && p in s'.allocs
    requires OnlyAt(s, p, s') && Elements(s'.allocs[p].handles) == hs && Grown(s.d, s'.d, hs)
    ensures Foreign(s') == Foreign(s)
  {
    HandlesOfSame(s.allocs, s'.allocs, s.awake);
    HandlesOfMore(s'.allocs, s.awake, p);
    assert s'.d.pages - (HandlesOf(s.allocs, s.awake) + hs) == (s'.d.pages - hs) - HandlesOf(s.allocs, s.awake);
  }

  lemma {:induction false} ForeignAfterLess(s: Pool, p: nat, s': Pool)
    requires p in s.awake && s.awake <= s.allocs.Keys && s'.awake == s.awake - {p}
    requires OnlyAt(s, p, s') && s'.d.pages == s.d.pages - Elements(s.allocs[p].handles)
    ensures Foreign(s') == Foreign(s)
  {
    HandlesOfSame(s.allocs, s'.allocs, s'.awake);
    HandlesOfMore(s.allocs, s'.awake, p);
    assert s'.awake + {p} == s.awake;
    var hs := Elements(s.allocs[p].handles);
    assert s.d.pages - (HandlesOf(s.allocs, s'.awake) + hs) == (s.d.pages - hs) - HandlesOf(s.allocs, s'.awake);
  }

  lemma {:induction false} MappedIsValid(d: Driver, d': Driver, addr: nat, sizes: seq<nat>)
    requires d.Valid() && Mapped(d, d', addr, sizes)
    ensures d'.Valid()
  {
    var hs := NewHandles(d, |sizes|);
    forall h | h in d'.pages ensures h < d'.nextHandle {
      assert h in d.pages || h in Elements(hs);
    }
  }

  lemma {:induction false} MallocStep(s: Pool, p: nat, sizes: seq<nat>, tag: string, s': Pool)
    requires Good(s) && Mallocs(s, p, sizes, tag, s')
    ensures Good(s') && OnlyAt(s, p, s') && Foreign(s') == Foreign(s) && p !in s.allocs
  {
    MallocIsGood(s, p, sizes, tag, s');
    MallocGrows(s, p, sizes, tag, s');
    ForeignAfterMore(s, p, Elements(s'.allocs[p].handles), s');
  }

  lemma {:induction false} MallocIsGood(s: Pool, p: nat, sizes: seq<nat>, tag: string, s': Pool)
    requires Good(s) && Mallocs(s, p, sizes, tag, s')
    ensures Good(s') && OnlyAt(s, p, s') && p !in s.allocs
  {
    MappedIsValid(WithReservation(s.d, p, Sum(sizes)), s'.d, p, sizes);
    MallocExtendsPool(s.d, s'.d, s.allocs, s.awake, p, sizes, tag);
    OnlyAtNew(s, p, s'.allocs[p], s');
    BackupsStayGone(s, p, s');
  }

  lemma {:induction false} OnlyAtNew(s: Pool, p: nat, a: Allocation, s': Pool)
    requires s.awake <= s.allocs.Keys && s'.allocs == s.allocs[p := a] && s'.awake == s.awake + {p}
    requires forall q :: q in s.awake ==> SameContents(s.d, s'.d, s.allocs[q])
    ensures OnlyAt(s, p, s')
  {
  }

  lemma {:induction false} MallocGrows(s: Pool, p: nat, sizes: seq<nat>, tag: string, s': Pool)
    requires s.d.Valid() && Mallocs(s, p, sizes, tag, s')
    ensures Grown(s.d, s'.d, Elements(NewHandles(s.d, |sizes|)))
  {
    var reserved := WithReservation(s.d, p, Sum(sizes));
    SameNewHandles(s.d, reserved, |sizes|);
    MappedGrows(reserved, s'.d, p, sizes);
  }

  lemma {:induction false} FreeStep(s: Pool, p: nat, s': Pool)
    requires Good(s) && Frees(s, p, s')
    ensures Good(s') && OnlyAt(s, p, s') && Foreign(s') == Foreign(s)
  {
    FreeShrinksPool(s.d, s'.d, s.allocs, s.awake, p);
    ForeignAfterLess(s, p, s');
  }

  lemma {:induction false} FewerMappingsInside(d: Driver, d': Driver)
    requires MappedInside(d) && d'.reservations == d.reservations && Contains(d.mappings, d'.mappings)
    ensures MappedInside(d')
  {
    forall k | k in d'.mappings ensures InReservation(d', k) {
      assert InReservation(d, k);
    }
  }

  lemma {:induction false} SavedBytes(s: Pool, p: nat, offload: set<string>, s': Pool)
    requires Good(s) && Sleeps(s, p, offload, s')
    ensures Saved(s.d, s.allocs[p], s'.allocs[p], offload)
    ensures s'.allocs[p].backup.Some? ==> |s'.allocs[p].backup.value| == Sum(s.allocs[p].sizes)
  {
    var a := s.allocs[p];
    ReadTiles(s.d, p, a.sizes, a.handles);
    ConcatLength(s.d.pages, a.handles, a.sizes);
  }

  lemma {:induction false} SleepStep(s: Pool, p: nat, offload: set<string>, s': Pool)
    requires Good(s) && Sleeps(s, p, offload, s')
    ensures Good(s') && OnlyAt(s, p, s') && Foreign(s') == Foreign(s)
    ensures Saved(s.d, s.allocs[p], s'.allocs[p], offload)
  {
    SavedBytes(s, p, offload, s');
    SleepOne(s.d, s.allocs, s.awake, p, s'.allocs[p].backup);
    FewerMappingsInside(s.d, s'.d);
    ForeignAfterLess(s, p, s');
  }

  lemma {:induction false} WokenInside(d: Driver, d': Driver, p: nat, sizes: seq<nat>)
    requires MappedInside(d) && Positive(sizes) && p in d.reservations && d.reservations[p] == Sum(sizes)
    requires Mapped(d, d', p, sizes)
    ensures MappedInside(d')
  {
    var hs := NewHandles(d, |sizes|);
    TilesBounds(p, sizes, hs);
    forall k | k in d'.mappings ensures InReservation(d', k) {
      if k !in Tiles(p, sizes, hs) {
        assert InReservation(d, k);
      }
    }
  }

  /** The two halves of waking up, one after the other. */
  lemma {:induction false} WakeStep(s: Pool, p: nat, s': Pool)
    requires Good(s) && Wakes(s, p, s')
    ensures Good(s') && OnlyAt(s, p, s') && Foreign(s') == Foreign(s)
    ensures s'.d.reservations == s.d.reservations && Grown(s.d, s'.d, Elements(s'.allocs[p].handles))
    ensures Woken(s'.d, s.allocs[p], s'.allocs[p])
  {
    var a := s.allocs[p];
    var mid :| Mapped(s.d, mid, p, a.sizes) && Restores(mid, p, a.backup, s'.d);
    WakeBothHalves(s, p, Pool(mid, s.allocs[p := a.(handles := NewHandles(s.d, |a.sizes|))], s.awake + {p}), s');
    ForeignAfterMore(s, p, Elements(s'.allocs[p].handles), s');
  }

  lemma {:induction false} MapHalf(s: Pool, p: nat, half: Pool)
    requires Good(s) && p in s.allocs && p !in s.awake && Mapped(s.d, half.d, p, s.allocs[p].sizes)
    requires half == Pool(half.d, s.allocs[p := s.allocs[p].(handles := NewHandles(s.d, |s.allocs[p].sizes|))], s.awake + {p})
    ensures Consistent(half.d, half.allocs, half.awake) && MappedInside(half.d)
    ensures OnlyAt(s, p, half) && Grown(s.d, half.d, Elements(half.allocs[p].handles)) && half.d.reservations == s.d.reservations
  {
    var a := s.allocs[p];
    MappedIsValid(s.d, half.d, p, a.sizes);
    WakeOne(s.d, half.d, s.allocs, s.awake, p);
    WokenInside(s.d, half.d, p, a.sizes);
    MappedGrows(s.d, half.d, p, a.sizes);
  }

  lemma {:induction false} WakeBothHalves(s: Pool, p: nat, half: Pool, s': Pool)
    requires Good(s) && p in s.allocs && p !in s.awake && Mapped(s.d, half.d, p, s.allocs[p].sizes)
    requires half == Pool(half.d, s.allocs[p := s.allocs[p].(handles := NewHandles(s.d, |s.allocs[p].sizes|))], s.awake + {p})
    requires Restores(half.d, p, s.allocs[p].backup, s'.d)
    requires s'.allocs == s.allocs[p := half.allocs[p].(backup := None)] && s'.awake == half.awake
    ensures Good(s') && OnlyAt(s, p, s') && s'.d.reservations == s.d.reservations
    ensures Grown(s.d, s'.d, Elements(s'.allocs[p].handles)) && Woken(s'.d, s.allocs[p], s'.allocs[p])
  {
    MapHalf(s, p, half);
    UpdateTwice(s.allocs, p, half.allocs[p], s'.allocs[p]);
    RestoreHalf(half, p, s');
    RestoreGrows(s.d, half.d, s'.d, half.allocs[p].handles);
    OnlyAtTwice(s, p, half, s');
    BackupsStayGone(s, p, s');
  }

  lemma {:induction false} UpdateTwice(m: map<nat, Allocation>, k: nat, x: Allocation, y: Allocation)
    ensures m[k := x][k := y] == m[k := y]
  {
  }

  lemma {:induction false} OnlyAtTwice(s: Pool, p: nat, half: Pool, s': Pool)
    requires OnlyAt(s, p, half) && OnlyAt(half, p, s')
    ensures OnlyAt(s, p, s')
  {
  }

  ghost predicate NoBackups(allocs: map<nat, Allocation>, awake: set<nat>) {
    forall q :: q in awake && q in allocs ==> allocs[q].backup == None
  }

  lemma {:induction false} BackupsStayGone(s: Pool, p: nat, s': Pool)
    requires NoBackups(s.allocs, s.awake) && s.awake <= s.allocs.Keys && OnlyAt(s, p, s')
    requires s'.awake <= s.awake + {p} && p in s'.allocs && s'.allocs[p].backup == None
    ensures NoBackups(s'.allocs, s'.awake)
  {
  }

  lemma {:induction false} RestoreHalf(half: Pool, p: nat, s': Pool)
    requires Consistent(half.d, half.allocs, half.awake) && MappedInside(half.d) && p in half.awake
    requires Restores(half.d, p, half.allocs[p].backup, s'.d)
    requires s'.allocs == half.allocs[p := half.allocs[p].(backup := None)] && s'.awake == half.awake
    ensures Consistent(s'.d, s'.allocs, s'.awake) && MappedInside(s'.d) && OnlyAt(half, p, s')
    ensures s'.d == half.d.(pages := s'.d.pages) && s'.d.pages.Keys == half.d.pages.Keys
    ensures SamePages(half.d.pages, s'.d.pages, half.allocs[p].handles)
    ensures Elements(s'.allocs[p].handles) <= s'.d.pages.Keys
    ensures half.allocs[p].backup.Some? ==> Contents(s'.d, s'.allocs[p]) == half.allocs[p].backup.value
  {
    var a := half.allocs[p];
    AwakeElements(half.d, p, a.sizes, a.handles);
    if a.backup.Some? {
      RestoreOne(half.d, half.allocs, half.awake, p, a.backup.value);
      WriteFrame(half.d, p, a.sizes, a.handles, a.backup.value);
      FewerMappingsInside(half.d, s'.d);
    } else {
      assert s'.allocs == half.allocs;
      StaysTheSame(half);
    }
  }

  lemma {:induction false} StaysTheSame(s: Pool)
    requires Consistent(s.d, s.allocs, s.awake)
    ensures forall q :: q in s.awake ==> SameContents(s.d, s.d, s.allocs[q])
  {
    forall q | q in s.awake ensures SameContents(s.d, s.d, s.allocs[q]) {
      AwakeElements(s.d, q, s.allocs[q].sizes, s.allocs[q].handles);
    }
  }

  lemma {:induction false} RestoreGrows(d: Driver, mid: Driver, d': Driver, hs: seq<nat>)
    requires Grown(d, mid, Elements(hs)) && d'.pages.Keys == mid.pages.Keys && SamePages(mid.pages, d'.pages, hs)
    ensures Grown(d, d', Elements(hs))
  {
    assert d'.pages - Elements(hs) == mid.pages - Elements(hs);
  }

  // ---------------------------------------------------------------- whole runs

  /** The bytes of an allocation: those in its pages while it is awake, and then the backup. */
  ghost function Bytes(s: Pool, p: nat): Option<seq<int>>
    requires p in s.allocs
  {
    if p !in s.awake then s.allocs[p].backup
    else if Elements(s.allocs[p].handles) <= s.d.pages.Keys then Some(Contents(s.d, s.allocs[p]))
    else None
  }

  /** The step puts `p`, which has the tag, to sleep without saving it. */
  predicate Discards(op: Op, p: nat, tag: string) {
    op.Sleep? && op.p == p && tag !in op.offload
  }

  /** The allocation is the same one, with the same bytes. */
  ghost predicate Kept(s: Pool, p: nat, s': Pool) {
    && p in s.allocs && p in s'.allocs && s'.allocs[p].sizes == s.allocs[p].sizes && s'.allocs[p].tag == s.allocs[p].tag
    && (Bytes(s, p).Some? ==> Bytes(s', p) == Bytes(s, p))
  }

  lemma {:induction false} StepKeepsOthers(s: Pool, p: nat, s': Pool, q: nat)
    requires OnlyAt(s, p, s') && q in s.allocs && q != p
    ensures Kept(s, q, s')
  {
  }

  lemma {:induction false} StepKeeps(s: Pool, op: Op, s': Pool)
    requires Good(s) && Step(s, op, s')
    ensures Good(s') && Foreign(s') == Foreign(s) && OnlyAt(s, op.p, s')
    ensures op.p in s.allocs && op != Free(op.p) && !Discards(op, op.p, s.allocs[op.p].tag) ==> Kept(s, op.p, s')
  {
    match op
    case Malloc(p, sizes, tag) => MallocStep(s, p, sizes, tag, s');
    case Free(p) => FreeStep(s, p, s');
    case Sleep(p, offload) => SleepStep(s, p, offload, s');
    case Wake(p) => WakeStep(s, p, s');
  }

  /** The steps lead from `s` to `s'`. */
  ghost predicate Reaches(s: Pool, ops: seq<Op>, s': Pool)
    decreases |ops|
  {
    if ops == [] then s' == s
    else exists mid :: Reaches(s, Init(ops), mid) && Step(mid, Last(ops), s')
  }

  function Init(ops: seq<Op>): seq<Op>
    requires ops != []
  {
    ops[..|ops| - 1]
  }

  function Last(ops: seq<Op>): Op
    requires ops != []
  {
    ops[|ops| - 1]
  }

  /** Where the pool can be after one step, and after several. */
  ghost function Next(s: Pool, op: Op): iset<Pool> {
    iset s' | Step(s, op, s')
  }

  ghost function After(s: Pool, ops: seq<Op>): iset<Pool> {
    iset s' | Reaches(s, ops, s')
  }

  ghost predicate AllSleep(ops: seq<Op>, offload: set<string>) {
    forall i :: 0 <= i < |ops| ==> ops[i].Sleep? && ops[i].offload == offload
  }

  ghost predicate AllWake(ops: seq<Op>) {
    forall i :: 0 <= i < |ops| ==> ops[i].Wake?
  }

  /** Where the pool can be after putting allocations to sleep, and after waking allocations. */
  ghost function AfterSleeps(s: Pool, offload: set<string>): iset<Pool> {
    iset s' | BySleeping(s, offload, s')
  }

  ghost predicate BySleeping(s: Pool, offload: set<string>, s': Pool) {
    exists ops :: AllSleep(ops, offload) && s' in After(s, ops)
  }

  ghost function AfterWakes(s: Pool): iset<Pool> {
    iset s' | ByWaking(s, s')
  }

  ghost predicate ByWaking(s: Pool, s': Pool) {
    exists ops :: AllWake(ops) && s' in After(s, ops)
  }

  lemma {:induction false} AfterMore(s: Pool, ops: seq<Op>, mid: Pool, op: Op, s': Pool)
    requires mid in After(s, ops) && s' in Next(mid, op)
    ensures s' in After(s, ops + [op])
  {
    EndOfBoth(ops, [op]);
    assert ops + Init([op]) == ops;
  }

  lemma {:induction false} NoneYet(s: Pool, offload: set<string>)
    ensures s in AfterSleeps(s, offload) && s in AfterWakes(s)
  {
    assert AllSleep([], offload) && AllWake([]) && s in After(s, []);
  }

  lemma {:induction false} OneMoreSleeps(s: Pool, mid: Pool, p: nat, offload: set<string>, s': Pool)
    requires mid in AfterSleeps(s, offload) && s' in Next(mid, Sleep(p, offload))
    ensures s' in AfterSleeps(s, offload)
  {
    var ops :| AllSleep(ops, offload) && mid in After(s, ops);
    AfterMore(s, ops, mid, Sleep(p, offload), s');
    assert AllSleep(ops + [Sleep(p, offload)], offload);
  }

  lemma {:induction false} OneMoreWakes(s: Pool, mid: Pool, p: nat, s': Pool)
    requires mid in AfterWakes(s) && s' in Next(mid, Wake(p))
    ensures s' in AfterWakes(s)
  {
    var ops :| AllWake(ops) && mid in After(s, ops);
    AfterMore(s, ops, mid, Wake(p), s');
    assert AllWake(ops + [Wake(p)]);
  }

  /** Runs can be put together. */
  lemma {:induction false} AfterBoth(s: Pool, first: seq<Op>, mid: Pool, second: seq<Op>, s': Pool)
    requires mid in After(s, first) && s' in After(mid, second)
    ensures s' in After(s, first + second)
  {
    ReachesTogether(s, first, mid, second, s');
  }

  lemma {:induction false} ReachesTogether(s: Pool, first: seq<Op>, mid: Pool, second: seq<Op>, s': Pool)
    requires Reaches(s, first, mid) && Reaches(mid, second, s')
    ensures Reaches(s, first + second, s')
    decreases |second|
  {
    if second == [] {
      assert first + second == first;
    } else {
      var last :| Reaches(mid, Init(second), last) && Step(last, Last(second), s');
      ReachesTogether(s, first, mid, Init(second), last);
      EndOfBoth(first, second);
    }
  }

  lemma {:induction false} EndOfBoth(first: seq<Op>, second: seq<Op>)
    requires second != []
    ensures Init(first + second) == first + Init(second) && Last(first + second) == Last(second)
  {
  }

  /** In the run, `p` is neither freed nor put to sleep without being saved. */
  predicate Retained(ops: seq<Op>, p: nat, tag: string) {
    forall i :: 0 <= i < |ops| ==> ops[i] != Free(p) && !Discards(ops[i], p, tag)
  }

  /** Any mix of allocating, freeing, sleeping and waking keeps the pool consistent and leaves
      all pages of others alone; an allocation that is neither freed nor discarded keeps its address,
      its chunks and its bytes. */
  lemma {:induction false} RunsKeepPool(s: Pool, ops: seq<Op>, s': Pool)
    requires Good(s) && s' in After(s, ops)
    ensures Good(s') && Foreign(s') == Foreign(s)
    ensures forall p :: p in s.allocs && Retained(ops, p, s.allocs[p].tag) ==> Kept(s, p, s')
    decreases |ops|
  {
    if ops != [] {
      var mid :| Reaches(s, Init(ops), mid) && Step(mid, Last(ops), s');
      RunsKeepPool(s, Init(ops), mid);
      StepKeeps(mid, Last(ops), s');
      forall p | p in s.allocs && Retained(ops, p, s.allocs[p].tag) ensures Kept(s, p, s') {
        RetainedBefore(ops, p, s.allocs[p].tag);
        StepRetains(mid, Last(ops), s', p);
        KeptTwice(s, mid, s', p);
      }
    }
  }

  lemma {:induction false} RetainedBefore(ops: seq<Op>, p: nat, tag: string)
    requires ops != [] && Retained(ops, p, tag)
    ensures Retained(Init(ops), p, tag) && Last(ops) != Free(p) && !Discards(Last(ops), p, tag)
  {
  }

  lemma {:induction false} StepRetains(s: Pool, op: Op, s': Pool, p: nat)
    requires OnlyAt(s, op.p, s') && p in s.allocs && op != Free(p) && !Discards(op, p, s.allocs[p].tag)
    requires op.p in s.allocs && op != Free(op.p) && !Discards(op, op.p, s.allocs[op.p].tag) ==> Kept(s, op.p, s')
    ensures Kept(s, p, s')
  {
    if p != op.p {
      StepKeepsOthers(s, op.p, s', p);
    }
  }

  lemma {:induction false} KeptTwice(a: Pool, b: Pool, c: Pool, p: nat)
    requires Kept(a, p, b) && Kept(b, p, c)
    ensures Kept(a, p, c)
  {
  }
}

/** Sleep mode over a whole memory pool (vllm/device_allocator/cumem.py): sleeping saves the
    tagged allocations and gives all memory back; waking maps it again at the same addresses
    and restores what was saved. The C entry points are used through their specifications. */
module CumemPool {
  import opened Wrappers
  import opened ChunkPlan
  import opened CumemDriver
  import opened CumemProofs
  import opened CumemAllocator
  import opened CumemMemory
  import opened CumemLifecycle

  class CuMemPool {
    const o: Oracle
    var d: Driver
    var clock: nat
    var allocs: map<nat, Allocation>  // pointer_to_data
    var order: seq<nat>               // its keys in insertion order
    ghost var awake: set<nat>

    /** A new pool has no allocation. */
    constructor (o: Oracle, d: Driver, clock: nat)
      requires d.Valid() && MappedInside(d)
      ensures Valid() && Now() == Pool(d, map[], {}) && this.o == o && this.clock == clock
    {
      this.o, this.d, this.clock, allocs, order := o, d, clock, map[], [];
      awake := {};
    }

    ghost function Now(): Pool
      reads this
    {
      Pool(d, allocs, awake)
    }

    ghost predicate Valid()
      reads this
    {
      Now() in GoodPools() && NoRepeats(order) && Elements(order) == allocs.Keys
    }

    /** `my_malloc` and its callback. */
    method Allocate(size: nat, granularity: nat, env: Option<nat>, place: nat, tag: string) returns (r: MallocResult, ghost op: Op)
      requires Valid() && Obliging(o, clock) && size < U64 && 0 < granularity < U64 && NoWrap(size, granularity, env)
      requires Unreserved(d, place, AlignUp(size, granularity))
      modifies this
      ensures Valid() && Obliging(o, clock) && r == Pointer(place)
      ensures op.Malloc? && op.p == place && op.tag == tag && RightPlan(op.sizes, size, granularity, env)
      ensures Now() in Next(old(Now()), op) && order == old(order) + [place]
    {
      var sizes, handles, d', clock';
      r, sizes, handles, d', clock' := CallMalloc(size, granularity, env, place);
      op := Malloc(place, sizes, tag);
      Record(place, Allocation(sizes, handles, tag, None), d', clock');
    }

    /** Calls the library in the current state of the driver. */
    method CallMalloc(size: nat, granularity: nat, env: Option<nat>, place: nat)
      returns (r: MallocResult, sizes: seq<nat>, handles: seq<nat>, d': Driver, clock': nat)
      requires Valid() && Obliging(o, clock) && size < U64 && 0 < granularity < U64 && NoWrap(size, granularity, env)
      requires Unreserved(d, place, AlignUp(size, granularity))
      ensures r == Pointer(place) && Obliging(o, clock')
      ensures RightPlan(sizes, size, granularity, env) && Positive(sizes) && Sum(sizes) == AlignUp(size, granularity)
      ensures Mapped(WithReservation(d, place, Sum(sizes)), d', place, sizes) && handles == NewHandles(d, |sizes|)
    {
      ghost var good := Now();
      r, sizes, handles, d', clock' := CallLibrary(o, d, clock, size, granularity, env, place);
      MallocPlan(good, o, clock, place, sizes, size, granularity, env);
    }

    /** `my_malloc` with a callback that returns, when nothing wraps and the reservation succeeds. */
    static method CallLibrary(o: Oracle, d: Driver, clock: nat, size: nat, granularity: nat, env: Option<nat>, place: nat)
      returns (r: MallocResult, sizes: seq<nat>, handles: seq<nat>, d': Driver, clock': nat)
      requires d.Valid() && o.fault(clock) == 0 && o.fault(clock + 1) == 0
      requires size < U64 && 0 < granularity < U64 && NoWrap(size, granularity, env) && Unreserved(d, place, AlignUp(size, granularity))
      ensures RightIffNoWrap(sizes, size, granularity, env) && clock' >= clock
      ensures var reserved := WithReservation(d, place, AlignUp(size, granularity));
              || (r == Pointer(place) && Mapped(reserved, d', place, sizes) && handles == NewHandles(reserved, |sizes|))
              || CreateAndMapSpec(reserved, 0, o, clock + 2, place, sizes).err != 0
    {
      var library := new Allocator.At(o, d, clock);
      var cells;
      r, sizes, cells := library.MyMalloc(size, granularity, env, place, true);
      handles, d', clock' := cells[..], library.d, library.clock;
    }

    /** The malloc callback: the table gets a new entry. */
    method Record(place: nat, data: Allocation, d': Driver, clock': nat)
      requires Valid() && Mallocs(Now(), place, data.sizes, data.tag, Pool(d', allocs[place := data], awake + {place}))
      modifies this
      ensures Valid() && Now() == Pool(d', old(allocs)[place := data], old(awake) + {place})
      ensures clock == clock' && order == old(order) + [place]
    {
      MallocStep(Now(), place, data.sizes, data.tag, Pool(d', allocs[place := data], awake + {place}));
      AddLast(order, place);
      KeysWith(allocs, place, data);
      Replace(d', clock', allocs[place := data], order + [place], awake + {place});
    }

    /** The free callback and `my_free`, for an allocation that is awake. */
    method Release(ptr: nat)
      requires Valid() && ptr in awake && Obliging(o, clock)
      modifies this
      ensures Valid() && Obliging(o, clock) && Now() in Next(old(Now()), Free(ptr)) && order == Without(old(order), ptr)
    {
      var data := allocs[ptr];
      var handles := new nat[|data.handles|](i requires 0 <= i < |data.handles| => data.handles[i]);
      assert handles[..] == data.handles;
      var library := new Allocator.At(o, d, clock);
      library.MyFree(ptr, Sum(data.sizes), data.sizes, handles);
      Forget(ptr, library.d, library.clock);
    }

    method Forget(ptr: nat, d': Driver, clock': nat)
      requires Valid() && Frees(Now(), ptr, Pool(d', allocs - {ptr}, awake - {ptr}))
      modifies this
      ensures Valid() && Now() == Pool(d', old(allocs) - {ptr}, old(awake) - {ptr})
      ensures clock == clock' && order == Without(old(order), ptr)
    {
      FreeStep(Now(), ptr, Pool(d', allocs - {ptr}, awake - {ptr}));
      WithoutElements(order, ptr);
      Replace(d', clock', allocs - {ptr}, Without(order, ptr), awake - {ptr});
    }

    /** One iteration of `sleep`. */
    method SleepPointer(ptr: nat, offload: set<string>)
      requires Valid() && ptr in awake && Obliging(o, clock)
      modifies this`d, this`clock, this`allocs, this`awake
      ensures Valid() && Obliging(o, clock) && Now() in Next(old(Now()), Op.Sleep(ptr, offload))
      ensures awake == old(awake) - {ptr} && d.reservations == old(d).reservations
      ensures d.pages == old(d).pages - Elements(old(allocs)[ptr].handles)
      ensures allocs == old(allocs)[ptr := allocs[ptr]] && Saved(old(d), old(allocs)[ptr], allocs[ptr], offload)
      ensures forall q :: q in awake ==> SameContents(old(d), d, allocs[q])
    {
      var data := allocs[ptr];
      var size := Sum(data.sizes);
      var backup := if data.tag in offload then Read(d, ptr, size) else data.backup;
      ObligingUnmaps(d, o, clock, ptr, data);
      var out := UnmapAndReleaseSpec(d, 0, o, clock, ptr, size, data.sizes, data.handles);
      SleepEffect(Now(), ptr, offload, Pool(out.d, allocs[ptr := data.(backup := backup)], awake - {ptr}));
      Update(out.d, out.clock, allocs[ptr := data.(backup := backup)], awake - {ptr});
    }

    /** The pool moves on to another good state. */
    method Replace(d': Driver, clock': nat, allocs': map<nat, Allocation>, order': seq<nat>, ghost awake': set<nat>)
      requires Pool(d', allocs', awake') in GoodPools() && NoRepeats(order') && Elements(order') == allocs'.Keys
      modifies this
      ensures Valid() && Now() == Pool(d', allocs', awake') && clock == clock' && order == order'
    {
      d, clock, allocs, order := d', clock', allocs', order';
      awake := awake';
    }

    method Update(d': Driver, clock': nat, allocs': map<nat, Allocation>, ghost awake': set<nat>)
      requires Valid() && Pool(d', allocs', awake') in GoodPools() && allocs'.Keys == allocs.Keys
      modifies this`d, this`clock, this`allocs, this`awake
      ensures Valid() && Now() == Pool(d', allocs', awake') && clock == clock'
    {
      d, clock, allocs := d', clock', allocs';
      awake := awake';
    }

    /** `sleep`: exactly the pages of the pool are given back, all allocations keep their address
        and their reservation, and those with an offloaded tag are saved. */
    method Sleep(offload: set<string>)
      requires Valid() && awake == allocs.Keys && Obliging(o, clock)
      modifies this`d, this`clock, this`allocs, this`awake
      ensures Valid() && awake == {} && Obliging(o, clock) && d.reservations == old(d).reservations
      ensures allocs.Keys == old(allocs).Keys
      ensures d.pages == old(d).pages - HandlesOf(old(allocs), old(allocs).Keys)
      ensures forall p :: p in allocs ==> Saved(old(d), old(allocs)[p], allocs[p], offload) && Released(d, allocs[p])
      ensures NothingMapped(d, old(allocs))
      ensures Now() in AfterSleeps(old(Now()), offload)
    {
      SleepStarts(d, allocs, awake, offload);
      SleepAll(offload, d, allocs);
      SleepEnds(old(d), old(allocs), d, allocs, offload);
      AsleepIsUnmapped(old(d), old(allocs), d, allocs, offload);
    }

    /** The loop of `sleep`. */
    method SleepAll(offload: set<string>, ghost d0: Driver, ghost allocs0: map<nat, Allocation>)
      requires Valid() && awake == allocs.Keys && Obliging(o, clock)
      requires SleepProgress(d0, allocs0, d, allocs, awake, offload)
      modifies this`d, this`clock, this`allocs, this`awake
      ensures Valid() && awake == {} && Obliging(o, clock) && d.reservations == old(d).reservations
      ensures SleepProgress(d0, allocs0, d, allocs, {}, offload)
      ensures Now() in AfterSleeps(old(Now()), offload)
    {
      assert order[0..] == order;
      NoneYet(Now(), offload);
      for i := 0 to |order|
        invariant Valid() && awake == Elements(order[i..]) && Obliging(o, clock) && d.reservations == old(d).reservations
        invariant SleepProgress(d0, allocs0, d, allocs, awake, offload)
        invariant Now() in AfterSleeps(old(Now()), offload)
      {
        ghost var before := Now();
        SleepNext(i, offload, d0, allocs0);
        OneMoreSleeps(old(Now()), before, order[i], offload, Now());
      }
    }

    method SleepNext(i: nat, offload: set<string>, ghost d0: Driver, ghost allocs0: map<nat, Allocation>)
      requires Valid() && i < |order| && awake == Elements(order[i..]) && Obliging(o, clock)
      requires SleepProgress(d0, allocs0, d, allocs, awake, offload)
      modifies this`d, this`clock, this`allocs, this`awake
      ensures Valid() && awake == Elements(order[i + 1..]) && Obliging(o, clock) && d.reservations == old(d).reservations
      ensures SleepProgress(d0, allocs0, d, allocs, awake, offload) && Now() in Next(old(Now()), Op.Sleep(order[i], offload))
    {
      DropFirst(order, i);
      SleepPointer(order[i], offload);
      SleepProgressStep(d0, allocs0, old(d), old(allocs), old(awake), d, allocs, order[i], offload);
    }

    /** One iteration of `wake_up`. */
    method WakePointer(ptr: nat)
      requires Valid() && ptr in allocs && ptr !in awake && Obliging(o, clock)
      modifies this`d, this`clock, this`allocs, this`awake
      ensures Valid() && Obliging(o, clock) && Now() in Next(old(Now()), Wake(ptr))
      ensures awake == old(awake) + {ptr} && d.reservations == old(d).reservations
      ensures allocs == old(allocs)[ptr := allocs[ptr]] && Woken(d, old(allocs)[ptr], allocs[ptr])
      ensures Grown(old(d), d, Elements(allocs[ptr].handles))
      ensures forall q :: q in old(awake) ==> SameContents(old(d), d, allocs[q])
    {
      var data := allocs[ptr];
      var handles, mapped, clock' := MapPointer(ptr);
      var restored := mapped;
      if data.backup.Some? {
        restored := RestorePointer(mapped, ptr, data.sizes, handles, data.backup.value);
      }
      var woken := data.(handles := handles, backup := None);
      WakeEffect(Now(), ptr, mapped, Pool(restored, allocs[ptr := woken], awake + {ptr}));
      Update(restored, clock', allocs[ptr := woken], awake + {ptr});
    }

    /** Maps new pages at the address of a sleeping allocation. */
    method MapPointer(ptr: nat) returns (handles: seq<nat>, d': Driver, clock': nat)
      requires Valid() && ptr in allocs && ptr !in awake && Obliging(o, clock)
      ensures Mapped(d, d', ptr, allocs[ptr].sizes) && handles == NewHandles(d, |allocs[ptr].sizes|)
      ensures AwakeAt(d', ptr, allocs[ptr].sizes, handles) && Obliging(o, clock')
      ensures allocs[ptr].backup.Some? ==> |allocs[ptr].backup.value| == Sum(allocs[ptr].sizes)
    {
      var data := allocs[ptr];
      ObligingMaps(d, o, clock, ptr, data);
      var out := CreateAndMapSpec(d, 0, o, clock, ptr, data.sizes);
      MappedIsLaid(d, out.d, ptr, data);
      handles, d', clock' := NewHandles(d, |data.sizes|), out.d, out.clock;
    }

    /** Copies the backup: then it is read back, and no other page has changed. */
    static method RestorePointer(d: Driver, ptr: nat, sizes: seq<nat>, handles: seq<nat>, bytes: seq<int>) returns (d': Driver)
      requires AwakeAt(d, ptr, sizes, handles) && |bytes| == Sum(sizes)
      ensures Write(d, ptr, bytes) == Some(d') && AwakeAt(d', ptr, sizes, handles) && Read(d', ptr, Sum(sizes)) == Some(bytes)
      ensures d' == d.(pages := d'.pages) && SamePages(d.pages, d'.pages, handles)
    {
      WriteFrame(d, ptr, sizes, handles, bytes);
      WriteReadsBack(d, ptr, sizes, handles, bytes);
      d' := Write(d, ptr, bytes).value;
      ReadTiles(d', ptr, sizes, handles);
    }

    /** `wake_up`: the matching allocations are mapped again at their address, with their saved
        contents; the other allocations do not change. */
    method WakeUp(tags: Option<set<string>>)
      requires Valid() && Obliging(o, clock)
      requires forall p :: p in allocs && Selected(tags, allocs[p]) ==> p !in awake
      modifies this`d, this`clock, this`allocs, this`awake
      ensures Valid() && Obliging(o, clock) && d.reservations == old(d).reservations
      ensures allocs.Keys == old(allocs).Keys
      ensures Grown(old(d), d, HandlesOf(allocs, awake - old(awake)))
      ensures forall p :: p in allocs && (tags.None? || old(allocs)[p].tag in tags.value) ==>
                p in awake && Woken(d, old(allocs)[p], allocs[p])
      ensures forall p :: p in allocs && tags.Some? && old(allocs)[p].tag !in tags.value ==>
                && (p in awake <==> p in old(awake)) && allocs[p] == old(allocs)[p]
                && (p in awake ==> SameContents(old(d), d, allocs[p]))
      ensures Now() in AfterWakes(old(Now()))
    {
      ghost var d0, allocs0, awake0 := d, allocs, awake;
      WakeStarts(d, allocs, awake, tags);
      NoneYet(Now(), {});
      for i := 0 to |order|
        invariant Valid() && Obliging(o, clock) && d.reservations == d0.reservations
        invariant WakeProgress(d0, allocs0, awake0, d, allocs, awake, order[..i], tags)
        invariant Now() in AfterWakes(old(Now()))
      {
        DropFirst(order, i);
        if Selected(tags, allocs[order[i]]) {
          ghost var before := Now();
          WakeNext(i, tags, d0, allocs0, awake0);
          OneMoreWakes(old(Now()), before, order[i], Now());
        } else {
          SkipProgress(d0, allocs0, awake0, d, allocs, awake, order[..i], order[i], tags);
        }
      }
      assert order[..|order|] == order;
      assert forall p :: p in allocs ==> p in Elements(order);
    }

    method WakeNext(i: nat, tags: Option<set<string>>, ghost d0: Driver, ghost allocs0: map<nat, Allocation>, ghost awake0: set<nat>)
      requires Valid() && Obliging(o, clock) && i < |order| && order[i] in allocs && Selected(tags, allocs[order[i]])
      requires WakeProgress(d0, allocs0, awake0, d, allocs, awake, order[..i], tags)
      requires forall p :: p in allocs0 && Selected(tags, allocs0[p]) ==> p !in awake0
      modifies this`d, this`clock, this`allocs, this`awake
      ensures Valid() && Obliging(o, clock) && d.reservations == old(d).reservations && Now() in Next(old(Now()), Wake(order[i]))
      ensures WakeProgress(d0, allocs0, awake0, d, allocs, awake, order[..i + 1], tags)
    {
      DropFirst(order, i);
      WakePointer(order[i]);
      WakeProgressStep(d0, allocs0, awake0, old(d), old(allocs), old(awake), d, allocs, order[..i], order[i], tags);
    }

    /** One full cycle. While the pool is asleep, in the state `asleep`, exactly its pages are
        given back and nothing is mapped at its addresses; afterwards it has as many pages as before,
        and no other page has changed. */
    method SleepWake(offload: set<string>) returns (ghost asleep: Driver)
      requires Valid() && awake == allocs.Keys && Obliging(o, clock)
      modifies this`d, this`clock, this`allocs, this`awake
      ensures Valid() && awake == allocs.Keys == old(allocs).Keys && Obliging(o, clock) && d.reservations == old(d).reservations
      ensures forall p :: p in allocs ==> Cycled(old(d), old(allocs)[p], d, allocs[p], offload)
      ensures asleep.pages == old(d).pages - HandlesOf(old(allocs), old(allocs).Keys)
      ensures NothingMapped(asleep, old(allocs)) && asleep.reservations == old(d).reservations
      ensures Grown(asleep, d, HandlesOf(allocs, allocs.Keys)) && |d.pages.Keys| == |old(d).pages.Keys|
    {
      ghost var d0, allocs0 := d, allocs;
      PoolOwnsPages(d, allocs);
      Sleep(offload);
      asleep := d;
      ghost var allocs1 := allocs;
      WakeUp(None);
      CycleEnds(d0, allocs0, allocs1, d, allocs, awake, offload);
      assert awake - {} == awake;
      PoolOwnsPages(d, allocs);
      assert d.pages.Keys - HandlesOf(allocs, allocs.Keys) == asleep.pages.Keys;
      PagesConserved(d0.pages.Keys, allocs0, d.pages.Keys, allocs, order);
    }

    /** Any number of sleep/wake cycles brings every offloaded allocation back, at its own
        address and with its own contents. In every sleep exactly the pages of the pool are
        given back and nothing is mapped, and the number of live pages is the same after all of them. */
    method SleepWakeCycles(n: nat, offload: set<string>) returns (ghost asleep: seq<Driver>)
      requires Valid() && awake == allocs.Keys && Obliging(o, clock)
      modifies this`d, this`clock, this`allocs, this`awake
      ensures Valid() && awake == allocs.Keys == old(allocs).Keys && d.reservations == old(d).reservations
      ensures forall p :: p in allocs ==> Cycled(old(d), old(allocs)[p], d, allocs[p], offload)
      ensures |asleep| == n
      ensures forall i :: 0 <= i < n ==> AsleepState(old(d), old(allocs), asleep[i])
      ensures d.pages - HandlesOf(allocs, allocs.Keys) == old(d).pages - HandlesOf(old(allocs), old(allocs).Keys)
      ensures |d.pages.Keys| == |old(d).pages.Keys|
    {
      ghost var d0, allocs0 := d, allocs;
      asleep := [];
      CycleStarts(d, allocs, awake, offload);
      for i := 0 to n
        invariant Valid() && awake == allocs.Keys == allocs0.Keys && Obliging(o, clock) && d.reservations == d0.reservations
        invariant AllCycled(d0, allocs0, d, allocs, offload) && |d.pages.Keys| == |d0.pages.Keys|
        invariant |asleep| == i && forall k :: 0 <= k < i ==> AsleepState(d0, allocs0, asleep[k])
        invariant d.pages - HandlesOf(allocs, allocs.Keys) == d0.pages - HandlesOf(allocs0, allocs0.Keys)
      {
        ghost var d1, allocs1 := d, allocs;
        ghost var next := SleepWake(offload);
        SameAsleep(d0, allocs0, d1, allocs1, next, offload);
        asleep := asleep + [next];
        CycledTwice(d0, allocs0, d1, allocs1, d, allocs, offload);
      }
    }
  }

  lemma {:induction false} PlanFits(sizes: seq<nat>, size: nat, granularity: nat, env: Option<nat>)
    requires size < U64 && 0 < granularity < U64 && NoWrap(size, granularity, env) && RightPlan(sizes, size, granularity, env)
    ensures Positive(sizes) && Sum(sizes) == AlignUp(size, granularity)
  {
    AlignUpRounds(size, granularity);
  }

  /** With an obliging driver the planned chunks can be mapped in a new reservation. */
  lemma {:induction false} PlanIsMapped(s: Pool, o: Oracle, t: nat, place: nat, sizes: seq<nat>, size: nat)
    requires s in GoodPools() && Obliging(o, t) && Positive(sizes) && Sum(sizes) == size && Unreserved(s.d, place, size)
    ensures CreateAndMapSpec(WithReservation(s.d, place, size), 0, o, t + 2, place, sizes).err == 0
    ensures NewHandles(WithReservation(s.d, place, size), |sizes|) == NewHandles(s.d, |sizes|)
  {
    NewRangeIsFree(s.d, place, size);
    CreateAndMapSucceeds(WithReservation(s.d, place, size), o, t + 2, place, sizes);
    SameNewHandles(s.d, WithReservation(s.d, place, size), |sizes|);
  }

  lemma {:induction false} MallocPlan(
    s: Pool, o: Oracle, t: nat, place: nat, sizes: seq<nat>, size: nat, granularity: nat, env: Option<nat>)
    requires s in GoodPools() && Obliging(o, t) && size < U64 && 0 < granularity < U64 && NoWrap(size, granularity, env)
    requires RightIffNoWrap(sizes, size, granularity, env) && Unreserved(s.d, place, AlignUp(size, granularity))
    ensures RightPlan(sizes, size, granularity, env) && Positive(sizes) && Sum(sizes) == AlignUp(size, granularity)
    ensures CreateAndMapSpec(WithReservation(s.d, place, AlignUp(size, granularity)), 0, o, t + 2, place, sizes).err == 0
    ensures NewHandles(WithReservation(s.d, place, AlignUp(size, granularity)), |sizes|) == NewHandles(s.d, |sizes|)
  {
    PlanFits(sizes, size, granularity, env);
    PlanIsMapped(s, o, t, place, sizes, AlignUp(size, granularity));
  }

  /** What putting `p` to sleep does, in the terms of the pool object. */
  lemma {:induction false} SleepEffect(s: Pool, p: nat, offload: set<string>, s': Pool)
    requires Good(s) && Sleeps(s, p, offload, s')
    ensures s' in GoodPools() && s' in Next(s, Op.Sleep(p, offload)) && s'.allocs == s.allocs[p := s'.allocs[p]]
    ensures s'.d.reservations == s.d.reservations && s'.d.pages == s.d.pages - Elements(s.allocs[p].handles)
    ensures Saved(s.d, s.allocs[p], s'.allocs[p], offload)
    ensures forall q :: q in s'.awake && q in s'.allocs ==> SameContents(s.d, s'.d, s'.allocs[q])
  {
    SleepStep(s, p, offload, s');
  }

  /** What waking `p` does. */
  lemma {:induction false} WakeEffect(s: Pool, p: nat, mid: Driver, s': Pool)
    requires Good(s) && p in s.allocs && p !in s.awake && s'.awake == s.awake + {p}
    requires s'.allocs == s.allocs[p := s.allocs[p].(handles := NewHandles(s.d, |s.allocs[p].sizes|), backup := None)]
    requires Mapped(s.d, mid, p, s.allocs[p].sizes) && Restores(mid, p, s.allocs[p].backup, s'.d)
    ensures s' in GoodPools() && s' in Next(s, Wake(p)) && s'.d.reservations == s.d.reservations
    ensures Woken(s'.d, s.allocs[p], s'.allocs[p]) && Grown(s.d, s'.d, Elements(s'.allocs[p].handles))
    ensures forall q :: q in s.awake && q in s'.allocs ==> SameContents(s.d, s'.d, s'.allocs[q])
  {
    WakesThrough(s, p, mid, s');
    WakeStep(s, p, s');
  }

  lemma {:induction false} WakesThrough(s: Pool, p: nat, mid: Driver, s': Pool)
    requires p in s.allocs && p !in s.awake && s'.awake == s.awake + {p}
    requires s'.allocs == s.allocs[p := s.allocs[p].(handles := NewHandles(s.d, |s.allocs[p].sizes|), backup := None)]
    requires Mapped(s.d, mid, p, s.allocs[p].sizes) && Restores(mid, p, s.allocs[p].backup, s'.d)
    ensures Wakes(s, p, s') && s' in Next(s, Wake(p))
  {
  }

  lemma {:induction false} KeysWith(m: map<nat, Allocation>, p: nat, a: Allocation)
    ensures m[p := a].Keys == m.Keys + {p}
  {
  }

  lemma {:induction false} AddLast(order: seq<nat>, p: nat)
    requires NoRepeats(order) && p !in Elements(order)
    ensures NoRepeats(order + [p]) && Elements(order + [p]) == Elements(order) + {p}
  {
    assert forall i :: 0 <= i < |order| ==> order[i] in Elements(order);
  }

  /** Removes a key of a dictionary; the others keep their order. */
  function Without(order: seq<nat>, p: nat): seq<nat> {
    if order == [] then [] else if order[0] == p then order[1..] else [order[0]] + Without(order[1..], p)
  }

  lemma {:induction false} WithoutElements(order: seq<nat>, p: nat)
    requires NoRepeats(order)
    ensures NoRepeats(Without(order, p)) && Elements(Without(order, p)) == Elements(order) - {p}
    decreases |order|
  {
    if order != [] {
      FirstElement(order);
      if order[0] != p {
        WithoutElements(order[1..], p);
        AddFirst(order[0], Without(order[1..], p));
      }
    }
  }

  lemma {:induction false} AddFirst(p: nat, order: seq<nat>)
    requires NoRepeats(order) && p !in Elements(order)
    ensures NoRepeats([p] + order) && Elements([p] + order) == {p} + Elements(order)
  {
    assert forall i :: 0 <= i < |order| ==> order[i] in Elements(order);
  }

  /** Nothing is mapped at the addresses of the allocations. */
  ghost predicate NothingMapped(d: Driver, allocs: map<nat, Allocation>) {
    forall p :: p in allocs ==> OwnRange(d.mappings, p, p + Sum(allocs[p].sizes), map[])
  }

  lemma {:induction false} AsleepIsUnmapped(d0: Driver, allocs0: map<nat, Allocation>, d: Driver, allocs: map<nat, Allocation>, offload: set<string>)
    requires Consistent(d, allocs, {}) && allocs.Keys == allocs0.Keys
    requires forall p :: p in allocs ==> Saved(d0, allocs0[p], allocs[p], offload)
    ensures NothingMapped(d, allocs0)
  {
    forall p | p in allocs0 ensures OwnRange(d.mappings, p, p + Sum(allocs0[p].sizes), map[]) {
      assert Saved(d0, allocs0[p], allocs[p], offload) && Laid(d, p, allocs[p], false);
    }
  }

  /** The driver while the pool, awake in `d` before, is asleep. */
  ghost predicate AsleepState(d: Driver, allocs: map<nat, Allocation>, asleep: Driver) {
    && asleep.pages == d.pages - HandlesOf(allocs, allocs.Keys) && asleep.reservations == d.reservations
    && NothingMapped(asleep, allocs)
  }

  lemma {:induction false} SameAsleep(
    d0: Driver, allocs0: map<nat, Allocation>, d1: Driver, allocs1: map<nat, Allocation>, asleep: Driver, offload: set<string>)
    requires AllCycled(d0, allocs0, d1, allocs1, offload) && AsleepState(d1, allocs1, asleep) && d1.reservations == d0.reservations
    requires d1.pages - HandlesOf(allocs1, allocs1.Keys) == d0.pages - HandlesOf(allocs0, allocs0.Keys)
    ensures AsleepState(d0, allocs0, asleep)
  {
    forall p | p in allocs0 ensures OwnRange(asleep.mappings, p, p + Sum(allocs0[p].sizes), map[]) {
      assert Cycled(d0, allocs0[p], d1, allocs1[p], offload);
    }
  }

  /** All allocations have been through whole cycles. */
  ghost predicate AllCycled(d: Driver, allocs: map<nat, Allocation>, d': Driver, allocs': map<nat, Allocation>, offload: set<string>) {
    allocs'.Keys == allocs.Keys && forall p :: p in allocs ==> Cycled(d, allocs[p], d', allocs'[p], offload)
  }

  lemma {:induction false} CycleStarts(d: Driver, allocs: map<nat, Allocation>, awake: set<nat>, offload: set<string>)
    requires Consistent(d, allocs, awake) && awake == allocs.Keys
    ensures AllCycled(d, allocs, d, allocs, offload)
  {
    forall p | p in allocs ensures Cycled(d, allocs[p], d, allocs[p], offload) {
      AwakeElements(d, p, allocs[p].sizes, allocs[p].handles);
    }
  }

  lemma {:induction false} CycledTwice(
    d0: Driver, allocs0: map<nat, Allocation>, d1: Driver, allocs1: map<nat, Allocation>, d2: Driver, allocs2: map<nat, Allocation>,
    offload: set<string>)
    requires AllCycled(d0, allocs0, d1, allocs1, offload) && allocs2.Keys == allocs1.Keys
    requires forall p :: p in allocs2 ==> Cycled(d1, allocs1[p], d2, allocs2[p], offload)
    ensures AllCycled(d0, allocs0, d2, allocs2, offload)
  {
    forall p | p in allocs0 ensures Cycled(d0, allocs0[p], d2, allocs2[p], offload) {
      assert Cycled(d0, allocs0[p], d1, allocs1[p], offload) && Cycled(d1, allocs1[p], d2, allocs2[p], offload);
    }
  }

  lemma {:induction false} CycleEnds(
    d0: Driver, allocs0: map<nat, Allocation>, allocs1: map<nat, Allocation>, d: Driver, allocs: map<nat, Allocation>, awake: set<nat>,
    offload: set<string>)
    requires allocs0.Keys == allocs1.Keys == allocs.Keys && awake <= allocs.Keys
    requires forall p :: p in allocs1 ==> Saved(d0, allocs0[p], allocs1[p], offload)
    requires forall p :: p in allocs && Selected(None, allocs1[p]) ==> p in awake && Woken(d, allocs1[p], allocs[p])
    ensures awake == allocs.Keys && AllCycled(d0, allocs0, d, allocs, offload)
  {
    forall p | p in allocs ensures p in awake && Cycled(d0, allocs0[p], d, allocs[p], offload) {
      assert Selected(None, allocs1[p]);
      assert Saved(d0, allocs0[p], allocs1[p], offload) && Woken(d, allocs1[p], allocs[p]);
    }
  }

  /** Sleeping so far: the awake ones are untouched, the others saved. */
  ghost predicate SleepProgress(
    d0: Driver, allocs0: map<nat, Allocation>, d: Driver, allocs: map<nat, Allocation>, awake: set<nat>, offload: set<string>)
  {
    && allocs.Keys == allocs0.Keys
    && (forall p :: p in allocs && p in awake ==> allocs[p] == allocs0[p] && SameContents(d0, d, allocs0[p]))
    && (forall p :: p in allocs && p !in awake ==> Saved(d0, allocs0[p], allocs[p], offload))
    && d.pages == d0.pages - HandlesOf(allocs0, allocs0.Keys - awake)
  }

  lemma {:induction false} SleepStarts(d: Driver, allocs: map<nat, Allocation>, awake: set<nat>, offload: set<string>)
    requires Consistent(d, allocs, awake) && awake == allocs.Keys
    ensures SleepProgress(d, allocs, d, allocs, awake, offload)
  {
    forall p | p in allocs ensures SameContents(d, d, allocs[p]) {
      AwakeElements(d, p, allocs[p].sizes, allocs[p].handles);
    }
    assert HandlesOf(allocs, allocs.Keys - awake) == {};
  }

  lemma {:induction false} SleepEnds(d0: Driver, allocs0: map<nat, Allocation>, d: Driver, allocs: map<nat, Allocation>, offload: set<string>)
    requires SleepProgress(d0, allocs0, d, allocs, {}, offload)
    ensures allocs.Keys == allocs0.Keys && d.pages == d0.pages - HandlesOf(allocs0, allocs0.Keys)
    ensures forall p :: p in allocs ==> Saved(d0, allocs0[p], allocs[p], offload)
  {
    assert allocs0.Keys - {} == allocs0.Keys;
  }

  lemma {:induction false} SleepProgressStep(
    d0: Driver, allocs0: map<nat, Allocation>, d1: Driver, allocs1: map<nat, Allocation>, awake1: set<nat>,
    d: Driver, allocs: map<nat, Allocation>, ptr: nat, offload: set<string>)
    requires SleepProgress(d0, allocs0, d1, allocs1, awake1, offload) && ptr in awake1 && ptr in allocs1
    requires ptr in allocs && allocs == allocs1[ptr := allocs[ptr]] && Saved(d1, allocs1[ptr], allocs[ptr], offload)
    requires d.pages == d1.pages - Elements(allocs1[ptr].handles)
    requires forall q :: q in allocs && q in awake1 && q != ptr ==> SameContents(d1, d, allocs[q])
    ensures SleepProgress(d0, allocs0, d, allocs, awake1 - {ptr}, offload)
  {
    assert allocs.Keys == allocs1.Keys;
    var gone := allocs0.Keys - awake1;
    HandlesOfMore(allocs0, gone, ptr);
    assert allocs0.Keys - (awake1 - {ptr}) == gone + {ptr};
    assert d.pages == d0.pages - HandlesOf(allocs0, gone + {ptr});
  }

  /** Waking so far, over the pointers in `seen`. */
  ghost predicate WakeProgress(
    d0: Driver, allocs0: map<nat, Allocation>, awake0: set<nat>, d: Driver, allocs: map<nat, Allocation>, awake: set<nat>,
    seen: seq<nat>, tags: Option<set<string>>)
  {
    && allocs.Keys == allocs0.Keys
    && (forall p :: p in allocs && (p !in seen || !Selected(tags, allocs0[p])) ==>
          && allocs[p] == allocs0[p] && (p in awake <==> p in awake0)
          && (p in awake ==> SameContents(d0, d, allocs[p])))
    && (forall p :: p in allocs && p in seen && Selected(tags, allocs0[p]) ==> p in awake && Woken(d, allocs0[p], allocs[p]))
    && Grown(d0, d, HandlesOf(allocs, awake - awake0)) && awake0 <= awake
  }

  lemma {:induction false} WakeStarts(d: Driver, allocs: map<nat, Allocation>, awake: set<nat>, tags: Option<set<string>>)
    requires Consistent(d, allocs, awake)
    ensures WakeProgress(d, allocs, awake, d, allocs, awake, [], tags)
  {
    forall p | p in awake ensures SameContents(d, d, allocs[p]) {
      AwakeElements(d, p, allocs[p].sizes, allocs[p].handles);
    }
    assert HandlesOf(allocs, awake - awake) == {};
  }

  lemma {:induction false} GrownTwice(d0: Driver, d1: Driver, d2: Driver, a: set<nat>, b: set<nat>)
    requires Grown(d0, d1, a) && Grown(d1, d2, b)
    ensures Grown(d0, d2, a + b)
  {
    assert d2.pages - (a + b) == d2.pages - b - a;
  }

  lemma {:induction false} WakeProgressStep(
    d0: Driver, allocs0: map<nat, Allocation>, awake0: set<nat>, d1: Driver, allocs1: map<nat, Allocation>, awake1: set<nat>,
    d: Driver, allocs: map<nat, Allocation>, seen: seq<nat>, ptr: nat, tags: Option<set<string>>)
    requires WakeProgress(d0, allocs0, awake0, d1, allocs1, awake1, seen, tags) && ptr !in seen && ptr in allocs1 && ptr !in awake1
    requires Selected(tags, allocs1[ptr]) && ptr in allocs && allocs == allocs1[ptr := allocs[ptr]]
    requires Woken(d, allocs1[ptr], allocs[ptr]) && Grown(d1, d, Elements(allocs[ptr].handles))
    requires forall q :: q in allocs && q in awake1 ==> SameContents(d1, d, allocs[q])
    ensures WakeProgress(d0, allocs0, awake0, d, allocs, awake1 + {ptr}, seen + [ptr], tags)
  {
    assert allocs.Keys == allocs1.Keys;
    var woken := awake1 - awake0;
    HandlesOfSame(allocs1, allocs, woken);
    HandlesOfMore(allocs, woken, ptr);
    assert awake1 + {ptr} - awake0 == woken + {ptr};
    GrownTwice(d0, d1, d, HandlesOf(allocs1, woken), Elements(allocs[ptr].handles));
  }

  predicate Selected(tags: Option<set<string>>, a: Allocation) {
    tags.None? || a.tag in tags.value
  }

  lemma {:induction false} SkipProgress(
    d0: Driver, allocs0: map<nat, Allocation>, awake0: set<nat>, d: Driver, allocs: map<nat, Allocation>, awake: set<nat>,
    seen: seq<nat>, ptr: nat, tags: Option<set<string>>)
    requires WakeProgress(d0, allocs0, awake0, d, allocs, awake, seen, tags) && ptr !in seen && ptr in allocs
    requires !Selected(tags, allocs[ptr])
    ensures WakeProgress(d0, allocs0, awake0, d, allocs, awake, seen + [ptr], tags)
  {
  }

  /** `after` is `before` after whole cycles: same chunks and tag, and, when its tag is
      offloaded, the same contents. */
  ghost predicate Cycled(d: Driver, before: Allocation, d': Driver, after: Allocation, offload: set<string>) {
    && after.sizes == before.sizes && after.tag == before.tag
    && Elements(before.handles) <= d.pages.Keys && Elements(after.handles) <= d'.pages.Keys
    && (before.tag in offload ==> Contents(d', after) == Contents(d, before))
  }

  lemma {:induction false} DropFirst(order: seq<nat>, i: nat)
    requires i < |order| && NoRepeats(order)
    ensures Elements(order[i + 1..]) == Elements(order[i..]) - {order[i]}
    ensures order[..i + 1] == order[..i] + [order[i]]
    ensures order[i..] == [order[i]] + order[i + 1..]
    ensures order[i] in Elements(order) && order[i] !in order[i + 1..] && order[i] !in order[..i]
  {
    assert order[i..] == [order[i]] + order[i + 1..];
  }
}

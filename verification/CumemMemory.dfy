/** Memory of a pool seen through addresses, and what putting one allocation to sleep, mapping
    it again and restoring it do to all the others (vllm/device_allocator/cumem.py). */
module CumemMemory {
  import opened Wrappers
  import opened ChunkPlan
  import opened CumemDriver
  import opened CumemProofs

  // ---------------------------------------------------------------- memory seen through addresses

  /** `cudaMemcpy` from the device: walks the mappings from `addr`. */
  function Read(d: Driver, addr: nat, size: nat): Option<seq<int>>
    decreases size
  {
    if size == 0 then Some([])
    else if addr in d.mappings && 0 < d.mappings[addr].size <= size && d.mappings[addr].handle in d.pages then
      match Read(d, addr + d.mappings[addr].size, size - d.mappings[addr].size)
      case None => None
      case Some(rest) => Some(d.pages[d.mappings[addr].handle] + rest)
    else None
  }

  /** `cudaMemcpy` to the device. */
  function Write(d: Driver, addr: nat, bytes: seq<int>): Option<Driver>
    decreases |bytes|
  {
    if bytes == [] then Some(d)
    else if addr in d.mappings && 0 < d.mappings[addr].size <= |bytes| && d.mappings[addr].handle in d.pages then
      var n := d.mappings[addr].size;
      Write(d.(pages := d.pages[d.mappings[addr].handle := bytes[..n]]), addr + n, bytes[n..])
    else None
  }

  function Concat(pages: map<nat, seq<int>>, hs: seq<nat>): seq<int>
    requires Elements(hs) <= pages.Keys
    decreases |hs|
  {
    if hs == [] then []
    else
      assert hs[0] in Elements(hs) && Elements(hs[1..]) <= Elements(hs);
      pages[hs[0]] + Concat(pages, hs[1..])
  }

  lemma {:induction false} AwakeTail(d: Driver, addr: nat, sizes: seq<nat>, hs: seq<nat>)
    requires AwakeAt(d, addr, sizes, hs) && sizes != []
    ensures AwakeAt(d, addr + sizes[0], sizes[1..], hs[1..])
    ensures addr in d.mappings && d.mappings[addr] == Mapping(sizes[0], hs[0]) && sizes[0] > 0
    ensures hs[0] in d.pages && |d.pages[hs[0]]| == sizes[0] && hs[0] !in hs[1..]
    ensures Sum(sizes) == sizes[0] + Sum(sizes[1..])
  {
    TilesCons(addr, sizes, hs);
    SumFront(sizes);
    assert addr in Tiles(addr, sizes, hs);
    forall i | 0 <= i < |hs[1..]| ensures hs[1..][i] in d.pages && |d.pages[hs[1..][i]]| == sizes[1..][i] {
      assert hs[1..][i] == hs[i + 1];
    }
  }

  lemma {:induction false} AwakeElements(d: Driver, addr: nat, sizes: seq<nat>, hs: seq<nat>)
    requires AwakeAt(d, addr, sizes, hs)
    ensures Elements(hs) <= d.pages.Keys
  {
  }

  lemma {:induction false} ReadTiles(d: Driver, addr: nat, sizes: seq<nat>, hs: seq<nat>)
    requires AwakeAt(d, addr, sizes, hs)
    ensures Elements(hs) <= d.pages.Keys && Read(d, addr, Sum(sizes)) == Some(Concat(d.pages, hs))
    decreases |sizes|
  {
    AwakeElements(d, addr, sizes, hs);
    if sizes != [] {
      AwakeTail(d, addr, sizes, hs);
      ReadTiles(d, addr + sizes[0], sizes[1..], hs[1..]);
      ConcatCons(d.pages, hs);
    }
  }

  /** The driver after the first tile of a write. */
  function WroteFirst(d: Driver, h: nat, page: seq<int>): Driver {
    d.(pages := d.pages[h := page])
  }

  lemma {:induction false} WriteUnfolds(d: Driver, addr: nat, sizes: seq<nat>, hs: seq<nat>, bytes: seq<int>)
    requires AwakeAt(d, addr, sizes, hs) && sizes != [] && |bytes| == Sum(sizes)
    ensures sizes[0] <= |bytes| && |bytes[sizes[0]..]| == Sum(sizes[1..])
    ensures var d1 := WroteFirst(d, hs[0], bytes[..sizes[0]]);
            && AwakeAt(d1, addr + sizes[0], sizes[1..], hs[1..])
            && Write(d, addr, bytes) == Write(d1, addr + sizes[0], bytes[sizes[0]..])
            && hs[0] in d.pages && hs[0] !in hs[1..] && hs[0] in d1.pages && d1.pages[hs[0]] == bytes[..sizes[0]]
  {
    AwakeTail(d, addr, sizes, hs);
  }

  /** Writing a whole allocation changes its own pages only, not their sizes. */
  lemma {:induction false} WriteFrame(d: Driver, addr: nat, sizes: seq<nat>, hs: seq<nat>, bytes: seq<int>)
    requires AwakeAt(d, addr, sizes, hs) && |bytes| == Sum(sizes)
    ensures var r := Write(d, addr, bytes);
            && r.Some? && r.value == d.(pages := r.value.pages) && r.value.pages.Keys == d.pages.Keys
            && SamePages(d.pages, r.value.pages, hs) && Sized(r.value.pages, hs, sizes)
    decreases |sizes|
  {
    if sizes != [] {
      WriteUnfolds(d, addr, sizes, hs, bytes);
      WriteFrame(WroteFirst(d, hs[0], bytes[..sizes[0]]), addr + sizes[0], sizes[1..], hs[1..], bytes[sizes[0]..]);
      SizedFront(Write(d, addr, bytes).value.pages, hs, hs[1..], sizes);
    }
  }

  lemma {:induction false} ConcatCons(pages: map<nat, seq<int>>, hs: seq<nat>)
    requires hs != [] && Elements(hs) <= pages.Keys
    ensures hs[0] in pages && Elements(hs[1..]) <= pages.Keys
    ensures Concat(pages, hs) == pages[hs[0]] + Concat(pages, hs[1..])
  {
    assert hs[0] in Elements(hs) && Elements(hs[1..]) <= Elements(hs);
  }

  /** What is written is read back. */
  lemma {:induction false} WriteReadsBack(d: Driver, addr: nat, sizes: seq<nat>, hs: seq<nat>, bytes: seq<int>)
    requires AwakeAt(d, addr, sizes, hs) && |bytes| == Sum(sizes)
    ensures var r := Write(d, addr, bytes);
            r.Some? && Elements(hs) <= r.value.pages.Keys && Concat(r.value.pages, hs) == bytes
    decreases |sizes|
  {
    WriteFrame(d, addr, sizes, hs, bytes);
    AwakeElements(d, addr, sizes, hs);
    if sizes != [] {
      WriteUnfolds(d, addr, sizes, hs, bytes);
      var first, rest := bytes[..sizes[0]], bytes[sizes[0]..];
      assert bytes == first + rest;
      WriteReadsBack(WroteFirst(d, hs[0], bytes[..sizes[0]]), addr + sizes[0], sizes[1..], hs[1..], bytes[sizes[0]..]);
      FirstPageStays(d, addr, sizes, hs, bytes);
      ConcatCons(Write(d, addr, bytes).value.pages, hs);
    }
  }

  lemma {:induction false} FirstPageStays(d: Driver, addr: nat, sizes: seq<nat>, hs: seq<nat>, bytes: seq<int>)
    requires AwakeAt(d, addr, sizes, hs) && |bytes| == Sum(sizes) && sizes != []
    ensures sizes[0] <= |bytes| && Write(d, addr, bytes).Some? && hs[0] in Write(d, addr, bytes).value.pages
    ensures Write(d, addr, bytes).value.pages[hs[0]] == bytes[..sizes[0]]
  {
    WriteUnfolds(d, addr, sizes, hs, bytes);
    WriteFrame(WroteFirst(d, hs[0], bytes[..sizes[0]]), addr + sizes[0], sizes[1..], hs[1..], bytes[sizes[0]..]);
  }

  /** Pages other than those in `hs` are the same. */
  ghost predicate SamePages(a: map<nat, seq<int>>, b: map<nat, seq<int>>, hs: seq<nat>) {
    forall h :: h in a && h !in hs ==> h in b && b[h] == a[h]
  }

  // ---------------------------------------------------------------- the pool

  /** What the pool keeps for an allocation: the chunk sizes and the cells holding the
      current handles, the tag, and the CPU copy taken by `sleep`. */
  datatype Allocation = Allocation(sizes: seq<nat>, handles: seq<nat>, tag: string, backup: Option<seq<int>>)

  /** Every mapping that meets `[lo, hi)` is one of `tiles`. */
  ghost predicate OwnRange(m: map<nat, Mapping>, lo: nat, hi: nat, tiles: map<nat, Mapping>) {
    forall k :: k in m ==> hi <= k || (k < lo && k + m[k].size <= lo) || k in tiles
  }

  ghost predicate Laid(d: Driver, p: nat, a: Allocation, awake: bool) {
    && Positive(a.sizes) && |a.handles| == |a.sizes|
    && p in d.reservations && d.reservations[p] == Sum(a.sizes)
    && (a.backup.Some? ==> |a.backup.value| == Sum(a.sizes))
    && OwnRange(d.mappings, p, p + Sum(a.sizes), if awake then Tiles(p, a.sizes, a.handles) else map[])
    && (awake ==> AwakeAt(d, p, a.sizes, a.handles))
  }

  ghost predicate Apart(p: nat, a: Allocation, q: nat, b: Allocation) {
    p + Sum(a.sizes) <= q || q + Sum(b.sizes) <= p
  }

  /** The handles of the allocation were given out and are not live any more. */
  ghost predicate Released(d: Driver, a: Allocation) {
    forall h :: h in a.handles ==> h !in d.pages && h < d.nextHandle
  }

  ghost predicate AllLaid(d: Driver, allocs: map<nat, Allocation>, awake: set<nat>) {
    forall p :: p in allocs ==> Laid(d, p, allocs[p], p in awake)
  }

  ghost predicate AllReleased(d: Driver, allocs: map<nat, Allocation>, awake: set<nat>) {
    forall p :: p in allocs && p !in awake ==> Released(d, allocs[p])
  }

  ghost predicate AllApart(allocs: map<nat, Allocation>) {
    forall p, q :: p in allocs && q in allocs && p != q ==> Apart(p, allocs[p], q, allocs[q])
  }

  ghost predicate NoneShared(allocs: map<nat, Allocation>, awake: set<nat>)
    requires awake <= allocs.Keys
  {
    forall p, q :: p in awake && q in awake && p != q ==> Elements(allocs[p].handles) !! Elements(allocs[q].handles)
  }

  /** The pool is consistent: awake allocations are fully mapped, sleeping ones not at all and
      without a live page, no two of them share addresses or pages. */
  ghost predicate Consistent(d: Driver, allocs: map<nat, Allocation>, awake: set<nat>) {
    && d.Valid() && awake <= allocs.Keys
    && AllLaid(d, allocs, awake) && AllReleased(d, allocs, awake) && AllApart(allocs) && NoneShared(allocs, awake)
  }

  /** The contents of an awake allocation. */
  ghost function Contents(d: Driver, a: Allocation): seq<int>
    requires Elements(a.handles) <= d.pages.Keys
  {
    Concat(d.pages, a.handles)
  }

  lemma {:induction false} ConcatSame(a: map<nat, seq<int>>, b: map<nat, seq<int>>, hs: seq<nat>)
    requires Elements(hs) <= a.Keys && Elements(hs) <= b.Keys
    requires forall h :: h in hs ==> a[h] == b[h]
    ensures Concat(a, hs) == Concat(b, hs)
    decreases |hs|
  {
    if hs != [] { ConcatSame(a, b, hs[1..]); }
  }

  /** `d'` differs from `d` only on addresses in `[lo, hi)` and on pages not in `keep`. */
  ghost predicate Local(d: Driver, d': Driver, lo: nat, hi: nat, keep: seq<nat>) {
    && d'.reservations == d.reservations
    && (forall k :: k in d.mappings && !(lo <= k < hi) ==> k in d'.mappings && d'.mappings[k] == d.mappings[k])
    && (forall k :: k in d'.mappings && !(lo <= k < hi) ==> k in d.mappings)
    && (forall k :: k in d'.mappings && lo <= k < hi ==> k + d'.mappings[k].size <= hi)
    && (forall h :: h in keep && h in d.pages ==> h in d'.pages && d'.pages[h] == d.pages[h])
  }

  /** An allocation elsewhere does not notice a local change. */
  lemma {:induction false} LocalKeepsOthers(d: Driver, d': Driver, lo: nat, hi: nat, q: nat, b: Allocation, awake: bool)
    requires Laid(d, q, b, awake) && (hi <= q || q + Sum(b.sizes) <= lo)
    requires Local(d, d', lo, hi, b.handles)
    ensures Laid(d', q, b, awake)
    ensures awake ==> Elements(b.handles) <= d.pages.Keys && Elements(b.handles) <= d'.pages.Keys && Contents(d', b) == Contents(d, b)
  {
    TilesBounds(q, b.sizes, b.handles);
    if awake {
      AwakeElements(d, q, b.sizes, b.handles);
      assert forall i :: 0 <= i < |b.handles| ==> b.handles[i] in Elements(b.handles);
      assert Sized(d'.pages, b.handles, b.sizes);
      ConcatSame(d.pages, d'.pages, b.handles);
    }
  }

  // ---------------------------------------------------------------- one allocation sleeps or wakes

  /** The driver after `unmap_and_release` of an awake allocation. */
  ghost function Unmapped(d: Driver, p: nat, a: Allocation): Driver
    requires |a.handles| == |a.sizes|
  {
    d.(mappings := d.mappings - Tiles(p, a.sizes, a.handles).Keys, pages := d.pages - Elements(a.handles))
  }

  lemma {:induction false} UnmappedIsLocal(d: Driver, p: nat, a: Allocation, keep: seq<nat>)
    requires Laid(d, p, a, true) && Elements(keep) !! Elements(a.handles)
    ensures Local(d, Unmapped(d, p, a), p, p + Sum(a.sizes), keep)
    ensures OwnRange(Unmapped(d, p, a).mappings, p, p + Sum(a.sizes), map[])
  {
    TilesBounds(p, a.sizes, a.handles);
    var d' := Unmapped(d, p, a);
    forall h | h in keep && h in d.pages ensures h in d'.pages {
      assert h in Elements(keep);
    }
  }

  /** Another allocation while `p` goes to sleep. */
  lemma {:induction false} SleepKeeps(d: Driver, p: nat, a: Allocation, q: nat, b: Allocation, awake: bool)
    requires Laid(d, p, a, true) && Laid(d, q, b, awake) && Apart(p, a, q, b)
    requires awake ==> Elements(a.handles) !! Elements(b.handles)
    ensures Laid(Unmapped(d, p, a), q, b, awake)
    ensures awake ==> SameContents(d, Unmapped(d, p, a), b)
  {
    if awake {
      UnmappedIsLocal(d, p, a, b.handles);
      LocalKeepsOthers(d, Unmapped(d, p, a), p, p + Sum(a.sizes), q, b, true);
    } else {
      UnmappedIsLocal(d, p, a, []);
      SleepersDoNotNotice(d, Unmapped(d, p, a), p, p + Sum(a.sizes), q, b);
    }
  }

  /** Changing the driver and one allocation, seen from every allocation, keeps the pool consistent. */
  lemma {:induction false} ConsistentUpdate(
    d: Driver, d': Driver, allocs: map<nat, Allocation>, awake: set<nat>, p: nat, a: Allocation, awake': set<nat>)
    requires Consistent(d, allocs, awake) && d'.Valid() && p in allocs && a.sizes == allocs[p].sizes
    requires awake' == awake + {p} || awake' == awake - {p}
    requires Laid(d', p, a, p in awake')
    requires forall q :: q in allocs && q != p ==> Laid(d', q, allocs[q], q in awake)
    requires forall q :: q in allocs && q != p && q !in awake ==> Released(d', allocs[q])
    requires p !in awake' ==> Released(d', a)
    requires p in awake' ==> forall q :: q in awake && q != p ==> Elements(allocs[q].handles) !! Elements(a.handles)
    ensures Consistent(d', allocs[p := a], awake')
  {
    assert AllLaid(d', allocs[p := a], awake');
    assert AllReleased(d', allocs[p := a], awake');
    ApartUpdate(allocs, p, a);
    SharedUpdate(allocs, awake, p, a, awake');
  }

  lemma {:induction false} ApartUpdate(allocs: map<nat, Allocation>, p: nat, a: Allocation)
    requires AllApart(allocs) && p in allocs && a.sizes == allocs[p].sizes
    ensures AllApart(allocs[p := a])
  {
    var allocs' := allocs[p := a];
    forall q, r | q in allocs' && r in allocs' && q != r ensures Apart(q, allocs'[q], r, allocs'[r]) {
      assert Apart(q, allocs[q], r, allocs[r]);
    }
  }

  lemma {:induction false} SharedUpdate(allocs: map<nat, Allocation>, awake: set<nat>, p: nat, a: Allocation, awake': set<nat>)
    requires awake <= allocs.Keys && NoneShared(allocs, awake) && p in allocs
    requires awake' == awake + {p} || awake' == awake - {p}
    requires p in awake' ==> forall q :: q in awake && q != p ==> Elements(allocs[q].handles) !! Elements(a.handles)
    ensures awake' <= allocs[p := a].Keys && NoneShared(allocs[p := a], awake')
  {
    var allocs' := allocs[p := a];
    forall q, r | q in awake' && r in awake' && q != r ensures Elements(allocs'[q].handles) !! Elements(allocs'[r].handles) {
    }
  }

  lemma {:induction false} SleepOne(d: Driver, allocs: map<nat, Allocation>, awake: set<nat>, p: nat, backup: Option<seq<int>>)
    requires Consistent(d, allocs, awake) && p in awake
    requires backup.Some? ==> |backup.value| == Sum(allocs[p].sizes)
    ensures Consistent(Unmapped(d, p, allocs[p]), allocs[p := allocs[p].(backup := backup)], awake - {p})
    ensures forall q :: q in awake && q != p ==> SameContents(d, Unmapped(d, p, allocs[p]), allocs[q])
  {
    var a := allocs[p];
    UnmappedIsLocal(d, p, a, []);
    forall q | q in allocs && q != p
      ensures Laid(Unmapped(d, p, a), q, allocs[q], q in awake)
      ensures q in awake ==> SameContents(d, Unmapped(d, p, a), allocs[q])
    {
      SleepKeeps(d, p, a, q, allocs[q], q in awake);
    }
    ReleasedBySleep(d, p, a);
    ConsistentUpdate(d, Unmapped(d, p, a), allocs, awake, p, a.(backup := backup), awake - {p});
  }

  lemma {:induction false} ReleasedBySleep(d: Driver, p: nat, a: Allocation)
    requires d.Valid() && Laid(d, p, a, true)
    ensures Released(Unmapped(d, p, a), a)
  {
    AwakeElements(d, p, a.sizes, a.handles);
    forall h | h in a.handles ensures h !in Unmapped(d, p, a).pages && h < d.nextHandle {
      assert h in Elements(a.handles);
    }
  }

  /** New pages have new handles. */
  lemma {:induction false} ReleasedStays(d: Driver, d': Driver, sizes: seq<nat>, addr: nat, a: Allocation)
    requires d.Valid() && Mapped(d, d', addr, sizes) && Released(d, a)
    ensures Released(d', a)
  {
    forall h | h in a.handles ensures h !in d'.pages && h < d'.nextHandle {
      assert h !in NewHandles(d, |sizes|);
    }
  }

  lemma {:induction false} SleepersDoNotNotice(d: Driver, d': Driver, lo: nat, hi: nat, q: nat, b: Allocation)
    requires Laid(d, q, b, false) && (hi <= q || q + Sum(b.sizes) <= lo) && Local(d, d', lo, hi, [])
    ensures Laid(d', q, b, false)
  {
  }

  ghost predicate SameContents(d: Driver, d': Driver, a: Allocation) {
    Elements(a.handles) <= d.pages.Keys && Elements(a.handles) <= d'.pages.Keys && Contents(d', a) == Contents(d, a)
  }

  lemma {:induction false} MapLoopCompletes(p: Progress, o: Oracle, t: nat, addr: nat, sizes: seq<nat>, hs: seq<nat>)
    requires |hs| == |sizes| && p.err == 0 && p.done <= |sizes| && Positive(sizes)
    requires AllOk(o, t, t + |sizes| - p.done) && Elements(hs) <= p.d.pages.Keys
    requires forall k :: k in p.d.mappings ==> !(addr <= k < addr + Sum(sizes[p.done..]))
    ensures MapLoop(p, o, t, addr, sizes, hs).done == |sizes|
    decreases |sizes| - p.done
  {
    if p.done < |sizes| {
      var rest := sizes[p.done..];
      SumFront(rest);
      assert rest[0] == sizes[p.done] > 0 && rest[1..] == sizes[p.done + 1..];
      assert hs[p.done] in Elements(hs);
      var q := MapOne(p, o, t, addr, sizes[p.done], hs[p.done]);
      assert addr !in p.d.mappings && o.fault(t) == 0;
      MapLoopCompletes(q.(done := p.done + 1), o, t + 1, addr + sizes[p.done], sizes, hs);
    }
  }

  /** With no failing call, `create_and_map` on a free range maps it completely. */
  lemma {:induction false} CreateAndMapSucceeds(d: Driver, o: Oracle, t: nat, addr: nat, sizes: seq<nat>)
    requires d.Valid() && Positive(sizes) && AllOk(o, t, t + |sizes| + |sizes| + 1)
    requires OwnRange(d.mappings, addr, addr + Sum(sizes), map[])
    ensures var out := CreateAndMapSpec(d, 0, o, t, addr, sizes);
            out.err == 0 && Mapped(d, out.d, addr, sizes) && out.d.Valid()
  {
    var n := |sizes|;
    AllOkSplit(o, t, t + n, t + n + n + 1);
    AllOkSplit(o, t + n, t + n + n, t + n + n + 1);
    NothingStops(d, o, t, addr, sizes);
    NoFailureMaps(d, o, t, addr, sizes);
  }

  lemma {:induction false} NothingStops(d: Driver, o: Oracle, t: nat, addr: nat, sizes: seq<nat>)
    requires d.Valid() && Positive(sizes) && AllOk(o, t, t + |sizes|) && AllOk(o, t + |sizes|, t + |sizes| + |sizes|)
    requires OwnRange(d.mappings, addr, addr + Sum(sizes), map[])
    ensures StoppedAt(d, o, t, addr, sizes) >= t + |sizes| + |sizes|
  {
    CreateLoopCompletes(d, o, t, sizes);
    CreatePhaseDone(d, o, t, sizes);
    var c := CreateLoop(Progress(d, 0, 0), o, t, sizes).d;
    MapsAll(c, o, t + |sizes|, addr, sizes, NewHandles(d, |sizes|));
  }

  lemma {:induction false} MapsAll(c: Driver, o: Oracle, t: nat, addr: nat, sizes: seq<nat>, hs: seq<nat>)
    requires |hs| == |sizes| && Elements(hs) <= c.pages.Keys && Positive(sizes) && AllOk(o, t, t + |sizes|)
    requires OwnRange(c.mappings, addr, addr + Sum(sizes), map[])
    ensures MapLoop(Progress(c, 0, 0), o, t, addr, sizes, hs).done == |sizes|
  {
    assert sizes[0..] == sizes;
    MapLoopCompletes(Progress(c, 0, 0), o, t, addr, sizes, hs);
  }

  lemma {:induction false} CreateLoopCompletes(d: Driver, o: Oracle, t: nat, sizes: seq<nat>)
    requires AllOk(o, t, t + |sizes|)
    ensures CreateLoop(Progress(d, 0, 0), o, t, sizes).done == |sizes|
  {
    CreateLoopStops(Progress(d, 0, 0), o, t, sizes);
  }

  lemma {:induction false} MappedIsLocal(d: Driver, d': Driver, p: nat, sizes: seq<nat>, keep: seq<nat>)
    requires d.Valid() && Positive(sizes) && Mapped(d, d', p, sizes)
    requires OwnRange(d.mappings, p, p + Sum(sizes), map[])
    ensures Local(d, d', p, p + Sum(sizes), keep)
  {
    TilesBounds(p, sizes, NewHandles(d, |sizes|));
  }

  lemma {:induction false} MappedIsLaid(d: Driver, d': Driver, p: nat, a: Allocation)
    requires d.Valid() && Laid(d, p, a, false) && Mapped(d, d', p, a.sizes)
    ensures Laid(d', p, a.(handles := NewHandles(d, |a.sizes|)), true)
  {
    var hs := NewHandles(d, |a.sizes|);
    NewHandlesFresh(d, |a.sizes|);
    TilesBounds(p, a.sizes, hs);
    assert AwakeAt(d', p, a.sizes, hs);
    assert OwnRange(d'.mappings, p, p + Sum(a.sizes), Tiles(p, a.sizes, hs));
  }

  /** Another allocation while `p` wakes up. */
  lemma {:induction false} WakeKeeps(d: Driver, d': Driver, p: nat, a: Allocation, q: nat, b: Allocation, awake: bool)
    requires d.Valid() && Laid(d, p, a, false) && Laid(d, q, b, awake) && Apart(p, a, q, b)
    requires Mapped(d, d', p, a.sizes)
    ensures Laid(d', q, b, awake)
    ensures awake ==> SameContents(d, d', b) && Elements(b.handles) !! Elements(NewHandles(d, |a.sizes|))
  {
    MappedIsLocal(d, d', p, a.sizes, b.handles);
    if awake {
      LocalKeepsOthers(d, d', p, p + Sum(a.sizes), q, b, true);
      NewHandlesFresh(d, |a.sizes|);
      AwakeElements(d, q, b.sizes, b.handles);
    } else {
      LocalKeepsOthers(d, d', p, p + Sum(a.sizes), q, b, false);
    }
  }

  lemma {:induction false} WakeOne(d: Driver, d': Driver, allocs: map<nat, Allocation>, awake: set<nat>, p: nat)
    requires Consistent(d, allocs, awake) && p in allocs && p !in awake
    requires Mapped(d, d', p, allocs[p].sizes) && d'.Valid()
    ensures Consistent(d', allocs[p := allocs[p].(handles := NewHandles(d, |allocs[p].sizes|))], awake + {p})
    ensures forall q :: q in awake ==> SameContents(d, d', allocs[q])
  {
    var a := allocs[p];
    MappedIsLaid(d, d', p, a);
    forall q | q in allocs && q != p
      ensures Laid(d', q, allocs[q], q in awake)
      ensures q in awake ==> SameContents(d, d', allocs[q]) && Elements(allocs[q].handles) !! Elements(NewHandles(d, |a.sizes|))
    {
      WakeKeeps(d, d', p, a, q, allocs[q], q in awake);
    }
    forall q | q in allocs && q !in awake ensures Released(d', allocs[q]) {
      ReleasedStays(d, d', a.sizes, p, allocs[q]);
    }
    ConsistentUpdate(d, d', allocs, awake, p, a.(handles := NewHandles(d, |a.sizes|)), awake + {p});
  }

  lemma {:induction false} WriteIsLocal(d: Driver, d': Driver, p: nat, hs: seq<nat>, keep: seq<nat>)
    requires d' == d.(pages := d'.pages) && SamePages(d.pages, d'.pages, hs) && Elements(keep) !! Elements(hs)
    ensures Local(d, d', p, p, keep)
  {
    forall h | h in keep && h in d.pages ensures h in d'.pages && d'.pages[h] == d.pages[h] {
      assert h in Elements(keep);
    }
  }

  /** Restoring a backup leaves the pool consistent and the other contents alone. */
  lemma {:induction false} RestoreOne(d: Driver, allocs: map<nat, Allocation>, awake: set<nat>, p: nat, bytes: seq<int>)
    requires Consistent(d, allocs, awake) && p in awake && |bytes| == Sum(allocs[p].sizes)
    ensures var w := Write(d, p, bytes);
            && w.Some?
            && Consistent(w.value, allocs[p := allocs[p].(backup := None)], awake)
            && Elements(allocs[p].handles) <= w.value.pages.Keys && Contents(w.value, allocs[p]) == bytes
            && (forall q :: q in awake && q != p ==> SameContents(d, w.value, allocs[q]))
  {
    var a := allocs[p];
    WriteFrame(d, p, a.sizes, a.handles, bytes);
    WriteReadsBack(d, p, a.sizes, a.handles, bytes);
    var d' := Write(d, p, bytes).value;
    forall q | q in allocs && q != p
      ensures Laid(d', q, allocs[q], q in awake)
      ensures q in awake ==> SameContents(d, d', allocs[q])
    {
      RestoreKeeps(d, d', p, a, q, allocs[q], q in awake);
    }
    RestoreLays(d, d', p, a);
    assert awake + {p} == awake;
    ConsistentUpdate(d, d', allocs, awake, p, a.(backup := None), awake);
  }

  lemma {:induction false} RestoreLays(d: Driver, d': Driver, p: nat, a: Allocation)
    requires Laid(d, p, a, true) && d' == d.(pages := d'.pages) && Sized(d'.pages, a.handles, a.sizes)
    ensures Laid(d', p, a.(backup := None), true)
  {
  }

  /** Another allocation while the contents of `p` are restored. */
  lemma {:induction false} RestoreKeeps(d: Driver, d': Driver, p: nat, a: Allocation, q: nat, b: Allocation, awake: bool)
    requires Laid(d, q, b, awake) && Apart(p, a, q, b) && (awake ==> Elements(b.handles) !! Elements(a.handles))
    requires d' == d.(pages := d'.pages) && SamePages(d.pages, d'.pages, a.handles)
    ensures Laid(d', q, b, awake)
    ensures awake ==> SameContents(d, d', b)
  {
    if awake {
      WriteIsLocal(d, d', p, a.handles, b.handles);
      LocalKeepsOthers(d, d', p, p, q, b, true);
    } else {
      WriteIsLocal(d, d', p, a.handles, []);
      SleepersDoNotNotice(d, d', p, p, q, b);
    }
  }

  // ---------------------------------------------------------------- live pages

  /** The handles of the allocations `ps`. */
  ghost function HandlesOf(allocs: map<nat, Allocation>, ps: set<nat>): set<nat> {
    set p, h | p in ps && p in allocs && h in allocs[p].handles :: h
  }

  /** `d'` has the pages of `d` and, apart from them, those of `hs`. */
  ghost predicate Grown(d: Driver, d': Driver, hs: set<nat>) {
    hs !! d.pages.Keys && hs <= d'.pages.Keys && d'.pages - hs == d.pages
  }

  lemma {:induction false} HandlesOfMore(allocs: map<nat, Allocation>, ps: set<nat>, p: nat)
    requires p in allocs
    ensures HandlesOf(allocs, ps + {p}) == HandlesOf(allocs, ps) + Elements(allocs[p].handles)
  {
  }

  lemma {:induction false} HandlesOfSame(allocs: map<nat, Allocation>, allocs': map<nat, Allocation>, ps: set<nat>)
    requires forall p :: p in ps ==> (p in allocs <==> p in allocs') && (p in allocs ==> allocs'[p].handles == allocs[p].handles)
    ensures HandlesOf(allocs', ps) == HandlesOf(allocs, ps)
  {
  }

  lemma {:induction false} MappedGrows(d: Driver, d': Driver, addr: nat, sizes: seq<nat>)
    requires d.Valid() && Mapped(d, d', addr, sizes)
    ensures Grown(d, d', Elements(NewHandles(d, |sizes|)))
  {
    var hs := Elements(NewHandles(d, |sizes|));
    forall h | h in hs ensures h !in d.pages {
      assert h >= d.nextHandle;
    }
    assert (d'.pages - hs).Keys == d.pages.Keys;
  }

  /** `after` is `before` put to sleep: saved when its tag is offloaded. */
  ghost predicate Saved(d: Driver, before: Allocation, after: Allocation, offload: set<string>) {
    && Elements(before.handles) <= d.pages.Keys
    && after == before.(backup := if before.tag in offload then Some(Contents(d, before)) else before.backup)
  }

  /** `after` is `before` woken up: new handles, and the saved contents if there are any. */
  ghost predicate Woken(d: Driver, before: Allocation, after: Allocation) {
    && after == before.(handles := after.handles, backup := None)
    && Elements(after.handles) <= d.pages.Keys
    && (before.backup.Some? ==> Contents(d, after) == before.backup.value)
  }

  lemma {:induction false} ConcatLength(pages: map<nat, seq<int>>, hs: seq<nat>, sizes: seq<nat>)
    requires |hs| == |sizes| && Elements(hs) <= pages.Keys && Sized(pages, hs, sizes)
    ensures |Concat(pages, hs)| == Sum(sizes)
    decreases |hs|
  {
    if hs != [] {
      SumFront(sizes);
      assert forall i :: 0 <= i < |hs[1..]| ==> hs[1..][i] == hs[i + 1];
      ConcatLength(pages, hs[1..], sizes[1..]);
    }
  }

  // ---------------------------------------------------------------- the driver calls succeed

  /** From call `t` on the driver never fails and re-reserves the address it is asked for. */
  ghost predicate Obliging(o: Oracle, t: nat) {
    forall k :: t <= k ==> o.fault(k) == 0 && o.moved(k) == None
  }

  lemma {:induction false} ObligingUnmaps(d: Driver, o: Oracle, t: nat, p: nat, a: Allocation)
    requires Laid(d, p, a, true) && Obliging(o, t)
    ensures var out := UnmapAndReleaseSpec(d, 0, o, t, p, Sum(a.sizes), a.sizes, a.handles);
            out.err == 0 && out.d == Unmapped(d, p, a) && out.clock >= t
  {
    UnmapAndReleaseUndoes(d, o, t, p, Sum(a.sizes), a.sizes, a.handles);
  }

  lemma {:induction false} ObligingMaps(d: Driver, o: Oracle, t: nat, p: nat, a: Allocation)
    requires d.Valid() && Laid(d, p, a, false) && Obliging(o, t)
    ensures var out := CreateAndMapSpec(d, 0, o, t, p, a.sizes);
            out.err == 0 && Mapped(d, out.d, p, a.sizes) && out.d.Valid() && out.clock >= t
  {
    CreateAndMapSucceeds(d, o, t, p, a.sizes);
    LaterClock(d, o, t, p, a.sizes);
  }

  lemma {:induction false} LaterClock(d: Driver, o: Oracle, t: nat, addr: nat, sizes: seq<nat>)
    ensures CreateAndMapSpec(d, 0, o, t, addr, sizes).clock >= t
  {
  }

  // ---------------------------------------------------------------- counting pages

  /** Number of chunks of the allocations `ps`. */
  ghost function Chunks(allocs: map<nat, Allocation>, ps: seq<nat>): nat {
    if ps == [] then 0 else (if ps[0] in allocs then |allocs[ps[0]].sizes| else 0) + Chunks(allocs, ps[1..])
  }

  lemma {:induction false} CountElements(hs: seq<nat>)
    requires NoRepeats(hs)
    ensures |Elements(hs)| == |hs|
    decreases |hs|
  {
    if hs != [] {
      CountElements(hs[1..]);
      assert Elements(hs) == Elements(hs[1..]) + {hs[0]};
    }
  }

  /** Every allocation has one handle for each chunk, and no handle is shared. */
  ghost predicate OwnHandles(allocs: map<nat, Allocation>) {
    && (forall p :: p in allocs ==> NoRepeats(allocs[p].handles) && |allocs[p].handles| == |allocs[p].sizes|)
    && (forall p, q :: p in allocs && q in allocs && p != q ==> Elements(allocs[p].handles) !! Elements(allocs[q].handles))
  }

  /** Awake allocations have one page for each chunk. */
  lemma {:induction false} CountHandles(allocs: map<nat, Allocation>, ps: seq<nat>)
    requires OwnHandles(allocs) && NoRepeats(ps) && Elements(ps) <= allocs.Keys
    ensures |HandlesOf(allocs, Elements(ps))| == Chunks(allocs, ps)
    decreases |ps|
  {
    if ps == [] {
      assert HandlesOf(allocs, Elements(ps)) == {};
    } else {
      var p, rest := ps[0], ps[1..];
      assert p in Elements(ps) && Elements(rest) <= Elements(ps) && p !in Elements(rest);
      CountHandles(allocs, rest);
      CountElements(allocs[p].handles);
      HandlesOfMore(allocs, Elements(rest), p);
      assert Elements(ps) == Elements(rest) + {p};
      HandlesApart(allocs, Elements(rest), p);
      UnionSize(HandlesOf(allocs, Elements(rest)), Elements(allocs[p].handles));
    }
  }

  lemma {:induction false} UnionSize(a: set<nat>, b: set<nat>)
    requires a !! b
    ensures |a + b| == |a| + |b|
  {
  }

  lemma {:induction false} HandlesApart(allocs: map<nat, Allocation>, ps: set<nat>, p: nat)
    requires OwnHandles(allocs) && ps <= allocs.Keys && p in allocs && p !in ps
    ensures HandlesOf(allocs, ps) !! Elements(allocs[p].handles)
  {
    forall h | h in HandlesOf(allocs, ps) ensures h !in Elements(allocs[p].handles) {
      var q :| q in ps && q in allocs && h in allocs[q].handles;
      assert h in Elements(allocs[q].handles) && Elements(allocs[p].handles) !! Elements(allocs[q].handles);
    }
  }

  lemma {:induction false} ChunksSame(allocs: map<nat, Allocation>, allocs': map<nat, Allocation>, ps: seq<nat>)
    requires allocs'.Keys == allocs.Keys && forall p :: p in allocs ==> allocs'[p].sizes == allocs[p].sizes
    ensures Chunks(allocs', ps) == Chunks(allocs, ps)
    decreases |ps|
  {
    if ps != [] { ChunksSame(allocs, allocs', ps[1..]); }
  }

  /** Awake allocations own the pages of their handles. */
  lemma {:induction false} PoolOwnsPages(d: Driver, allocs: map<nat, Allocation>)
    requires Consistent(d, allocs, allocs.Keys)
    ensures OwnHandles(allocs) && HandlesOf(allocs, allocs.Keys) <= d.pages.Keys
  {
    forall h | h in HandlesOf(allocs, allocs.Keys) ensures h in d.pages {
      var p :| p in allocs && h in allocs[p].handles;
      AwakeElements(d, p, allocs[p].sizes, allocs[p].handles);
      assert h in Elements(allocs[p].handles);
    }
  }

  /** The pages outside the pool and one page for each chunk: that many are live. */
  lemma {:induction false} CountPages(live: set<nat>, allocs: map<nat, Allocation>, order: seq<nat>)
    requires OwnHandles(allocs) && HandlesOf(allocs, allocs.Keys) <= live
    requires NoRepeats(order) && Elements(order) == allocs.Keys
    ensures |live| == |live - HandlesOf(allocs, allocs.Keys)| + Chunks(allocs, order)
  {
    CountHandles(allocs, order);
    var pool := HandlesOf(allocs, allocs.Keys);
    assert live == (live - pool) + pool;
    UnionSize(live - pool, pool);
  }

  lemma {:induction false} PagesConserved(
    live0: set<nat>, allocs0: map<nat, Allocation>, live: set<nat>, allocs: map<nat, Allocation>, order: seq<nat>)
    requires OwnHandles(allocs0) && OwnHandles(allocs)
    requires HandlesOf(allocs0, allocs0.Keys) <= live0 && HandlesOf(allocs, allocs.Keys) <= live
    requires NoRepeats(order) && Elements(order) == allocs.Keys == allocs0.Keys
    requires forall p :: p in allocs ==> allocs[p].sizes == allocs0[p].sizes
    requires live - HandlesOf(allocs, allocs.Keys) == live0 - HandlesOf(allocs0, allocs0.Keys)
    ensures |live| == |live0|
  {
    CountPages(live0, allocs0, order);
    CountPages(live, allocs, order);
    ChunksSame(allocs0, allocs, order);
  }
}

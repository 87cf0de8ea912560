/** What `create_and_map` and `unmap_and_release` do to the driver, for every stream of
    driver failures. */
module CumemProofs {
  import opened Wrappers
  import opened ChunkPlan
  import opened CumemDriver

  ghost predicate Positive(sizes: seq<nat>) {
    forall i :: 0 <= i < |sizes| ==> sizes[i] > 0
  }

  function Elements(hs: seq<nat>): set<nat> {
    set h | h in hs
  }

  ghost predicate NoRepeats(hs: seq<nat>) {
    forall i, j :: 0 <= i < j < |hs| ==> hs[i] != hs[j]
  }

  /** The driver calls numbered from `t` up to, not including, `u` all succeed. */
  ghost predicate AllOk(o: Oracle, t: nat, u: nat) {
    forall k :: t <= k < u ==> o.fault(k) == 0
  }

  ghost predicate SameLive(d: Driver, d': Driver) {
    d.pages == d'.pages && d.mappings == d'.mappings && d.reservations == d'.reservations
  }

  // ---------------------------------------------------------------- tiles

  /** The chunks laid end to end from `addr`. */
  function Tiles(addr: nat, sizes: seq<nat>, hs: seq<nat>): map<nat, Mapping>
    requires |hs| == |sizes|
    decreases |sizes|
  {
    if sizes == [] then map[]
    else Tiles(addr + sizes[0], sizes[1..], hs[1..])[addr := Mapping(sizes[0], hs[0])]
  }

  lemma {:induction false} SumFront(s: seq<nat>)
    requires s != []
    ensures Sum(s) == s[0] + Sum(s[1..])
    decreases |s|
  {
    if |s| > 1 {
      SumFront(s[..|s| - 1]);
      assert s[..|s| - 1][1..] == s[1..][..|s[1..]| - 1];
    } else {
      assert s[..0] == [] && s[1..] == [];
    }
  }

  ghost predicate Contains(big: map<nat, Mapping>, small: map<nat, Mapping>) {
    forall k :: k in small ==> k in big && big[k] == small[k]
  }

  /** All ranges of `m` are non-empty and lie in `[lo, hi)`. */
  ghost predicate Within(m: map<nat, Mapping>, lo: nat, hi: nat) {
    forall k :: k in m ==> lo <= k && k + m[k].size <= hi && m[k].size > 0
  }

  ghost predicate NonOverlapping(m: map<nat, Mapping>) {
    forall j, k :: j in m && k in m && j < k ==> j + m[j].size <= k
  }

  lemma {:induction false} TilesBounds(addr: nat, sizes: seq<nat>, hs: seq<nat>)
    requires |hs| == |sizes| && Positive(sizes)
    ensures Within(Tiles(addr, sizes, hs), addr, addr + Sum(sizes))
    decreases |sizes|
  {
    if sizes != [] {
      var m, rest := Tiles(addr, sizes, hs), Tiles(addr + sizes[0], sizes[1..], hs[1..]);
      SumFront(sizes);
      assert Positive(sizes[1..]) && sizes[0] > 0;
      TilesBounds(addr + sizes[0], sizes[1..], hs[1..]);
      assert forall k :: k in m ==> k == addr || k in rest;
    }
  }

  /** The first tile starts at `addr` and the other tiles lie behind it. */
  lemma {:induction false} TilesCons(addr: nat, sizes: seq<nat>, hs: seq<nat>)
    requires |hs| == |sizes| && Positive(sizes) && sizes != []
    ensures Positive(sizes[1..]) && sizes[0] > 0
    ensures var m, rest := Tiles(addr, sizes, hs), Tiles(addr + sizes[0], sizes[1..], hs[1..]);
            && m == rest[addr := Mapping(sizes[0], hs[0])]
            && m.Keys == {addr} + rest.Keys && addr !in rest
            && Contains(m, rest) && Within(rest, addr + sizes[0], addr + Sum(sizes))
  {
    assert Positive(sizes[1..]) && sizes[0] > 0;
    TilesBounds(addr + sizes[0], sizes[1..], hs[1..]);
    SumFront(sizes);
  }

  ghost predicate Covered(m: map<nat, Mapping>, x: nat) {
    exists k :: k in m && k <= x < k + m[k].size
  }

  /** The tiles fill `[addr, addr + Sum(sizes))` with no gap and no overlap. */
  lemma {:induction false} TilesPartition(addr: nat, sizes: seq<nat>, hs: seq<nat>)
    requires |hs| == |sizes| && Positive(sizes)
    ensures forall x: nat :: Covered(Tiles(addr, sizes, hs), x) <==> addr <= x < addr + Sum(sizes)
    ensures NonOverlapping(Tiles(addr, sizes, hs))
    decreases |sizes|
  {
    TilesBounds(addr, sizes, hs);
    if sizes != [] {
      var m, rest := Tiles(addr, sizes, hs), Tiles(addr + sizes[0], sizes[1..], hs[1..]);
      SumFront(sizes);
      TilesCons(addr, sizes, hs);
      TilesPartition(addr + sizes[0], sizes[1..], hs[1..]);
      forall x: nat | addr <= x < addr + Sum(sizes) ensures Covered(m, x) {
        if x < addr + sizes[0] {
          assert addr in m;
        } else {
          assert Covered(rest, x);
          var k :| k in rest && k <= x < k + rest[k].size;
          assert k in m;
        }
      }
    }
  }

  // ---------------------------------------------------------------- creating

  /** `d` after creating one page per size. */
  function WithPages(d: Driver, o: Oracle, sizes: seq<nat>): Driver
    decreases |sizes|
  {
    if sizes == [] then d
    else WithPages(d.(pages := d.pages[d.nextHandle := NewPage(o, sizes[0])], nextHandle := d.nextHandle + 1), o, sizes[1..])
  }

  /** The pages created one by one are sized as asked, under fresh consecutive handles. */
  ghost predicate Sized(pages: map<nat, seq<int>>, hs: seq<nat>, sizes: seq<nat>)
    requires |hs| == |sizes|
  {
    forall i :: 0 <= i < |hs| ==> hs[i] in pages && |pages[hs[i]]| == sizes[i]
  }

  ghost predicate KeepsPages(before: map<nat, seq<int>>, after: map<nat, seq<int>>) {
    forall h :: h in before ==> h in after && after[h] == before[h]
  }

  lemma {:induction false} NewHandlesFresh(d: Driver, n: nat)
    requires d.Valid()
    ensures NoRepeats(NewHandles(d, n))
    ensures forall h :: h in Elements(NewHandles(d, n)) <==> d.nextHandle <= h < d.nextHandle + n
    ensures Elements(NewHandles(d, n)) !! d.pages.Keys
  {
    var hs := NewHandles(d, n);
    forall h | d.nextHandle <= h < d.nextHandle + n ensures h in Elements(hs) {
      assert hs[h - d.nextHandle] == h;
    }
  }

  /** `r` is `d` with pages added under the next `n` handles. */
  ghost predicate Extends(d: Driver, r: Driver, n: nat) {
    && r == d.(pages := r.pages, nextHandle := d.nextHandle + n)
    && KeepsPages(d.pages, r.pages)
    && (forall h :: h in r.pages <==> h in d.pages || d.nextHandle <= h < d.nextHandle + n)
  }

  lemma {:induction false} WithPagesExtends(d: Driver, o: Oracle, sizes: seq<nat>)
    requires d.Valid()
    ensures Extends(d, WithPages(d, o, sizes), |sizes|)
    decreases |sizes|
  {
    if sizes != [] {
      var d1 := d.(pages := d.pages[d.nextHandle := NewPage(o, sizes[0])], nextHandle := d.nextHandle + 1);
      assert Extends(d, d1, 1);
      WithPagesExtends(d1, o, sizes[1..]);
    }
  }

  lemma {:induction false} ExtendsKeys(d: Driver, r: Driver, n: nat)
    requires d.Valid() && Extends(d, r, n)
    ensures r.pages.Keys == d.pages.Keys + Elements(NewHandles(d, n))
    ensures r.Valid()
  {
    NewHandlesFresh(d, n);
  }

  lemma {:induction false} WithPagesSized(d: Driver, o: Oracle, sizes: seq<nat>)
    requires d.Valid()
    ensures Sized(WithPages(d, o, sizes).pages, NewHandles(d, |sizes|), sizes)
    decreases |sizes|
  {
    if sizes != [] {
      var d1 := d.(pages := d.pages[d.nextHandle := NewPage(o, sizes[0])], nextHandle := d.nextHandle + 1);
      var r := WithPages(d, o, sizes);
      WithPagesSized(d1, o, sizes[1..]);
      WithPagesExtends(d1, o, sizes[1..]);
      SizedFront(r.pages, NewHandles(d, |sizes|), NewHandles(d1, |sizes| - 1), sizes);
    }
  }

  lemma {:induction false} SizedFront(pages: map<nat, seq<int>>, hs: seq<nat>, gs: seq<nat>, sizes: seq<nat>)
    requires sizes != [] && |hs| == |sizes| && hs[1..] == gs
    requires hs[0] in pages && |pages[hs[0]]| == sizes[0] && Sized(pages, gs, sizes[1..])
    ensures Sized(pages, hs, sizes)
  {
    forall i | 0 <= i < |hs| ensures hs[i] in pages && |pages[hs[i]]| == sizes[i] {
      if i > 0 { assert hs[i] == gs[i - 1] && sizes[1..][i - 1] == sizes[i]; }
    }
  }

  /** Creation stops at the first failing call, with the pages made so far. */
  lemma {:induction false} CreateLoopStops(p: Progress, o: Oracle, t: nat, sizes: seq<nat>)
    requires p.err == 0 && p.done <= |sizes|
    ensures var r := CreateLoop(p, o, t, sizes);
            && p.done <= r.done <= |sizes|
            && r.d == WithPages(p.d, o, sizes[p.done..r.done])
            && (if r.done < |sizes| then r.err == o.fault(t + r.done - p.done) != 0 else r.err == 0)
    decreases |sizes| - p.done
  {
    if p.done < |sizes| && o.fault(t) == 0 {
      var p1 := Progress(MemCreate(p.d, o, t, sizes[p.done]), 0, p.done + 1);
      CreateLoopStops(p1, o, t + 1, sizes);
      var r := CreateLoop(p, o, t, sizes);
      assert sizes[p.done..r.done][0] == sizes[p.done] && sizes[p.done..r.done][1..] == sizes[p.done + 1..r.done];
    } else {
      assert sizes[p.done..p.done] == [];
    }
  }

  // ---------------------------------------------------------------- mapping

  lemma {:induction false} MapsCompose(m: map<nat, Mapping>, addr: nat, x: Mapping, rest: map<nat, Mapping>)
    requires addr !in rest
    ensures m[addr := x] + rest == m + rest[addr := x]
  {
  }

  /** One more tile in front. */
  lemma {:induction false} TilesGrow(m: map<nat, Mapping>, addr: nat, sizes: seq<nat>, hs: seq<nat>, i: nat, j: nat)
    requires |hs| == |sizes| && Positive(sizes) && i < j <= |sizes| && addr !in m
    requires Tiles(addr + sizes[i], sizes[i + 1..j], hs[i + 1..j]).Keys !! m[addr := Mapping(sizes[i], hs[i])].Keys
    ensures var rest, all := Tiles(addr + sizes[i], sizes[i + 1..j], hs[i + 1..j]), Tiles(addr, sizes[i..j], hs[i..j]);
            m[addr := Mapping(sizes[i], hs[i])] + rest == m + all && all.Keys !! m.Keys
  {
    var ss, gs := sizes[i..j], hs[i..j];
    assert ss[1..] == sizes[i + 1..j] && gs[1..] == hs[i + 1..j];
    assert Positive(ss);
    TilesCons(addr, ss, gs);
    MapsCompose(m, addr, Mapping(sizes[i], hs[i]), Tiles(addr + sizes[i], ss[1..], gs[1..]));
  }

  /** Mapping goes on from chunk to chunk and stops with an error, or at the end. */
  ghost predicate MapStops(p: Progress, r: Progress, addr: nat, sizes: seq<nat>, hs: seq<nat>)
    requires |hs| == |sizes|
  {
    MapsFrom(p.d, r.d, addr, sizes, hs, p.done, r.done) && if r.done < |sizes| then r.err != 0 else r.err == 0
  }

  lemma {:induction false} MapLoopStops(p: Progress, o: Oracle, t: nat, addr: nat, sizes: seq<nat>, hs: seq<nat>)
    requires |hs| == |sizes| && p.err == 0 && p.done <= |sizes| && Positive(sizes)
    ensures MapStops(p, MapLoop(p, o, t, addr, sizes, hs), addr, sizes, hs)
    decreases |sizes| - p.done
  {
    if p.done < |sizes| && MapCode(p.d, o, t, addr, hs[p.done]) == 0 {
      var next := Progress(WithMapping(p.d, addr, sizes[p.done], hs[p.done]), 0, p.done + 1);
      MapLoopStops(next, o, t + 1, addr + sizes[p.done], sizes, hs);
      MapLoopGoesOn(p, next, o, t, addr, sizes, hs);
      StopsOneMore(p, next, MapLoop(p, o, t, addr, sizes, hs), addr, sizes, hs);
    } else {
      MapsNothing(p.d, addr, sizes, hs, p.done);
    }
  }

  lemma {:induction false} StopsOneMore(p: Progress, next: Progress, r: Progress, addr: nat, sizes: seq<nat>, hs: seq<nat>)
    requires |hs| == |sizes| && Positive(sizes) && p.done < |sizes| && addr !in p.d.mappings
    requires next == Progress(WithMapping(p.d, addr, sizes[p.done], hs[p.done]), 0, p.done + 1)
    requires MapStops(next, r, addr + sizes[p.done], sizes, hs)
    ensures MapStops(p, r, addr, sizes, hs)
  {
    MapsOneMore(p.d, r.d, addr, sizes, hs, p.done, r.done);
  }

  lemma {:induction false} MapLoopGoesOn(p: Progress, next: Progress, o: Oracle, t: nat, addr: nat, sizes: seq<nat>, hs: seq<nat>)
    requires |hs| == |sizes| && p.err == 0 && p.done < |sizes| && MapCode(p.d, o, t, addr, hs[p.done]) == 0
    requires next == Progress(WithMapping(p.d, addr, sizes[p.done], hs[p.done]), 0, p.done + 1)
    ensures MapLoop(p, o, t, addr, sizes, hs) == MapLoop(next, o, t + 1, addr + sizes[p.done], sizes, hs)
  {
  }

  function WithMapping(d: Driver, addr: nat, size: nat, h: nat): Driver {
    d.(mappings := d.mappings[addr := Mapping(size, h)])
  }

  /** The chunks from number `i` up to `j` are mapped, from `addr` on, where nothing was. */
  ghost predicate MapsFrom(d: Driver, d': Driver, addr: nat, sizes: seq<nat>, hs: seq<nat>, i: nat, j: nat)
    requires |hs| == |sizes|
  {
    && i <= j <= |sizes|
    && var m := Tiles(addr, sizes[i..j], hs[i..j]);
       d' == d.(mappings := d.mappings + m) && m.Keys !! d.mappings.Keys
  }

  lemma {:induction false} MapsOneMore(d: Driver, d': Driver, addr: nat, sizes: seq<nat>, hs: seq<nat>, i: nat, j: nat)
    requires |hs| == |sizes| && Positive(sizes) && i < |sizes| && addr !in d.mappings
    requires MapsFrom(WithMapping(d, addr, sizes[i], hs[i]), d', addr + sizes[i], sizes, hs, i + 1, j)
    ensures MapsFrom(d, d', addr, sizes, hs, i, j)
  {
    TilesGrow(d.mappings, addr, sizes, hs, i, j);
  }

  lemma {:induction false} MapsNothing(d: Driver, addr: nat, sizes: seq<nat>, hs: seq<nat>, i: nat)
    requires |hs| == |sizes| && i <= |sizes|
    ensures MapsFrom(d, d, addr, sizes, hs, i, i)
  {
    assert sizes[i..i] == [] && hs[i..i] == [];
    assert d.mappings + map[] == d.mappings;
  }

  // ---------------------------------------------------------------- undoing

  lemma {:induction false} AllOkFirst(o: Oracle, t: nat, u: nat)
    requires t < u
    ensures AllOk(o, t, u) <==> o.fault(t) == 0 && AllOk(o, t + 1, u)
  {
  }

  lemma {:induction false} ReleaseLoopFrame(d: Driver, err: int, o: Oracle, t: nat, hs: seq<nat>)
    ensures var (r, e) := ReleaseLoop(d, err, o, t, hs);
            && r == d.(pages := r.pages) && KeepsPages(r.pages, d.pages)
            && d.pages.Keys - Elements(hs) <= r.pages.Keys
            && (err != 0 ==> e == err)
    decreases |hs|
  {
    if hs != [] {
      var d1 := ReleaseOne(d, o, t, hs[0]);
      ReleaseLoopFrame(d1, FirstError(err, ReleaseCode(d, o, t, hs[0])), o, t + 1, hs[1..]);
      assert Elements(hs) == {hs[0]} + Elements(hs[1..]);
    }
  }

  lemma {:induction false} ReleaseLoopUndoes(d: Driver, err: int, o: Oracle, t: nat, hs: seq<nat>)
    requires NoRepeats(hs) && Elements(hs) <= d.pages.Keys
    ensures var (r, e) := ReleaseLoop(d, err, o, t, hs);
            && r == d.(pages := r.pages) && KeepsPages(r.pages, d.pages)
            && d.pages.Keys - Elements(hs) <= r.pages.Keys
            && (AllOk(o, t, t + |hs|) ==> r.pages == d.pages - Elements(hs) && e == err)
            && (!AllOk(o, t, t + |hs|) ==> (exists h :: h in hs && h in r.pages) && e != 0)
            && (err != 0 ==> e == err)
    decreases |hs|
  {
    ReleaseLoopFrame(d, err, o, t, hs);
    if AllOk(o, t, t + |hs|) {
      ReleaseLoopSucceeds(d, err, o, t, hs);
    } else {
      ReleaseLoopFails(d, err, o, t, hs);
    }
  }

  lemma {:induction false} FirstElement(hs: seq<nat>)
    requires hs != [] && NoRepeats(hs)
    ensures Elements(hs) == {hs[0]} + Elements(hs[1..]) && hs[0] !in Elements(hs[1..]) && NoRepeats(hs[1..])
  {
  }

  lemma {:induction false} ReleaseLoopSucceeds(d: Driver, err: int, o: Oracle, t: nat, hs: seq<nat>)
    requires NoRepeats(hs) && Elements(hs) <= d.pages.Keys && AllOk(o, t, t + |hs|)
    ensures ReleaseLoop(d, err, o, t, hs).0.pages == d.pages - Elements(hs) && ReleaseLoop(d, err, o, t, hs).1 == err
    decreases |hs|
  {
    if hs != [] {
      FirstElement(hs);
      AllOkFirst(o, t, t + |hs|);
      ReleaseLoopSucceeds(ReleaseOne(d, o, t, hs[0]), err, o, t + 1, hs[1..]);
      assert d.pages - {hs[0]} - Elements(hs[1..]) == d.pages - Elements(hs);
    } else {
      assert d.pages - Elements(hs) == d.pages;
    }
  }

  lemma {:induction false} ReleaseLoopFails(d: Driver, err: int, o: Oracle, t: nat, hs: seq<nat>)
    requires NoRepeats(hs) && Elements(hs) <= d.pages.Keys && !AllOk(o, t, t + |hs|)
    ensures (exists h :: h in hs && h in ReleaseLoop(d, err, o, t, hs).0.pages) && ReleaseLoop(d, err, o, t, hs).1 != 0
    decreases |hs|
  {
    FirstElement(hs);
    AllOkFirst(o, t, t + |hs|);
    var code := ReleaseCode(d, o, t, hs[0]);
    var d1 := ReleaseOne(d, o, t, hs[0]);
    ReleaseLoopFrame(d1, FirstError(err, code), o, t + 1, hs[1..]);
    if code != 0 {
      assert hs[0] in ReleaseLoop(d, err, o, t, hs).0.pages;
    } else {
      ReleaseLoopFails(d1, err, o, t + 1, hs[1..]);
      var h :| h in hs[1..] && h in ReleaseLoop(d1, err, o, t + 1, hs[1..]).0.pages;
      assert h in hs;
    }
  }

  lemma {:induction false} UnmapLoopUndoes(d: Driver, err: int, o: Oracle, t: nat, addr: nat, sizes: seq<nat>, hs: seq<nat>)
    requires |hs| == |sizes| && Positive(sizes) && Contains(d.mappings, Tiles(addr, sizes, hs))
    ensures var (r, e) := UnmapLoop(d, err, o, t, addr, sizes);
            var m := Tiles(addr, sizes, hs);
            && r == d.(mappings := r.mappings) && Contains(d.mappings, r.mappings)
            && d.mappings.Keys - m.Keys <= r.mappings.Keys
            && (AllOk(o, t, t + |sizes|) ==> r.mappings == d.mappings - m.Keys && e == err)
            && (!AllOk(o, t, t + |sizes|) ==> (exists k :: k in m && k in r.mappings) && e != 0)
            && (err != 0 ==> e == err)
    decreases |sizes|
  {
    if sizes != [] {
      var m, rest := Tiles(addr, sizes, hs), Tiles(addr + sizes[0], sizes[1..], hs[1..]);
      TilesCons(addr, sizes, hs);
      var code := UnmapCode(d, o, t, addr, sizes[0]);
      assert code == o.fault(t);
      var d1 := UnmapOne(d, o, t, addr, sizes[0]);
      assert Contains(d1.mappings, rest);
      UnmapLoopUndoes(d1, FirstError(err, code), o, t + 1, addr + sizes[0], sizes[1..], hs[1..]);
      AllOkFirst(o, t, t + |sizes|);
      if code != 0 {
        assert addr in UnmapLoop(d, err, o, t, addr, sizes).0.mappings;
      }
    }
  }

  // ---------------------------------------------------------------- create_and_map

  /** The number of the driver call that made `create_and_map` stop. */
  function StoppedAt(d: Driver, o: Oracle, t: nat, addr: nat, sizes: seq<nat>): nat {
    var n := |sizes|;
    var c := CreateLoop(Progress(d, 0, 0), o, t, sizes);
    if c.done < n then t + c.done
    else t + n + MapLoop(Progress(c.d, 0, 0), o, t + n, addr, sizes, NewHandles(d, n)).done
  }

  /** Everything the call was asked for is there, and everything else is as before. */
  ghost predicate Mapped(d: Driver, d': Driver, addr: nat, sizes: seq<nat>) {
    var hs := NewHandles(d, |sizes|);
    var m := Tiles(addr, sizes, hs);
    && m.Keys !! d.mappings.Keys
    && d'.mappings == d.mappings + m
    && d'.reservations == d.reservations
    && d'.pages.Keys == d.pages.Keys + Elements(hs) && KeepsPages(d.pages, d'.pages) && Sized(d'.pages, hs, sizes)
    && d'.nextHandle == d.nextHandle + |sizes|
  }

  lemma {:induction false} CreateFailureRollsBack(d: Driver, o: Oracle, t: nat, addr: nat, sizes: seq<nat>)
    requires d.Valid()
    requires CreateLoop(Progress(d, 0, 0), o, t, sizes).done < |sizes|
    ensures var out := CreateAndMapSpec(d, 0, o, t, addr, sizes);
            && out.err != 0 && StoppedAt(d, o, t, addr, sizes) < out.clock
            && (SameLive(out.d, d) <==> AllOk(o, StoppedAt(d, o, t, addr, sizes) + 1, out.clock))
  {
    CreateLoopStops(Progress(d, 0, 0), o, t, sizes);
    var c := CreateLoop(Progress(d, 0, 0), o, t, sizes);
    var hs := NewHandles(d, c.done);
    assert sizes[0..c.done] == sizes[..c.done];
    WithPagesExtends(d, o, sizes[..c.done]);
    ExtendsKeys(d, c.d, c.done);
    NewHandlesFresh(d, c.done);
    ReleaseRestores(d, c.d, o, t + c.done + 1, hs);
  }

  /** Pages are as before creation iff none of the created handles is left. */
  lemma {:induction false} PagesRestored(d: Driver, created: Driver, released: Driver, hs: seq<nat>)
    requires Elements(hs) !! d.pages.Keys && created.pages.Keys == d.pages.Keys + Elements(hs)
    requires KeepsPages(d.pages, created.pages) && KeepsPages(released.pages, created.pages)
    requires created.pages.Keys - Elements(hs) <= released.pages.Keys
    ensures released.pages == d.pages <==> forall h :: h in hs ==> h !in released.pages
  {
    if forall h :: h in hs ==> h !in released.pages {
      assert released.pages.Keys == d.pages.Keys;
    } else {
      var h :| h in hs && h in released.pages;
      assert h in Elements(hs);
    }
  }

  /** Releasing the created handles restores the pages iff every release succeeds. */
  lemma {:induction false} ReleaseRestores(d: Driver, c: Driver, o: Oracle, t: nat, hs: seq<nat>)
    requires NoRepeats(hs) && Elements(hs) !! d.pages.Keys
    requires c.pages.Keys == d.pages.Keys + Elements(hs) && KeepsPages(d.pages, c.pages)
    ensures var r := ReleaseLoop(c, 0, o, t, hs).0;
            r.mappings == c.mappings && r.reservations == c.reservations && (r.pages == d.pages <==> AllOk(o, t, t + |hs|))
  {
    ReleaseLoopUndoes(c, 0, o, t, hs);
    var r := ReleaseLoop(c, 0, o, t, hs).0;
    PagesRestored(d, c, r, hs);
    if AllOk(o, t, t + |hs|) {
      assert forall h :: h in hs ==> h in Elements(hs);
    }
  }

  /** Unmapping the mapped tiles restores the mappings iff every unmap succeeds. */
  lemma {:induction false} UnmapRestores(d: Driver, m: Driver, o: Oracle, t: nat, addr: nat, ss: seq<nat>, gs: seq<nat>)
    requires |gs| == |ss| && Positive(ss)
    requires m.mappings == d.mappings + Tiles(addr, ss, gs) && Tiles(addr, ss, gs).Keys !! d.mappings.Keys
    ensures var u := UnmapLoop(m, 0, o, t, addr, ss).0;
            u == m.(mappings := u.mappings) && (u.mappings == d.mappings <==> AllOk(o, t, t + |ss|))
  {
    var tiles := Tiles(addr, ss, gs);
    UnmapLoopUndoes(m, 0, o, t, addr, ss, gs);
    var u := UnmapLoop(m, 0, o, t, addr, ss).0;
    MappingsRestored(d.mappings, tiles, u.mappings);
  }

  lemma {:induction false} SecondHalf(d: Driver, o: Oracle, t: nat, addr: nat, sizes: seq<nat>)
    requires CreateLoop(Progress(d, 0, 0), o, t, sizes).done == |sizes| && CreateLoop(Progress(d, 0, 0), o, t, sizes).err == 0
    ensures CreateAndMapSpec(d, 0, o, t, addr, sizes) ==
            MapPhase(CreateLoop(Progress(d, 0, 0), o, t, sizes).d, 0, o, t + |sizes|, addr, sizes, NewHandles(d, |sizes|))
  {
  }

  lemma {:induction false} MapFailureRollsBack(d: Driver, o: Oracle, t: nat, addr: nat, sizes: seq<nat>)
    requires d.Valid() && Positive(sizes)
    requires CreateLoop(Progress(d, 0, 0), o, t, sizes).done == |sizes|
    requires StoppedAt(d, o, t, addr, sizes) < t + |sizes| + |sizes|
    ensures var out := CreateAndMapSpec(d, 0, o, t, addr, sizes);
            && out.err != 0 && StoppedAt(d, o, t, addr, sizes) < out.clock
            && (SameLive(out.d, d) <==> AllOk(o, StoppedAt(d, o, t, addr, sizes) + 1, out.clock))
  {
    PagesCreated(d, o, t, sizes);
    var c := CreateLoop(Progress(d, 0, 0), o, t, sizes);
    SecondHalf(d, o, t, addr, sizes);
    MapRollback(d, c.d, o, t + |sizes|, addr, sizes, NewHandles(d, |sizes|));
  }

  lemma {:induction false} PagesCreated(d: Driver, o: Oracle, t: nat, sizes: seq<nat>)
    requires d.Valid() && CreateLoop(Progress(d, 0, 0), o, t, sizes).done >= |sizes|
    ensures var c := CreateLoop(Progress(d, 0, 0), o, t, sizes);
            && c.err == 0 && c.d.mappings == d.mappings && c.d.reservations == d.reservations
            && c.d.pages.Keys == d.pages.Keys + Elements(NewHandles(d, |sizes|)) && KeepsPages(d.pages, c.d.pages)
  {
    CreatePhaseDone(d, o, t, sizes);
  }

  /** The rollback of a failed map step, from the driver state `c` after creation. */
  lemma {:induction false} MapRollback(d: Driver, c: Driver, o: Oracle, t: nat, addr: nat, sizes: seq<nat>, hs: seq<nat>)
    requires d.Valid() && Positive(sizes) && hs == NewHandles(d, |sizes|)
    requires c.pages.Keys == d.pages.Keys + Elements(hs) && KeepsPages(d.pages, c.pages)
    requires c.mappings == d.mappings && c.reservations == d.reservations
    requires MapLoop(Progress(c, 0, 0), o, t, addr, sizes, hs).done < |sizes|
    ensures var m := MapLoop(Progress(c, 0, 0), o, t, addr, sizes, hs);
            var out := MapPhase(c, 0, o, t, addr, sizes, hs);
            out.err != 0 && (SameLive(out.d, d) <==> AllOk(o, t + m.done + 1, out.clock))
  {
    MapLoopFromStart(c, o, t, addr, sizes, hs);
    var m := MapLoop(Progress(c, 0, 0), o, t, addr, sizes, hs);
    UndoMapsRestores(d, m, o, t + m.done + 1, addr, sizes, hs);
  }

  lemma {:induction false} MapLoopFromStart(c: Driver, o: Oracle, t: nat, addr: nat, sizes: seq<nat>, hs: seq<nat>)
    requires |hs| == |sizes| && Positive(sizes)
    ensures var m := MapLoop(Progress(c, 0, 0), o, t, addr, sizes, hs);
            && m.done <= |sizes| && (m.done < |sizes| ==> m.err != 0)
            && m.d.pages == c.pages && m.d.reservations == c.reservations
            && m.d.mappings == c.mappings + Tiles(addr, sizes[..m.done], hs[..m.done])
            && Tiles(addr, sizes[..m.done], hs[..m.done]).Keys !! c.mappings.Keys
  {
    MapLoopStops(Progress(c, 0, 0), o, t, addr, sizes, hs);
    var k := MapLoop(Progress(c, 0, 0), o, t, addr, sizes, hs).done;
    assert sizes[0..k] == sizes[..k] && hs[0..k] == hs[..k];
  }

  lemma {:induction false} UndoMapsRestores(d: Driver, m: Progress, o: Oracle, t: nat, addr: nat, sizes: seq<nat>, hs: seq<nat>)
    requires d.Valid() && Positive(sizes) && |hs| == |sizes| && hs == NewHandles(d, |hs|) && m.done <= |sizes|
    requires m.d.pages.Keys == d.pages.Keys + Elements(hs) && KeepsPages(d.pages, m.d.pages)
    requires Tiles(addr, sizes[..m.done], hs[..m.done]).Keys !! d.mappings.Keys
    requires m.d.mappings == d.mappings + Tiles(addr, sizes[..m.done], hs[..m.done])
    requires m.d.reservations == d.reservations
    ensures var out := UndoMaps(m, o, t, addr, sizes, hs);
            out.err == m.err && (SameLive(out.d, d) <==> AllOk(o, t, out.clock))
  {
    MapRollbackSteps(d, m.d, o, t, addr, sizes[..m.done], hs[..m.done], hs);
  }

  lemma {:induction false} MapRollbackSteps(
    d: Driver, m: Driver, o: Oracle, t: nat, addr: nat, ss: seq<nat>, gs: seq<nat>, hs: seq<nat>)
    requires d.Valid() && Positive(ss) && hs == NewHandles(d, |hs|) && |gs| == |ss|
    requires m.pages.Keys == d.pages.Keys + Elements(hs) && KeepsPages(d.pages, m.pages)
    requires m.mappings == d.mappings + Tiles(addr, ss, gs) && Tiles(addr, ss, gs).Keys !! d.mappings.Keys
    requires m.reservations == d.reservations
    ensures var u := UnmapLoop(m, 0, o, t, addr, ss).0;
            SameLive(ReleaseLoop(u, 0, o, t + |ss|, hs).0, d) <==> AllOk(o, t, t + |ss| + |hs|)
  {
    var k := |ss|;
    UnmapRestores(d, m, o, t, addr, ss, gs);
    var u := UnmapLoop(m, 0, o, t, addr, ss).0;
    NewHandlesFresh(d, |hs|);
    ReleaseRestores(d, u, o, t + k, hs);
    assert AllOk(o, t, t + k + |hs|) <==> AllOk(o, t, t + k) && AllOk(o, t + k, t + k + |hs|);
  }

  lemma {:induction false} MappingsRestored(before: map<nat, Mapping>, tiles: map<nat, Mapping>, after: map<nat, Mapping>)
    requires tiles.Keys !! before.Keys
    requires Contains(before + tiles, after) && before.Keys <= after.Keys
    ensures after == before <==> !exists k :: k in tiles && k in after
  {
    if !exists k :: k in tiles && k in after {
      assert after.Keys == before.Keys;
    }
  }

  lemma {:induction false} NoFailureMaps(d: Driver, o: Oracle, t: nat, addr: nat, sizes: seq<nat>)
    requires d.Valid() && Positive(sizes)
    requires StoppedAt(d, o, t, addr, sizes) >= t + |sizes| + |sizes|
    ensures var out := CreateAndMapSpec(d, 0, o, t, addr, sizes);
            Mapped(d, out.d, addr, sizes) && out.d.Valid() && out.clock > t + |sizes| + |sizes| &&
            out.err == o.fault(t + |sizes| + |sizes|) && StoppedAt(d, o, t, addr, sizes) == t + |sizes| + |sizes|
  {
    var c := CreateLoop(Progress(d, 0, 0), o, t, sizes);
    CreatedIsMapped(d, c, o, t, addr, sizes);
    assert CreateAndMapSpec(d, 0, o, t, addr, sizes) == MapPhase(c.d, 0, o, t + |sizes|, addr, sizes, NewHandles(d, |sizes|));
  }

  lemma {:induction false} CreatedIsMapped(d: Driver, c: Progress, o: Oracle, t: nat, addr: nat, sizes: seq<nat>)
    requires d.Valid() && Positive(sizes) && c == CreateLoop(Progress(d, 0, 0), o, t, sizes) && c.done >= |sizes|
    requires MapLoop(Progress(c.d, 0, 0), o, t + |sizes|, addr, sizes, NewHandles(d, |sizes|)).done >= |sizes|
    ensures c.err == 0
    ensures MapLoop(Progress(c.d, 0, 0), o, t + |sizes|, addr, sizes, NewHandles(d, |sizes|)).done == |sizes|
    ensures var out := MapPhase(c.d, 0, o, t + |sizes|, addr, sizes, NewHandles(d, |sizes|));
            && Mapped(d, out.d, addr, sizes) && out.d.Valid()
            && out.clock > t + |sizes| + |sizes| && out.err == o.fault(t + |sizes| + |sizes|)
  {
    CreatePhaseDone(d, o, t, sizes);
    MapPhaseMaps(d, c.d, o, t + |sizes|, addr, sizes);
  }

  lemma {:induction false} CreatePhaseDone(d: Driver, o: Oracle, t: nat, sizes: seq<nat>)
    requires d.Valid() && CreateLoop(Progress(d, 0, 0), o, t, sizes).done >= |sizes|
    ensures var c := CreateLoop(Progress(d, 0, 0), o, t, sizes);
            var hs := NewHandles(d, |sizes|);
            && c.err == 0 && c.d == d.(pages := c.d.pages, nextHandle := d.nextHandle + |sizes|) && c.d.Valid()
            && c.d.pages.Keys == d.pages.Keys + Elements(hs) && KeepsPages(d.pages, c.d.pages) && Sized(c.d.pages, hs, sizes)
  {
    CreateLoopStops(Progress(d, 0, 0), o, t, sizes);
    assert sizes[0..|sizes|] == sizes;
    WithPagesExtends(d, o, sizes);
    ExtendsKeys(d, WithPages(d, o, sizes), |sizes|);
    WithPagesSized(d, o, sizes);
  }

  lemma {:induction false} MapPhaseMaps(d: Driver, c: Driver, o: Oracle, t: nat, addr: nat, sizes: seq<nat>)
    requires Positive(sizes)
    requires c == d.(pages := c.pages, nextHandle := d.nextHandle + |sizes|)
    requires var hs := NewHandles(d, |sizes|);
             c.pages.Keys == d.pages.Keys + Elements(hs) && KeepsPages(d.pages, c.pages) && Sized(c.pages, hs, sizes)
    requires MapLoop(Progress(c, 0, 0), o, t, addr, sizes, NewHandles(d, |sizes|)).done >= |sizes|
    ensures var out := MapPhase(c, 0, o, t, addr, sizes, NewHandles(d, |sizes|));
            Mapped(d, out.d, addr, sizes) && out.d == c.(mappings := out.d.mappings) && out.err == o.fault(t + |sizes|)
    ensures MapLoop(Progress(c, 0, 0), o, t, addr, sizes, NewHandles(d, |sizes|)).done == |sizes|
  {
    var n, hs := |sizes|, NewHandles(d, |sizes|);
    MapLoopStops(Progress(c, 0, 0), o, t, addr, sizes, hs);
    var m := MapLoop(Progress(c, 0, 0), o, t, addr, sizes, hs);
    assert MapPhase(c, 0, o, t, addr, sizes, hs) == Outcome(m.d, o.fault(t + n), t + n + 1);
    CreatedThenMapped(d, c, m.d, addr, sizes);
  }

  lemma {:induction false} CreatedThenMapped(d: Driver, c: Driver, d': Driver, addr: nat, sizes: seq<nat>)
    requires c == d.(pages := c.pages, nextHandle := d.nextHandle + |sizes|)
    requires var hs := NewHandles(d, |sizes|);
             c.pages.Keys == d.pages.Keys + Elements(hs) && KeepsPages(d.pages, c.pages) && Sized(c.pages, hs, sizes)
    requires MapsFrom(c, d', addr, sizes, NewHandles(d, |sizes|), 0, |sizes|)
    ensures Mapped(d, d', addr, sizes) && d' == c.(mappings := d'.mappings)
  {
    var n, hs := |sizes|, NewHandles(d, |sizes|);
    assert sizes[0..n] == sizes && hs[0..n] == hs;
  }

  /** All or nothing. When a create or map step fails, the live pages, mappings and
      reservations are those from before the call iff every rollback call succeeds. When no
      step fails the chunks tile the range. A failure of the last step, which sets access, is not rolled back. */
  lemma {:induction false} CreateAndMapAllOrNothing(d: Driver, o: Oracle, t: nat, addr: nat, sizes: seq<nat>)
    requires d.Valid() && Positive(sizes)
    ensures var out := CreateAndMapSpec(d, 0, o, t, addr, sizes);
            var stopped := StoppedAt(d, o, t, addr, sizes);
            && stopped < out.clock
            && (stopped < t + |sizes| + |sizes| ==>
                  out.err != 0 && (SameLive(out.d, d) <==> AllOk(o, stopped + 1, out.clock)))
            && (stopped >= t + |sizes| + |sizes| ==>
                  Mapped(d, out.d, addr, sizes) && out.d.Valid() && (out.err == 0 <==> o.fault(stopped) == 0))
  {
    CreateLoopStops(Progress(d, 0, 0), o, t, sizes);
    if StoppedAt(d, o, t, addr, sizes) >= t + |sizes| + |sizes| {
      NoFailureMaps(d, o, t, addr, sizes);
    } else if CreateLoop(Progress(d, 0, 0), o, t, sizes).done < |sizes| {
      CreateFailureRollsBack(d, o, t, addr, sizes);
    } else {
      MapFailureRollsBack(d, o, t, addr, sizes);
    }
  }

  /** A stale error code from an earlier failure makes the call create one page and stop
      without releasing it: all or nothing needs a clear error code on entry. */
  lemma {:induction false} StaleErrorLeaksFirstPage(d: Driver, err: int, o: Oracle, t: nat, addr: nat, sizes: seq<nat>)
    requires d.Valid() && err != 0 && sizes != []
    ensures var out := CreateAndMapSpec(d, err, o, t, addr, sizes);
            && out.err != 0 && out.d.mappings == d.mappings
            && (SameLive(out.d, d) <==> o.fault(t) != 0)
            && (o.fault(t) == 0 ==> out.d.pages.Keys == d.pages.Keys + {d.nextHandle} && out.err == err)
  {
    assert NewHandles(d, 0) == [];
    if o.fault(t) == 0 {
      assert d.nextHandle in CreateAndMapSpec(d, err, o, t, addr, sizes).d.pages && d.nextHandle !in d.pages;
    }
  }

  lemma {:induction false} CreateLoopReservations(p: Progress, o: Oracle, t: nat, sizes: seq<nat>)
    ensures CreateLoop(p, o, t, sizes).d.reservations == p.d.reservations
    decreases |sizes| - p.done
  {
    if p.done < |sizes| && o.fault(t) == 0 && p.err == 0 {
      CreateLoopReservations(Progress(MemCreate(p.d, o, t, sizes[p.done]), 0, p.done + 1), o, t + 1, sizes);
    }
  }

  lemma {:induction false} ReleaseLoopReservations(d: Driver, err: int, o: Oracle, t: nat, hs: seq<nat>)
    ensures ReleaseLoop(d, err, o, t, hs).0 == d.(pages := ReleaseLoop(d, err, o, t, hs).0.pages)
    decreases |hs|
  {
    if hs != [] {
      ReleaseLoopReservations(ReleaseOne(d, o, t, hs[0]), FirstError(err, ReleaseCode(d, o, t, hs[0])), o, t + 1, hs[1..]);
    }
  }

  lemma {:induction false} UnmapLoopReservations(d: Driver, err: int, o: Oracle, t: nat, addr: nat, sizes: seq<nat>)
    ensures UnmapLoop(d, err, o, t, addr, sizes).0 == d.(mappings := UnmapLoop(d, err, o, t, addr, sizes).0.mappings)
    decreases |sizes|
  {
    if sizes != [] {
      UnmapLoopReservations(UnmapOne(d, o, t, addr, sizes[0]), FirstError(err, UnmapCode(d, o, t, addr, sizes[0])),
                            o, t + 1, addr + sizes[0], sizes[1..]);
    }
  }

  lemma {:induction false} CreateAndMapKeepsReservations(d: Driver, o: Oracle, t: nat, addr: nat, sizes: seq<nat>)
    requires d.Valid() && Positive(sizes)
    ensures CreateAndMapSpec(d, 0, o, t, addr, sizes).d.reservations == d.reservations
  {
    var n := |sizes|;
    var c := CreateLoop(Progress(d, 0, 0), o, t, sizes);
    CreateLoopReservations(Progress(d, 0, 0), o, t, sizes);
    CreateLoopStops(Progress(d, 0, 0), o, t, sizes);
    if c.done < n {
      ReleaseLoopReservations(c.d, 0, o, t + c.done + 1, NewHandles(d, c.done));
    } else {
      SecondHalf(d, o, t, addr, sizes);
      MapPhaseReservations(c.d, o, t + n, addr, sizes, NewHandles(d, n));
    }
  }

  lemma {:induction false} MapPhaseReservations(d: Driver, o: Oracle, t: nat, addr: nat, sizes: seq<nat>, hs: seq<nat>)
    requires |hs| == |sizes| && Positive(sizes)
    ensures MapPhase(d, 0, o, t, addr, sizes, hs).d.reservations == d.reservations
  {
    MapLoopStops(Progress(d, 0, 0), o, t, addr, sizes, hs);
    var m := MapLoop(Progress(d, 0, 0), o, t, addr, sizes, hs);
    if m.done < |sizes| {
      var t1 := t + m.done + 1;
      UnmapLoopReservations(m.d, 0, o, t1, addr, sizes[..m.done]);
      ReleaseLoopReservations(UnmapLoop(m.d, 0, o, t1, addr, sizes[..m.done]).0, 0, o, t1 + m.done, hs);
    }
  }

  // ---------------------------------------------------------------- unmap_and_release

  /** The chunks at `addr` are mapped to pages of the right sizes. */
  ghost predicate AwakeAt(d: Driver, addr: nat, sizes: seq<nat>, hs: seq<nat>) {
    && |hs| == |sizes| && Positive(sizes) && NoRepeats(hs)
    && Contains(d.mappings, Tiles(addr, sizes, hs))
    && Sized(d.pages, hs, sizes)
  }

  /** Unmapping uses exactly the offsets that mapping used: it ends without an error iff
      every driver call succeeds, the size is that of the reservation and the same address is
      reserved again; then no page and no mapping of the allocation is left, and nothing else
      has changed. */
  lemma {:induction false} UnmapAndReleaseUndoes(
    d: Driver, o: Oracle, t: nat, addr: nat, size: nat, sizes: seq<nat>, hs: seq<nat>)
    requires AwakeAt(d, addr, sizes, hs) && addr in d.reservations
    ensures var n := |sizes|;
            var out := UnmapAndReleaseSpec(d, 0, o, t, addr, size, sizes, hs);
            && (out.err == 0 <==> && AllOk(o, t, t + n + n + 2) && size == d.reservations[addr]
                                  && o.moved(t + n + n + 1) in {None, Some(addr)})
            && (out.err == 0 ==>
                  && out.d == d.(mappings := d.mappings - Tiles(addr, sizes, hs).Keys, pages := d.pages - Elements(hs))
                  && out.clock == t + n + n + 2)
  {
    var n := |sizes|;
    BothLoopsUndo(d, o, t, addr, sizes, hs);
    assert AllOk(o, t, t + n + n + 2) <==> AllOk(o, t, t + n + n) && o.fault(t + n + n) == 0 && o.fault(t + n + n + 1) == 0;
    if size == d.reservations[addr] {
      assert (d.reservations - {addr})[addr := size] == d.reservations;
    }
  }

  lemma {:induction false} BothLoopsUndo(d: Driver, o: Oracle, t: nat, addr: nat, sizes: seq<nat>, hs: seq<nat>)
    requires AwakeAt(d, addr, sizes, hs)
    ensures var n := |sizes|;
            var (d1, e1) := UnmapLoop(d, 0, o, t, addr, sizes);
            var (d2, e2) := ReleaseLoop(d1, e1, o, t + n, hs);
            && (e2 == 0 <==> AllOk(o, t, t + n + n))
            && (e2 == 0 ==> d2 == d.(mappings := d.mappings - Tiles(addr, sizes, hs).Keys, pages := d.pages - Elements(hs)))
  {
    var n := |sizes|;
    AllOkSplit(o, t, t + n, t + n + n);
    UnmapsAll(d, o, t, addr, sizes, hs);
    var (d1, e1) := UnmapLoop(d, 0, o, t, addr, sizes);
    ReleasesAll(d1, e1, o, t + n, hs);
  }

  lemma {:induction false} UnmapsAll(d: Driver, o: Oracle, t: nat, addr: nat, sizes: seq<nat>, hs: seq<nat>)
    requires AwakeAt(d, addr, sizes, hs)
    ensures var (d1, e1) := UnmapLoop(d, 0, o, t, addr, sizes);
            && d1 == d.(mappings := d1.mappings) && Elements(hs) <= d1.pages.Keys
            && (e1 == 0 <==> AllOk(o, t, t + |sizes|))
            && (e1 == 0 ==> d1.mappings == d.mappings - Tiles(addr, sizes, hs).Keys)
  {
    UnmapLoopUndoes(d, 0, o, t, addr, sizes, hs);
    assert Elements(hs) <= d.pages.Keys;
  }

  lemma {:induction false} ReleasesAll(d: Driver, err: int, o: Oracle, t: nat, hs: seq<nat>)
    requires NoRepeats(hs) && Elements(hs) <= d.pages.Keys
    ensures var (r, e) := ReleaseLoop(d, err, o, t, hs);
            && r == d.(pages := r.pages)
            && (e == 0 <==> err == 0 && AllOk(o, t, t + |hs|))
            && (e == 0 ==> r.pages == d.pages - Elements(hs))
  {
    ReleaseLoopUndoes(d, err, o, t, hs);
  }

  lemma {:induction false} AllOkSplit(o: Oracle, t: nat, u: nat, v: nat)
    requires t <= u <= v
    ensures AllOk(o, t, v) <==> AllOk(o, t, u) && AllOk(o, u, v)
  {
  }
}

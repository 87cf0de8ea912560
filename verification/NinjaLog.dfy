/** The reader of .ninja_log files (tools/report_build_time_ninja.py, `ReadTargets`): it
    groups the records of the last build by command hash. Lines come already stripped and
    split at tabs. */
module NinjaLog {
  import opened Wrappers
  import opened NinjaSweep

  datatype Record = Record(start: int, end: int, name: string, cmdhash: string)

  /** A line with five fields is a record, unless a time stamp is not an integer. */
  datatype Line = Malformed | BadNumber | Fields(rec: Record)

  const HEADER := "# ninja log v5\n"

  /** Milliseconds to seconds. */
  function Seconds(ms: int): real { ms as real / 1000.0 }

  function Records(lines: seq<Line>): seq<Record> {
    if lines == [] then []
    else Records(lines[..|lines| - 1]) + if lines[|lines| - 1].Fields? then [lines[|lines| - 1].rec] else []
  }

  /** The records of two parts of the log, one after the other; a line with five fields gives one
      record, a malformed line none. */
  lemma {:induction false} RecordsOfParts(a: seq<Line>, b: seq<Line>, r: Record)
    ensures Records(a + b) == Records(a) + Records(b)
    ensures Records([Fields(r)]) == [r] && Records([Malformed]) == []
    decreases |b|
  {
    assert Records([]) == [] && [Fields(r)][..0] == [] && [Malformed][..0] == [];
    if b == [] {
      assert a + b == a;
    } else {
      var init := b[..|b| - 1];
      RecordsOfParts(a, init, r);
      assert (a + b)[..|a + b| - 1] == a + init;
    }
  }

  // ---------------------------------------------------------------- where the last build begins

  predicate SameTimes(a: Record, b: Record) { a.start == b.start && a.end == b.end }

  /** The record `r` cannot belong to the build `s`: it ends before the last of them, or its command
      ran at another time. */
  ghost predicate Clashes(s: seq<Record>, r: Record) {
    && s != []
    && (r.end < s[|s| - 1].end || exists j :: 0 <= j < |s| && s[j].cmdhash == r.cmdhash && !SameTimes(s[j], r))
  }

  /** The records since the reader last started over. */
  ghost function LastBuild(rs: seq<Record>): (s: seq<Record>)
    ensures |s| <= |rs| && (rs != [] ==> s != [] && s[|s| - 1] == rs[|rs| - 1])
  {
    if rs == [] then []
    else
      var s, r := LastBuild(rs[..|rs| - 1]), rs[|rs| - 1];
      if Clashes(s, r) then [r] else s + [r]
  }

  /** The records the reader reports. */
  ghost function Kept(rs: seq<Record>, showAll: bool): seq<Record> {
    if showAll then rs else LastBuild(rs)
  }

  /** They are the last records of the log. */
  lemma {:induction false} KeptIsSuffix(rs: seq<Record>)
    ensures rs[|rs| - |LastBuild(rs)|..] == LastBuild(rs)
    decreases |rs|
  {
    if rs != [] {
      var init, r := rs[..|rs| - 1], rs[|rs| - 1];
      var s := LastBuild(init);
      KeptIsSuffix(init);
      if Clashes(s, r) {
        assert rs[|rs| - 1..] == [r];
      } else {
        assert rs[|init| - |s|..] == init[|init| - |s|..] + [r];
      }
    }
  }

  /** The records of one build: end times do not decrease, and each command ran once. */
  ghost predicate OneBuild(s: seq<Record>) {
    && (forall i, j :: 0 <= i < j < |s| ==> s[i].end <= s[j].end)
    && (forall i, j :: 0 <= i < j < |s| && s[i].cmdhash == s[j].cmdhash ==> SameTimes(s[i], s[j]))
  }

  lemma {:induction false} ClashIff(s: seq<Record>, r: Record)
    requires OneBuild(s)
    ensures OneBuild(s + [r]) <==> !Clashes(s, r)
  {
    var t := s + [r];
    assert t[|s|] == r && (s != [] ==> t[|s| - 1] == s[|s| - 1]);
    if j :| 0 <= j < |s| && s[j].cmdhash == r.cmdhash && !SameTimes(s[j], r) {
      assert t[j] == s[j];
    }
  }

  lemma {:induction false} KeptGrows(rs: seq<Record>, r: Record)
    ensures Kept(rs + [r], false) == if Clashes(Kept(rs, false), r) then [r] else Kept(rs, false) + [r]
  {
    assert (rs + [r])[..|rs|] == rs;
  }

  /** What is kept is one build. */
  lemma {:induction false} KeptIsOneBuild(rs: seq<Record>)
    ensures OneBuild(Kept(rs, false))
    decreases |rs|
  {
    if rs != [] {
      var init, r := rs[..|rs| - 1], rs[|rs| - 1];
      assert rs == init + [r];
      KeptIsOneBuild(init);
      KeptGrows(init, r);
      ClashIff(Kept(init, false), r);
    }
  }

  lemma {:induction false} KeptClashes(rs: seq<Record>, r: Record)
    ensures OneBuild(Kept(rs, false) + [r]) <==> !Clashes(Kept(rs, false), r)
  {
    KeptIsOneBuild(rs);
    ClashIff(Kept(rs, false), r);
  }

  /** A record starts a new build exactly when it does not make one build with what is kept:
      it is added to it, or everything before it is dropped. */
  lemma {:induction false} StartsOverIff(rs: seq<Record>, r: Record)
    ensures Kept(rs + [r], false) == if OneBuild(Kept(rs, false) + [r]) then Kept(rs, false) + [r] else [r]
  {
    KeptClashes(rs, r);
    KeptGrows(rs, r);
  }

  lemma {:induction false} FirstRecordIsKept(s: seq<Record>)
    requires |s| == 1
    ensures Kept(s, false) == s
  {
  }

  /** In numbers: outputs of one command and commands that end together stay; an earlier end, or
      the same command at another time, starts over. */
  lemma {:induction false} TwoRecords(a: Record, b: Record)
    ensures Kept([a, b], false) ==
            if b.end < a.end || (a.cmdhash == b.cmdhash && (a.start != b.start || a.end != b.end)) then [b] else [a, b]
  {
    var s, t := [a], [a, b];
    assert s + [b] == t;
    TwoRecordsAre(s, b, t);
  }

  lemma {:induction false} TwoRecordsAre(s: seq<Record>, b: Record, t: seq<Record>)
    requires |s| == 1 && t == s + [b]
    ensures Kept(t, false) ==
            if b.end < s[0].end || (s[0].cmdhash == b.cmdhash && (s[0].start != b.start || s[0].end != b.end)) then [b] else t
  {
    FirstRecordIsKept(s);
    StartsOverIff(s, b);
    PairIsOneBuild(t);
  }

  lemma {:induction false} PairIsOneBuild(s: seq<Record>)
    requires |s| == 2
    ensures OneBuild(s) <==>
            !(s[1].end < s[0].end || (s[0].cmdhash == s[1].cmdhash && (s[0].start != s[1].start || s[0].end != s[1].end)))
  {
  }

  // ---------------------------------------------------------------- grouping

  /** Command hashes in order of first occurrence. */
  function Hashes(s: seq<Record>): seq<string> {
    if s == [] then []
    else
      var hs, h := Hashes(s[..|s| - 1]), s[|s| - 1].cmdhash;
      if h in hs then hs else hs + [h]
  }

  /** Names of the records with hash `h`, in order. */
  function NamesOf(s: seq<Record>, h: string): seq<string> {
    if s == [] then []
    else NamesOf(s[..|s| - 1], h) + if s[|s| - 1].cmdhash == h then [s[|s| - 1].name] else []
  }

  function FirstWith(s: seq<Record>, h: string): Option<Record> {
    if s == [] then None
    else if FirstWith(s[..|s| - 1], h).Some? then FirstWith(s[..|s| - 1], h)
    else if s[|s| - 1].cmdhash == h then Some(s[|s| - 1])
    else None
  }

  /** The first record of hash `h` is at `i`. */
  ghost predicate FirstAt(s: seq<Record>, h: string, i: nat)
    requires i < |s|
  {
    s[i].cmdhash == h && forall j :: 0 <= j < i ==> s[j].cmdhash != h
  }

  lemma {:induction false} FirstAtMore(s: seq<Record>, h: string)
    requires s != []
    ensures forall i :: 0 <= i < |s| - 1 && FirstAt(s[..|s| - 1], h, i) ==> FirstAt(s, h, i)
  {
  }

  /** They are in order of first occurrence: the hashes of the first records come first. */
  lemma {:induction false} HashesInOrder(s: seq<Record>, k: nat)
    requires k <= |s|
    ensures Hashes(s[..k]) <= Hashes(s)
    decreases |s|
  {
    if k == |s| {
      assert s[..k] == s;
    } else {
      HashesInOrder(s[..|s| - 1], k);
      assert s[..|s| - 1][..k] == s[..k];
    }
  }

  lemma {:induction false} HashesAreExact(s: seq<Record>, h: string)
    ensures h in Hashes(s) <==> exists i :: 0 <= i < |s| && s[i].cmdhash == h
    ensures h in Hashes(s) <==> FirstWith(s, h).Some?
    ensures h in Hashes(s) ==> exists i :: 0 <= i < |s| && FirstWith(s, h) == Some(s[i]) && FirstAt(s, h, i)
    ensures forall i, j :: 0 <= i < j < |Hashes(s)| ==> Hashes(s)[i] != Hashes(s)[j]
  {
    if s != [] {
      HashesAreExact(s[..|s| - 1], h);
      HashesAreExact(s[..|s| - 1], s[|s| - 1].cmdhash);
      assert s[|s| - 1].cmdhash == h ==> exists i :: 0 <= i < |s| && s[i].cmdhash == h;
      FirstAtMore(s, h);
    }
  }

  /** The records of hash `h` among the first `i`. */
  ghost function Places(s: seq<Record>, h: string, i: nat): set<int>
    requires i <= |s|
  {
    set j | 0 <= j < i && s[j].cmdhash == h
  }

  /** A group has as many names as there are records of its hash. */
  lemma {:induction false} GroupSize(s: seq<Record>, h: string, i: nat)
    requires i <= |s|
    ensures |NamesOf(s[..i], h)| == |Places(s, h, i)|
    decreases i
  {
    if i > 0 {
      GroupSize(s, h, i - 1);
      assert s[..i][..i - 1] == s[..i - 1];
      assert Places(s, h, i) == Places(s, h, i - 1) + if s[i - 1].cmdhash == h then {i - 1} else {};
    } else {
      assert Places(s, h, 0) == {};
    }
  }

  /** Each record's name stands in the group of its own hash, behind those of the earlier records. */
  lemma {:induction false} NameIsInItsGroup(s: seq<Record>, i: nat)
    requires i < |s|
    ensures var names, r := NamesOf(s, s[i].cmdhash), |Places(s, s[i].cmdhash, i)|;
            |names| == |Places(s, s[i].cmdhash, |s|)| && r < |names| && names[r] == s[i].name
    decreases |s|
  {
    var h := s[i].cmdhash;
    GroupSize(s, h, |s|);
    GroupSize(s, h, i);
    GroupSize(s, h, i + 1);
    assert s[..|s|] == s;
    NamesPrefix(s, h, i + 1);
    assert s[..i + 1][..i] == s[..i];
  }

  lemma {:induction false} NamesPrefix(s: seq<Record>, h: string, k: nat)
    requires k <= |s|
    ensures NamesOf(s[..k], h) <= NamesOf(s, h)
    decreases |s|
  {
    if k == |s| {
      assert s[..k] == s;
    } else {
      NamesPrefix(s[..|s| - 1], h, k);
      assert s[..|s| - 1][..k] == s[..k];
    }
  }

  // ---------------------------------------------------------------- the reader

  /** `t` is the target of hash `h` in the grouping of `s`. */
  ghost predicate Represents(t: Target, s: seq<Record>, h: string)
    reads t
  {
    && FirstWith(s, h).Some?
    && 1000.0 * t.start == FirstWith(s, h).value.start as real && 1000.0 * t.end == FirstWith(s, h).value.end as real
    && t.targets == NamesOf(s, h)
  }

  /** The insertion-ordered dictionary, as its keys and its values, groups the records `s`. */
  ghost predicate Grouped(keys: seq<string>, targets: seq<Target>, s: seq<Record>)
    reads targets
  {
    && keys == Hashes(s) && |targets| == |keys| && DistinctTargets(targets)
    && forall i :: 0 <= i < |keys| ==> Represents(targets[i], s, keys[i])
  }

  function IndexOf(keys: seq<string>, h: string): (i: nat)
    requires h in keys
    ensures i < |keys| && keys[i] == h
  {
    if keys[|keys| - 1] == h then |keys| - 1 else IndexOf(keys[..|keys| - 1], h)
  }

  /** The end of the last record, 0 before the first. */
  function LastEnd(rs: seq<Record>): real {
    if rs == [] then 0.0 else Seconds(rs[|rs| - 1].end)
  }

  /** The record `r` cannot be added to the groups of the current build. */
  predicate MustReset(keys: seq<string>, targets: seq<Target>, lastEnd: real, r: Record)
    requires |targets| == |keys|
  {
    || Seconds(r.end) < lastEnd
    || (r.cmdhash in keys &&
        var t := targets[IndexOf(keys, r.cmdhash)]; t.start != Seconds(r.start) || t.end != Seconds(r.end))
  }

  lemma {:induction false} SecondsOrder(a: int, b: int)
    ensures Seconds(a) < Seconds(b) <==> a < b
    ensures Seconds(a) == Seconds(b) <==> a == b
  {
  }

  lemma {:induction false} SameTimesAsFirst(s: seq<Record>, i: nat, r: Record)
    requires OneBuild(s) && i < |s| && s[i].cmdhash == r.cmdhash
    ensures SameTimes(s[i], r) <==> forall j :: 0 <= j < |s| && s[j].cmdhash == r.cmdhash ==> SameTimes(s[j], r)
  {
    forall j | 0 <= j < |s| && s[j].cmdhash == r.cmdhash && SameTimes(s[i], r) ensures SameTimes(s[j], r) {
      assert i == j || SameTimes(s[i], s[j]) || SameTimes(s[j], s[i]);
    }
  }

  /** The target of a command has the times of all its records. */
  lemma {:induction false} TargetTimes(s: seq<Record>, r: Record, t: Target)
    requires OneBuild(s) && Represents(t, s, r.cmdhash)
    ensures t.start == Seconds(r.start) && t.end == Seconds(r.end) <==>
            forall j :: 0 <= j < |s| && s[j].cmdhash == r.cmdhash ==> SameTimes(s[j], r)
  {
    HashesAreExact(s, r.cmdhash);
    var i :| 0 <= i < |s| && FirstWith(s, r.cmdhash) == Some(s[i]) && s[i].cmdhash == r.cmdhash;
    SecondsOrder(s[i].start, r.start);
    SecondsOrder(s[i].end, r.end);
    SameTimesAsFirst(s, i, r);
  }

  /** The reader starts over exactly at the records that clash with what it has. */
  lemma {:induction false} ResetIsClash(s: seq<Record>, r: Record, keys: seq<string>, targets: seq<Target>, lastEnd: real)
    requires OneBuild(s) && s != [] && Grouped(keys, targets, s) && lastEnd == Seconds(s[|s| - 1].end)
    ensures MustReset(keys, targets, lastEnd, r) <==> Clashes(s, r)
  {
    SecondsOrder(r.end, s[|s| - 1].end);
    HashesAreExact(s, r.cmdhash);
    if r.cmdhash in keys {
      TargetTimes(s, r, targets[IndexOf(keys, r.cmdhash)]);
    }
  }

  lemma {:induction false} ResetOfKept(rs: seq<Record>, r: Record, keys: seq<string>, targets: seq<Target>, lastEnd: real)
    requires Grouped(keys, targets, Kept(rs, false)) && rs != [] && lastEnd == Seconds(rs[|rs| - 1].end)
    ensures MustReset(keys, targets, lastEnd, r) <==> Clashes(Kept(rs, false), r)
  {
    KeptIsOneBuild(rs);
    LastIsKept(rs);
    ResetIsClash(Kept(rs, false), r, keys, targets, lastEnd);
  }

  lemma {:induction false} LastIsKept(rs: seq<Record>)
    requires rs != []
    ensures Kept(rs, false) != [] && Kept(rs, false)[|Kept(rs, false)| - 1] == rs[|rs| - 1]
  {
  }

  lemma {:induction false} NoNames(s: seq<Record>, h: string)
    requires h !in Hashes(s)
    ensures NamesOf(s, h) == []
  {
    if s != [] { NoNames(s[..|s| - 1], h); }
  }

  /** The grouping after one more record. */
  lemma {:induction false} GroupStep(s: seq<Record>, r: Record)
    ensures Hashes(s + [r]) == if r.cmdhash in Hashes(s) then Hashes(s) else Hashes(s) + [r.cmdhash]
    ensures forall h :: NamesOf(s + [r], h) == NamesOf(s, h) + if h == r.cmdhash then [r.name] else []
    ensures forall h :: FirstWith(s + [r], h) ==
              if FirstWith(s, h).Some? then FirstWith(s, h) else if h == r.cmdhash then Some(r) else None
  {
    var t := s + [r];
    assert t[..|t| - 1] == s;
  }

  /** Another command's record changes nothing for a target. */
  lemma {:induction false} RepresentsStill(t: Target, s: seq<Record>, r: Record, h: string)
    requires Represents(t, s, h) && h != r.cmdhash
    ensures Represents(t, s + [r], h)
  {
    GroupStep(s, r);
  }

  lemma {:induction false} GroupedMore(keys: seq<string>, targets: seq<Target>, target: Target, s: seq<Record>, r: Record)
    requires Grouped(keys, targets, s) && r.cmdhash !in keys
    requires Represents(target, s + [r], r.cmdhash) && forall i :: 0 <= i < |targets| ==> target != targets[i]
    ensures Grouped(keys + [r.cmdhash], targets + [target], s + [r])
  {
    GroupStep(s, r);
    forall i | 0 <= i < |keys| ensures Represents(targets[i], s + [r], keys[i]) {
      assert keys[i] in keys;
      RepresentsStill(targets[i], s, r, keys[i]);
    }
  }

  lemma {:induction false} FirstOfItsHash(s: seq<Record>, r: Record)
    requires r.cmdhash !in Hashes(s)
    ensures FirstWith(s + [r], r.cmdhash) == Some(r) && NamesOf(s + [r], r.cmdhash) == [r.name]
  {
    HashesAreExact(s, r.cmdhash);
    GroupStep(s, r);
    NoNames(s, r.cmdhash);
  }

  /** First record of a command: a new target. */
  method NewGroup(keys: seq<string>, targets: seq<Target>, r: Record, ghost s: seq<Record>)
    returns (keys': seq<string>, targets': seq<Target>)
    requires Grouped(keys, targets, s) && r.cmdhash !in keys
    ensures Grouped(keys', targets', s + [r])
    ensures targets <= targets' && |targets'| == |targets| + 1 && fresh(targets'[|targets|])
  {
    FirstOfItsHash(s, r);
    var target := new Target(Seconds(r.start), Seconds(r.end));
    target.targets := [r.name];
    assert Represents(target, s + [r], r.cmdhash);
    assert forall i :: 0 <= i < |targets| ==> target != targets[i];
    GroupedMore(keys, targets, target, s, r);
    keys', targets' := keys + [r.cmdhash], targets + [target];
  }

  /** Another output of a command: its target gets one more name. */
  method ExtendGroup(keys: seq<string>, targets: seq<Target>, r: Record, ghost s: seq<Record>)
    requires Grouped(keys, targets, s) && r.cmdhash in keys
    modifies targets
    ensures Grouped(keys, targets, s + [r])
  {
    var k := IndexOf(keys, r.cmdhash);
    var target := targets[k];
    assert Represents(target, s, r.cmdhash);
    NamedOnceMore(s, r);
    target.targets := target.targets + [r.name];
    assert Represents(target, s + [r], r.cmdhash);
    assert forall i :: 0 <= i < |keys| && i != k ==> targets[i] != target && Represents(targets[i], s, keys[i]);
    GroupedStill(keys, targets, k, s, r);
  }

  lemma {:induction false} NamedOnceMore(s: seq<Record>, r: Record)
    requires FirstWith(s, r.cmdhash).Some?
    ensures FirstWith(s + [r], r.cmdhash) == FirstWith(s, r.cmdhash)
    ensures NamesOf(s + [r], r.cmdhash) == NamesOf(s, r.cmdhash) + [r.name]
  {
    GroupStep(s, r);
  }

  lemma {:induction false} GroupedStill(keys: seq<string>, targets: seq<Target>, k: nat, s: seq<Record>, r: Record)
    requires keys == Hashes(s) && |targets| == |keys| && DistinctTargets(targets) && k < |keys| && keys[k] == r.cmdhash
    requires forall i :: 0 <= i < |keys| && i != k ==> Represents(targets[i], s, keys[i])
    requires Represents(targets[k], s + [r], r.cmdhash)
    ensures Grouped(keys, targets, s + [r])
  {
    GroupStep(s, r);
    HashesAreExact(s, r.cmdhash);
    forall i | 0 <= i < |keys| ensures Represents(targets[i], s + [r], keys[i]) {
      if i != k {
        RepresentsStill(targets[i], s, r, keys[i]);
      }
    }
  }

  /** What is kept after one more record. */
  lemma {:induction false} KeptNext(rs: seq<Record>, r: Record, showAll: bool, keys: seq<string>, targets: seq<Target>, lastEnd: real)
    requires Grouped(keys, targets, Kept(rs, showAll))
    requires lastEnd == LastEnd(rs)
    ensures Kept(rs + [r], showAll) ==
            (if !showAll && MustReset(keys, targets, lastEnd, r) then [] else Kept(rs, showAll)) + [r]
  {
    if !showAll {
      KeptGrows(rs, r);
      if rs == [] {
        NothingKept(rs, r);
      } else {
        ResetOfKept(rs, r, keys, targets, lastEnd);
      }
    }
  }

  lemma {:induction false} NothingKept(rs: seq<Record>, r: Record)
    requires rs == []
    ensures Kept(rs, false) == [] && !Clashes(Kept(rs, false), r)
  {
  }

  /** Starts over when the record cannot belong to the current build. */
  method StartOver(keys: seq<string>, targets: seq<Target>, lastEnd: real, rec: Record, showAll: bool, ghost s: seq<Record>)
    returns (keys': seq<string>, targets': seq<Target>)
    requires Grouped(keys, targets, s)
    ensures Grouped(keys', targets', if !showAll && MustReset(keys, targets, lastEnd, rec) then [] else s)
    ensures targets' == targets || targets' == []
  {
    keys', targets' := keys, targets;
    if !showAll && Seconds(rec.end) < lastEnd {
      keys', targets' := [], [];
    }
    if rec.cmdhash in keys' {
      var target := targets'[IndexOf(keys', rec.cmdhash)];
      if !showAll && (target.start != Seconds(rec.start) || target.end != Seconds(rec.end)) {
        keys', targets' := [], [];
      }
    }
  }

  /** One record: start over if need be, then add it. */
  method ReadRecord(
    keys: seq<string>, targets: seq<Target>, lastEnd: real, rec: Record, showAll: bool, ghost rs: seq<Record>)
    returns (keys': seq<string>, targets': seq<Target>)
    requires Grouped(keys, targets, Kept(rs, showAll)) && lastEnd == LastEnd(rs)
    modifies targets
    ensures Grouped(keys', targets', Kept(rs + [rec], showAll))
    ensures forall i :: 0 <= i < |targets'| ==> targets'[i] in targets || fresh(targets'[i])
  {
    KeptNext(rs, rec, showAll, keys, targets, lastEnd);
    ghost var kept := if !showAll && MustReset(keys, targets, lastEnd, rec) then [] else Kept(rs, showAll);
    keys', targets' := StartOver(keys, targets, lastEnd, rec, showAll, Kept(rs, showAll));
    if rec.cmdhash in keys' {
      ExtendGroup(keys', targets', rec, kept);
    } else {
      keys', targets' := NewGroup(keys', targets', rec, kept);
    }
  }

  lemma {:induction false} RecordsStep(lines: seq<Line>, i: nat)
    requires i < |lines| && !lines[i].BadNumber? && BadNumber !in lines[..i]
    ensures BadNumber !in lines[..i + 1]
    ensures Records(lines[..i + 1]) == if lines[i].Fields? then Records(lines[..i]) + [lines[i].rec] else Records(lines[..i])
    ensures lines[i].Fields? ==> LastEnd(Records(lines[..i + 1])) == Seconds(lines[i].rec.end)
  {
    assert lines[..i + 1] == lines[..i] + [lines[i]];
    assert lines[..i + 1][..i] == lines[..i];
    assert Records(lines[..i]) + [] == Records(lines[..i]);
  }

  /** The state of the reader before line `i`. */
  ghost predicate ReadSoFar(lines: seq<Line>, i: nat, keys: seq<string>, targets: seq<Target>, lastEnd: real, showAll: bool)
    reads targets
  {
    && i <= |lines| && BadNumber !in lines[..i] && lastEnd == LastEnd(Records(lines[..i]))
    && Grouped(keys, targets, Kept(Records(lines[..i]), showAll))
  }

  /** One line of the loop. */
  method ReadLine(lines: seq<Line>, i: nat, keys: seq<string>, targets: seq<Target>, lastEnd: real, showAll: bool)
    returns (keys': seq<string>, targets': seq<Target>, lastEnd': real)
    requires i < |lines| && !lines[i].BadNumber? && ReadSoFar(lines, i, keys, targets, lastEnd, showAll)
    modifies targets
    ensures ReadSoFar(lines, i + 1, keys', targets', lastEnd', showAll)
    ensures forall k :: 0 <= k < |targets'| ==> targets'[k] in targets || fresh(targets'[k])
  {
    RecordsStep(lines, i);
    keys', targets', lastEnd' := keys, targets, lastEnd;
    if lines[i].Fields? {
      keys', targets' := ReadRecord(keys, targets, lastEnd, lines[i].rec, showAll, Records(lines[..i]));
      lastEnd' := Seconds(lines[i].rec.end);
    }
  }

  /** The whole reader: the targets are the groups of the records kept, in order of first
      occurrence. It fails on another header and on a time stamp that is not an integer. */
  method ReadTargets(header: string, lines: seq<Line>, showAll: bool) returns (r: Result<seq<Target>>)
    ensures r == Failure(AssertionError) <==> header != "# ninja log v5\n"
    ensures r.Success? <==> header == "# ninja log v5\n" && BadNumber !in lines
    ensures r.Success? ==>
              && fresh(r.value)
              && Grouped(Hashes(Kept(Records(lines), showAll)), r.value, Kept(Records(lines), showAll))
  {
    if header != HEADER {
      return Failure(AssertionError);
    }
    var keys: seq<string>, targets: seq<Target> := [], [];
    var lastEnd := 0.0;
    for i := 0 to |lines|
      invariant fresh(targets) && ReadSoFar(lines, i, keys, targets, lastEnd, showAll)
    {
      if lines[i].BadNumber? {
        return Failure(ValueError);
      }
      keys, targets, lastEnd := ReadLine(lines, i, keys, targets, lastEnd, showAll);
    }
    assert lines[..|lines|] == lines;
    return Success(targets);
  }
}

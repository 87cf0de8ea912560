/** How far the unmet names of a scheduled graph are ordinary liveness, in which a name is live
    until the point that defines it under that name (vllm/env_override.py). */
module Liveness {
  import opened GraphPartition
  import opened GraphExecution

  /** Some point uses `x`, and no partition before that point defines it. */
  ghost predicate OrdinarilyLive(g: Graph, parts: seq<seq<Node>>, x: Name) {
    exists j: nat :: j <= |parts| && OrdinarilyLiveAt(g, parts, j, x)
  }

  ghost predicate OrdinarilyLiveAt(g: Graph, parts: seq<seq<Node>>, j: nat, x: Name)
    requires j <= |parts|
  {
    UsedAt(g, parts, j, x) && forall i :: 0 <= i < j ==> !Mentions(parts[i], Outputs, x)
  }

  /** A graph output that is a renamed version and is still to be defined. */
  predicate StaysOwed(g: Graph, parts: seq<seq<Node>>, x: Name) {
    x in g.realNames && x in g.outputNames && x in Gather(Flatten(parts), Outputs)
  }

  /** Partition `i` defines a graph output that is a version of `x`, without using `x`, and `x`
      is first used after `i`. */
  ghost predicate ReturnedEarlyAt(g: Graph, parts: seq<seq<Node>>, x: Name, i: nat, o: Name) {
    && i < |parts| && o in g.realNames && Real(g, o) == x && o in g.outputNames && Mentions(parts[i], Outputs, o)
    && (forall j: nat :: j <= i ==> !UsedAt(g, parts, j, x))
    && (exists j: nat :: i < j <= |parts| && UsedAt(g, parts, j, x))
  }

  ghost predicate ReturnedEarly(g: Graph, parts: seq<seq<Node>>, x: Name) {
    x !in g.realNames && x !in Gather(Flatten(parts), Outputs) && exists i: nat, o :: ReturnedEarlyAt(g, parts, x, i, o)
  }

  lemma {:induction false} InFlatten(parts: seq<seq<Node>>, x: Name)
    ensures x in Gather(Flatten(parts), Outputs) <==> exists i :: 0 <= i < |parts| && Mentions(parts[i], Outputs, x)
    decreases |parts|
  {
    if parts != [] {
      InFlatten(parts[1..], x);
      InGather(parts[0], Outputs, x);
      GatherAppend(parts[0], Flatten(parts[1..]), Outputs);
      if i :| 0 <= i < |parts[1..]| && Mentions(parts[1..][i], Outputs, x) {
        assert Mentions(parts[i + 1], Outputs, x);
      }
      if i :| 0 < i < |parts| && Mentions(parts[i], Outputs, x) {
        assert Mentions(parts[1..][i - 1], Outputs, x);
      }
    }
  }

  /** What a partition of a scheduled graph uses is not a renamed version, and is not defined
      there or later. */
  lemma {:induction false} UsesAreEarlier(g: Graph, parts: seq<seq<Node>>, defined: set<Name>, j: nat, x: Name)
    requires Stage(g, parts, defined) && j < |parts| && UsedAt(g, parts, j, x)
    ensures x !in g.realNames
    ensures forall i :: j <= i < |parts| ==> !Mentions(parts[i], Outputs, x)
    decreases |parts|
  {
    NextStage(g, parts, defined);
    if j == 0 {
      InputsAreTakenOrFreed(g, parts[0], x);
      InputsAreReal(g, parts[0], defined);
      DefinesFresh(g, Flatten(parts), defined);
      InFlatten(parts, x);
    } else {
      UsedLater(g, parts, j, x);
      UsesAreEarlier(g, parts[1..], defined + Gather(parts[0], Outputs), j - 1, x);
      forall i | j <= i < |parts| ensures !Mentions(parts[i], Outputs, x) {
        assert parts[i] == parts[1..][i - 1];
      }
    }
  }

  /** A renamed version is unmet iff it is a graph output, wherever it is defined. */
  lemma {:induction false} RenamedIsOutput(g: Graph, parts: seq<seq<Node>>, defined: set<Name>, x: Name)
    requires Stage(g, parts, defined) && x in g.realNames
    ensures x in Unmet(g, parts) <==> x in g.outputNames
    ensures OrdinarilyLive(g, parts, x) <==> x in g.outputNames && x !in Gather(Flatten(parts), Outputs)
  {
    RenamedIsUsed(g, parts, x);
    forall j: nat | j < |parts| ensures !UsedAt(g, parts, j, x) {
      if UsedAt(g, parts, j, x) { UsesAreEarlier(g, parts, defined, j, x); }
    }
    InFlatten(parts, x);
    assert UsedAt(g, parts, |parts|, x) <==> x in g.outputNames;
    assert OrdinarilyLive(g, parts, x) <==> OrdinarilyLiveAt(g, parts, |parts|, x);
  }

  /** What is handed out under another name is a graph output. */
  lemma {:induction false} SuppliedVersion(g: Graph, parts: seq<seq<Node>>, defined: set<Name>, i: nat, x: Name)
    requires Stage(g, parts, defined) && i < |parts| && Supplies(g, parts, i, x) && !Mentions(parts[i], Outputs, x)
    ensures exists o :: o in g.realNames && Real(g, o) == x && o in g.outputNames && Mentions(parts[i], Outputs, o)
  {
    var o, k: nat :| SuppliesVersion(g, parts, i, x, o, k);
    if k < |parts| { UsesAreEarlier(g, parts, defined, k, o); }
  }

  /** A storage that is still to be defined is neither unmet nor ordinarily live. */
  lemma {:induction false} UndefinedIsNotLive(g: Graph, parts: seq<seq<Node>>, defined: set<Name>, x: Name)
    requires Stage(g, parts, defined) && x !in g.realNames && x in Gather(Flatten(parts), Outputs)
    ensures x !in Unmet(g, parts) && !OrdinarilyLive(g, parts, x)
  {
    InFlatten(parts, x);
    var a: nat :| a < |parts| && Mentions(parts[a], Outputs, x);
    assert Supplies(g, parts, a, x);
    forall j: nat | j <= |parts| ensures !WantedAt(g, parts, j, x) && !OrdinarilyLiveAt(g, parts, j, x) {
      if j <= a && UsedAt(g, parts, j, x) { UsesAreEarlier(g, parts, defined, j, x); }
    }
    UnmetIsLiveness(g, parts, x);
  }

  ghost predicate UsedFirst(g: Graph, parts: seq<seq<Node>>, j: nat, x: Name)
    requires j <= |parts|
  {
    UsedAt(g, parts, j, x) && forall i: nat :: i < j ==> !UsedAt(g, parts, i, x)
  }

  lemma {:induction false} FirstUse(g: Graph, parts: seq<seq<Node>>, j: nat, x: Name) returns (first: nat)
    requires j <= |parts| && UsedAt(g, parts, j, x)
    ensures first <= j && UsedFirst(g, parts, first, x)
    decreases j
  {
    if i: nat :| i < j && UsedAt(g, parts, i, x) {
      first := FirstUse(g, parts, i, x);
    } else {
      first := j;
    }
  }

  /** A storage that is there already is unmet iff it is used and not returned early. */
  lemma {:induction false} DefinedIsLive(g: Graph, parts: seq<seq<Node>>, defined: set<Name>, x: Name)
    requires Stage(g, parts, defined) && x !in g.realNames && x !in Gather(Flatten(parts), Outputs)
    ensures x in Unmet(g, parts) <==> OrdinarilyLive(g, parts, x) && !ReturnedEarly(g, parts, x)
  {
    InFlatten(parts, x);
    UnmetIsLiveness(g, parts, x);
    if i: nat, o :| ReturnedEarlyAt(g, parts, x, i, o) {
      assert UsedAt(g, parts, |parts|, o);
      assert SuppliesVersion(g, parts, i, x, o, |parts|);
      forall j: nat | j <= |parts| ensures !WantedAt(g, parts, j, x) {
        assert i < j ==> Supplies(g, parts, i, x);
      }
    } else if OrdinarilyLive(g, parts, x) {
      var j: nat :| j <= |parts| && OrdinarilyLiveAt(g, parts, j, x);
      var first := FirstUse(g, parts, j, x);
      forall i: nat | i < first ensures !Supplies(g, parts, i, x) {
        if Supplies(g, parts, i, x) {
          SuppliedVersion(g, parts, defined, i, x);
          var o :| o in g.realNames && Real(g, o) == x && o in g.outputNames && Mentions(parts[i], Outputs, o);
          assert ReturnedEarlyAt(g, parts, x, i, o);
        }
      }
      assert WantedAt(g, parts, first, x);
    } else if j: nat :| j <= |parts| && WantedAt(g, parts, j, x) {
      assert OrdinarilyLiveAt(g, parts, j, x);
    }
  }

  /** The unmet names are the ordinarily live names, except for the two kinds of names above. */
  lemma {:induction false} OrdinaryLivenessIff(g: Graph, parts: seq<seq<Node>>, defined: set<Name>, x: Name)
    requires Stage(g, parts, defined)
    ensures (x in Unmet(g, parts) <==> OrdinarilyLive(g, parts, x)) <==>
            !StaysOwed(g, parts, x) && !ReturnedEarly(g, parts, x)
  {
    if x in g.realNames {
      RenamedIsOutput(g, parts, defined, x);
    } else if x in Gather(Flatten(parts), Outputs) {
      UndefinedIsNotLive(g, parts, defined, x);
    } else {
      DefinedIsLive(g, parts, defined, x);
      if i: nat, o :| ReturnedEarlyAt(g, parts, x, i, o) {
        var j: nat :| i < j <= |parts| && UsedAt(g, parts, j, x);
        InFlatten(parts, x);
        assert OrdinarilyLiveAt(g, parts, j, x);
      }
    }
  }

  /** An allocated storage is never returned early, since mutating it is using it: for allocated
      storages the unmet names are ordinary liveness. */
  lemma {:induction false} AllocatedStorageLiveness(g: Graph, parts: seq<seq<Node>>, defined: set<Name>, x: Name)
    requires Stage(g, parts, defined) && x !in g.realNames && !IsNoneLayout(g, x)
    ensures x in Unmet(g, parts) <==> OrdinarilyLive(g, parts, x)
  {
    OrdinaryLivenessIff(g, parts, defined, x);
    if ReturnedEarly(g, parts, x) {
      var i: nat, o :| ReturnedEarlyAt(g, parts, x, i, o);
      InFlatten(parts, x);
      MutationUses(g, parts, defined, i, o);
    }
  }

  lemma {:induction false} MutationUses(g: Graph, parts: seq<seq<Node>>, defined: set<Name>, i: nat, o: Name)
    requires Stage(g, parts, defined) && i < |parts| && Mentions(parts[i], Outputs, o) && !IsNoneLayout(g, Real(g, o))
    requires !Mentions(parts[i], Outputs, Real(g, o))
    ensures UsedAt(g, parts, i, Real(g, o))
    decreases i
  {
    NextStage(g, parts, defined);
    if i == 0 {
      InGather(parts[0], Outputs, o);
      InGather(parts[0], Outputs, Real(g, o));
      MutatedIsExternal(g, parts[0], defined, o);
      InputsAreTakenOrFreed(g, parts[0], Real(g, o));
    } else {
      MutationUses(g, parts[1..], defined + Gather(parts[0], Outputs), i - 1, o);
      UsedLater(g, parts, i, Real(g, o));
    }
  }

  /** A well-formed graph whose only partition defines a graph output that stays unmet. */
  lemma {:induction false} RenamedOutputStaysUnmet()
    ensures var g := Graph({"a"}, {}, {"b"}, map["b" := Buffer(true, true)], map["b" := "a"], {"a", "b"});
            var parts := [[Node({"b"}, {"a"}, {"b"}, {})]];
            && WellFormed(g, parts) && "b" in Unmet(g, parts)
            && Mentions(parts[0], Outputs, "b") && !OrdinarilyLive(g, parts, "b")
  {
    var g := Graph({"a"}, {}, {"b"}, map["b" := Buffer(true, true)], map["b" := "a"], {"a", "b"});
    var n := Node({"b"}, {"a"}, {"b"}, {});
    var parts := [[n]];
    SingletonIsWellFormed(g, n);
    WellFormedIsStage(g, parts);
    assert "b" in Get(parts[0][0], Outputs);
    InFlatten(parts, "b");
    RenamedIsOutput(g, parts, g.inputs + g.constants, "b");
  }

  lemma {:induction false} SingletonIsWellFormed(g: Graph, n: Node)
    requires g == Graph({"a"}, {}, {"b"}, map["b" := Buffer(true, true)], map["b" := "a"], {"a", "b"})
    requires n == Node({"b"}, {"a"}, {"b"}, {})
    ensures WellFormed(g, [[n]])
  {
    assert [[n]][1..] == [] && Flatten([[n]]) == [n] + Flatten([]);
    assert Flatten([[n]]) == [n];
    assert Gather([n], Outputs) == {"b"};
    assert "a" in Allocated(g, n.readNames + n.writeNames) - n.outputs;
    assert RealSet(g, g.outputNames) == {"a"};
  }

  /** Two graph outputs without storage, one a version of the other: the partition that defines
      the version takes the other one off the unmet names too early. */
  lemma {:induction false} EmptyStorageIsReturnedEarly()
    ensures var g := Graph({}, {}, {"n", "o"}, map["n" := Buffer(true, false), "o" := Buffer(true, true)], map["o" := "n"],
                           {"n", "o"});
            var parts := [[Node({"n"}, {}, {}, {})], [Node({"o"}, {}, {}, {})]];
            && WellFormed(g, parts) && "n" in g.outputNames
            && ReturnedEarly(g, parts[1..], "n") && "n" !in Unmet(g, parts[1..])
  {
    var g := Graph({}, {}, {"n", "o"}, map["n" := Buffer(true, false), "o" := Buffer(true, true)], map["o" := "n"], {"n", "o"});
    var n, o := Node({"n"}, {}, {}, {}), Node({"o"}, {}, {}, {});
    var parts := [[n], [o]];
    PairIsWellFormed(g, n, o);
    assert parts[1..] == [[o]];
    VersionReturnsIt(g, o);
  }

  lemma {:induction false} PairIsWellFormed(g: Graph, n: Node, o: Node)
    requires g == Graph({}, {}, {"n", "o"}, map["n" := Buffer(true, false), "o" := Buffer(true, true)], map["o" := "n"], {"n", "o"})
    requires n == Node({"n"}, {}, {}, {}) && o == Node({"o"}, {}, {}, {})
    ensures WellFormed(g, [[n], [o]])
  {
    var parts := [[n], [o]];
    assert parts[1..] == [[o]] && parts[1..][1..] == [];
    assert Flatten([[o]]) == [o] + [] == [o];
    assert Flatten(parts) == [n] + [o] == [n, o] && [n, o][1..] == [o] && [o][1..] == [];
    GatherSingle(n);
    GatherSingle(o);
    GatherAppend([n], [o], Outputs);
    assert RealSet(g, g.outputNames) == {"n"};
  }

  lemma {:induction false} VersionReturnsIt(g: Graph, o: Node)
    requires g == Graph({}, {}, {"n", "o"}, map["n" := Buffer(true, false), "o" := Buffer(true, true)], map["o" := "n"], {"n", "o"})
    requires o == Node({"o"}, {}, {}, {})
    ensures ReturnedEarly(g, [[o]], "n") && "n" !in Unmet(g, [[o]])
  {
    var parts := [[o]];
    assert parts[1..] == [] && Flatten(parts) == [o] + [] == [o];
    GatherSingle(o);
    assert "o" in Get(parts[0][0], Outputs) && Mentions(parts[0], Outputs, "o");
    assert RealSet(g, g.outputNames) == {"n"};
    assert UsedAt(g, parts, 1, "n");
    forall f, x ensures f != Outputs ==> !Mentions(parts[0], f, x) {
    }
    assert ReturnedEarlyAt(g, parts, "n", 0, "o");
    DefinedIsLive(g, parts, {"n"}, "n");
  }
}

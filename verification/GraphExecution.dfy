/** What a partitioned graph means, and the proof that running the partitions one by one,
    each given only what its signature declares, computes the outputs of the whole graph. */
module GraphExecution {
  import opened Wrappers
  import opened GraphPartition

  // ---------------------------------------------------------------- meaning of a graph

  /** What a node computes for each storage it writes, from the storages it needs. */
  type Kernel<!V> = (Node, Name, map<Name, V>) -> V

  /** The storages a node must find: everything it touches, except what it defines itself. */
  function Needs(g: Graph, n: Node): set<Name> {
    RealSet(g, Allocated(g, n.readNames + n.writeNames) - n.outputs)
  }

  function Stores(g: Graph, n: Node): set<Name> {
    RealSet(g, Allocated(g, n.outputs))
  }

  function Restrict<V>(env: map<Name, V>, names: set<Name>): map<Name, V> {
    map n | n in names && n in env :: env[n]
  }

  function RunNode<V>(g: Graph, kernel: Kernel<V>, n: Node, env: map<Name, V>): Option<map<Name, V>> {
    if Needs(g, n) <= env.Keys
    then Some(env + map s | s in Stores(g, n) :: kernel(n, s, Restrict(env, Needs(g, n))))
    else None
  }

  /** All nodes in one environment; nothing is ever freed. */
  function RunGraph<V>(g: Graph, kernel: Kernel<V>, ns: seq<Node>, env: map<Name, V>): Option<map<Name, V>>
    decreases |ns|
  {
    if ns == [] then Some(env)
    else
      match RunNode(g, kernel, ns[0], env)
      case None => None
      case Some(env') => RunGraph(g, kernel, ns[1..], env')
  }

  /** The body of a partition function: each buffer is freed right after its last use. */
  function RunBody<V>(g: Graph, kernel: Kernel<V>, ns: seq<Node>, env: map<Name, V>): Option<map<Name, V>>
    decreases |ns|
  {
    if ns == [] then Some(env)
    else
      match RunNode(g, kernel, ns[0], env)
      case None => None
      case Some(env') => RunBody(g, kernel, ns[1..], env' - ns[0].lastUsage)
  }

  function Deallocated(sig: Signature): set<Name> {
    set n | n in sig.deallocation && sig.deallocation[n]
  }

  /** One call of a partition function: it sees its declared inputs and constants only; the
      caller keeps its declared outputs and drops the inputs marked as deallocated. */
  function CallPartition<V>(
    g: Graph, kernel: Kernel<V>, consts: map<Name, V>, p: seq<Node>, sig: Signature, env: map<Name, V>
  ): Option<map<Name, V>> {
    if !(sig.inputs <= env.Keys && sig.constants <= consts.Keys) then None
    else
      match RunBody(g, kernel, p, Restrict(env, sig.inputs) + Restrict(consts, sig.constants))
      case None => None
      case Some(local) =>
        if sig.outputs <= local.Keys
        then Some((env - Deallocated(sig)) + Restrict(local, sig.outputs))
        else None
  }

  function RunPartitions<V>(
    g: Graph, kernel: Kernel<V>, consts: map<Name, V>, parts: seq<seq<Node>>, sigs: seq<Signature>, env: map<Name, V>
  ): Option<map<Name, V>>
    requires |parts| == |sigs|
    decreases |parts|
  {
    if parts == [] then Some(env)
    else
      match CallPartition(g, kernel, consts, parts[0], sigs[0], env)
      case None => None
      case Some(env') => RunPartitions(g, kernel, consts, parts[1..], sigs[1..], env')
  }

  function Flatten(parts: seq<seq<Node>>): seq<Node> {
    if parts == [] then [] else parts[0] + Flatten(parts[1..])
  }

  // ---------------------------------------------------------------- what the scheduler hands over

  /** Single assignment in dependency order. A node that mutates a storage also depends on an
      earlier version of it, and last uses are real names of buffers that exist by then. */
  ghost predicate Scheduled(g: Graph, ns: seq<Node>, defined: set<Name>)
    decreases |ns|
  {
    ns == [] || (
      var n := ns[0];
      && n.outputs !! defined
      && n.readNames + n.writeNames <= defined + n.outputs
      && (forall o :: o in n.outputs && Real(g, o) != o && !IsNoneLayout(g, o) ==> Real(g, o) in Needs(g, n))
      && (forall f :: f in n.lastUsage ==> f !in g.realNames && (f in g.nodeNames ==> f in defined + n.outputs))
      && Scheduled(g, ns[1..], defined + n.outputs))
  }

  /** Storages used or freed by `ns`. */
  function Uses(g: Graph, ns: seq<Node>): set<Name> {
    RealSet(g, Allocated(g, Gather(ns, Touched))) + Gather(ns, Freed)
  }

  /** A last use is the last: nothing in the rest of `ns`, nor in `after`, uses the buffer. */
  ghost predicate LastUses(g: Graph, ns: seq<Node>, after: set<Name>)
    decreases |ns|
  {
    ns == [] || (ns[0].lastUsage !! Uses(g, ns[1..]) + after && LastUses(g, ns[1..], after))
  }

  /** The facts about a scheduled graph that the pass relies on. */
  ghost predicate WellFormed(g: Graph, parts: seq<seq<Node>>) {
    var ns := Flatten(parts);
    var defined := g.inputs + g.constants;
    && g.inputs !! g.constants
    && g.nodeNames == g.inputs + Gather(ns, Outputs)
    && g.buffers.Keys <= Gather(ns, Outputs)
    && g.realNames.Keys <= Gather(ns, Outputs)
    && (forall k :: k in g.realNames ==> g.realNames[k] !in g.constants)
    && (forall k :: k in g.realNames ==> (IsNoneLayout(g, k) <==> IsNoneLayout(g, g.realNames[k])))
    && g.outputNames <= defined + Gather(ns, Outputs)
    && Scheduled(g, ns, defined)
    && LastUses(g, ns, RealSet(g, g.outputNames))
  }

  /** No partition frees a buffer without storage that another partition defined. */
  predicate FreesOnlyAllocated(g: Graph, parts: seq<seq<Node>>) {
    forall i :: 0 <= i < |parts| ==>
      Allocated(g, (Gather(parts[i], Freed) - Gather(parts[i], Outputs)) * g.nodeNames)
      == (Gather(parts[i], Freed) - Gather(parts[i], Outputs)) * g.nodeNames
  }

  // ---------------------------------------------------------------- schedules split at partition boundaries

  lemma {:induction false} ScheduledSplit(g: Graph, p: seq<Node>, q: seq<Node>, defined: set<Name>)
    requires Scheduled(g, p + q, defined)
    ensures Scheduled(g, p, defined) && Scheduled(g, q, defined + Gather(p, Outputs))
    decreases |p|
  {
    if p == [] {
      assert p + q == q && defined + {} == defined;
    } else {
      assert (p + q)[1..] == p[1..] + q;
      ScheduledSplit(g, p[1..], q, defined + p[0].outputs);
      assert defined + p[0].outputs + Gather(p[1..], Outputs) == defined + Gather(p, Outputs);
    }
  }

  lemma {:induction false} UsesAppend(g: Graph, p: seq<Node>, q: seq<Node>)
    ensures Uses(g, p + q) == Uses(g, p) + Uses(g, q)
  {
    GatherAppend(p, q, Touched);
    GatherAppend(p, q, Freed);
    assert Allocated(g, Gather(p + q, Touched)) == Allocated(g, Gather(p, Touched)) + Allocated(g, Gather(q, Touched));
  }

  lemma {:induction false} LastUsesSplit(g: Graph, p: seq<Node>, q: seq<Node>, after: set<Name>)
    requires LastUses(g, p + q, after)
    ensures LastUses(g, p, Uses(g, q) + after) && LastUses(g, q, after)
    decreases |p|
  {
    if p == [] {
      assert p + q == q;
    } else {
      assert (p + q)[1..] == p[1..] + q;
      UsesAppend(g, p[1..], q);
      LastUsesSplit(g, p[1..], q, after);
    }
  }

  lemma {:induction false} FreedNotUsedAfter(g: Graph, p: seq<Node>, after: set<Name>)
    requires LastUses(g, p, after)
    ensures Gather(p, Freed) !! after
    decreases |p|
  {
    if p != [] { FreedNotUsedAfter(g, p[1..], after); }
  }

  lemma {:induction false} DefinesFresh(g: Graph, p: seq<Node>, defined: set<Name>)
    requires Scheduled(g, p, defined)
    ensures Gather(p, Outputs) !! defined
    ensures Gather(p, Touched) <= defined + Gather(p, Outputs)
    ensures forall f :: f in Gather(p, Freed) ==>
              f !in g.realNames && (f in g.nodeNames ==> f in defined + Gather(p, Outputs))
    decreases |p|
  {
    if p != [] { DefinesFresh(g, p[1..], defined + p[0].outputs); }
  }

  // ---------------------------------------------------------------- inside one partition

  /** Every storage that has a version in `defined` is itself in `defined`. */
  ghost predicate Closed(g: Graph, defined: set<Name>) {
    forall d :: d in defined && !IsNoneLayout(g, d) ==> Real(g, d) in defined
  }

  lemma {:induction false} NodeKeepsClosed(g: Graph, n: Node, defined: set<Name>)
    requires Scheduled(g, [n], defined) && Closed(g, defined)
    ensures Needs(g, n) <= defined
    ensures Closed(g, defined + n.outputs)
  {
    forall x | x in Needs(g, n) ensures x in defined {
      var d :| d in Allocated(g, n.readNames + n.writeNames) - n.outputs && Real(g, d) == x;
    }
  }

  lemma {:induction false} PartitionKeepsClosed(g: Graph, p: seq<Node>, defined: set<Name>)
    requires Scheduled(g, p, defined) && Closed(g, defined)
    ensures Closed(g, defined + Gather(p, Outputs))
    decreases |p|
  {
    if p == [] {
      assert defined + {} == defined;
    } else {
      NodeKeepsClosed(g, p[0], defined);
      PartitionKeepsClosed(g, p[1..], defined + p[0].outputs);
      assert defined + p[0].outputs + Gather(p[1..], Outputs) == defined + Gather(p, Outputs);
    }
  }

  function StoresAll(g: Graph, ns: seq<Node>): set<Name> {
    RealSet(g, Allocated(g, Gather(ns, Outputs)))
  }

  /** What the touched names need from outside the partition. */
  function External(g: Graph, p: seq<Node>): set<Name> {
    RealSet(g, Allocated(g, Gather(p, Touched)) - Gather(p, Outputs))
  }

  /** A partition that mutates a storage it did not define takes that storage as an input. */
  lemma {:induction false} MutatedIsExternal(g: Graph, p: seq<Node>, defined: set<Name>, o: Name)
    requires Scheduled(g, p, defined) && Closed(g, defined)
    requires o in Gather(p, Outputs) && !IsNoneLayout(g, o) && Real(g, o) !in Gather(p, Outputs)
    ensures Real(g, o) in External(g, p)
    decreases |p|
  {
    var n := p[0];
    NodeKeepsClosed(g, n, defined);
    DefinesFresh(g, p, defined);
    if o in n.outputs {
      var d :| d in Allocated(g, n.readNames + n.writeNames) - n.outputs && Real(g, d) == Real(g, o);
      assert d in Allocated(g, Gather(p, Touched)) - Gather(p, Outputs);
    } else {
      MutatedIsExternal(g, p[1..], defined + n.outputs, o);
      var d :| d in Allocated(g, Gather(p[1..], Touched)) - Gather(p[1..], Outputs) && Real(g, d) == Real(g, o);
      if d in n.outputs {
        ExternalOfVersion(g, p, defined, d);
      } else {
        assert d in Allocated(g, Gather(p, Touched)) - Gather(p, Outputs);
      }
    }
  }

  /** The same, for a version defined by the first node of the partition. */
  lemma {:induction false} ExternalOfVersion(g: Graph, p: seq<Node>, defined: set<Name>, d: Name)
    requires p != [] && Scheduled(g, p, defined)
    requires d in p[0].outputs && !IsNoneLayout(g, d) && Real(g, d) !in Gather(p, Outputs)
    ensures Real(g, d) in External(g, p)
  {
    DefinesFresh(g, p, defined);
    var e :| e in Allocated(g, p[0].readNames + p[0].writeNames) - p[0].outputs && Real(g, e) == Real(g, d);
    assert e in Allocated(g, Gather(p, Touched)) - Gather(p, Outputs);
  }

  /** `known` covers what each node needs, as the body frees and defines buffers. */
  ghost predicate Supplied(g: Graph, p: seq<Node>, known: set<Name>)
    decreases |p|
  {
    p == [] || (Needs(g, p[0]) <= known && Supplied(g, p[1..], (known + Stores(g, p[0])) - p[0].lastUsage))
  }

  lemma {:induction false} ExternalSuffices(g: Graph, p: seq<Node>, defined: set<Name>, after: set<Name>, known: set<Name>)
    requires Scheduled(g, p, defined) && LastUses(g, p, after)
    requires External(g, p) <= known
    ensures Supplied(g, p, known)
    decreases |p|
  {
    if p != [] {
      var n, rest := p[0], p[1..];
      DefinesFresh(g, p, defined);
      forall x | x in Needs(g, n) ensures x in known {
        var d :| d in Allocated(g, n.readNames + n.writeNames) - n.outputs && Real(g, d) == x;
        assert d in Allocated(g, Gather(p, Touched)) - Gather(p, Outputs);
      }
      var known' := (known + Stores(g, n)) - n.lastUsage;
      forall x | x in External(g, rest) ensures x in known' {
        var d :| d in Allocated(g, Gather(rest, Touched)) - Gather(rest, Outputs) && Real(g, d) == x;
        assert x in Uses(g, rest);
        if d in n.outputs {
          assert d in Allocated(g, n.outputs);
        } else {
          assert d in Allocated(g, Gather(p, Touched)) - Gather(p, Outputs);
        }
      }
      ExternalSuffices(g, rest, defined + n.outputs, after, known');
    }
  }

  ghost predicate AgreeOn<V>(a: map<Name, V>, b: map<Name, V>, names: set<Name>) {
    names <= a.Keys && names <= b.Keys && forall n :: n in names ==> a[n] == b[n]
  }

  /** A partition body started on part of the full environment tracks the full run on
      everything it was given or defined, except what it freed. */
  lemma {:induction false} BodyTracksGraph<V>(g: Graph, kernel: Kernel<V>, p: seq<Node>, a: map<Name, V>, b: map<Name, V>, known: set<Name>)
    requires Supplied(g, p, known) && AgreeOn(a, b, known)
    ensures RunBody(g, kernel, p, a).Some? && RunGraph(g, kernel, p, b).Some?
    ensures AgreeOn(RunBody(g, kernel, p, a).value, RunGraph(g, kernel, p, b).value,
                    (known + StoresAll(g, p)) - Gather(p, Freed))
    decreases |p|
  {
    if p == [] {
      assert StoresAll(g, p) == {};
    } else {
      var n := p[0];
      assert Restrict(a, Needs(g, n)) == Restrict(b, Needs(g, n));
      var a', b' := RunNode(g, kernel, n, a).value, RunNode(g, kernel, n, b).value;
      var known' := (known + Stores(g, n)) - n.lastUsage;
      assert AgreeOn(a' - n.lastUsage, b', known');
      BodyTracksGraph(g, kernel, p[1..], a' - n.lastUsage, b', known');
      KnownCons(g, p, known);
    }
  }

  lemma {:induction false} KnownCons(g: Graph, p: seq<Node>, known: set<Name>)
    requires p != []
    ensures (known + StoresAll(g, p)) - Gather(p, Freed)
         <= (known + Stores(g, p[0])) - p[0].lastUsage + StoresAll(g, p[1..]) - Gather(p[1..], Freed)
  {
    StoresCons(g, p);
  }

  lemma {:induction false} StoresCons(g: Graph, p: seq<Node>)
    requires p != []
    ensures StoresAll(g, p) == Stores(g, p[0]) + StoresAll(g, p[1..])
  {
    assert Allocated(g, Gather(p, Outputs)) == Allocated(g, p[0].outputs) + Allocated(g, Gather(p[1..], Outputs));
  }

  lemma {:induction false} GraphFrame<V>(g: Graph, kernel: Kernel<V>, p: seq<Node>, b: map<Name, V>)
    requires RunGraph(g, kernel, p, b).Some?
    ensures b.Keys <= RunGraph(g, kernel, p, b).value.Keys
    ensures forall n :: n in b && n !in StoresAll(g, p) ==> RunGraph(g, kernel, p, b).value[n] == b[n]
    decreases |p|
  {
    if p != [] {
      StoresCons(g, p);
      GraphFrame(g, kernel, p[1..], RunNode(g, kernel, p[0], b).value);
    }
  }

  lemma {:induction false} RunGraphAppend<V>(g: Graph, kernel: Kernel<V>, p: seq<Node>, q: seq<Node>, b: map<Name, V>)
    requires RunGraph(g, kernel, p, b).Some?
    ensures RunGraph(g, kernel, p + q, b) == RunGraph(g, kernel, q, RunGraph(g, kernel, p, b).value)
    decreases |p|
  {
    if p == [] {
      assert p + q == q;
    } else {
      assert (p + q)[1..] == p[1..] + q;
      RunGraphAppend(g, kernel, p[1..], q, RunNode(g, kernel, p[0], b).value);
    }
  }

  // ---------------------------------------------------------------- across partitions

  /** What is left of well-formedness when the partitions before `parts` have run and
      have defined `defined`. */
  ghost predicate Stage(g: Graph, parts: seq<seq<Node>>, defined: set<Name>) {
    var ns := Flatten(parts);
    && g.constants <= defined && g.constants !! g.nodeNames
    && g.nodeNames + g.constants == defined + Gather(ns, Outputs)
    && g.realNames.Keys <= g.nodeNames
    && (forall k :: k in g.realNames ==> g.realNames[k] !in g.constants)
    && (forall k :: k in g.realNames ==> (IsNoneLayout(g, k) <==> IsNoneLayout(g, g.realNames[k])))
    && g.outputNames <= defined + Gather(ns, Outputs)
    && Closed(g, defined)
    && Scheduled(g, ns, defined)
    && LastUses(g, ns, RealSet(g, g.outputNames))
  }

  lemma {:induction false} WellFormedIsStage(g: Graph, parts: seq<seq<Node>>)
    requires WellFormed(g, parts)
    ensures Stage(g, parts, g.inputs + g.constants)
  {
    DefinesFresh(g, Flatten(parts), g.inputs + g.constants);
  }

  lemma {:induction false} NextStage(g: Graph, parts: seq<seq<Node>>, defined: set<Name>)
    requires Stage(g, parts, defined) && parts != []
    ensures Scheduled(g, parts[0], defined)
    ensures LastUses(g, parts[0], Uses(g, Flatten(parts[1..])) + RealSet(g, g.outputNames))
    ensures Stage(g, parts[1..], defined + Gather(parts[0], Outputs))
  {
    var p, rest := parts[0], Flatten(parts[1..]);
    ScheduledSplit(g, p, rest, defined);
    LastUsesSplit(g, p, rest, RealSet(g, g.outputNames));
    PartitionKeepsClosed(g, p, defined);
    GatherAppend(p, rest, Outputs);
    assert defined + Gather(p + rest, Outputs) == defined + Gather(p, Outputs) + Gather(rest, Outputs);
  }

  /** The storages whose contents still matter before `parts` run. */
  function Live(g: Graph, parts: seq<seq<Node>>): set<Name> {
    if parts == [] then Allocated(g, RealSet(g, g.outputNames)) * g.nodeNames
    else InputNames(g, parts[0]) * g.nodeNames + (Live(g, parts[1..]) - Gather(parts[0], Outputs))
  }

  lemma {:induction false} InputsAreReal(g: Graph, p: seq<Node>, defined: set<Name>)
    requires Scheduled(g, p, defined) && Closed(g, defined)
    ensures forall x :: x in InputNames(g, p) ==> x !in g.realNames
    ensures InputNames(g, p) * (g.nodeNames + g.constants) <= defined
    ensures InputNames(g, p) <= Uses(g, p)
    ensures External(g, p) <= defined
  {
    DefinesFresh(g, p, defined);
    forall x | x in External(g, p) ensures x in Uses(g, p) && x in defined && x !in g.realNames {
      var d :| d in Allocated(g, Gather(p, Touched)) - Gather(p, Outputs) && Real(g, d) == x;
    }
  }

  lemma {:induction false} LiveIsReal(g: Graph, parts: seq<seq<Node>>, defined: set<Name>)
    requires Stage(g, parts, defined) && FreesOnlyAllocated(g, parts)
    ensures forall x :: x in Live(g, parts) ==> x !in g.realNames && !IsNoneLayout(g, x) && x in g.nodeNames
    ensures Live(g, parts) <= Uses(g, Flatten(parts)) + RealSet(g, g.outputNames)
    decreases |parts|
  {
    if parts != [] {
      var p := parts[0];
      NextStage(g, parts, defined);
      LiveIsReal(g, parts[1..], defined + Gather(p, Outputs));
      InputsAreReal(g, p, defined);
      UsesAppend(g, p, Flatten(parts[1..]));
      forall x | x in InputNames(g, p) ensures x in g.nodeNames ==> !IsNoneLayout(g, x) {
        InputsAreAllocated(g, p, x);
      }
    }
  }

  lemma {:induction false} InputsAreAllocated(g: Graph, p: seq<Node>, x: Name)
    requires forall k :: k in g.realNames ==> (IsNoneLayout(g, k) <==> IsNoneLayout(g, g.realNames[k]))
    requires FreesOnlyAllocated(g, [p]) || x in External(g, p)
    requires x in InputNames(g, p)
    ensures !IsNoneLayout(g, x)
  {
    if x in External(g, p) {
      var d :| d in Allocated(g, Gather(p, Touched)) - Gather(p, Outputs) && Real(g, d) == x;
    } else {
      assert FreesOnlyAllocated(g, [p]) && [p][0] == p;
      assert x in Allocated(g, (Gather(p, Freed) - Gather(p, Outputs)) * g.nodeNames);
    }
  }

  lemma {:induction false} LiveIsDefined(g: Graph, parts: seq<seq<Node>>, defined: set<Name>)
    requires Stage(g, parts, defined) && FreesOnlyAllocated(g, parts)
    ensures Live(g, parts) <= defined
    decreases |parts|
  {
    if parts == [] {
      forall x | x in Live(g, parts) ensures x in defined {
        var o :| o in g.outputNames && Real(g, o) == x;
      }
    } else {
      NextStage(g, parts, defined);
      LiveIsDefined(g, parts[1..], defined + Gather(parts[0], Outputs));
      InputsAreReal(g, parts[0], defined);
    }
  }

  /** A storage that matters later is asked for: under its own name, or under the name of
      a graph output that is a version of it. */
  lemma {:induction false} LiveIsUnmet(g: Graph, parts: seq<seq<Node>>, defined: set<Name>, s: Name)
    requires Stage(g, parts, defined) && FreesOnlyAllocated(g, parts)
    requires s in Live(g, parts)
    ensures s in Unmet(g, parts) || exists o :: o in defined * Unmet(g, parts) && Real(g, o) == s
    decreases |parts|
  {
    if parts == [] {
      var o :| o in g.outputNames && Real(g, o) == s;
    } else if s !in InputNames(g, parts[0]) {
      var p, rest := parts[0], parts[1..];
      LiveIsReal(g, parts, defined);
      NextStage(g, parts, defined);
      InputsAreReal(g, p, defined);
      LiveIsUnmet(g, rest, defined + Gather(p, Outputs), s);
      var returned := Returned(g, p, Unmet(g, rest));
      if s in Unmet(g, rest) {
        if s in returned {
          var o :| o in Gather(p, Outputs) * Unmet(g, rest) + ExtraOutputs(g, p) && Real(g, o) == s;
          MutatedIsExternal(g, p, defined, o);
        }
      } else {
        var o :| o in (defined + Gather(p, Outputs)) * Unmet(g, rest) && Real(g, o) == s;
        if o in Gather(p, Outputs) {
          MutatedIsExternal(g, p, defined, o);
        } else {
          assert o in g.realNames;
        }
      }
    }
  }

  /** Everything a partition must return is still there when its body ends. */
  lemma {:induction false} ReturnedSurvives(g: Graph, parts: seq<seq<Node>>, defined: set<Name>, x: Name)
    requires Stage(g, parts, defined) && parts != []
    requires x in Allocated(g, Returned(g, parts[0], Unmet(g, parts[1..])))
    ensures x in InputNames(g, parts[0]) * g.nodeNames + StoresAll(g, parts[0])
    ensures x !in Gather(parts[0], Freed) && x in g.nodeNames
  {
    var p, rest := parts[0], parts[1..];
    var o :| o in Gather(p, Outputs) * Unmet(g, rest) + ExtraOutputs(g, p) && Real(g, o) == x;
    NextStage(g, parts, defined);
    if o in ExtraOutputs(g, p) {
      InputsAreReal(g, p, defined);
    } else {
      OutputSurvives(g, parts, defined, o);
    }
  }

  lemma {:induction false} OutputSurvives(g: Graph, parts: seq<seq<Node>>, defined: set<Name>, o: Name)
    requires Stage(g, parts, defined) && parts != []
    requires o in Gather(parts[0], Outputs) * Unmet(g, parts[1..]) && !IsNoneLayout(g, Real(g, o))
    ensures Real(g, o) in StoresAll(g, parts[0])
    ensures Real(g, o) !in Gather(parts[0], Freed) && Real(g, o) in g.nodeNames
  {
    var p, rest := parts[0], parts[1..];
    NextStage(g, parts, defined);
    assert o in Allocated(g, Gather(p, Outputs));
    assert Real(g, o) in RealSet(g, Unmet(g, rest));
    UnmetIsUsed(g, rest, defined + Gather(p, Outputs));
    FreedNotUsedAfter(g, p, Uses(g, Flatten(rest)) + RealSet(g, g.outputNames));
    PartitionKeepsClosed(g, p, defined);
    GatherAppend(p, Flatten(rest), Outputs);
    DefinesFresh(g, p, defined);
  }

  /** The pass never looks up a name that name_to_node lacks. */
  lemma {:induction false} WellFormedIsResolvable(g: Graph, parts: seq<seq<Node>>, defined: set<Name>)
    requires Stage(g, parts, defined)
    ensures Resolvable(g, parts)
    decreases |parts|
  {
    if parts != [] {
      forall x | x in Allocated(g, Returned(g, parts[0], Unmet(g, parts[1..]))) ensures x in g.nodeNames {
        ReturnedSurvives(g, parts, defined, x);
      }
      NextStage(g, parts, defined);
      WellFormedIsResolvable(g, parts[1..], defined + Gather(parts[0], Outputs));
    }
  }

  lemma {:induction false} UnmetIsUsed(g: Graph, parts: seq<seq<Node>>, defined: set<Name>)
    requires Stage(g, parts, defined)
    ensures RealSet(g, Unmet(g, parts)) <= Uses(g, Flatten(parts)) + RealSet(g, g.outputNames)
    decreases |parts|
  {
    if parts != [] {
      var p, rest := parts[0], parts[1..];
      NextStage(g, parts, defined);
      InputsAreReal(g, p, defined);
      UnmetIsUsed(g, rest, defined + Gather(p, Outputs));
      UsesAppend(g, p, Flatten(rest));
      forall x | x in RealSet(g, Unmet(g, parts)) ensures x in Uses(g, Flatten(parts)) + RealSet(g, g.outputNames) {
        var o :| o in Unmet(g, parts) && Real(g, o) == x;
        if o !in InputNames(g, p) {
          assert x in RealSet(g, Unmet(g, rest));
        }
      }
    }
  }

  lemma {:induction false} StoresNoConstants(g: Graph, parts: seq<seq<Node>>, defined: set<Name>)
    requires Stage(g, parts, defined) && parts != []
    ensures StoresAll(g, parts[0]) !! g.constants
  {
    NextStage(g, parts, defined);
    DefinesFresh(g, parts[0], defined);
    GatherAppend(parts[0], Flatten(parts[1..]), Outputs);
  }

  /** A storage that is live after a partition is one of its outputs, or was live before it,
      is not one of its inputs and is not written by it. */
  lemma {:induction false} LiveStaysCorrect(g: Graph, parts: seq<seq<Node>>, skip: bool, defined: set<Name>, s: Name)
    requires Stage(g, parts, defined) && FreesOnlyAllocated(g, parts) && parts != []
    requires s in Live(g, parts[1..])
    ensures var sig := SignatureOf(g, parts[0], Unmet(g, parts[1..]), skip);
            s in sig.outputs ||
            (s in Live(g, parts) && s !in sig.inputs && s !in StoresAll(g, parts[0]))
  {
    var p, rest := parts[0], parts[1..];
    NextStage(g, parts, defined);
    var defined' := defined + Gather(p, Outputs);
    LiveIsReal(g, rest, defined');
    FreedNotUsedAfter(g, p, Uses(g, Flatten(rest)) + RealSet(g, g.outputNames));
    if s in Gather(p, Outputs) {
      DefinesFresh(g, p, defined);
      LiveIsUnmet(g, rest, defined', s);
      if s in Unmet(g, rest) {
        assert Real(g, s) == s;
      } else {
        var o :| o in defined' * Unmet(g, rest) && Real(g, o) == s;
        assert o in Gather(p, Outputs);
      }
      assert s in Returned(g, p, Unmet(g, rest));
    } else if s in InputNames(g, p) {
      assert s in ExtraOutputs(g, p) && Real(g, s) == s;
      assert s in Returned(g, p, Unmet(g, rest));
    } else if s in StoresAll(g, p) {
      var o :| o in Allocated(g, Gather(p, Outputs)) && Real(g, o) == s;
      MutatedIsExternal(g, p, defined, o);
    }
  }

  /** The body of a partition, run on the declared inputs only, ends with the values that
      the full run gives to every declared output. */
  lemma {:induction false} BodyDeliversOutputs<V>(
    g: Graph, kernel: Kernel<V>, consts: map<Name, V>, parts: seq<seq<Node>>, skip: bool,
    defined: set<Name>, env: map<Name, V>, full: map<Name, V>)
    requires Stage(g, parts, defined) && FreesOnlyAllocated(g, parts) && parts != []
    requires consts.Keys == g.constants && AgreeOn(consts, full, g.constants)
    requires AgreeOn(env, full, Live(g, parts))
    ensures var sig := SignatureOf(g, parts[0], Unmet(g, parts[1..]), skip);
            var local := RunBody(g, kernel, parts[0], Restrict(env, sig.inputs) + Restrict(consts, sig.constants));
            var full' := RunGraph(g, kernel, parts[0], full);
            && sig.inputs <= env.Keys && sig.constants <= consts.Keys
            && local.Some? && full'.Some? && AgreeOn(local.value, full'.value, sig.outputs)
  {
    var p, rest := parts[0], parts[1..];
    var sig := SignatureOf(g, p, Unmet(g, rest), skip);
    NextStage(g, parts, defined);
    InputsAreReal(g, p, defined);
    var local := Restrict(env, sig.inputs) + Restrict(consts, sig.constants);
    var known := sig.inputs + sig.constants;
    assert AgreeOn(local, full, known);
    ExternalSuffices(g, p, defined, Uses(g, Flatten(rest)) + RealSet(g, g.outputNames), known);
    BodyTracksGraph(g, kernel, p, local, full, known);
    forall x | x in sig.outputs ensures x in (known + StoresAll(g, p)) - Gather(p, Freed) {
      ReturnedSurvives(g, parts, defined, x);
    }
  }

  /** One partition call keeps the caller in step with the full run on all live storages. */
  lemma {:induction false} CallTracksGraph<V>(
    g: Graph, kernel: Kernel<V>, consts: map<Name, V>, parts: seq<seq<Node>>, skip: bool,
    defined: set<Name>, env: map<Name, V>, full: map<Name, V>)
    requires Stage(g, parts, defined) && FreesOnlyAllocated(g, parts) && parts != []
    requires consts.Keys == g.constants && AgreeOn(consts, full, g.constants)
    requires AgreeOn(env, full, Live(g, parts))
    ensures var sig := SignatureOf(g, parts[0], Unmet(g, parts[1..]), skip);
            var env', full' := CallPartition(g, kernel, consts, parts[0], sig, env), RunGraph(g, kernel, parts[0], full);
            && env'.Some? && full'.Some?
            && AgreeOn(consts, full'.value, g.constants)
            && AgreeOn(env'.value, full'.value, Live(g, parts[1..]))
  {
    var p, rest := parts[0], parts[1..];
    var sig := SignatureOf(g, p, Unmet(g, rest), skip);
    BodyDeliversOutputs(g, kernel, consts, parts, skip, defined, env, full);
    GraphFrame(g, kernel, p, full);
    StoresNoConstants(g, parts, defined);
    var env', full' := CallPartition(g, kernel, consts, p, sig, env).value, RunGraph(g, kernel, p, full).value;
    forall s | s in Live(g, rest) ensures s in env' && s in full' && env'[s] == full'[s] {
      LiveStaysCorrect(g, parts, skip, defined, s);
      if s !in sig.outputs {
        assert s !in Deallocated(sig) && env'[s] == env[s];
      }
    }
  }

  lemma {:induction false} RunsAgree<V>(
    g: Graph, kernel: Kernel<V>, consts: map<Name, V>, parts: seq<seq<Node>>, skips: seq<bool>,
    defined: set<Name>, env: map<Name, V>, full: map<Name, V>)
    requires |parts| == |skips|
    requires Stage(g, parts, defined) && FreesOnlyAllocated(g, parts)
    requires consts.Keys == g.constants && AgreeOn(consts, full, g.constants)
    requires AgreeOn(env, full, Live(g, parts))
    ensures var env' := RunPartitions(g, kernel, consts, parts, Signatures(g, parts, skips), env);
            var full' := RunGraph(g, kernel, Flatten(parts), full);
            && env'.Some? && full'.Some?
            && AgreeOn(consts, full'.value, g.constants)
            && AgreeOn(env'.value, full'.value, Live(g, []))
    decreases |parts|
  {
    if parts != [] {
      var sigs := Signatures(g, parts, skips);
      CallTracksGraph(g, kernel, consts, parts, skips[0], defined, env, full);
      var env' := CallPartition(g, kernel, consts, parts[0], sigs[0], env).value;
      var full' := RunGraph(g, kernel, parts[0], full).value;
      NextStage(g, parts, defined);
      assert sigs[1..] == Signatures(g, parts[1..], skips[1..]);
      RunsAgree(g, kernel, consts, parts[1..], skips[1..], defined + Gather(parts[0], Outputs), env', full');
      RunGraphAppend(g, kernel, parts[0], Flatten(parts[1..]), full);
    }
  }

  // ---------------------------------------------------------------- main results

  /** Partitioning preserves meaning. For every well-formed graph, every partitioning of its
      schedule and every kernel semantics: the partitioned run finds each declared input
      exactly when no partition frees a NoneLayout buffer defined elsewhere, and then
      every allocated graph output has the value that running all nodes together gives it. */
  lemma {:induction false} PartitioningPreservesMeaning<V>(
    g: Graph, kernel: Kernel<V>, parts: seq<seq<Node>>, skips: seq<bool>, args: map<Name, V>, consts: map<Name, V>)
    requires |parts| == |skips| && WellFormed(g, parts)
    requires args.Keys == g.inputs && consts.Keys == g.constants
    ensures var whole := RunGraph(g, kernel, Flatten(parts), args + consts);
            var split := RunPartitions(g, kernel, consts, parts, Signatures(g, parts, skips), args);
            && (split.Some? <==> FreesOnlyAllocated(g, parts))
            && (split.Some? ==> whole.Some? && AgreeOn(split.value + consts, whole.value, Allocated(g, RealSet(g, g.outputNames))))
  {
    if FreesOnlyAllocated(g, parts) {
      PartitionedRunAgrees(g, kernel, parts, skips, args, consts);
    } else {
      InputsHaveStorage(g, parts);
      MissingInput(g, kernel, consts, parts, skips, args);
    }
  }

  lemma {:induction false} InputsHaveStorage(g: Graph, parts: seq<seq<Node>>)
    requires WellFormed(g, parts)
    ensures forall n :: n in g.inputs ==> !IsNoneLayout(g, n)
  {
    DefinesFresh(g, Flatten(parts), g.inputs + g.constants);
  }

  lemma {:induction false} LiveAtStart(g: Graph, parts: seq<seq<Node>>)
    requires WellFormed(g, parts) && FreesOnlyAllocated(g, parts)
    ensures Stage(g, parts, g.inputs + g.constants)
    ensures Live(g, parts) <= g.inputs
    ensures Allocated(g, RealSet(g, g.outputNames)) <= Live(g, []) + g.constants
    ensures Live(g, []) !! g.constants
  {
    WellFormedIsStage(g, parts);
    LiveIsReal(g, parts, g.inputs + g.constants);
    LiveIsDefined(g, parts, g.inputs + g.constants);
    forall x | x in Allocated(g, RealSet(g, g.outputNames)) ensures x in Live(g, []) + g.constants {
      OutputsAreDefined(g, parts, x);
    }
  }

  lemma {:induction false} PartitionedRunAgrees<V>(
    g: Graph, kernel: Kernel<V>, parts: seq<seq<Node>>, skips: seq<bool>, args: map<Name, V>, consts: map<Name, V>)
    requires |parts| == |skips| && WellFormed(g, parts) && FreesOnlyAllocated(g, parts)
    requires args.Keys == g.inputs && consts.Keys == g.constants
    ensures var whole := RunGraph(g, kernel, Flatten(parts), args + consts);
            var split := RunPartitions(g, kernel, consts, parts, Signatures(g, parts, skips), args);
            && split.Some? && whole.Some?
            && AgreeOn(split.value + consts, whole.value, Allocated(g, RealSet(g, g.outputNames)))
  {
    LiveAtStart(g, parts);
    OutputsAgree(g, kernel, parts, skips, g.inputs + g.constants, args, consts, Allocated(g, RealSet(g, g.outputNames)));
  }

  lemma {:induction false} OutputsAgree<V>(
    g: Graph, kernel: Kernel<V>, parts: seq<seq<Node>>, skips: seq<bool>, defined: set<Name>,
    args: map<Name, V>, consts: map<Name, V>, outputs: set<Name>)
    requires |parts| == |skips| && Stage(g, parts, defined) && FreesOnlyAllocated(g, parts)
    requires Live(g, parts) <= args.Keys && consts.Keys == g.constants && args.Keys !! g.constants
    requires outputs <= Live(g, []) + g.constants && Live(g, []) !! g.constants
    ensures var whole := RunGraph(g, kernel, Flatten(parts), args + consts);
            var split := RunPartitions(g, kernel, consts, parts, Signatures(g, parts, skips), args);
            && split.Some? && whole.Some?
            && AgreeOn(split.value + consts, whole.value, outputs)
  {
    RunsAgree(g, kernel, consts, parts, skips, defined, args, args + consts);
  }

  lemma {:induction false} OutputsAreDefined(g: Graph, parts: seq<seq<Node>>, x: Name)
    requires WellFormed(g, parts) && x in Allocated(g, RealSet(g, g.outputNames))
    ensures x in g.nodeNames + g.constants
  {
    var o :| o in g.outputNames && Real(g, o) == x;
    WellFormedIsStage(g, parts);
    PartitionKeepsClosed(g, Flatten(parts), g.inputs + g.constants);
  }

  lemma {:induction false} MissingInput<V>(
    g: Graph, kernel: Kernel<V>, consts: map<Name, V>, parts: seq<seq<Node>>, skips: seq<bool>, env: map<Name, V>)
    requires |parts| == |skips| && !FreesOnlyAllocated(g, parts)
    requires forall n :: n in env ==> !IsNoneLayout(g, n)
    ensures RunPartitions(g, kernel, consts, parts, Signatures(g, parts, skips), env).None?
    decreases |parts|
  {
    var sigs := Signatures(g, parts, skips);
    var r := CallPartition(g, kernel, consts, parts[0], sigs[0], env);
    assert sigs[1..] == Signatures(g, parts[1..], skips[1..]);
    if r.Some? {
      assert !FreesOnlyAllocated(g, parts[1..]) by {
        var i :| 0 <= i < |parts| && Allocated(g, (Gather(parts[i], Freed) - Gather(parts[i], Outputs)) * g.nodeNames)
                                     != (Gather(parts[i], Freed) - Gather(parts[i], Outputs)) * g.nodeNames;
        assert i != 0;
        assert parts[1..][i - 1] == parts[i];
      }
      MissingInput(g, kernel, consts, parts[1..], skips[1..], r.value);
    }
  }

  /** The failing family is not empty: the second partition is the last user of a NoneLayout
      buffer that the first one defines, so it takes an input that nobody returns. */
  lemma {:induction false} FreedNoneLayoutBufferIsMissing<V>(kernel: Kernel<V>)
    ensures var g := Graph({}, {}, {"out"}, map["tok" := Buffer(true, false), "out" := Buffer(false, false)], map[], {"tok", "out"});
            var parts := [[Node({"tok"}, {}, {"tok"}, {})], [Node({"out"}, {"tok"}, {"out"}, {"tok"})]];
            && WellFormed(g, parts)
            && "tok" in Signatures(g, parts, [false, false])[1].inputs
            && RunPartitions(g, kernel, map[], parts, Signatures(g, parts, [false, false]), map[]).None?
  {
    var g := Graph({}, {}, {"out"}, map["tok" := Buffer(true, false), "out" := Buffer(false, false)], map[], {"tok", "out"});
    var n0, n1 := Node({"tok"}, {}, {"tok"}, {}), Node({"out"}, {"tok"}, {"out"}, {"tok"});
    var parts := [[n0], [n1]];
    GatherSingle(n0);
    GatherSingle(n1);
    assert parts[1..] == [[n1]] && parts[1..][1..] == [];
    assert Flatten([[n1]]) == [n1] + [] == [n1];
    assert Flatten(parts) == [n0, n1];
    assert [n0, n1][1..] == [n1] && [n1][1..] == [];
    GatherAppend([n0], [n1], Outputs);
    assert [n0] + [n1] == [n0, n1];
    assert Scheduled(g, [n1], {"tok"});
    assert Scheduled(g, [n0, n1], {}) by { assert {} + n0.outputs == {"tok"}; }
    assert LastUses(g, [n1], {"out"});
    assert RealSet(g, {"out"}) == {"out"} by { assert Real(g, "out") == "out"; }
    assert WellFormed(g, parts);
    assert "tok" in (Gather(parts[1], Freed) - Gather(parts[1], Outputs)) * g.nodeNames;
    assert "tok" !in Allocated(g, (Gather(parts[1], Freed) - Gather(parts[1], Outputs)) * g.nodeNames);
    PartitioningPreservesMeaning(g, kernel, parts, [false, false], map[], map[]);
  }

  lemma {:induction false} GatherSingle(n: Node)
    ensures Gather([n], Outputs) == n.outputs
    ensures Gather([n], Touched) == n.readNames + n.writeNames
    ensures Gather([n], Freed) == n.lastUsage
  {
    assert [n][1..] == [];
  }
}

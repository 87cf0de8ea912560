/** The backward pass that gives every partition of a scheduled graph its signature:
    which buffers it takes, which it returns and which it frees
    (vllm/env_override.py, `get_graph_partition_signature_patched`).
    Ordered sets of names are modelled as sets. */
module GraphPartition {
  import opened Wrappers

  type Name = string

  /** A scheduler node: the buffers it defines, the names in its read and write
      dependencies, and the buffers whose last use it is. */
  datatype Node = Node(outputs: set<Name>, readNames: set<Name>, writeNames: set<Name>, lastUsage: set<Name>)

  datatype Buffer = Buffer(noneLayout: bool, mutationOutput: bool)

  /** Maps the name of a mutated version to the buffer that holds its storage;
      that buffer is not itself a renamed version. */
  type RenameMap = m: map<Name, Name> | forall k :: k in m ==> m[k] !in m witness map[]

  /** What the pass reads from the scheduler and the graph. */
  datatype Graph = Graph(
    inputs: set<Name>,           // graph inputs
    constants: set<Name>,        // tensor constants
    outputNames: set<Name>,      // names of the graph outputs
    buffers: map<Name, Buffer>,  // name_to_buf
    realNames: RenameMap,        // mutation_real_name
    nodeNames: set<Name>         // keys of name_to_node
  )

  datatype Signature = Signature(
    inputs: set<Name>,
    outputs: set<Name>,
    deallocation: map<Name, bool>,
    constants: set<Name>,
    skipCudagraph: bool
  )

  function Real(g: Graph, n: Name): Name {
    if n in g.realNames then g.realNames[n] else n
  }

  function RealSet(g: Graph, s: set<Name>): set<Name> {
    set n | n in s :: Real(g, n)
  }

  /** Buffers with NoneLayout are not allocated. A mutated version is as allocated as
      the buffer it mutates. */
  predicate IsNoneLayout(g: Graph, n: Name)
    decreases n in g.realNames
  {
    n in g.buffers && g.buffers[n].noneLayout &&
    if g.buffers[n].mutationOutput && n in g.realNames && g.realNames[n] != ""
    then IsNoneLayout(g, g.realNames[n])
    else true
  }

  function Allocated(g: Graph, s: set<Name>): set<Name> {
    set n | n in s && !IsNoneLayout(g, n)
  }

  /** The three per-node name sets that the pass merges over a partition. */
  datatype Field = Outputs | Touched | Freed

  function Get(n: Node, f: Field): set<Name> {
    match f
    case Outputs => n.outputs
    case Touched => n.readNames + n.writeNames
    case Freed => n.lastUsage
  }

  function Gather(p: seq<Node>, f: Field): set<Name> {
    if p == [] then {} else Get(p[0], f) + Gather(p[1..], f)
  }

  function InputNames(g: Graph, p: seq<Node>): set<Name> {
    RealSet(g, Allocated(g, Gather(p, Touched)) - Gather(p, Outputs))
    + (Gather(p, Freed) - Gather(p, Outputs)) * g.nodeNames
  }

  /** Inputs that are not freed inside the partition are handed back. */
  function ExtraOutputs(g: Graph, p: seq<Node>): set<Name> {
    InputNames(g, p) * g.nodeNames - Gather(p, Freed)
  }

  function Returned(g: Graph, p: seq<Node>, unmet: set<Name>): set<Name> {
    RealSet(g, Gather(p, Outputs) * unmet + ExtraOutputs(g, p))
  }

  function UnmetBefore(g: Graph, p: seq<Node>, unmet: set<Name>): set<Name> {
    InputNames(g, p) + (unmet - Returned(g, p, unmet))
  }

  function SignatureOf(g: Graph, p: seq<Node>, unmet: set<Name>, skip: bool): Signature {
    var ins := InputNames(g, p);
    Signature(
      ins * g.nodeNames,
      Allocated(g, Returned(g, p, unmet)),
      map n | n in ins * g.nodeNames :: n in Gather(p, Freed),
      ins * g.constants,
      skip)
  }

  /** Names still owed to the partitions after `parts` and to the caller, before `parts` run. */
  function Unmet(g: Graph, parts: seq<seq<Node>>): set<Name> {
    if parts == [] then g.outputNames
    else UnmetBefore(g, parts[0], Unmet(g, parts[1..]))
  }

  function Signatures(g: Graph, parts: seq<seq<Node>>, skips: seq<bool>): (sigs: seq<Signature>)
    requires |parts| == |skips|
    ensures |sigs| == |parts|
  {
    if parts == [] then []
    else [SignatureOf(g, parts[0], Unmet(g, parts[1..]), skips[0])] + Signatures(g, parts[1..], skips[1..])
  }

  /** Every name that is returned has an entry in name_to_node. */
  predicate Resolvable(g: Graph, parts: seq<seq<Node>>) {
    parts == [] ||
    (Allocated(g, Returned(g, parts[0], Unmet(g, parts[1..]))) <= g.nodeNames && Resolvable(g, parts[1..]))
  }

  lemma {:induction false} GatherAppend(p: seq<Node>, q: seq<Node>, f: Field)
    ensures Gather(p + q, f) == Gather(p, f) + Gather(q, f)
  {
    if p == [] {
      assert p + q == q;
    } else {
      assert (p + q)[1..] == p[1..] + q;
      GatherAppend(p[1..], q, f);
    }
  }

  lemma {:induction false} ResolvableSuffix(g: Graph, parts: seq<seq<Node>>, i: nat)
    requires i <= |parts| && Resolvable(g, parts)
    ensures Resolvable(g, parts[i..])
  {
    if i > 0 {
      ResolvableSuffix(g, parts[1..], i - 1);
      assert parts[1..][i - 1..] == parts[i..];
    }
  }

  /** The loop over `reversed(partitions)` zipped with `reversed(skip_cudagraphs)`; a
      shorter list of flags drops partitions at the front. */
  method GetGraphPartitionSignature(g: Graph, partitions: seq<seq<Node>>, skipCudagraphs: seq<bool>)
    returns (r: Result<seq<Signature>>)
    ensures var c := if |partitions| <= |skipCudagraphs| then |partitions| else |skipCudagraphs|;
            var parts, skips := partitions[|partitions| - c..], skipCudagraphs[|skipCudagraphs| - c..];
            r == if Resolvable(g, parts) then Success(Signatures(g, parts, skips)) else Failure(KeyError)
  {
    var c := if |partitions| <= |skipCudagraphs| then |partitions| else |skipCudagraphs|;
    r := SignPartitions(g, partitions[|partitions| - c..], skipCudagraphs[|skipCudagraphs| - c..]);
  }

  lemma {:induction false} OneEarlier(g: Graph, parts: seq<seq<Node>>, skips: seq<bool>, i: nat)
    requires i < |parts| == |skips|
    ensures var unmet := Unmet(g, parts[i + 1..]);
            && Unmet(g, parts[i..]) == UnmetBefore(g, parts[i], unmet)
            && Signatures(g, parts[i..], skips[i..]) ==
                 [SignatureOf(g, parts[i], unmet, skips[i])] + Signatures(g, parts[i + 1..], skips[i + 1..])
            && (Resolvable(g, parts[i..]) <==>
                  Allocated(g, Returned(g, parts[i], unmet)) <= g.nodeNames && Resolvable(g, parts[i + 1..]))
  {
    assert parts[i..][0] == parts[i] && parts[i..][1..] == parts[i + 1..];
    assert skips[i..][0] == skips[i] && skips[i..][1..] == skips[i + 1..];
  }

  method SignPartitions(g: Graph, parts: seq<seq<Node>>, skips: seq<bool>) returns (r: Result<seq<Signature>>)
    requires |parts| == |skips|
    ensures r == if Resolvable(g, parts) then Success(Signatures(g, parts, skips)) else Failure(KeyError)
  {
    var signatures: seq<Signature> := [];
    var unmet := g.outputNames;
    var i := |parts|;
    while i > 0
      invariant 0 <= i <= |parts|
      invariant unmet == Unmet(g, parts[i..])
      invariant signatures == Signatures(g, parts[i..], skips[i..])
      invariant Resolvable(g, parts[i..])
    {
      i := i - 1;
      OneEarlier(g, parts, skips, i);
      var signature := SignPartition(g, parts[i], unmet, skips[i]);
      if signature.None? {
        if Resolvable(g, parts) { ResolvableSuffix(g, parts, i); }
        return Failure(KeyError);
      }
      signatures := [signature.value.0] + signatures;
      unmet := signature.value.1;
    }
    assert parts[0..] == parts && skips[0..] == skips;
    return Success(signatures);
  }

  /** One iteration: the signature of a partition and the names that are unmet before it, or
      nothing when a returned name is not in name_to_node. */
  method SignPartition(g: Graph, partition: seq<Node>, unmet: set<Name>, skip: bool) returns (r: Option<(Signature, set<Name>)>)
    ensures r == if Allocated(g, Returned(g, partition, unmet)) <= g.nodeNames
                 then Some((SignatureOf(g, partition, unmet, skip), UnmetBefore(g, partition, unmet)))
                 else None
  {
    var outputNames, touched, namesToFree := MergeDependencies(partition);
    var returned := outputNames * unmet;
    var inputNames := RealSet(g, Allocated(g, touched) - outputNames);
    inputNames := inputNames + (namesToFree - outputNames) * g.nodeNames;
    var extraOutputs := inputNames * g.nodeNames - namesToFree;
    returned := RealSet(g, returned + extraOutputs);
    var outputNodes := Allocated(g, returned);
    if !(outputNodes <= g.nodeNames) {
      return None;
    }
    var signature := Signature(
      inputNames * g.nodeNames,
      outputNodes,
      map n | n in inputNames * g.nodeNames :: n in namesToFree,
      inputNames * g.constants,
      skip);
    return Some((signature, inputNames + (unmet - returned)));
  }

  /** The names that the nodes of a partition define, touch and free. */
  method MergeDependencies(partition: seq<Node>) returns (outputNames: set<Name>, touched: set<Name>, namesToFree: set<Name>)
    ensures outputNames == Gather(partition, Outputs)
    ensures touched == Gather(partition, Touched)
    ensures namesToFree == Gather(partition, Freed)
  {
    outputNames, touched, namesToFree := {}, {}, {};
    for j := 0 to |partition|
      invariant outputNames == Gather(partition[..j], Outputs)
      invariant touched == Gather(partition[..j], Touched)
      invariant namesToFree == Gather(partition[..j], Freed)
    {
      GatherAppend(partition[..j], [partition[j]], Outputs);
      GatherAppend(partition[..j], [partition[j]], Touched);
      GatherAppend(partition[..j], [partition[j]], Freed);
      assert partition[..j + 1] == partition[..j] + [partition[j]];
      outputNames := outputNames + partition[j].outputs;
      touched := touched + partition[j].readNames + partition[j].writeNames;
      namesToFree := namesToFree + partition[j].lastUsage;
    }
    assert partition[..|partition|] == partition;
  }

  // ---------------------------------------------------------------- exact liveness

  /** Some node of the partition frees `x`, or touches an allocated version of it; and no node
      of the partition defines the name that is touched or freed. */
  ghost predicate TakesOrFrees(g: Graph, p: seq<Node>, x: Name) {
    || (x in g.nodeNames && Mentions(p, Freed, x) && !Mentions(p, Outputs, x))
    || (exists d :: Mentions(p, Touched, d) && !Mentions(p, Outputs, d) && !IsNoneLayout(g, d) && Real(g, d) == x)
  }

  ghost predicate Mentions(p: seq<Node>, f: Field, x: Name) {
    exists k :: 0 <= k < |p| && x in Get(p[k], f)
  }

  /** Partition `j` takes or frees `x`, or `j` is the end and `x` is a graph output. */
  ghost predicate UsedAt(g: Graph, parts: seq<seq<Node>>, j: nat, x: Name)
    requires j <= |parts|
  {
    if j == |parts| then x in g.outputNames else TakesOrFrees(g, parts[j], x)
  }

  /** Partition `i` hands out the storage `x`: it defines `x`, or a renamed version of it that
      is used later. A renamed version itself is never handed out under its own name. */
  ghost predicate Supplies(g: Graph, parts: seq<seq<Node>>, i: nat, x: Name)
    requires i < |parts|
  {
    x !in g.realNames &&
    (Mentions(parts[i], Outputs, x) || exists o, k: nat :: SuppliesVersion(g, parts, i, x, o, k))
  }

  ghost predicate SuppliesVersion(g: Graph, parts: seq<seq<Node>>, i: nat, x: Name, o: Name, k: nat)
    requires i < |parts|
  {
    o in g.realNames && Real(g, o) == x && Mentions(parts[i], Outputs, o) && i < k <= |parts| && UsedAt(g, parts, k, o)
  }

  /** `x` is used at `j` and handed out by no partition before `j`. */
  ghost predicate WantedAt(g: Graph, parts: seq<seq<Node>>, j: nat, x: Name)
    requires j <= |parts|
  {
    UsedAt(g, parts, j, x) && forall i: nat :: i < j ==> !Supplies(g, parts, i, x)
  }

  lemma {:induction false} InGather(p: seq<Node>, f: Field, x: Name)
    ensures x in Gather(p, f) <==> Mentions(p, f, x)
  {
    if p != [] {
      InGather(p[1..], f, x);
      if x in Gather(p[1..], f) {
        var k :| 0 <= k < |p[1..]| && x in Get(p[1..][k], f);
        assert x in Get(p[k + 1], f);
      }
      if k :| 0 < k < |p| && x in Get(p[k], f) {
        assert x in Get(p[1..][k - 1], f);
      }
    }
  }

  /** The inputs of a partition are exactly the storages it takes or frees. */
  lemma {:induction false} InputsAreTakenOrFreed(g: Graph, p: seq<Node>, x: Name)
    ensures x in InputNames(g, p) <==> TakesOrFrees(g, p, x)
  {
    forall f, d ensures d in Gather(p, f) <==> Mentions(p, f, d) {
      InGather(p, f, d);
    }
    if d :| Mentions(p, Touched, d) && !Mentions(p, Outputs, d) && !IsNoneLayout(g, d) && Real(g, d) == x {
      assert d in Allocated(g, Gather(p, Touched)) - Gather(p, Outputs);
    }
    if x in RealSet(g, Allocated(g, Gather(p, Touched)) - Gather(p, Outputs)) {
      var d :| d in Allocated(g, Gather(p, Touched)) - Gather(p, Outputs) && Real(g, d) == x;
      assert Mentions(p, Touched, d);
    }
  }

  /** A partition that touches `d`, which it does not define, takes the storage of `d`: exactly when
      `d` has a layout, or is a mutated version of a buffer that is allocated. */
  lemma {:induction false} TouchedStorage(g: Graph, p: seq<Node>, d: Name)
    requires Mentions(p, Touched, d) && !Mentions(p, Outputs, d)
    ensures (d !in g.buffers || !g.buffers[d].noneLayout) ==> Real(g, d) in InputNames(g, p)
    ensures d in g.buffers && g.buffers[d] == Buffer(true, true) && d in g.realNames && g.realNames[d] != ""
            && (g.realNames[d] !in g.buffers || !g.buffers[g.realNames[d]].noneLayout) ==>
              g.realNames[d] in InputNames(g, p)
    ensures d in g.buffers && g.buffers[d] == Buffer(true, false) && p == [Node({}, {d}, {}, {})] ==> InputNames(g, p) == {}
  {
    InputsAreTakenOrFreed(g, p, Real(g, d));
    if d in g.realNames {
      assert g.realNames[d] !in g.realNames;
      assert g.realNames[d] !in g.buffers || !g.buffers[g.realNames[d]].noneLayout ==> !IsNoneLayout(g, g.realNames[d]);
    }
    if p == [Node({}, {d}, {}, {})] {
      assert p[1..] == [] && Gather(p, Touched) == {d} && Gather(p, Freed) == {};
    }
  }

  lemma {:induction false} SignatureAt(g: Graph, parts: seq<seq<Node>>, skips: seq<bool>, i: nat)
    requires i < |parts| == |skips|
    ensures Signatures(g, parts, skips)[i] == SignatureOf(g, parts[i], Unmet(g, parts[i + 1..]), skips[i])
    decreases |parts|
  {
    if i > 0 {
      SignatureAt(g, parts[1..], skips[1..], i - 1);
      assert parts[1..][i..] == parts[i + 1..];
    }
  }

  /** Partition `i` gives `x` back: it takes `x` and frees it in none of its nodes, or it defines a
      version of `x` that is still owed behind it. */
  ghost predicate GivesBack(g: Graph, parts: seq<seq<Node>>, i: nat, x: Name)
    requires i < |parts|
  {
    || (x in g.nodeNames && x !in g.realNames && TakesOrFrees(g, parts[i], x) && !Mentions(parts[i], Freed, x))
    || exists o :: Mentions(parts[i], Outputs, o) && Real(g, o) == x && o in Unmet(g, parts[i + 1..])
  }

  /** What a signature says of every name: an input is what the partition takes or frees, its flag
      is set exactly when some node of the partition is its last use, and the constants are those
      that the partition takes. */
  lemma {:induction false} SignatureMeans(g: Graph, parts: seq<seq<Node>>, skips: seq<bool>, i: nat, x: Name)
    requires i < |parts| == |skips|
    ensures var sig := Signatures(g, parts, skips)[i];
            && (x in sig.inputs <==> x in g.nodeNames && TakesOrFrees(g, parts[i], x))
            && (x in sig.deallocation <==> x in sig.inputs)
            && (x in sig.inputs ==> (sig.deallocation[x] <==> Mentions(parts[i], Freed, x)))
            && (x in sig.constants <==> x in g.constants && TakesOrFrees(g, parts[i], x))
            && (x in sig.outputs <==> !IsNoneLayout(g, x) && GivesBack(g, parts, i, x))
            && sig.skipCudagraph == skips[i]
  {
    var p := parts[i];
    SignatureAt(g, parts, skips, i);
    InputsAreTakenOrFreed(g, p, x);
    InGather(p, Freed, x);
    ReturnedMeans(g, parts, i, x);
  }

  lemma {:induction false} ReturnedMeans(g: Graph, parts: seq<seq<Node>>, i: nat, x: Name)
    requires i < |parts|
    ensures x in Returned(g, parts[i], Unmet(g, parts[i + 1..])) <==> GivesBack(g, parts, i, x)
  {
    var p, unmet := parts[i], Unmet(g, parts[i + 1..]);
    var returned := Gather(p, Outputs) * unmet + ExtraOutputs(g, p);
    InputsAreTakenOrFreed(g, p, x);
    InGather(p, Freed, x);
    if o :| o in returned && Real(g, o) == x {
      InGather(p, Outputs, o);
      ExtraIsReal(g, p, o);
    }
    if x in ExtraOutputs(g, p) {
      ExtraIsReal(g, p, x);
      assert x in returned;
    }
    if o :| Mentions(p, Outputs, o) && Real(g, o) == x && o in unmet {
      InGather(p, Outputs, o);
      assert o in returned;
    }
  }

  lemma {:induction false} UsedLater(g: Graph, parts: seq<seq<Node>>, j: nat, x: Name)
    requires parts != [] && 0 < j <= |parts|
    ensures UsedAt(g, parts, j, x) <==> UsedAt(g, parts[1..], j - 1, x)
  {
  }

  lemma {:induction false} SuppliesLater(g: Graph, parts: seq<seq<Node>>, i: nat, x: Name)
    requires parts != [] && 0 < i < |parts|
    ensures Supplies(g, parts, i, x) <==> Supplies(g, parts[1..], i - 1, x)
  {
    var rest, before := parts[1..], i - 1;
    if o, k: nat :| SuppliesVersion(g, parts, i, x, o, k) {
      UsedLater(g, parts, k, o);
      assert SuppliesVersion(g, rest, before, x, o, k - 1);
    }
    if o, k: nat :| SuppliesVersion(g, rest, before, x, o, k) {
      UsedLater(g, parts, k + 1, o);
      assert SuppliesVersion(g, parts, i, x, o, k + 1);
    }
  }

  lemma {:induction false} WantedLater(g: Graph, parts: seq<seq<Node>>, j: nat, x: Name)
    requires parts != [] && 0 < j <= |parts|
    ensures WantedAt(g, parts, j, x) <==> !Supplies(g, parts, 0, x) && WantedAt(g, parts[1..], j - 1, x)
  {
    UsedLater(g, parts, j, x);
    forall i: nat | 0 < i < j ensures Supplies(g, parts, i, x) <==> Supplies(g, parts[1..], i - 1, x) {
      SuppliesLater(g, parts, i, x);
    }
    if WantedAt(g, parts, j, x) {
      forall i: nat | i < j - 1 ensures !Supplies(g, parts[1..], i, x) {
        assert !Supplies(g, parts, i + 1, x);
      }
    }
  }

  /** The backward pass computes exact liveness, on every graph: a name is unmet before `parts`
      iff some later point uses it and no partition before that point hands it out. */
  lemma {:induction false} UnmetIsLiveness(g: Graph, parts: seq<seq<Node>>, x: Name)
    ensures x in Unmet(g, parts) <==> exists j: nat :: j <= |parts| && WantedAt(g, parts, j, x)
    decreases |parts|
  {
    if parts == [] {
      assert x in g.outputNames ==> WantedAt(g, parts, 0, x);
    } else {
      var p, rest := parts[0], parts[1..];
      UnmetIsLiveness(g, rest, x);
      InputsAreTakenOrFreed(g, p, x);
      if x in InputNames(g, p) {
        assert WantedAt(g, parts, 0, x);
      } else {
        ReturnedIffSupplied(g, parts, x);
        if x in Unmet(g, parts) {
          var j: nat :| j <= |rest| && WantedAt(g, rest, j, x);
          WantedLater(g, parts, j + 1, x);
        }
        if j: nat :| j <= |parts| && WantedAt(g, parts, j, x) {
          WantedLater(g, parts, j, x);
        }
      }
    }
  }

  /** A name that the later partitions ask for is returned, and so taken off the unmet names,
      exactly when the partition supplies it. */
  lemma {:induction false} ReturnedIffSupplied(g: Graph, parts: seq<seq<Node>>, x: Name)
    requires parts != [] && x !in InputNames(g, parts[0])
    ensures x in Unmet(g, parts[1..]) ==>
              (x in Returned(g, parts[0], Unmet(g, parts[1..])) <==> Supplies(g, parts, 0, x))
    decreases |parts|, 0
  {
    var p, rest := parts[0], parts[1..];
    var unmet := Unmet(g, rest);
    InGather(p, Outputs, x);
    if x in Returned(g, p, unmet) {
      var o :| o in Gather(p, Outputs) * unmet + ExtraOutputs(g, p) && Real(g, o) == x;
      ExtraIsReal(g, p, o);
      if o != x {
        InGather(p, Outputs, o);
        RenamedIsUsed(g, rest, o);
        var k: nat :| k <= |rest| && UsedAt(g, rest, k, o);
        UsedLater(g, parts, k + 1, o);
        assert SuppliesVersion(g, parts, 0, x, o, k + 1);
      }
    }
    assert x in Gather(p, Outputs) * unmet ==> x in Gather(p, Outputs) * unmet + ExtraOutputs(g, p);
    if x in unmet && Supplies(g, parts, 0, x) && x !in Gather(p, Outputs) {
      var o, k: nat :| SuppliesVersion(g, parts, 0, x, o, k);
      InGather(p, Outputs, o);
      UsedLater(g, parts, k, o);
      RenamedIsUsed(g, rest, o);
      assert o in Gather(p, Outputs) * unmet + ExtraOutputs(g, p);
    }
  }

  /** The extra outputs are not renamed versions. */
  lemma {:induction false} ExtraIsReal(g: Graph, p: seq<Node>, e: Name)
    ensures e in ExtraOutputs(g, p) ==> e !in g.realNames && e in InputNames(g, p)
  {
    if e in RealSet(g, Allocated(g, Gather(p, Touched)) - Gather(p, Outputs)) {
      var d :| d in Allocated(g, Gather(p, Touched)) - Gather(p, Outputs) && Real(g, d) == e;
    }
  }

  /** A renamed version is unmet as long as it is used anywhere later: it is only ever returned
      under the name of its storage. */
  lemma {:induction false} RenamedIsUsed(g: Graph, parts: seq<seq<Node>>, x: Name)
    requires x in g.realNames
    ensures x in Unmet(g, parts) <==> exists j: nat :: j <= |parts| && UsedAt(g, parts, j, x)
    decreases |parts|
  {
    if parts == [] {
      assert UsedAt(g, parts, 0, x) <==> x in g.outputNames;
    } else {
      var p, rest := parts[0], parts[1..];
      RenamedIsUsed(g, rest, x);
      InputsAreTakenOrFreed(g, p, x);
      assert x !in Returned(g, p, Unmet(g, rest));
      if x in InputNames(g, p) {
        assert UsedAt(g, parts, 0, x);
      } else {
        if j: nat :| j <= |rest| && UsedAt(g, rest, j, x) {
          UsedLater(g, parts, j + 1, x);
        }
        if j: nat :| j <= |parts| && UsedAt(g, parts, j, x) {
          UsedLater(g, parts, j, x);
        }
      }
    }
  }

  /** The unfreed inputs that the update of the unmet names removes are put back at once. */
  lemma {:induction false} ReturnedInputsStayUnmet(g: Graph, p: seq<Node>, unmet: set<Name>, x: Name)
    requires x in RealSet(g, ExtraOutputs(g, p))
    ensures x in Returned(g, p, unmet) && x in UnmetBefore(g, p, unmet)
  {
    var e :| e in ExtraOutputs(g, p) && Real(g, e) == x;
    assert e in Gather(p, Outputs) * unmet + ExtraOutputs(g, p);
    ExtraIsReal(g, p, e);
  }
}

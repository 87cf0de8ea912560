/** What the deallocation flags of the signatures do to memory: a buffer is dropped by the call in
    which its last use lies, and no other buffer is (vllm/env_override.py, lines 262 to 285). */
module GraphMemory {
  import opened Wrappers
  import opened GraphPartition
  import opened GraphExecution

  /** Some node of `ns` is the last use of `x`. */
  ghost predicate LastUsedIn(g: Graph, ns: seq<Node>, x: Name) {
    x in g.nodeNames && Mentions(ns, Freed, x)
  }

  /** Nothing in `ns` uses, frees or defines `x`. */
  ghost predicate Forgotten(g: Graph, ns: seq<Node>, x: Name) {
    x !in Uses(g, ns) && x !in Gather(ns, Outputs)
  }

  /** Dropped if it was used last, and held if it was held and was not. */
  predicate DroppedIff(before: bool, lastUsed: bool, after: bool) {
    (lastUsed ==> !after) && (before && !lastUsed ==> after)
  }

  lemma {:induction false} ForgottenParts(g: Graph, p: seq<Node>, q: seq<Node>, x: Name)
    requires Forgotten(g, p + q, x)
    ensures Forgotten(g, p, x) && Forgotten(g, q, x)
  {
    UsesAppend(g, p, q);
    GatherAppend(p, q, Outputs);
  }

  lemma {:induction false} NodeDoesNotStore(g: Graph, n: Node, defined: set<Name>, x: Name)
    requires Scheduled(g, [n], defined) && Forgotten(g, [n], x)
    ensures x !in Stores(g, n)
  {
    GatherSingle(n);
    NeedsAreUses(g, n);
    forall o | o in Allocated(g, n.outputs) ensures Real(g, o) != x {
    }
  }

  lemma {:induction false} NeedsAreUses(g: Graph, n: Node)
    ensures Needs(g, n) <= Uses(g, [n])
  {
    GatherSingle(n);
    forall x | x in Needs(g, n) ensures x in Uses(g, [n]) {
      var d :| d in Allocated(g, n.readNames + n.writeNames) - n.outputs && Real(g, d) == x;
      assert d in Allocated(g, Gather([n], Touched));
    }
  }

  /** What a partition does not mention is not in its environment afterwards unless it was before. */
  lemma {:induction false} BodyKeepsAbsent<V>(g: Graph, kernel: Kernel<V>, p: seq<Node>, defined: set<Name>, env: map<Name, V>, x: Name)
    requires Scheduled(g, p, defined) && Forgotten(g, p, x) && x !in env
    ensures RunBody(g, kernel, p, env).Some? ==> x !in RunBody(g, kernel, p, env).value
    decreases |p|
  {
    if p != [] && RunNode(g, kernel, p[0], env).Some? {
      assert p == [p[0]] + p[1..];
      ForgottenParts(g, [p[0]], p[1..], x);
      ScheduledSplit(g, [p[0]], p[1..], defined);
      NodeDoesNotStore(g, p[0], defined, x);
      var env' := RunNode(g, kernel, p[0], env).value - p[0].lastUsage;
      BodyKeepsAbsent(g, kernel, p[1..], defined + Gather([p[0]], Outputs), env', x);
    }
  }

  /** After the body of a partition, what it was the last to use is gone. */
  lemma {:induction false} BodyDrops<V>(
    g: Graph, kernel: Kernel<V>, p: seq<Node>, defined: set<Name>, after: set<Name>, env: map<Name, V>, x: Name)
    requires Scheduled(g, p, defined) && LastUses(g, p, after) && LastUsedIn(g, p, x)
    ensures RunBody(g, kernel, p, env).Some? ==> x !in RunBody(g, kernel, p, env).value
    decreases |p|
  {
    if RunNode(g, kernel, p[0], env).Some? {
      var env' := RunNode(g, kernel, p[0], env).value - p[0].lastUsage;
      var defined' := defined + p[0].outputs;
      if x in p[0].lastUsage {
        DefinesFresh(g, p[1..], defined');
        BodyKeepsAbsent(g, kernel, p[1..], defined', env', x);
      } else {
        InGather(p, Freed, x);
        InGather(p[1..], Freed, x);
        BodyDrops(g, kernel, p[1..], defined', after, env', x);
      }
    }
  }

  /** A partition stores only what it defines, or versions of what is there. */
  lemma {:induction false} BodyKeys<V>(g: Graph, kernel: Kernel<V>, p: seq<Node>, defined: set<Name>, env: map<Name, V>)
    requires Scheduled(g, p, defined) && Closed(g, defined) && env.Keys <= defined
    ensures RunBody(g, kernel, p, env).Some? ==> RunBody(g, kernel, p, env).value.Keys <= defined + Gather(p, Outputs)
    decreases |p|
  {
    if p != [] && RunNode(g, kernel, p[0], env).Some? {
      assert [p[0]] + p[1..] == p;
      ScheduledSplit(g, [p[0]], p[1..], defined);
      GatherSingle(p[0]);
      NodeKeepsClosed(g, p[0], defined);
      var env' := RunNode(g, kernel, p[0], env).value - p[0].lastUsage;
      BodyKeys(g, kernel, p[1..], defined + p[0].outputs, env');
    }
  }

  /** The signature of the first partition. */
  function FirstSignature(g: Graph, parts: seq<seq<Node>>, skip: bool): Signature
    requires parts != []
  {
    SignatureOf(g, parts[0], Unmet(g, parts[1..]), skip)
  }

  lemma {:induction false} CallKeys<V>(
    g: Graph, kernel: Kernel<V>, consts: map<Name, V>, parts: seq<seq<Node>>, skip: bool, defined: set<Name>, env: map<Name, V>)
    requires parts != [] && Stage(g, parts, defined) && env.Keys <= defined
    ensures var r := CallPartition(g, kernel, consts, parts[0], FirstSignature(g, parts, skip), env);
            r.Some? ==> r.value.Keys <= defined + Gather(parts[0], Outputs)
  {
    var sig := FirstSignature(g, parts, skip);
    NextStage(g, parts, defined);
    BodyKeys(g, kernel, parts[0], defined, Restrict(env, sig.inputs) + Restrict(consts, sig.constants));
  }

  /** One call drops exactly the buffers whose last use lies in it. */
  lemma {:induction false} CallDrops<V>(
    g: Graph, kernel: Kernel<V>, consts: map<Name, V>, parts: seq<seq<Node>>, skip: bool, defined: set<Name>, env: map<Name, V>, x: Name)
    requires parts != [] && Stage(g, parts, defined) && env.Keys <= defined
    ensures var r := CallPartition(g, kernel, consts, parts[0], FirstSignature(g, parts, skip), env);
            r.Some? ==> DroppedIff(x in env, LastUsedIn(g, parts[0], x), x in r.value)
  {
    var p, sig := parts[0], FirstSignature(g, parts, skip);
    NextStage(g, parts, defined);
    InGather(p, Freed, x);
    InGather(p, Outputs, x);
    if LastUsedIn(g, p, x) {
      BodyDrops(g, kernel, p, defined, Uses(g, Flatten(parts[1..])) + RealSet(g, g.outputNames),
                Restrict(env, sig.inputs) + Restrict(consts, sig.constants), x);
      DefinesFresh(g, p, defined);
      assert x in env ==> x in Deallocated(sig);
    } else {
      assert x !in Deallocated(sig);
    }
  }

  lemma {:induction false} CallKeepsAbsent<V>(
    g: Graph, kernel: Kernel<V>, consts: map<Name, V>, parts: seq<seq<Node>>, skip: bool, defined: set<Name>, env: map<Name, V>, x: Name)
    requires parts != [] && Stage(g, parts, defined) && Forgotten(g, parts[0], x) && x !in env && x in g.nodeNames
    ensures var r := CallPartition(g, kernel, consts, parts[0], FirstSignature(g, parts, skip), env);
            r.Some? ==> x !in r.value
  {
    var sig := FirstSignature(g, parts, skip);
    NextStage(g, parts, defined);
    BodyKeepsAbsent(g, kernel, parts[0], defined, Restrict(env, sig.inputs) + Restrict(consts, sig.constants), x);
  }

  /** The caller's environment after the first `k` partitions. */
  function AfterCalls<V>(
    g: Graph, kernel: Kernel<V>, consts: map<Name, V>, parts: seq<seq<Node>>, skips: seq<bool>, k: nat, env: map<Name, V>
  ): Option<map<Name, V>>
    requires |parts| == |skips| && k <= |parts|
  {
    RunPartitions(g, kernel, consts, parts[..k], Signatures(g, parts, skips)[..k], env)
  }

  lemma {:induction false} AfterCallsStep<V>(
    g: Graph, kernel: Kernel<V>, consts: map<Name, V>, parts: seq<seq<Node>>, skips: seq<bool>, k: nat, env: map<Name, V>)
    requires |parts| == |skips| && 0 < k <= |parts|
    ensures var r := CallPartition(g, kernel, consts, parts[0], FirstSignature(g, parts, skips[0]), env);
            AfterCalls(g, kernel, consts, parts, skips, k, env) ==
            if r.None? then None else AfterCalls(g, kernel, consts, parts[1..], skips[1..], k - 1, r.value)
  {
    var sigs := Signatures(g, parts, skips);
    assert parts[..k][0] == parts[0] && parts[..k][1..] == parts[1..][..k - 1];
    assert sigs[..k][0] == sigs[0] && sigs[..k][1..] == sigs[1..][..k - 1];
  }

  lemma {:induction false} StaysAbsent<V>(
    g: Graph, kernel: Kernel<V>, consts: map<Name, V>, parts: seq<seq<Node>>, skips: seq<bool>, k: nat,
    defined: set<Name>, env: map<Name, V>, x: Name)
    requires |parts| == |skips| && k <= |parts| && Stage(g, parts, defined)
    requires Forgotten(g, Flatten(parts), x) && x !in env && x in g.nodeNames
    ensures var r := AfterCalls(g, kernel, consts, parts, skips, k, env); r.Some? ==> x !in r.value
    decreases k
  {
    if k > 0 {
      AfterCallsStep(g, kernel, consts, parts, skips, k, env);
      ForgottenParts(g, parts[0], Flatten(parts[1..]), x);
      CallKeepsAbsent(g, kernel, consts, parts, skips[0], defined, env, x);
      var r := CallPartition(g, kernel, consts, parts[0], FirstSignature(g, parts, skips[0]), env);
      if r.Some? {
        NextStage(g, parts, defined);
        StaysAbsent(g, kernel, consts, parts[1..], skips[1..], k - 1, defined + Gather(parts[0], Outputs), r.value, x);
      }
    }
  }

  /** Some partition before `k` is the last to use `x`. */
  ghost predicate LastUsedBefore(g: Graph, parts: seq<seq<Node>>, k: nat, x: Name)
    requires k <= |parts|
  {
    exists i :: 0 <= i < k && LastUsedIn(g, parts[i], x)
  }

  lemma {:induction false} LastUsedStep(g: Graph, parts: seq<seq<Node>>, k: nat, x: Name)
    requires 0 < k <= |parts|
    ensures LastUsedBefore(g, parts, k, x) <==> LastUsedIn(g, parts[0], x) || LastUsedBefore(g, parts[1..], k - 1, x)
  {
    if i :| 0 < i < k && LastUsedIn(g, parts[i], x) {
      assert LastUsedIn(g, parts[1..][i - 1], x);
    }
    if i :| 0 <= i < k - 1 && LastUsedIn(g, parts[1..][i], x) {
      assert LastUsedIn(g, parts[i + 1], x);
    }
  }

  lemma {:induction false} LastUseIsForgotten(g: Graph, parts: seq<seq<Node>>, defined: set<Name>, x: Name)
    requires parts != [] && Stage(g, parts, defined) && LastUsedIn(g, parts[0], x)
    ensures Forgotten(g, Flatten(parts[1..]), x)
  {
    NextStage(g, parts, defined);
    InGather(parts[0], Freed, x);
    FreedNotUsedAfter(g, parts[0], Uses(g, Flatten(parts[1..])) + RealSet(g, g.outputNames));
    DefinesFresh(g, parts[0], defined);
    DefinesFresh(g, Flatten(parts[1..]), defined + Gather(parts[0], Outputs));
  }

  lemma {:induction false} StageDrops<V>(
    g: Graph, kernel: Kernel<V>, consts: map<Name, V>, parts: seq<seq<Node>>, skips: seq<bool>, k: nat,
    defined: set<Name>, env: map<Name, V>, x: Name)
    requires |parts| == |skips| && k <= |parts| && Stage(g, parts, defined) && env.Keys <= defined
    ensures var r := AfterCalls(g, kernel, consts, parts, skips, k, env);
            r.Some? ==> DroppedIff(x in env, LastUsedBefore(g, parts, k, x), x in r.value)
    decreases k
  {
    if k > 0 {
      AfterCallsStep(g, kernel, consts, parts, skips, k, env);
      var r := CallPartition(g, kernel, consts, parts[0], FirstSignature(g, parts, skips[0]), env);
      if r.Some? {
        LastUsedStep(g, parts, k, x);
        FirstCallReady(g, kernel, consts, parts, skips[0], defined, env, r.value, x);
        var rest, flags, defined' := parts[1..], skips[1..], defined + Gather(parts[0], Outputs);
        StageDrops(g, kernel, consts, rest, flags, k - 1, defined', r.value, x);
        if LastUsedIn(g, parts[0], x) {
          StaysAbsent(g, kernel, consts, rest, flags, k - 1, defined', r.value, x);
        }
      }
    }
  }

  lemma {:induction false} FirstCallReady<V>(
    g: Graph, kernel: Kernel<V>, consts: map<Name, V>, parts: seq<seq<Node>>, skip: bool, defined: set<Name>,
    env: map<Name, V>, env': map<Name, V>, x: Name)
    requires parts != [] && Stage(g, parts, defined) && env.Keys <= defined
    requires CallPartition(g, kernel, consts, parts[0], FirstSignature(g, parts, skip), env) == Some(env')
    ensures Stage(g, parts[1..], defined + Gather(parts[0], Outputs)) && env'.Keys <= defined + Gather(parts[0], Outputs)
    ensures DroppedIff(x in env, LastUsedIn(g, parts[0], x), x in env')
    ensures LastUsedIn(g, parts[0], x) ==> x in g.nodeNames && Forgotten(g, Flatten(parts[1..]), x)
  {
    NextStage(g, parts, defined);
    CallDrops(g, kernel, consts, parts, skip, defined, env, x);
    CallKeys(g, kernel, consts, parts, skip, defined, env);
    if LastUsedIn(g, parts[0], x) {
      LastUseIsForgotten(g, parts, defined, x);
    }
  }

  /** However many partitions have run, the caller holds no buffer whose last use lies in them, and
      still holds every argument whose last use does not. */
  lemma {:induction false} LastUsesAreDropped<V>(
    g: Graph, kernel: Kernel<V>, parts: seq<seq<Node>>, skips: seq<bool>, args: map<Name, V>, consts: map<Name, V>, k: nat, x: Name)
    requires |parts| == |skips| && WellFormed(g, parts) && k <= |parts| && args.Keys == g.inputs
    ensures var r := AfterCalls(g, kernel, consts, parts, skips, k, args);
            r.Some? ==>
              && (LastUsedBefore(g, parts, k, x) ==> x !in r.value)
              && (x in args && !LastUsedBefore(g, parts, k, x) ==> x in r.value)
  {
    WellFormedIsStage(g, parts);
    StageDrops(g, kernel, consts, parts, skips, k, g.inputs + g.constants, args, x);
  }

  /** An example: the only partition is the last to use its input. */
  lemma {:induction false} InputIsDropped(skip: bool)
    ensures var g := Graph({"a"}, {}, {"out"}, map[], map[], {"a", "out"});
            var parts := [[Node({"out"}, {"a"}, {"out"}, {"a"})]];
            Signatures(g, parts, [skip])[0] == Signature({"a"}, {"out"}, map["a" := true], {}, skip)
  {
    var g := Graph({"a"}, {}, {"out"}, map[], map[], {"a", "out"});
    var n := Node({"out"}, {"a"}, {"out"}, {"a"});
    GatherSingle(n);
    assert Allocated(g, {"a", "out"}) == {"a", "out"} && n.readNames + n.writeNames == {"a", "out"};
    assert RealSet(g, {"a"}) == {"a"} && {"a", "out"} - {"out"} == {"a"};
    assert InputNames(g, [n]) == {"a"};
    assert ExtraOutputs(g, [n]) == {};
    assert RealSet(g, {"out"}) == {"out"} && Allocated(g, {"out"}) == {"out"};
    assert Gather([n], Outputs) * g.outputNames + ExtraOutputs(g, [n]) == {"out"};
    assert [[n]][1..] == [];
  }
}

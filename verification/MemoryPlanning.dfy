/** Reuse planning over generated wrapper lines (vllm/env_override.py,
    `memory_plan_reuse_patched`): pointless trailing lines are dropped, then every planning
    line is planned with the state on top of a stack that subgraph lines push and pop.
    `line.plan(state)` is opaque; the model keeps which state each line receives. */
module MemoryPlanning {

  datatype Line =
    | Planning(node: string)
    | Planned(node: string, state: nat)  // the result of `plan` with that state
    | EnterSubgraph
    | ExitSubgraph
    | Other(text: string)

  function Change(line: Line): int {
    match line
    case EnterSubgraph => 1
    case ExitSubgraph => -1
    case _ => 0
  }

  /** Number of states on the stack after `lines`, started with one. */
  function Depth(lines: seq<Line>): int {
    if lines == [] then 1 else Depth(lines[..|lines| - 1]) + Change(lines[|lines| - 1])
  }

  /** No exit pops, and no planning line reads, an empty stack. */
  ghost predicate Runs(lines: seq<Line>) {
    lines == [] ||
    (var init, last := lines[..|lines| - 1], lines[|lines| - 1];
     Runs(init) && (last.ExitSubgraph? || last.Planning? ==> Depth(init) >= 1))
  }

  /** How many states have been created after `lines`; they are numbered in that order. */
  function Created(lines: seq<Line>): nat {
    if lines == [] then 1
    else Created(lines[..|lines| - 1]) + if lines[|lines| - 1].EnterSubgraph? then 1 else 0
  }

  function Stack(lines: seq<Line>): (s: seq<nat>)
    requires Runs(lines)
    ensures |s| == Depth(lines)
  {
    if lines == [] then [0]
    else
      var init := lines[..|lines| - 1];
      match lines[|lines| - 1]
      case EnterSubgraph => Stack(init) + [Created(init)]
      case ExitSubgraph => Stack(init)[..|Stack(init)| - 1]
      case _ => Stack(init)
  }

  lemma {:induction false} RunsPrefix(lines: seq<Line>, k: nat)
    requires k <= |lines| && Runs(lines)
    ensures Runs(lines[..k])
    ensures k < |lines| && (lines[k].ExitSubgraph? || lines[k].Planning?) ==> Depth(lines[..k]) >= 1
  {
    if k == |lines| {
      assert lines[..k] == lines;
    } else {
      RunsPrefix(lines[..|lines| - 1], k);
      assert lines[..|lines| - 1][..k] == lines[..k];
    }
  }

  /** The state a planning line at `k` receives. */
  function StateAt(lines: seq<Line>, k: nat): nat
    requires k < |lines| && lines[k].Planning? && Runs(lines)
  {
    RunsPrefix(lines, k);
    var s := Stack(lines[..k]);
    s[|s| - 1]
  }

  // ---------------------------------------------------------------- which lines share a state

  ghost predicate Distinct(s: seq<nat>, bound: nat) {
    && (forall i :: 0 <= i < |s| ==> s[i] < bound)
    && (forall i, j :: 0 <= i < j < |s| ==> s[i] != s[j])
  }

  lemma {:induction false} StackIsDistinct(lines: seq<Line>)
    requires Runs(lines)
    ensures Distinct(Stack(lines), Created(lines))
  {
    if lines != [] {
      StackIsDistinct(lines[..|lines| - 1]);
    }
  }

  /** While the stack never gets shorter than `d`, its lowest `d` states stay. */
  lemma {:induction false} LowStatesStay(lines: seq<Line>, i: nat, j: nat, d: nat)
    requires i <= j <= |lines| && Runs(lines)
    requires forall k :: i <= k <= j ==> Depth(lines[..k]) >= d
    ensures Runs(lines[..i]) && Runs(lines[..j])
    ensures Stack(lines[..j])[..d] == Stack(lines[..i])[..d]
  {
    RunsPrefix(lines, j);
    if i < j {
      LowStatesStay(lines, i, j - 1, d);
      LowStatesStep(lines, j, d);
    }
  }

  lemma {:induction false} LowStatesStep(lines: seq<Line>, j: nat, d: nat)
    requires 0 < j <= |lines| && Runs(lines[..j]) && Runs(lines[..j - 1])
    requires Depth(lines[..j]) >= d && Depth(lines[..j - 1]) >= d
    ensures Stack(lines[..j])[..d] == Stack(lines[..j - 1])[..d]
  {
    assert lines[..j][..j - 1] == lines[..j - 1];
  }

  /** A state that has left the stack never comes back. */
  lemma {:induction false} GoneIsGone(lines: seq<Line>, i: nat, j: nat, state: nat)
    requires i <= j <= |lines| && Runs(lines)
    ensures Runs(lines[..i]) && Runs(lines[..j])
    ensures state < Created(lines[..i]) && state !in Stack(lines[..i]) ==>
              state !in Stack(lines[..j]) && state < Created(lines[..j])
  {
    RunsPrefix(lines, i);
    RunsPrefix(lines, j);
    if i < j {
      GoneIsGone(lines, i, j - 1, state);
      assert lines[..j][..j - 1] == lines[..j - 1];
    }
  }

  /** The top state at `i` is gone by the first point where the stack is shorter. */
  lemma {:induction false} DipDropsTop(lines: seq<Line>, i: nat, k: nat) returns (m: nat)
    requires i <= k <= |lines| && Runs(lines) && Runs(lines[..i])
    requires Depth(lines[..i]) >= 1 && Depth(lines[..k]) < Depth(lines[..i])
    ensures i <= m <= k && Runs(lines[..m])
    ensures var s := Stack(lines[..i]);
            s[|s| - 1] !in Stack(lines[..m]) && s[|s| - 1] < Created(lines[..m])
  {
    var d := Depth(lines[..i]);
    if q :| i <= q < k && Depth(lines[..q]) < d {
      m := DipDropsTop(lines, i, q);
    } else {
      m := k;
      FirstDip(lines, i, k);
      GoneNow(lines, i, k);
    }
  }

  lemma {:induction false} FirstDip(lines: seq<Line>, i: nat, k: nat)
    requires i < k <= |lines| && Runs(lines) && Runs(lines[..i])
    requires Depth(lines[..i]) >= 1 && Depth(lines[..k]) < Depth(lines[..i])
    requires forall q :: i <= q < k ==> Depth(lines[..q]) >= Depth(lines[..i])
    ensures Runs(lines[..k]) && Runs(lines[..k - 1]) && lines[k - 1].ExitSubgraph?
    ensures Stack(lines[..k - 1]) == Stack(lines[..i])
    ensures Distinct(Stack(lines[..i]), Created(lines[..k - 1]))
  {
    RunsPrefix(lines, k);
    RunsPrefix(lines, k - 1);
    DepthStep(lines, k);
    SameStack(lines, i, k - 1);
    StackIsDistinct(lines[..k - 1]);
  }

  lemma {:induction false} SameStack(lines: seq<Line>, i: nat, j: nat)
    requires i <= j <= |lines| && Runs(lines) && Depth(lines[..j]) == Depth(lines[..i]) >= 0
    requires forall q :: i <= q <= j ==> Depth(lines[..q]) >= Depth(lines[..i])
    ensures Runs(lines[..i]) && Runs(lines[..j]) && Stack(lines[..j]) == Stack(lines[..i])
  {
    var d := Depth(lines[..i]);
    LowStatesStay(lines, i, j, d);
    TakeAll(Stack(lines[..i]), d);
    TakeAll(Stack(lines[..j]), d);
  }

  lemma {:induction false} TakeAll(s: seq<nat>, n: nat)
    requires n == |s|
    ensures s[..n] == s
  {
  }

  lemma {:induction false} DepthStep(lines: seq<Line>, k: nat)
    requires 0 < k <= |lines|
    ensures Depth(lines[..k]) == Depth(lines[..k - 1]) + Change(lines[k - 1])
  {
    assert lines[..k][..k - 1] == lines[..k - 1];
  }

  lemma {:induction false} GoneNow(lines: seq<Line>, i: nat, k: nat)
    requires i < k <= |lines| && Runs(lines[..i]) && Runs(lines[..k]) && Runs(lines[..k - 1])
    requires Stack(lines[..k - 1]) == Stack(lines[..i]) && Stack(lines[..i]) != []
    requires Distinct(Stack(lines[..i]), Created(lines[..k - 1]))
    requires lines[k - 1].ExitSubgraph?
    ensures var s := Stack(lines[..i]);
            s[|s| - 1] !in Stack(lines[..k]) && s[|s| - 1] < Created(lines[..k])
  {
    assert lines[..k][..k - 1] == lines[..k - 1];
  }

  /** `j` lies in the subgraph of `i`: same depth, and no shallower point between them. */
  ghost predicate SameSubgraph(lines: seq<Line>, i: nat, j: nat)
    requires i <= j <= |lines|
  {
    Depth(lines[..i]) == Depth(lines[..j]) && forall k :: i <= k <= j ==> Depth(lines[..k]) >= Depth(lines[..i])
  }

  lemma {:induction false} DipChangesState(lines: seq<Line>, i: nat, j: nat, k: nat)
    requires Runs(lines) && i <= k <= j < |lines| && lines[i].Planning? && lines[j].Planning?
    requires Depth(lines[..k]) < Depth(lines[..i])
    ensures StateAt(lines, i) != StateAt(lines, j)
  {
    RunsPrefix(lines, i);
    var m := DipDropsTop(lines, i, k);
    GoneIsGone(lines, m, j, StateAt(lines, i));
    StateIsOnStack(lines, j);
  }

  lemma {:induction false} StateIsOnStack(lines: seq<Line>, k: nat)
    requires k < |lines| && lines[k].Planning? && Runs(lines)
    ensures Runs(lines[..k]) && StateAt(lines, k) in Stack(lines[..k])
  {
    RunsPrefix(lines, k);
  }

  lemma {:induction false} NoDipKeepsState(lines: seq<Line>, i: nat, j: nat)
    requires Runs(lines) && i <= j < |lines| && lines[i].Planning? && lines[j].Planning?
    requires forall k :: i <= k <= j ==> Depth(lines[..k]) >= Depth(lines[..i])
    ensures StateAt(lines, i) == StateAt(lines, j) <==> Depth(lines[..i]) == Depth(lines[..j])
  {
    RunsPrefix(lines, i);
    RunsPrefix(lines, j);
    var d := Depth(lines[..i]);
    var si, sj := Stack(lines[..i]), Stack(lines[..j]);
    LowStatesStay(lines, i, j, d);
    StackIsDistinct(lines[..j]);
    assert si[..d] == si && sj[..d][d - 1] == sj[d - 1] == si[d - 1];
  }

  /** Two planning lines share a state iff they lie in the same subgraph. */
  lemma {:induction false} SameStateIffSameSubgraph(lines: seq<Line>, i: nat, j: nat)
    requires Runs(lines) && i <= j < |lines| && lines[i].Planning? && lines[j].Planning?
    ensures StateAt(lines, i) == StateAt(lines, j) <==> SameSubgraph(lines, i, j)
  {
    if k :| i <= k <= j && Depth(lines[..k]) < Depth(lines[..i]) {
      DipChangesState(lines, i, j, k);
    } else {
      NoDipKeepsState(lines, i, j);
    }
  }

  // ---------------------------------------------------------------- the pass

  predicate Pointless(line: Line, outNames: set<string>) {
    line.Planning? && line.node !in outNames
  }

  /** The lines up to the last one that is not pointless. */
  function Trimmed(lines: seq<Line>, outNames: set<string>): seq<Line> {
    if lines != [] && Pointless(lines[|lines| - 1], outNames) then Trimmed(lines[..|lines| - 1], outNames) else lines
  }

  /** Trimming drops exactly the planning lines at the end whose buffers are not returned. */
  lemma {:induction false} TrimmedDropsPointlessTail(lines: seq<Line>, outNames: set<string>)
    ensures var kept := Trimmed(lines, outNames);
            && kept <= lines
            && (forall k :: |kept| <= k < |lines| ==> lines[k].Planning? && lines[k].node !in outNames)
            && (kept != [] ==> !kept[|kept| - 1].Planning? || kept[|kept| - 1].node in outNames)
    decreases |lines|
  {
    if lines != [] && Pointless(lines[|lines| - 1], outNames) {
      TrimmedDropsPointlessTail(lines[..|lines| - 1], outNames);
    }
  }

  /** Every planning line planned with the top of the stack at that point. */
  function PlannedLines(lines: seq<Line>): (r: seq<Line>)
    requires Runs(lines)
    ensures |r| == |lines|
  {
    if lines == [] then []
    else
      var init, last := lines[..|lines| - 1], lines[|lines| - 1];
      var s := Stack(init);
      PlannedLines(init) + [if last.Planning? then Planned(last.node, s[|s| - 1]) else last]
  }

  /** Each planning line receives the state of its point; other lines are untouched. */
  lemma {:induction false} PlannedAt(lines: seq<Line>, k: nat)
    requires Runs(lines) && k < |lines|
    ensures PlannedLines(lines)[k] ==
              if lines[k].Planning? then Planned(lines[k].node, StateAt(lines, k)) else lines[k]
  {
    if k < |lines| - 1 {
      PlannedAt(lines[..|lines| - 1], k);
      assert lines[..|lines| - 1][..k] == lines[..k];
    }
  }
}

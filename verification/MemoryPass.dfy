/** The memory planning pass as it runs, and what becomes of its states (vllm/env_override.py,
    `memory_plan_reuse_patched`). */
module MemoryPass {
  import opened Wrappers
  import opened MemoryPlanning

  /** The states that have been popped, in that order. */
  function Retired(lines: seq<Line>): seq<nat>
    requires Runs(lines)
  {
    if lines == [] then []
    else
      var init := lines[..|lines| - 1];
      var s := Stack(init);
      if lines[|lines| - 1].ExitSubgraph? then Retired(init) + [s[|s| - 1]] else Retired(init)
  }

  /** The states `retired` and `open` are the first `n` states, each of them once: they are `n`
      distinct numbers below `n`. */
  ghost predicate Accounted(retired: seq<nat>, open: seq<nat>, n: nat) {
    |retired + open| == n && Distinct(retired + open, n)
  }

  lemma {:induction false} PopAccounts(retired: seq<nat>, open: seq<nat>, n: nat)
    requires open != [] && Accounted(retired, open, n)
    ensures Accounted(retired + [open[|open| - 1]], open[..|open| - 1], n)
  {
    var k, before := |retired|, retired + open;
    var after := retired + [open[|open| - 1]] + open[..|open| - 1];
    forall i | 0 <= i < |after| ensures after[i] == before[Moved(i, k, |before|)] {
    }
  }

  /** Where element `i` was before the last element moved to place `k`. */
  function Moved(i: nat, k: nat, n: nat): int { if i < k then i else if i == k then n - 1 else i - 1 }

  lemma {:induction false} PushAccounts(retired: seq<nat>, open: seq<nat>, n: nat)
    requires Accounted(retired, open, n)
    ensures Accounted(retired, open + [n], n + 1)
  {
    assert retired + (open + [n]) == retired + open + [n];
  }

  /** Every state that was created is on the stack or retired, and only once. */
  lemma {:induction false} RetiredOrOpenOnce(lines: seq<Line>)
    requires Runs(lines)
    ensures Accounted(Retired(lines), Stack(lines), Created(lines))
  {
    if lines != [] {
      RetiredOrOpenOnce(lines[..|lines| - 1]);
      LastLineAccounts(lines);
    }
  }

  lemma {:induction false} LastLineAccounts(lines: seq<Line>)
    requires Runs(lines) && lines != []
    requires var init := lines[..|lines| - 1]; Accounted(Retired(init), Stack(init), Created(init))
    ensures Accounted(Retired(lines), Stack(lines), Created(lines))
  {
    var init := lines[..|lines| - 1];
    var retired, open, n := Retired(init), Stack(init), Created(init);
    match lines[|lines| - 1]
    case ExitSubgraph =>
      PopAccounts(retired, open, n);
      assert Retired(lines) == retired + [open[|open| - 1]] && Stack(lines) == open[..|open| - 1] && Created(lines) == n;
    case EnterSubgraph =>
      PushAccounts(retired, open, n);
      assert Retired(lines) == retired && Stack(lines) == open + [n] && Created(lines) == n + 1;
    case _ =>
      assert Retired(lines) == retired && Stack(lines) == open && Created(lines) == n;
  }

  /** What one more line does. */
  lemma {:induction false} OneMore(lines: seq<Line>, i: nat)
    requires i < |lines| && Runs(lines[..i])
    ensures var s, line := Stack(lines[..i]), lines[i];
            Runs(lines[..i + 1]) <==> s != [] || !(line.ExitSubgraph? || line.Planning?)
    ensures Created(lines[..i + 1]) == Created(lines[..i]) + if lines[i].EnterSubgraph? then 1 else 0
    ensures Runs(lines[..i + 1]) ==>
              var s, line := Stack(lines[..i]), lines[i];
              && Stack(lines[..i + 1]) == (if line.EnterSubgraph? then s + [Created(lines[..i])]
                                           else if line.ExitSubgraph? then s[..|s| - 1] else s)
              && PlannedLines(lines[..i + 1]) ==
                   PlannedLines(lines[..i]) + [if line.Planning? then Planned(line.node, s[|s| - 1]) else line]
              && Retired(lines[..i + 1]) == Retired(lines[..i]) + if line.ExitSubgraph? then [s[|s| - 1]] else []
  {
    assert lines[..i + 1][..i] == lines[..i];
  }

  /** The loop after `i` of the `given` lines. */
  ghost predicate SoFar(given: seq<Line>, lines: seq<Line>, i: nat, states: seq<nat>, past: seq<nat>, created: nat) {
    && i <= |lines| == |given| && Runs(given[..i])
    && states == Stack(given[..i]) && created == Created(given[..i]) && past == Retired(given[..i])
    && lines[..i] == PlannedLines(given[..i]) && lines[i..] == given[i..]
  }

  lemma {:induction false} SoFarStep(given: seq<Line>, lines: seq<Line>, i: nat, states: seq<nat>, past: seq<nat>, created: nat,
                                     line: Line, states': seq<nat>, past': seq<nat>, created': nat)
    requires i < |given| && SoFar(given, lines, i, states, past, created)
    requires states != [] || !(given[i].ExitSubgraph? || given[i].Planning?)
    requires line == if given[i].Planning? then Planned(given[i].node, states[|states| - 1]) else given[i]
    requires states' == if given[i].EnterSubgraph? then states + [created]
                        else if given[i].ExitSubgraph? then states[..|states| - 1] else states
    requires created' == created + if given[i].EnterSubgraph? then 1 else 0
    requires past' == past + if given[i].ExitSubgraph? then [states[|states| - 1]] else []
    ensures SoFar(given, lines[i := line], i + 1, states', past', created')
  {
    OneMore(given, i);
    var lines' := lines[i := line];
    assert lines'[..i + 1] == lines[..i] + [line];
    assert lines'[i + 1..] == lines[i..][1..] == given[i..][1..] == given[i + 1..];
  }

  class WrapperCode {
    var lines: seq<Line>

    constructor (lines: seq<Line>)
      ensures this.lines == lines
    {
      this.lines := lines;
    }

    /** Drops the trailing planning lines whose buffers are not returned. */
    method DropPointless(outNames: set<string>)
      modifies this
      ensures lines == Trimmed(old(lines), outNames)
    {
      while lines != [] && Pointless(lines[|lines| - 1], outNames)
        invariant Trimmed(lines, outNames) == Trimmed(old(lines), outNames)
        decreases |lines|
      {
        lines := lines[..|lines| - 1];
      }
    }

    /** One line of the loop: plans it, or pushes or pops a state; an empty stack raises an
        IndexError. */
    static method PlanLine(line: Line, states: seq<nat>, past: seq<nat>, created: nat)
      returns (ok: bool, line': Line, states': seq<nat>, past': seq<nat>, created': nat)
      ensures ok <==> states != [] || !(line.ExitSubgraph? || line.Planning?)
      ensures ok ==> line' == if line.Planning? then Planned(line.node, states[|states| - 1]) else line
      ensures ok ==> states' == if line.EnterSubgraph? then states + [created]
                                else if line.ExitSubgraph? then states[..|states| - 1] else states
      ensures ok ==> created' == created + if line.EnterSubgraph? then 1 else 0
      ensures ok ==> past' == past + if line.ExitSubgraph? then [states[|states| - 1]] else []
    {
      ok, line', states', past', created' := true, line, states, past, created;
      if line.Planning? {
        if states == [] {
          return false, line, states, past, created;
        }
        line' := Planned(line.node, states[|states| - 1]);
      } else if line.EnterSubgraph? {
        states', created' := states + [created], created + 1;
      } else if line.ExitSubgraph? {
        if states == [] {
          return false, line, states, past, created;
        }
        past', states' := past + [states[|states| - 1]], states[..|states| - 1];
      }
    }

    /** The loop over the lines. */
    method PlanLines() returns (ok: bool, states: seq<nat>, past: seq<nat>)
      modifies this
      ensures ok <==> Runs(old(lines))
      ensures ok ==> lines == PlannedLines(old(lines)) && states == Stack(old(lines))
      ensures ok ==> past == Retired(old(lines))
    {
      ghost var given := lines;
      var created := 1;
      ok, states, past := true, [0], [];
      for i := 0 to |lines|
        invariant ok && SoFar(given, lines, i, states, past, created)
      {
        assert lines[i] == lines[i..][0] == given[i..][0] == given[i];
        var ok', line, states', past', created' := PlanLine(lines[i], states, past, created);
        if !ok' {
          OneMore(given, i);
          if Runs(given) { RunsPrefix(given, i + 1); }
          return false, states, past;
        }
        SoFarStep(given, lines, i, states, past, created, line, states', past', created');
        lines, states, past, created := lines[i := line], states', past', created';
      }
      assert given[..|given|] == given && lines[..|given|] == lines;
    }

    /** Fails exactly on the line sequences that are not bracketed: with an IndexError when the
        stack is empty, with the final assertion when a subgraph is still open. */
    method MemoryPlanReuse(outNames: set<string>) returns (r: Result<seq<nat>>)
      modifies this
      ensures r.Success? <==> Runs(Trimmed(old(lines), outNames)) && Depth(Trimmed(old(lines), outNames)) == 1
      ensures r.Success? ==> lines == PlannedLines(Trimmed(old(lines), outNames))
      ensures r == Failure(AssertionError) <==>
                Runs(Trimmed(old(lines), outNames)) && Depth(Trimmed(old(lines), outNames)) > 1
      ensures r.Success? ==> r.value == Retired(Trimmed(old(lines), outNames)) + Stack(Trimmed(old(lines), outNames))
      ensures r.Success? ==> Accounted(r.value, [], Created(Trimmed(old(lines), outNames)))
    {
      DropPointless(outNames);
      var ok, planningStates, past := PlanLines();
      if !ok || planningStates == [] {
        return Failure(IndexError);
      }
      RetiredOrOpenOnce(Trimmed(old(lines), outNames));
      past := past + [planningStates[|planningStates| - 1]];
      planningStates := planningStates[..|planningStates| - 1];
      if planningStates != [] {
        return Failure(AssertionError);
      }
      assert past + [] == past;
      return Success(past);
    }
  }
}

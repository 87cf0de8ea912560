/** Printing a module tree with identical layers collapsed (vllm/model_inspection.py,
    `_format_module_tree`). Which child names read as integers is a parameter. */
module ModuleTree {
  import opened Wrappers
  import opened ModuleSignature
  import R = IndexRanges

  /** `int(name)`, when it does not raise. */
  type Numbering = string -> Option<int>

  /** Positions of the children, in order, whose names do (or do not) read as integers. */
  function Positions(num: Numbering, cs: seq<Child>, numbered: bool): (ps: seq<nat>)
    ensures forall i :: 0 <= i < |ps| ==> ps[i] < |cs| && num(cs[ps[i]].name).Some? == numbered
    ensures forall p: nat :: p < |cs| && num(cs[p].name).Some? == numbered ==> p in ps
    ensures forall i, j :: 0 <= i < j < |ps| ==> ps[i] < ps[j]
  {
    if cs == [] then []
    else
      var k := |cs| - 1;
      var init := Positions(num, cs[..k], numbered);
      if num(cs[k].name).Some? == numbered then init + [k] else init
  }

  // ---------------------------------------------------------------- groups of equal signature

  /** Groups are non-empty lists of child positions. */
  ghost predicate GroupsOver(cs: seq<Child>, gs: seq<seq<nat>>) {
    forall g :: 0 <= g < |gs| ==> gs[g] != [] && forall i :: 0 <= i < |gs[g]| ==> gs[g][i] < |cs|
  }

  function SignatureAt(cs: seq<Child>, p: nat): string
    requires p < |cs|
  {
    Signature(cs[p].mod)
  }

  /** Index of the group with signature `sig`, or `|gs|`. */
  function FindGroup(cs: seq<Child>, gs: seq<seq<nat>>, sig: string): (g: nat)
    requires GroupsOver(cs, gs)
    ensures g <= |gs| && (g < |gs| ==> SignatureAt(cs, gs[g][0]) == sig)
    ensures g == |gs| ==> forall h :: 0 <= h < |gs| ==> SignatureAt(cs, gs[h][0]) != sig
  {
    if gs == [] then 0
    else
      var k := |gs| - 1;
      var g := FindGroup(cs, gs[..k], sig);
      if g < k then g else if SignatureAt(cs, gs[k][0]) == sig then k else |gs|
  }

  function AddToGroups(cs: seq<Child>, gs: seq<seq<nat>>, p: nat): (r: seq<seq<nat>>)
    requires GroupsOver(cs, gs) && p < |cs|
    ensures GroupsOver(cs, r)
  {
    var g := FindGroup(cs, gs, SignatureAt(cs, p));
    if g < |gs| then gs[g := gs[g] + [p]] else gs + [[p]]
  }

  function GroupsOf(cs: seq<Child>, ps: seq<nat>): (gs: seq<seq<nat>>)
    requires forall i :: 0 <= i < |ps| ==> ps[i] < |cs|
    ensures GroupsOver(cs, gs)
  {
    if ps == [] then [] else AddToGroups(cs, GroupsOf(cs, ps[..|ps| - 1]), ps[|ps| - 1])
  }

  function Flatten(gs: seq<seq<nat>>): seq<nat> {
    if gs == [] then [] else Flatten(gs[..|gs| - 1]) + gs[|gs| - 1]
  }

  lemma {:induction false} FlattenUpdate(gs: seq<seq<nat>>, g: nat, p: nat)
    requires g < |gs|
    ensures multiset(Flatten(gs[g := gs[g] + [p]])) == multiset(Flatten(gs)) + multiset{p}
    decreases |gs|
  {
    var k := |gs| - 1;
    var hs := gs[g := gs[g] + [p]];
    assert Flatten(gs) == Flatten(gs[..k]) + gs[k] && Flatten(hs) == Flatten(hs[..k]) + hs[k];
    if g < k {
      FlattenUpdate(gs[..k], g, p);
      assert hs[..k] == gs[..k][g := gs[..k][g] + [p]] && hs[k] == gs[k];
    } else {
      assert hs[..k] == gs[..k] && multiset(hs[k]) == multiset(gs[k]) + multiset{p};
    }
  }

  /** Every numbered child is in exactly one group, once. */
  lemma {:induction false} GroupsPartition(cs: seq<Child>, ps: seq<nat>)
    requires forall i :: 0 <= i < |ps| ==> ps[i] < |cs|
    ensures multiset(Flatten(GroupsOf(cs, ps))) == multiset(ps)
    decreases |ps|
  {
    if ps != [] {
      var init, p := ps[..|ps| - 1], ps[|ps| - 1];
      GroupsPartition(cs, init);
      assert ps == init + [p];
      var gs := GroupsOf(cs, init);
      var g := FindGroup(cs, gs, SignatureAt(cs, p));
      if g < |gs| {
        FlattenUpdate(gs, g, p);
      } else {
        assert (gs + [[p]])[..|gs|] == gs;
      }
    }
  }

  /** Within a group all signatures are equal; between groups they differ. */
  ghost predicate Classified(cs: seq<Child>, gs: seq<seq<nat>>)
    requires GroupsOver(cs, gs)
  {
    && (forall g, i :: 0 <= g < |gs| && 0 <= i < |gs[g]| ==> SignatureAt(cs, gs[g][i]) == SignatureAt(cs, gs[g][0]))
    && (forall g, h :: 0 <= g < h < |gs| ==> SignatureAt(cs, gs[g][0]) != SignatureAt(cs, gs[h][0]))
  }

  lemma {:induction false} GroupsClassify(cs: seq<Child>, ps: seq<nat>)
    requires forall i :: 0 <= i < |ps| ==> ps[i] < |cs|
    ensures Classified(cs, GroupsOf(cs, ps))
    decreases |ps|
  {
    if ps != [] {
      GroupsClassify(cs, ps[..|ps| - 1]);
      AddKeepsClassified(cs, GroupsOf(cs, ps[..|ps| - 1]), ps[|ps| - 1]);
    }
  }

  lemma {:induction false} AddKeepsClassified(cs: seq<Child>, gs: seq<seq<nat>>, p: nat)
    requires p < |cs| && GroupsOver(cs, gs) && Classified(cs, gs)
    ensures Classified(cs, AddToGroups(cs, gs, p))
  {
    var g, hs := FindGroup(cs, gs, SignatureAt(cs, p)), AddToGroups(cs, gs, p);
    forall h, i | 0 <= h < |hs| && 0 <= i < |hs[h]| ensures SignatureAt(cs, hs[h][i]) == SignatureAt(cs, hs[h][0]) {
      if h < |gs| && i < |gs[h]| {
        assert SignatureAt(cs, gs[h][i]) == SignatureAt(cs, gs[h][0]);
      }
    }
    forall h, k | 0 <= h < k < |hs| ensures SignatureAt(cs, hs[h][0]) != SignatureAt(cs, hs[k][0]) {
      if k < |gs| {
        assert SignatureAt(cs, gs[h][0]) != SignatureAt(cs, gs[k][0]);
      }
    }
  }

  /** Collapsing loses nothing: every member of a group is, as a whole tree, equal to the
      member that is printed for it; and different groups hold different trees. */
  ghost predicate GroupsAreTrees(cs: seq<Child>, gs: seq<seq<nat>>)
    requires GroupsOver(cs, gs)
  {
    forall g, i, h, j :: 0 <= g < |gs| && 0 <= i < |gs[g]| && 0 <= h < |gs| && 0 <= j < |gs[h]| ==>
      (cs[gs[g][i]].mod == cs[gs[h][j]].mod <==> g == h)
  }

  lemma {:induction false} CollapsedLayersAreEqual(m: Module, names: iset<string>, ps: seq<nat>)
    requires ValidNames(names) && !Ambiguous(names) && Over(m, names)
    requires forall k :: 0 <= k < |ps| ==> ps[k] < |m.children|
    ensures GroupsAreTrees(m.children, GroupsOf(m.children, ps))
  {
    var cs, gs := m.children, GroupsOf(m.children, ps);
    GroupsClassify(cs, ps);
    forall g, i, h, j | 0 <= g < |gs| && 0 <= i < |gs[g]| && 0 <= h < |gs| && 0 <= j < |gs[h]|
      ensures cs[gs[g][i]].mod == cs[gs[h][j]].mod <==> g == h
    {
      SameGroupSameTree(cs, names, gs, g, i, h, j);
    }
  }

  lemma {:induction false} SameGroupSameTree(cs: seq<Child>, names: iset<string>, gs: seq<seq<nat>>, g: nat, i: nat, h: nat, j: nat)
    requires ValidNames(names) && !Ambiguous(names) && OverAll(cs, names) && GroupsOver(cs, gs) && Classified(cs, gs)
    requires g < |gs| && i < |gs[g]| && h < |gs| && j < |gs[h]|
    ensures cs[gs[g][i]].mod == cs[gs[h][j]].mod <==> g == h
  {
    ChildOver(cs, gs[g][i], names);
    ChildOver(cs, gs[h][j], names);
    SignatureDeterminesTree(cs[gs[g][i]].mod, cs[gs[h][j]].mod, names);
    assert SignatureAt(cs, gs[g][i]) == SignatureAt(cs, gs[g][0]) && SignatureAt(cs, gs[h][j]) == SignatureAt(cs, gs[h][0]);
  }

  lemma {:induction false} ChildOver(cs: seq<Child>, p: nat, names: iset<string>)
    requires OverAll(cs, names) && p < |cs|
    ensures Over(cs[p].mod, names)
    decreases |cs|
  {
    if p > 0 {
      ChildOver(cs[1..], p - 1, names);
      assert cs[1..][p - 1] == cs[p];
    }
  }

  ghost predicate CollapsesOnlyEqual(names: iset<string>) {
    forall m: Module, ps: seq<nat> ::
      Over(m, names) && PositionsIn(ps, m.children) ==> GroupsAreTrees(m.children, GroupsOf(m.children, ps))
  }

  predicate PositionsIn(ps: seq<nat>, cs: seq<Child>) {
    forall k :: 0 <= k < |ps| ==> ps[k] < |cs|
  }

  /** Collapsing loses nothing in any tree over the names exactly when no name is another one,
      a colon and more. */
  lemma {:induction false} CollapsesOnlyEqualIff(names: iset<string>)
    requires ValidNames(names)
    ensures CollapsesOnlyEqual(names) <==> !Ambiguous(names)
  {
    if Ambiguous(names) {
      var m, ps := AmbiguousNamesCollapse(names);
    } else {
      forall m: Module, ps: seq<nat> | Over(m, names) && PositionsIn(ps, m.children)
        ensures GroupsAreTrees(m.children, GroupsOf(m.children, ps))
      {
        CollapsedLayersAreEqual(m, names, ps);
      }
    }
  }

  /** A tree, with differently named children, that is printed as if they were equal. */
  lemma {:induction false} AmbiguousNamesCollapse(names: iset<string>) returns (m: Module, ps: seq<nat>)
    requires ValidNames(names) && Ambiguous(names)
    ensures Over(m, names) && PositionsIn(ps, m.children) && !GroupsAreTrees(m.children, GroupsOf(m.children, ps))
    ensures forall i, j :: 0 <= i < j < |m.children| ==> m.children[i].name != m.children[j].name
  {
    var x, y :| x in names && y in names && ColonExtends(x, y);
    var a, b := AmbiguousNamesCollide(x, y, names);
    var cs := [Child(x, a), Child(y, b)];
    m, ps := Module("", cs), [0, 1];
    TwoOver(cs, names);
    TwoCollapse(cs);
  }

  lemma {:induction false} TwoOver(cs: seq<Child>, names: iset<string>)
    requires |cs| == 2 && forall i :: 0 <= i < 2 ==> cs[i].name in names && Over(cs[i].mod, names)
    ensures OverAll(cs, names)
  {
    assert cs[1..][0] == cs[1] && cs[1..][1..] == [];
    assert OverAll(cs[1..], names);
  }

  lemma {:induction false} TwoCollapse(cs: seq<Child>)
    requires |cs| == 2 && Signature(cs[0].mod) == Signature(cs[1].mod) && cs[0].mod != cs[1].mod
    ensures !GroupsAreTrees(cs, GroupsOf(cs, [0, 1]))
  {
    var ps: seq<nat> := [0, 1];
    assert ps[..1] == [0] && ps[..1][..0] == [];
    assert GroupsOf(cs, ps[..1]) == [[0]];
    var one: seq<seq<nat>> := [[0]];
    assert SignatureAt(cs, one[0][0]) == SignatureAt(cs, 1);
    assert FindGroup(cs, one, SignatureAt(cs, 1)) == 0;
    var gs := GroupsOf(cs, ps);
    assert gs == one[0 := one[0] + [1]];
    assert gs[0][0] == 0 && gs[0][1] == 1;
  }

  // ---------------------------------------------------------------- groups in order of their first index

  ghost predicate NumberedGroup(num: Numbering, cs: seq<Child>, g: seq<nat>) {
    g != [] && forall i :: 0 <= i < |g| ==> g[i] < |cs| && num(cs[g[i]].name).Some?
  }

  function Key(num: Numbering, cs: seq<Child>, g: seq<nat>): int
    requires NumberedGroup(num, cs, g)
  {
    num(cs[g[0]].name).value
  }

  ghost predicate AllNumbered(num: Numbering, cs: seq<Child>, gs: seq<seq<nat>>) {
    forall g :: 0 <= g < |gs| ==> NumberedGroup(num, cs, gs[g])
  }

  function InsertGroup(num: Numbering, cs: seq<Child>, g: seq<nat>, gs: seq<seq<nat>>): (r: seq<seq<nat>>)
    requires NumberedGroup(num, cs, g) && AllNumbered(num, cs, gs)
    ensures AllNumbered(num, cs, r)
  {
    if gs == [] then [g]
    else
      var k := |gs| - 1;
      if Key(num, cs, gs[k]) <= Key(num, cs, g) then gs + [g]
      else InsertGroup(num, cs, g, gs[..k]) + [gs[k]]
  }

  function SortGroups(num: Numbering, cs: seq<Child>, gs: seq<seq<nat>>): (r: seq<seq<nat>>)
    requires AllNumbered(num, cs, gs)
    ensures AllNumbered(num, cs, r)
  {
    if gs == [] then [] else InsertGroup(num, cs, gs[|gs| - 1], SortGroups(num, cs, gs[..|gs| - 1]))
  }

  lemma {:induction false} InsertGroupKeeps(num: Numbering, cs: seq<Child>, g: seq<nat>, gs: seq<seq<nat>>)
    requires NumberedGroup(num, cs, g) && AllNumbered(num, cs, gs)
    ensures multiset(InsertGroup(num, cs, g, gs)) == multiset(gs) + multiset{g}
    decreases |gs|
  {
    if gs != [] {
      assert gs == gs[..|gs| - 1] + [gs[|gs| - 1]];
      InsertGroupKeeps(num, cs, g, gs[..|gs| - 1]);
    }
  }

  /** The groups that are printed are the groups that were formed. */
  lemma {:induction false} SortGroupsKeeps(num: Numbering, cs: seq<Child>, gs: seq<seq<nat>>)
    requires AllNumbered(num, cs, gs)
    ensures multiset(SortGroups(num, cs, gs)) == multiset(gs)
    decreases |gs|
  {
    if gs != [] {
      assert gs == gs[..|gs| - 1] + [gs[|gs| - 1]];
      SortGroupsKeeps(num, cs, gs[..|gs| - 1]);
      InsertGroupKeeps(num, cs, gs[|gs| - 1], SortGroups(num, cs, gs[..|gs| - 1]));
    }
  }

  ghost predicate InOrder(num: Numbering, cs: seq<Child>, gs: seq<seq<nat>>)
    requires AllNumbered(num, cs, gs)
  {
    forall i, j :: 0 <= i < j < |gs| ==> Key(num, cs, gs[i]) <= Key(num, cs, gs[j])
  }

  /** All keys are at most `bound`. */
  ghost predicate KeysUpTo(num: Numbering, cs: seq<Child>, gs: seq<seq<nat>>, bound: int)
    requires AllNumbered(num, cs, gs)
  {
    forall i :: 0 <= i < |gs| ==> Key(num, cs, gs[i]) <= bound
  }

  lemma {:induction false} InsertGroupBound(num: Numbering, cs: seq<Child>, g: seq<nat>, gs: seq<seq<nat>>, bound: int)
    requires NumberedGroup(num, cs, g) && AllNumbered(num, cs, gs) && KeysUpTo(num, cs, gs, bound)
    requires Key(num, cs, g) <= bound
    ensures KeysUpTo(num, cs, InsertGroup(num, cs, g, gs), bound)
    decreases |gs|
  {
    if gs != [] {
      InsertGroupBound(num, cs, g, gs[..|gs| - 1], bound);
    }
  }

  lemma {:induction false} InsertGroupOrders(num: Numbering, cs: seq<Child>, g: seq<nat>, gs: seq<seq<nat>>)
    requires NumberedGroup(num, cs, g) && AllNumbered(num, cs, gs) && InOrder(num, cs, gs)
    ensures InOrder(num, cs, InsertGroup(num, cs, g, gs))
    decreases |gs|
  {
    if gs != [] {
      var k := |gs| - 1;
      if Key(num, cs, gs[k]) > Key(num, cs, g) {
        InsertGroupOrders(num, cs, g, gs[..k]);
        InsertGroupBound(num, cs, g, gs[..k], Key(num, cs, gs[k]));
      }
    }
  }

  /** The groups are printed by their first index. */
  lemma {:induction false} SortGroupsOrders(num: Numbering, cs: seq<Child>, gs: seq<seq<nat>>)
    requires AllNumbered(num, cs, gs)
    ensures InOrder(num, cs, SortGroups(num, cs, gs))
    decreases |gs|
  {
    if gs != [] {
      SortGroupsOrders(num, cs, gs[..|gs| - 1]);
      InsertGroupOrders(num, cs, gs[|gs| - 1], SortGroups(num, cs, gs[..|gs| - 1]));
    }
  }

  lemma {:induction false} GroupsAreNumbered(num: Numbering, cs: seq<Child>, ps: seq<nat>)
    requires forall i :: 0 <= i < |ps| ==> ps[i] < |cs| && num(cs[ps[i]].name).Some?
    ensures AllNumbered(num, cs, GroupsOf(cs, ps))
    decreases |ps|
  {
    if ps != [] { GroupsAreNumbered(num, cs, ps[..|ps| - 1]); }
  }

  /** The groups of a module's numbered children, as printed. */
  function PrintedGroups(num: Numbering, cs: seq<Child>): (gs: seq<seq<nat>>)
    ensures AllNumbered(num, cs, gs)
  {
    var ps := Positions(num, cs, true);
    GroupsAreNumbered(num, cs, ps);
    SortGroups(num, cs, GroupsOf(cs, ps))
  }

  // ---------------------------------------------------------------- text

  function Pad(indent: nat): string {
    if indent == 0 then "" else "  " + Pad(indent - 1)
  }

  predicate IsSpace(c: char) { c in " \t\n\r" }

  function LStrip(s: string): string {
    if s != [] && IsSpace(s[0]) then LStrip(s[1..]) else s
  }

  function Head(m: Module, name: string, indent: nat): string {
    Pad(indent) + (if name != "" then "(" + name + "): " else "") + m.info + if m.children == [] then "" else "("
  }

  function Indices(num: Numbering, cs: seq<Child>, g: seq<nat>): (xs: seq<int>)
    requires NumberedGroup(num, cs, g)
    ensures |xs| == |g| && forall i :: 0 <= i < |g| ==> xs[i] == num(cs[g[i]].name).value
  {
    seq(|g|, i requires 0 <= i < |g| => num(cs[g[i]].name).value)
  }

  function RangeText(xs: seq<int>): string {
    R.Join(R.ShowAll(R.Runs(R.Sort(xs))))
  }

  function Label(num: Numbering, cs: seq<Child>, g: seq<nat>): string
    requires NumberedGroup(num, cs, g)
  {
    var xs := Indices(num, cs, g);
    if |xs| > 1 then "(" + RangeText(xs) + "): " + R.Show(|xs|) + " x " else "(" + R.Show(xs[0]) + "): "
  }

  /** The lines printed for a module. */
  function Lines(num: Numbering, m: Module, name: string, indent: nat): (ls: seq<string>)
    ensures ls != []
    decreases m, 1, 0
  {
    if m.children == [] then [Head(m, name, indent)]
    else
      [Head(m, name, indent)]
      + GroupBlocks(num, m, PrintedGroups(num, m.children), indent + 1)
      + NamedBlocks(num, m, Positions(num, m.children, false), indent + 1)
      + [Pad(indent) + ")"]
  }

  /** The representative's lines, with the first one labelled. */
  function GroupBlock(num: Numbering, m: Module, g: seq<nat>, indent: nat): (ls: seq<string>)
    requires NumberedGroup(num, m.children, g)
    ensures ls != []
    decreases m, 0, 0
  {
    var body := Lines(num, m.children[g[0]].mod, "", indent);
    [Pad(indent) + Label(num, m.children, g) + LStrip(body[0])] + body[1..]
  }

  function GroupBlocks(num: Numbering, m: Module, gs: seq<seq<nat>>, indent: nat): seq<string>
    requires AllNumbered(num, m.children, gs)
    decreases m, 0, |gs| + 1
  {
    if gs == [] then [] else GroupBlocks(num, m, gs[..|gs| - 1], indent) + GroupBlock(num, m, gs[|gs| - 1], indent)
  }

  function NamedBlocks(num: Numbering, m: Module, ps: seq<nat>, indent: nat): seq<string>
    requires forall i :: 0 <= i < |ps| ==> ps[i] < |m.children|
    decreases m, 0, |ps| + 1
  {
    if ps == [] then []
    else
      var c := m.children[ps[|ps| - 1]];
      NamedBlocks(num, m, ps[..|ps| - 1], indent) + Lines(num, c.mod, c.name, indent)
  }

  /** The groups of a module's numbered children, in order of first occurrence. */
  function Groups(num: Numbering, m: Module): (gs: seq<seq<nat>>)
    ensures AllNumbered(num, m.children, gs)
  {
    var ps := Positions(num, m.children, true);
    GroupsAreNumbered(num, m.children, ps);
    GroupsOf(m.children, ps)
  }

  /** Expanding a collapsed group: a member printed on its own would give the same block,
      up to the label on the first line. */
  lemma {:induction false} ExpandingGroupsGivesSameChildren(num: Numbering, m: Module, names: iset<string>, g: nat, i: nat, indent: nat)
    requires ValidNames(names) && !Ambiguous(names) && Over(m, names) && g < |Groups(num, m)| && i < |Groups(num, m)[g]|
    ensures var group := Groups(num, m)[g];
            && NumberedGroup(num, m.children, [group[i]])
            && SameUpToLabel(num, m, group, [group[i]], indent)
  {
    var group := Groups(num, m)[g];
    assert NumberedGroup(num, m.children, group);
    CollapsedLayersAreEqual(m, names, Positions(num, m.children, true));
    assert m.children[group[i]].mod == m.children[group[0]].mod;
    SameModuleSameBlock(num, m, group, [group[i]], indent);
  }

  ghost predicate SameUpToLabel(num: Numbering, m: Module, g: seq<nat>, h: seq<nat>, indent: nat)
    requires NumberedGroup(num, m.children, g) && NumberedGroup(num, m.children, h)
  {
    var a, b := GroupBlock(num, m, g, indent), GroupBlock(num, m, h, indent);
    && a[1..] == b[1..]
    && exists first :: a[0] == Pad(indent) + Label(num, m.children, g) + first && b[0] == Pad(indent) + Label(num, m.children, h) + first
  }

  lemma {:induction false} SameModuleSameBlock(num: Numbering, m: Module, g: seq<nat>, h: seq<nat>, indent: nat)
    requires NumberedGroup(num, m.children, g) && NumberedGroup(num, m.children, h)
    requires m.children[g[0]].mod == m.children[h[0]].mod
    ensures SameUpToLabel(num, m, g, h, indent)
  {
    var first := LStrip(Lines(num, m.children[g[0]].mod, "", indent)[0]);
    assert GroupBlock(num, m, g, indent)[0] == Pad(indent) + Label(num, m.children, g) + first;
    assert GroupBlock(num, m, h, indent)[0] == Pad(indent) + Label(num, m.children, h) + first;
  }

  /** The label of a group names exactly the indices of its members. */
  lemma {:induction false} LabelNamesMembers(num: Numbering, cs: seq<Child>, g: seq<nat>)
    requires NumberedGroup(num, cs, g)
    ensures var parsed := R.Parse(RangeText(Indices(num, cs, g)));
            parsed.Some? && multiset(R.Expand(parsed.value)) == multiset(Indices(num, cs, g))
  {
    R.PrintedRangesRoundTrip(Indices(num, cs, g));
  }

  /** Every numbered child is printed exactly once: the printed groups, put together, are
      a permutation of the numbered positions. */
  lemma {:induction false} EveryNumberedChildIsPrintedOnce(num: Numbering, m: Module)
    ensures multiset(PrintedGroups(num, m.children)) == multiset(Groups(num, m))
    ensures multiset(Flatten(Groups(num, m))) == multiset(Positions(num, m.children, true))
  {
    SortGroupsKeeps(num, m.children, Groups(num, m));
    GroupsPartition(m.children, Positions(num, m.children, true));
  }

  // ---------------------------------------------------------------- the printer

  lemma {:induction false} FindIsUnique(cs: seq<Child>, gs: seq<seq<nat>>, sig: string, g: nat)
    requires GroupsOver(cs, gs) && Classified(cs, gs) && g < |gs| && SignatureAt(cs, gs[g][0]) == sig
    ensures FindGroup(cs, gs, sig) == g
  {
  }

  /** The dictionary maps each signature to the position of its group. */
  ghost predicate Indexed(cs: seq<Child>, groups: seq<seq<nat>>, index: map<string, nat>)
    requires GroupsOver(cs, groups)
  {
    && (forall sig :: sig in index ==> index[sig] < |groups| && SignatureAt(cs, groups[index[sig]][0]) == sig)
    && (forall g :: 0 <= g < |groups| ==> SignatureAt(cs, groups[g][0]) in index)
  }

  lemma {:induction false} IndexedFind(cs: seq<Child>, groups: seq<seq<nat>>, index: map<string, nat>, sig: string)
    requires GroupsOver(cs, groups) && Classified(cs, groups) && Indexed(cs, groups, index)
    ensures FindGroup(cs, groups, sig) == if sig in index then index[sig] else |groups|
  {
    if sig in index {
      FindIsUnique(cs, groups, sig, index[sig]);
    }
  }

  lemma {:induction false} IndexedStep(cs: seq<Child>, groups: seq<seq<nat>>, index: map<string, nat>, p: nat)
    requires GroupsOver(cs, groups) && Classified(cs, groups) && Indexed(cs, groups, index) && p < |cs|
    ensures var sig := SignatureAt(cs, p);
            if sig in index then
              && AddToGroups(cs, groups, p) == groups[index[sig] := groups[index[sig]] + [p]]
              && Indexed(cs, AddToGroups(cs, groups, p), index)
            else
              && AddToGroups(cs, groups, p) == groups + [[p]]
              && Indexed(cs, AddToGroups(cs, groups, p), index[sig := |groups|])
  {
    var sig := SignatureAt(cs, p);
    IndexedFind(cs, groups, index, sig);
    if sig in index {
      IndexedMember(cs, groups, index, p, index[sig]);
    } else {
      IndexedNew(cs, groups, index, p);
    }
  }

  lemma {:induction false} IndexedMember(cs: seq<Child>, groups: seq<seq<nat>>, index: map<string, nat>, p: nat, g: nat)
    requires GroupsOver(cs, groups) && Indexed(cs, groups, index) && p < |cs| && g < |groups|
    requires GroupsOver(cs, groups[g := groups[g] + [p]])
    ensures Indexed(cs, groups[g := groups[g] + [p]], index)
  {
    var r := groups[g := groups[g] + [p]];
    assert forall h :: 0 <= h < |groups| ==> r[h][0] == groups[h][0];
  }

  lemma {:induction false} IndexedNew(cs: seq<Child>, groups: seq<seq<nat>>, index: map<string, nat>, p: nat)
    requires GroupsOver(cs, groups) && Indexed(cs, groups, index) && p < |cs| && SignatureAt(cs, p) !in index
    requires GroupsOver(cs, groups + [[p]])
    ensures Indexed(cs, groups + [[p]], index[SignatureAt(cs, p) := |groups|])
  {
    var r := groups + [[p]];
    assert forall h :: 0 <= h < |groups| ==> r[h] == groups[h];
  }

  /** The loop that fills `sig_to_group`. */
  method GroupBySignature(cs: seq<Child>, ps: seq<nat>) returns (groups: seq<seq<nat>>)
    requires forall i :: 0 <= i < |ps| ==> ps[i] < |cs|
    ensures groups == GroupsOf(cs, ps)
  {
    groups := [];
    var sigToGroup: map<string, nat> := map[];
    for k := 0 to |ps|
      invariant groups == GroupsOf(cs, ps[..k]) && Indexed(cs, groups, sigToGroup)
    {
      assert ps[..k + 1][..k] == ps[..k];
      GroupsClassify(cs, ps[..k]);
      IndexedStep(cs, groups, sigToGroup, ps[k]);
      var sig := SignatureAt(cs, ps[k]);
      if sig in sigToGroup {
        var g := sigToGroup[sig];
        groups := groups[g := groups[g] + [ps[k]]];
      } else {
        sigToGroup := sigToGroup[sig := |groups|];
        groups := groups + [[ps[k]]];
      }
    }
    assert ps[..|ps|] == ps;
  }

  method SplitChildren(num: Numbering, cs: seq<Child>) returns (numbered: seq<nat>, nonNumbered: seq<nat>)
    ensures numbered == Positions(num, cs, true) && nonNumbered == Positions(num, cs, false)
  {
    numbered, nonNumbered := [], [];
    for k := 0 to |cs|
      invariant numbered == Positions(num, cs[..k], true) && nonNumbered == Positions(num, cs[..k], false)
    {
      assert cs[..k + 1][..k] == cs[..k];
      if num(cs[k].name).Some? {
        numbered := numbered + [k];
      } else {
        nonNumbered := nonNumbered + [k];
      }
    }
    assert cs[..|cs|] == cs;
  }

  method FormatModuleTree(num: Numbering, m: Module, name: string, indent: nat) returns (lines: seq<string>)
    ensures lines == Lines(num, m, name, indent)
    decreases m, 1
  {
    lines := [Head(m, name, indent)];
    if m.children == [] {
      return;
    }
    var numbered, nonNumbered := SplitChildren(num, m.children);
    var groups := GroupBySignature(m.children, numbered);
    GroupsAreNumbered(num, m.children, numbered);
    groups := SortGroups(num, m.children, groups);
    var groupLines := FormatGroups(num, m, groups, indent + 1);
    var namedLines := FormatNamed(num, m, nonNumbered, indent + 1);
    lines := lines + groupLines + namedLines + [Pad(indent) + ")"];
  }

  method FormatGroups(num: Numbering, m: Module, groups: seq<seq<nat>>, indent: nat) returns (lines: seq<string>)
    requires AllNumbered(num, m.children, groups)
    ensures lines == GroupBlocks(num, m, groups, indent)
    decreases m, 0
  {
    lines := [];
    for k := 0 to |groups|
      invariant lines == GroupBlocks(num, m, groups[..k], indent)
    {
      assert groups[..k + 1][..k] == groups[..k];
      var group := groups[k];
      var childLines := FormatModuleTree(num, m.children[group[0]].mod, "", indent);
      var firstLine := LStrip(childLines[0]);
      childLines := [Pad(indent) + Label(num, m.children, group) + firstLine] + childLines[1..];
      assert childLines == GroupBlock(num, m, group, indent);
      lines := lines + childLines;
    }
    assert groups[..|groups|] == groups;
  }

  method FormatNamed(num: Numbering, m: Module, ps: seq<nat>, indent: nat) returns (lines: seq<string>)
    requires forall i :: 0 <= i < |ps| ==> ps[i] < |m.children|
    ensures lines == NamedBlocks(num, m, ps, indent)
    decreases m, 0
  {
    lines := [];
    for k := 0 to |ps|
      invariant lines == NamedBlocks(num, m, ps[..k], indent)
    {
      assert ps[..k + 1][..k] == ps[..k];
      var child := m.children[ps[k]];
      var childLines := FormatModuleTree(num, child.mod, child.name, indent);
      lines := lines + childLines;
    }
    assert ps[..|ps|] == ps;
  }
}

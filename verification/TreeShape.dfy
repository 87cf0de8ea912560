/** The printed module tree determines the tree, up to the order in which numbered children are
    listed and mixed with the others (vllm/model_inspection.py). */
module TreeShape {
  import opened Wrappers
  import opened ModuleSignature
  import opened ModuleTree
  import opened TreeText
  import R = IndexRanges

  /** A tree without the order of its numbered children. */
  datatype Shape = Shape(info: string, numbered: map<string, Shape>, named: seq<NamedShape>)

  datatype NamedShape = NamedShape(name: string, shape: Shape)

  function ShapeOf(num: Numbering, m: Module): Shape
    decreases m, 1
  {
    Shape(m.info, NumberedShapes(num, m.children), NamedShapes(num, m.children))
  }

  function NumberedShapes(num: Numbering, cs: seq<Child>): map<string, Shape>
    decreases cs, 0
  {
    if cs == [] then map[]
    else
      var k := |cs| - 1;
      var before := NumberedShapes(num, cs[..k]);
      if num(cs[k].name).Some? then before[cs[k].name := ShapeOf(num, cs[k].mod)] else before
  }

  function NamedShapes(num: Numbering, cs: seq<Child>): seq<NamedShape>
    decreases cs, 0
  {
    if cs == [] then []
    else
      var k := |cs| - 1;
      var before := NamedShapes(num, cs[..k]);
      if num(cs[k].name).None? then before + [NamedShape(cs[k].name, ShapeOf(num, cs[k].mod))] else before
  }

  // ---------------------------------------------------------------- which trees

  ghost predicate DistinctNames(cs: seq<Child>) {
    forall i, j :: 0 <= i < j < |cs| ==> cs[i].name != cs[j].name
  }

  /** Siblings have different names, as PyTorch requires, and no info begins with white space. */
  ghost predicate Tidy(m: Module)
    decreases m, 1
  {
    DistinctNames(m.children) && (m.info == [] || !IsSpace(m.info[0])) && TidyAll(m.children)
  }

  ghost predicate TidyAll(cs: seq<Child>)
    decreases cs, 0
  {
    cs == [] || (Tidy(cs[0].mod) && TidyAll(cs[1..]))
  }

  /** No two names read as the same number. */
  ghost predicate OneName(num: Numbering, names: iset<string>) {
    forall x, y :: x in names && y in names && num(x).Some? && num(x) == num(y) ==> x == y
  }

  lemma {:induction false} ChildTidy(cs: seq<Child>, p: nat)
    requires TidyAll(cs) && p < |cs|
    ensures Tidy(cs[p].mod) && LStrip(cs[p].mod.info) == cs[p].mod.info
    decreases |cs|
  {
    if p > 0 {
      ChildTidy(cs[1..], p - 1);
      assert cs[1..][p - 1] == cs[p];
    }
  }

  // ---------------------------------------------------------------- shapes by position

  lemma {:induction false} NamedAt(num: Numbering, cs: seq<Child>)
    ensures var ps, ns := Positions(num, cs, false), NamedShapes(num, cs);
            |ns| == |ps| && forall i :: 0 <= i < |ps| ==> ns[i] == NamedShape(cs[ps[i]].name, ShapeOf(num, cs[ps[i]].mod))
    decreases |cs|
  {
    if cs != [] {
      NamedAt(num, cs[..|cs| - 1]);
      NamedStep(num, cs, |cs| - 1);
    }
  }

  lemma {:induction false} NamedStep(num: Numbering, cs: seq<Child>, k: nat)
    requires k + 1 == |cs|
    ensures NamedShapes(num, cs) == NamedShapes(num, cs[..k]) +
              if num(cs[k].name).None? then [NamedShape(cs[k].name, ShapeOf(num, cs[k].mod))] else []
    ensures Positions(num, cs, false) == Positions(num, cs[..k], false) + if num(cs[k].name).None? then [k] else []
  {
  }

  lemma {:induction false} NumberedAt(num: Numbering, cs: seq<Child>, p: nat)
    requires DistinctNames(cs) && p < |cs| && num(cs[p].name).Some?
    ensures cs[p].name in NumberedShapes(num, cs) && NumberedShapes(num, cs)[cs[p].name] == ShapeOf(num, cs[p].mod)
    decreases |cs|
  {
    var k := |cs| - 1;
    if p < k {
      NumberedAt(num, cs[..k], p);
      assert cs[..k][p] == cs[p] && cs[p].name != cs[k].name;
    }
  }

  lemma {:induction false} NumberedComesFrom(num: Numbering, cs: seq<Child>, x: string) returns (p: nat)
    requires x in NumberedShapes(num, cs)
    ensures p < |cs| && cs[p].name == x && num(x).Some?
    decreases |cs|
  {
    var k := |cs| - 1;
    if cs[k].name == x && num(x).Some? {
      p := k;
    } else {
      p := NumberedComesFrom(num, cs[..k], x);
    }
  }

  // ---------------------------------------------------------------- groups

  lemma {:induction false} InFlattened(gs: seq<seq<nat>>, p: nat)
    requires p in Flatten(gs)
    ensures exists g :: g in gs && p in g
    decreases |gs|
  {
    var k := |gs| - 1;
    if p in gs[k] {
      assert gs[k] in gs;
    } else {
      InFlattened(gs[..k], p);
      var g :| g in gs[..k] && p in g;
      assert g in gs;
    }
  }

  /** Every numbered child is in one of the printed groups, all of whose members are equal. */
  lemma {:induction false} GroupOf(num: Numbering, m: Module, names: iset<string>, p: nat) returns (g: nat, i: nat)
    requires p < |m.children| && num(m.children[p].name).Some?
    ensures var gs := PrintedGroups(num, m.children); g < |gs| && i < |gs[g]| && gs[g][i] == p
  {
    var ps := Positions(num, m.children, true);
    assert p in ps;
    EveryNumberedChildIsPrintedOnce(num, m);
    assert p in multiset(ps) && p in multiset(Flatten(Groups(num, m)));
    InFlattened(Groups(num, m), p);
    var group :| group in Groups(num, m) && p in group;
    assert group in multiset(Groups(num, m)) && group in multiset(PrintedGroups(num, m.children));
    g :| 0 <= g < |PrintedGroups(num, m.children)| && PrintedGroups(num, m.children)[g] == group;
    i :| 0 <= i < |group| && group[i] == p;
  }

  lemma {:induction false} MembersAreEqual(num: Numbering, m: Module, names: iset<string>, g: nat, i: nat)
    requires ValidNames(names) && !Ambiguous(names) && Over(m, names)
    requires g < |PrintedGroups(num, m.children)| && i < |PrintedGroups(num, m.children)[g]|
    ensures var group := PrintedGroups(num, m.children)[g];
            NumberedGroup(num, m.children, group) && m.children[group[i]].mod == m.children[group[0]].mod
  {
    var group := PrintedGroups(num, m.children)[g];
    assert NumberedGroup(num, m.children, group);
    EveryNumberedChildIsPrintedOnce(num, m);
    assert group in multiset(PrintedGroups(num, m.children)) && group in multiset(Groups(num, m));
    var h :| 0 <= h < |Groups(num, m)| && Groups(num, m)[h] == group;
    CollapsedLayersAreEqual(m, names, Positions(num, m.children, true));
  }

  // ---------------------------------------------------------------- outlines determine shapes

  lemma {:induction false} SplitEntries(x: seq<Entry>, y: seq<Entry>, u: seq<Entry>, v: seq<Entry>)
    requires x + y == u + v
    requires (forall i :: 0 <= i < |x| ==> x[i].Numbered?) && (forall i :: 0 <= i < |u| ==> u[i].Numbered?)
    requires (forall i :: 0 <= i < |y| ==> y[i].Named?) && (forall i :: 0 <= i < |v| ==> v[i].Named?)
    ensures x == u && y == v
  {
    var all := x + y;
    assert forall i :: 0 <= i < |x| ==> all[i].Numbered?;
    assert forall i :: |x| <= i < |all| ==> all[i].Named?;
    assert forall i :: 0 <= i < |u| ==> all[i] == u[i];
    assert forall i :: |u| <= i < |all| ==> all[i] == v[i - |u|];
    assert |x| < |all| ==> all[|x|].Named?;
    assert |u| < |all| ==> all[|u|].Named?;
    assert |x| == |u|;
    assert all[..|x|] == x && all[..|u|] == u && all[|x|..] == y && all[|u|..] == v;
  }

  /** The printed groups of two modules have the same indices and representatives of the same shape. */
  ghost predicate SameGroups(num: Numbering, a: Module, b: Module) {
    var ga, gb := PrintedGroups(num, a.children), PrintedGroups(num, b.children);
    && |ga| == |gb|
    && forall g :: 0 <= g < |ga| ==> SameGroup(num, a, ga[g], b, gb[g])
  }

  ghost predicate SameGroup(num: Numbering, a: Module, g: seq<nat>, b: Module, h: seq<nat>)
    requires NumberedGroup(num, a.children, g) && NumberedGroup(num, b.children, h)
  {
    && R.Sort(Indices(num, a.children, g)) == R.Sort(Indices(num, b.children, h))
    && ShapeOf(num, a.children[g[0]].mod) == ShapeOf(num, b.children[h[0]].mod)
  }

  lemma {:induction false} SameIndex(xs: seq<int>, ys: seq<int>, x: int)
    requires R.Sort(xs) == R.Sort(ys) && x in xs
    ensures x in ys
  {
    R.SortSorts(xs);
    R.SortSorts(ys);
    assert x in multiset(xs) && x in multiset(ys);
  }

  /** Each numbered child of `a` has a namesake of the same shape in `b`. */
  lemma {:induction false} Namesake(num: Numbering, a: Module, b: Module, names: iset<string>, p: nat) returns (q: nat)
    requires ValidNames(names) && !Ambiguous(names) && OneName(num, names) && Over(a, names) && Over(b, names)
    requires SameGroups(num, a, b) && p < |a.children| && num(a.children[p].name).Some?
    ensures q < |b.children| && b.children[q].name == a.children[p].name
    ensures ShapeOf(num, b.children[q].mod) == ShapeOf(num, a.children[p].mod)
  {
    var g, i := GroupOf(num, a, names, p);
    var ga, gb := PrintedGroups(num, a.children)[g], PrintedGroups(num, b.children)[g];
    assert SameGroup(num, a, ga, b, gb);
    MembersAreEqual(num, a, names, g, i);
    var xs, ys := Indices(num, a.children, ga), Indices(num, b.children, gb);
    assert xs[i] == num(a.children[p].name).value && xs[i] in xs;
    SameIndex(xs, ys, xs[i]);
    var j :| 0 <= j < |ys| && ys[j] == xs[i];
    MembersAreEqual(num, b, names, g, j);
    q := gb[j];
    ChildName(a.children, p, names);
    ChildName(b.children, q, names);
  }

  lemma {:induction false} SameNumbered(num: Numbering, a: Module, b: Module, names: iset<string>)
    requires ValidNames(names) && !Ambiguous(names) && OneName(num, names) && Over(a, names) && Over(b, names)
    requires DistinctNames(a.children) && DistinctNames(b.children) && SameGroups(num, a, b)
    ensures NumberedShapes(num, a.children) == NumberedShapes(num, b.children)
  {
    var na, nb := NumberedShapes(num, a.children), NumberedShapes(num, b.children);
    assert SameGroups(num, b, a);
    forall x | x in na ensures x in nb && nb[x] == na[x] {
      var p := NumberedComesFrom(num, a.children, x);
      var q := Namesake(num, a, b, names, p);
      NumberedAt(num, a.children, p);
      NumberedAt(num, b.children, q);
    }
    forall x | x in nb ensures x in na {
      var q := NumberedComesFrom(num, b.children, x);
      var p := Namesake(num, b, a, names, q);
      NumberedAt(num, a.children, p);
    }
  }

  /** Equal outlines come from trees of the same shape. */
  lemma {:induction false} OutlineDecides(num: Numbering, a: Module, b: Module, names: iset<string>)
    requires ValidNames(names) && !Ambiguous(names) && OneName(num, names)
    requires Over(a, names) && Over(b, names) && Tidy(a) && Tidy(b)
    requires OutlineOf(num, a, a.info) == OutlineOf(num, b, b.info)
    ensures ShapeOf(num, a) == ShapeOf(num, b)
    decreases a, 1
  {
    var ga, gb := PrintedGroups(num, a.children), PrintedGroups(num, b.children);
    var pa, pb := Positions(num, a.children, false), Positions(num, b.children, false);
    SplitEntries(GroupEntries(num, a, ga), NamedEntries(num, a, pa), GroupEntries(num, b, gb), NamedEntries(num, b, pb));
    GroupsDecide(num, a, b, names);
    SameNumbered(num, a, b, names);
    NamedDecide(num, a, b, names);
  }

  lemma {:induction false} GroupsDecide(num: Numbering, a: Module, b: Module, names: iset<string>)
    requires ValidNames(names) && !Ambiguous(names) && OneName(num, names)
    requires Over(a, names) && Over(b, names) && Tidy(a) && Tidy(b)
    requires GroupEntries(num, a, PrintedGroups(num, a.children)) == GroupEntries(num, b, PrintedGroups(num, b.children))
    ensures SameGroups(num, a, b)
    decreases a, 0
  {
    var ga, gb := PrintedGroups(num, a.children), PrintedGroups(num, b.children);
    var ea, eb := GroupEntries(num, a, ga), GroupEntries(num, b, gb);
    forall g | 0 <= g < |ga| ensures SameGroup(num, a, ga[g], b, gb[g]) {
      assert ea[g] == GroupEntry(num, a, ga[g]) && eb[g] == GroupEntry(num, b, gb[g]);
      var p, q := ga[g][0], gb[g][0];
      ChildReady(a, p, names);
      ChildReady(b, q, names);
      OutlineDecides(num, a.children[p].mod, b.children[q].mod, names);
    }
  }

  lemma {:induction false} NamedDecide(num: Numbering, a: Module, b: Module, names: iset<string>)
    requires ValidNames(names) && !Ambiguous(names) && OneName(num, names)
    requires Over(a, names) && Over(b, names) && Tidy(a) && Tidy(b)
    requires NamedEntries(num, a, Positions(num, a.children, false)) == NamedEntries(num, b, Positions(num, b.children, false))
    ensures NamedShapes(num, a.children) == NamedShapes(num, b.children)
    decreases a, 0
  {
    var pa, pb := Positions(num, a.children, false), Positions(num, b.children, false);
    var ea, eb := NamedEntries(num, a, pa), NamedEntries(num, b, pb);
    NamedAt(num, a.children);
    NamedAt(num, b.children);
    forall i | 0 <= i < |pa| ensures NamedShapes(num, a.children)[i] == NamedShapes(num, b.children)[i] {
      assert ea[i] == NamedEntry(num, a, pa[i]) && eb[i] == NamedEntry(num, b, pb[i]);
      ChildReady(a, pa[i], names);
      ChildReady(b, pb[i], names);
      OutlineDecides(num, a.children[pa[i]].mod, b.children[pb[i]].mod, names);
    }
  }

  lemma {:induction false} ChildReady(m: Module, p: nat, names: iset<string>)
    requires Over(m, names) && Tidy(m) && p < |m.children|
    ensures Over(m.children[p].mod, names) && Tidy(m.children[p].mod)
    ensures LStrip(m.children[p].mod.info) == m.children[p].mod.info
  {
    ChildOver(m.children, p, names);
    ChildTidy(m.children, p);
  }

  /** The printed lines decide the tree, up to the order of its numbered children. */
  lemma {:induction false} LinesDecide(num: Numbering, a: Module, b: Module, names: iset<string>)
    requires ValidNames(names) && ReadableNames(num, names) && !Ambiguous(names) && OneName(num, names)
    requires Over(a, names) && Over(b, names) && Tidy(a) && Tidy(b)
    requires Lines(num, a, "", 0) == Lines(num, b, "", 0)
    ensures ShapeOf(num, a) == ShapeOf(num, b)
  {
    LinesReadBack(num, a, names);
    LinesReadBack(num, b, names);
    OutlineDecides(num, a, b, names);
  }

  // ---------------------------------------------------------------- the whole text

  /** `"\n".join(lines)`. */
  function Joined(lines: seq<string>): string {
    if lines == [] then "" else if |lines| == 1 then lines[0] else lines[0] + "\n" + Joined(lines[1..])
  }

  /** `format_model_inspection`. */
  function Inspection(num: Numbering, m: Module): string {
    Joined(Lines(num, m, "", 0))
  }

  ghost predicate PlainLines(lines: seq<string>) {
    forall i :: 0 <= i < |lines| ==> '\n' !in lines[i]
  }

  function Behind(lines: seq<string>): string
    requires lines != []
  {
    if |lines| == 1 then "" else "\n" + Joined(lines[1..])
  }

  lemma {:induction false} SameFirstLine(a: seq<string>, b: seq<string>)
    requires a != [] && b != [] && PlainLines(a) && PlainLines(b) && Joined(a) == Joined(b)
    ensures a[0] == b[0] && Behind(a) == Behind(b)
  {
    assert Joined(a) == a[0] + Behind(a) && Joined(b) == b[0] + Behind(b);
    SplitUnique('\n', a[0], b[0], Behind(a), Behind(b));
  }

  lemma {:induction false} BehindDecides(a: seq<string>, b: seq<string>)
    requires a != [] && b != [] && Behind(a) == Behind(b)
    ensures |a| == 1 <==> |b| == 1
    ensures |a| > 1 ==> Joined(a[1..]) == Joined(b[1..])
  {
    assert |a| > 1 ==> Behind(a)[1..] == Joined(a[1..]);
    assert |b| > 1 ==> Behind(b)[1..] == Joined(b[1..]);
  }

  lemma {:induction false} JoinedDecides(a: seq<string>, b: seq<string>)
    requires a != [] && b != [] && PlainLines(a) && PlainLines(b) && Joined(a) == Joined(b)
    ensures a == b
    decreases |a|
  {
    SameFirstLine(a, b);
    BehindDecides(a, b);
    if |a| > 1 {
      JoinedDecides(a[1..], b[1..]);
    }
    assert a == [a[0]] + a[1..] && b == [b[0]] + b[1..];
  }

  predicate PlainRaw(raw: Raw)
    decreases raw, 1
  {
    '\n' !in raw.text && PlainRaws(raw.items)
  }

  predicate PlainRaws(items: seq<Raw>)
    decreases items, 0
  {
    items == [] || (PlainRaw(items[0]) && PlainRaws(items[1..]))
  }

  lemma {:induction false} PlainAppend(a: seq<string>, b: seq<string>)
    requires PlainLines(a) && PlainLines(b)
    ensures PlainLines(a + b)
  {
  }

  lemma {:induction false} PrintedPlain(items: seq<Raw>, k: nat)
    requires PlainRaws(items)
    ensures PlainLines(PrintAll(items, k))
    decreases items
  {
    if items != [] {
      var x := items[0];
      PrintedPlain(items[1..], k);
      PrintedPlain(x.items, k + 2);
      var head, close := [Blanks(k) + x.text], [Blanks(k) + ")"];
      assert '\n' !in Blanks(k);
      assert PlainLines(head) && PlainLines(close);
      PlainAppend(PrintAll(x.items, k + 2), close);
      PlainAppend(head, PrintAll(x.items, k + 2) + close);
      assert head + [] == head;
      assert PlainLines(Print(x, k));
      PlainAppend(Print(x, k), PrintAll(items[1..], k));
    }
  }

  lemma {:induction false} PlainRawsAppend(a: seq<Raw>, b: seq<Raw>)
    requires PlainRaws(a) && PlainRaws(b)
    ensures PlainRaws(a + b)
    decreases |a|
  {
    if a == [] {
      assert a + b == b;
    } else {
      assert (a + b)[1..] == a[1..] + b;
      PlainRawsAppend(a[1..], b);
    }
  }

  lemma {:induction false} PlainRawsSnoc(a: seq<Raw>, x: Raw)
    requires PlainRaws(a) && PlainRaw(x)
    ensures PlainRaws(a + [x])
  {
    assert [x][1..] == [];
    PlainRawsAppend(a, [x]);
  }

  lemma {:induction false} StripKeepsPlain(s: string)
    requires '\n' !in s
    ensures '\n' !in LStrip(s)
  {
    if s != [] { StripKeepsPlain(s[1..]); }
  }

  lemma {:induction false} PlainUnder(num: Numbering, m: Module, front: string, info: string)
    requires '\n' !in front && '\n' !in info && PlainRaws(RawItems(num, m))
    ensures PlainRaw(RawOf(num, m, front, info))
  {
  }

  lemma {:induction false} CountIsPlain(n: nat)
    ensures '\n' !in Count(n)
  {
    assert forall c :: c in R.Show(n) ==> R.IsDigit(c);
  }

  lemma {:induction false} LabelIsPlain(num: Numbering, cs: seq<Child>, g: seq<nat>)
    requires NumberedGroup(num, cs, g)
    ensures '\n' !in Label(num, cs, g)
  {
    LabelText(num, cs, g);
    RangeTextIsPlain(Indices(num, cs, g));
    CountIsPlain(|g|);
  }

  lemma {:induction false} ItemsArePlain(num: Numbering, m: Module, names: iset<string>)
    requires ValidNames(names) && Over(m, names)
    ensures PlainRaws(RawItems(num, m))
    decreases m, 1, 0
  {
    var gs, ps := PrintedGroups(num, m.children), Positions(num, m.children, false);
    GroupsArePlain(num, m, gs, names);
    NamedArePlain(num, m, ps, names);
    PlainRawsAppend(RawGroups(num, m, gs), RawNamed(num, m, ps));
  }

  lemma {:induction false} GroupsArePlain(num: Numbering, m: Module, gs: seq<seq<nat>>, names: iset<string>)
    requires ValidNames(names) && Over(m, names) && AllNumbered(num, m.children, gs)
    ensures PlainRaws(RawGroups(num, m, gs))
    decreases m, 0, |gs| + 1
  {
    if gs != [] {
      var k := |gs| - 1;
      var c := m.children[gs[k][0]].mod;
      GroupsArePlain(num, m, gs[..k], names);
      ChildOver(m.children, gs[k][0], names);
      ItemsArePlain(num, c, names);
      LabelIsPlain(num, m.children, gs[k]);
      StripKeepsPlain(c.info);
      PlainUnder(num, c, Label(num, m.children, gs[k]), LStrip(c.info));
      PlainRawsSnoc(RawGroups(num, m, gs[..k]), RawGroup(num, m, gs[k]));
    }
  }

  lemma {:induction false} NamedArePlain(num: Numbering, m: Module, ps: seq<nat>, names: iset<string>)
    requires ValidNames(names) && Over(m, names) && forall i :: 0 <= i < |ps| ==> ps[i] < |m.children|
    ensures PlainRaws(RawNamed(num, m, ps))
    decreases m, 0, |ps| + 1
  {
    if ps != [] {
      var k := |ps| - 1;
      var c := m.children[ps[k]];
      NamedArePlain(num, m, ps[..k], names);
      ChildOver(m.children, ps[k], names);
      ChildName(m.children, ps[k], names);
      ItemsArePlain(num, c.mod, names);
      NameIsPlain(num, m, ps[k]);
      PlainRawsSnoc(RawNamed(num, m, ps[..k]), RawName(num, m, ps[k]));
    }
  }

  lemma {:induction false} NameIsPlain(num: Numbering, m: Module, p: nat)
    requires p < |m.children| && '\n' !in m.children[p].name && '\n' !in m.children[p].mod.info
    requires PlainRaws(RawItems(num, m.children[p].mod))
    ensures PlainRaw(RawName(num, m, p))
  {
    var c := m.children[p];
    PlainUnder(num, c.mod, "(" + c.name + "): ", c.mod.info);
  }

  lemma {:induction false} LinesArePlain(num: Numbering, m: Module, names: iset<string>)
    requires ValidNames(names) && Over(m, names)
    ensures PlainLines(Lines(num, m, "", 0))
  {
    LinesArePrinted(num, m, "", 0, names);
    RootHead(m);
    ItemsArePlain(num, m, names);
    PrintedPlain(RawItems(num, m), 2);
    assert PlainLines([Blanks(0) + ")"]);
    PlainAppend(PrintAll(RawItems(num, m), 2), [Blanks(0) + ")"]);
    assert PlainLines([Head(m, "", 0)]);
    PlainAppend([Head(m, "", 0)], Body(num, m, 0));
  }

  /** The text decides the tree, up to the order of its numbered children. */
  lemma {:induction false} InspectionDecides(num: Numbering, a: Module, b: Module, names: iset<string>)
    requires ValidNames(names) && ReadableNames(num, names) && !Ambiguous(names) && OneName(num, names)
    requires Over(a, names) && Over(b, names) && Tidy(a) && Tidy(b)
    requires Inspection(num, a) == Inspection(num, b)
    ensures ShapeOf(num, a) == ShapeOf(num, b)
  {
    LinesArePlain(num, a, names);
    LinesArePlain(num, b, names);
    JoinedDecides(Lines(num, a, "", 0), Lines(num, b, "", 0));
    LinesDecide(num, a, b, names);
  }

  // ---------------------------------------------------------------- examples

  lemma {:induction false} OnePosition(num: Numbering, cs: seq<Child>, numbered: bool)
    requires |cs| == 1
    ensures Positions(num, cs, numbered) == if num(cs[0].name).Some? == numbered then [0] else []
  {
    assert cs[..0] == [];
  }

  lemma {:induction false} NothingNumbered(num: Numbering, m: Module, indent: nat)
    requires Positions(num, m.children, true) == []
    ensures GroupBlocks(num, m, PrintedGroups(num, m.children), indent) == []
  {
    assert PrintedGroups(num, m.children) == [];
  }

  lemma {:induction false} NoGroups(num: Numbering, m: Module, name: string, indent: nat)
    requires m.children != [] && Positions(num, m.children, true) == []
    ensures Lines(num, m, name, indent) ==
            [Head(m, name, indent)] + ([] + NamedBlocks(num, m, Positions(num, m.children, false), indent + 1) + [Pad(indent) + ")"])
  {
    NothingNumbered(num, m, indent + 1);
    LinesParts(num, m, name, indent, [], NamedBlocks(num, m, Positions(num, m.children, false), indent + 1));
  }

  lemma {:induction false} NamedSnoc(num: Numbering, m: Module, ps: seq<nat>, p: nat, indent: nat)
    requires p < |m.children| && forall i :: 0 <= i < |ps| ==> ps[i] < |m.children|
    ensures NamedBlocks(num, m, ps + [p], indent) ==
            NamedBlocks(num, m, ps, indent) + Lines(num, m.children[p].mod, m.children[p].name, indent)
  {
    assert (ps + [p])[..|ps|] == ps;
  }

  lemma {:induction false} ThreeLines(a: string, b: string, c: string)
    ensures [a] + ([] + [b] + [c]) == [a, b, c] == [a] + ([b] + [] + [c])
  {
  }

  lemma {:induction false} LeafLines(num: Numbering, m: Module, name: string, indent: nat)
    requires m.children == []
    ensures Lines(num, m, name, indent) == [Head(m, name, indent)]
  {
  }

  /** One child without children, whose name is no number. */
  lemma {:induction false} OneNamed(num: Numbering, m: Module, name: string, indent: nat)
    requires |m.children| == 1 && m.children[0].mod.children == [] && num(m.children[0].name).None?
    ensures var c := m.children[0];
            Lines(num, m, name, indent) == [Head(m, name, indent), Head(c.mod, c.name, indent + 1), Pad(indent) + ")"]
  {
    var c := m.children[0];
    OnePosition(num, m.children, true);
    OnePosition(num, m.children, false);
    NoGroups(num, m, name, indent);
    NamedSnoc(num, m, [], 0, indent + 1);
    assert [] + [0] == [0];
    LeafLines(num, c.mod, c.name, indent + 1);
    assert [] + [Head(c.mod, c.name, indent + 1)] == [Head(c.mod, c.name, indent + 1)];
    ThreeLines(Head(m, name, indent), Head(c.mod, c.name, indent + 1), Pad(indent) + ")");
  }

  /** One child without children, whose name is a number. */
  lemma {:induction false} OneNumbered(num: Numbering, m: Module, x: int, name: string, indent: nat)
    requires |m.children| == 1 && m.children[0].mod.children == [] && num(m.children[0].name) == Some(x)
    ensures var line := Pad(indent + 1) + ("(" + R.Show(x) + "): ") + LStrip(m.children[0].mod.info);
            Lines(num, m, name, indent) == [Head(m, name, indent), line, Pad(indent) + ")"]
  {
    var g: seq<nat> := [0];
    var line := Pad(indent + 1) + ("(" + R.Show(x) + "): ") + LStrip(m.children[0].mod.info);
    OneGroup(num, m.children, g);
    LeafGroup(num, m, g, x, indent + 1);
    OneBlock(num, m, g, indent + 1);
    OnePosition(num, m.children, false);
    LinesParts(num, m, name, indent, [line], []);
    ThreeLines(Head(m, name, indent), line, Pad(indent) + ")");
  }

  lemma {:induction false} LeafGroup(num: Numbering, m: Module, g: seq<nat>, x: int, indent: nat)
    requires |m.children| == 1 && m.children[0].mod.children == [] && num(m.children[0].name) == Some(x) && g == [0]
    ensures NumberedGroup(num, m.children, g)
    ensures GroupBlock(num, m, g, indent) == [Pad(indent) + ("(" + R.Show(x) + "): ") + LStrip(m.children[0].mod.info)]
  {
    var c := m.children[0].mod;
    StrippedHead(c, indent);
    assert LStrip(c.info) + "" == LStrip(c.info);
    assert Indices(num, m.children, g) == [x];
    LeafLines(num, c, "", indent);
  }

  lemma {:induction false} OneBlock(num: Numbering, m: Module, g: seq<nat>, indent: nat)
    requires NumberedGroup(num, m.children, g)
    ensures GroupBlocks(num, m, [g], indent) == GroupBlock(num, m, g, indent)
  {
    assert [g][..0] == [];
    assert [] + GroupBlock(num, m, g, indent) == GroupBlock(num, m, g, indent);
  }

  lemma {:induction false} OneGroup(num: Numbering, cs: seq<Child>, g: seq<nat>)
    requires |cs| == 1 && num(cs[0].name).Some? && g == [0]
    ensures PrintedGroups(num, cs) == [g] && NumberedGroup(num, cs, g)
  {
    OnePosition(num, cs, true);
    var ps := Positions(num, cs, true);
    assert ps == [0] && ps[..0] == [];
    assert GroupsOf(cs, ps[..0]) == [];
    assert AddToGroups(cs, [], 0) == [] + [[0]] == [g];
    assert GroupsOf(cs, ps) == [g];
    SortOne(num, cs, g);
  }

  lemma {:induction false} SortOne(num: Numbering, cs: seq<Child>, g: seq<nat>)
    requires NumberedGroup(num, cs, g)
    ensures SortGroups(num, cs, [g]) == [g]
  {
    assert [g][..0] == [];
  }

  /** The text of a child that has none itself. */
  lemma {:induction false} LeafText(info: string, name: string)
    requires name != ""
    ensures Head(Module(info, []), name, 1) == "  (" + name + "): " + info
  {
    assert Pad(1) == "  " + Pad(0) == "  ";
    assert "  " + ("(" + name + "): ") + info + "" == "  (" + name + "): " + info;
  }

  lemma {:induction false} TwoNamed(num: Numbering, m: Module, name: string, indent: nat)
    requires |m.children| == 2 && forall i :: 0 <= i < 2 ==> m.children[i].mod.children == [] && num(m.children[i].name).None?
    ensures var c, d := m.children[0], m.children[1];
            Lines(num, m, name, indent) ==
            [Head(m, name, indent)] + ([] + [Head(c.mod, c.name, indent + 1), Head(d.mod, d.name, indent + 1)] + [Pad(indent) + ")"])
  {
    var c, d := m.children[0], m.children[1];
    TwoPositions(num, m.children);
    NoGroups(num, m, name, indent);
    NamedSnoc(num, m, [], 0, indent + 1);
    NamedSnoc(num, m, [0], 1, indent + 1);
    assert [] + [0] == [0] && [0] + [1] == [0, 1];
    LeafLines(num, c.mod, c.name, indent + 1);
    LeafLines(num, d.mod, d.name, indent + 1);
    var x, y := Head(c.mod, c.name, indent + 1), Head(d.mod, d.name, indent + 1);
    assert [] + [x] + [y] == [x, y];
  }

  lemma {:induction false} TwoPositions(num: Numbering, cs: seq<Child>)
    requires |cs| == 2 && num(cs[0].name).None? && num(cs[1].name).None?
    ensures Positions(num, cs, true) == [] && Positions(num, cs, false) == [0, 1]
  {
    NoPositions(num, cs);
    BothPositions(num, cs);
  }

  lemma {:induction false} NoPositions(num: Numbering, cs: seq<Child>)
    requires |cs| == 2 && num(cs[0].name).None? && num(cs[1].name).None?
    ensures Positions(num, cs, true) == []
  {
    assert cs[..1][0] == cs[0];
    OnePosition(num, cs[..1], true);
    LastPosition(num, cs, true, 1);
  }

  lemma {:induction false} BothPositions(num: Numbering, cs: seq<Child>)
    requires |cs| == 2 && num(cs[0].name).None? && num(cs[1].name).None?
    ensures Positions(num, cs, false) == [0, 1]
  {
    var ps := Positions(num, cs, false);
    assert 0 in ps && 1 in ps;
    ZeroAndOne(ps);
  }

  lemma {:induction false} ZeroAndOne(ps: seq<nat>)
    requires 0 in ps && 1 in ps && forall i :: 0 <= i < |ps| ==> ps[i] < 2
    requires forall i, j :: 0 <= i < j < |ps| ==> ps[i] < ps[j]
    ensures ps == [0, 1]
  {
    var a :| 0 <= a < |ps| && ps[a] == 0;
    var b :| 0 <= b < |ps| && ps[b] == 1;
    assert a != b && |ps| >= 2;
    AtLeastItsPlace(ps, |ps| - 1);
    AtLeastItsPlace(ps, 1);
    assert ps[0] < ps[1];
  }

  lemma {:induction false} AtLeastItsPlace(ps: seq<nat>, i: nat)
    requires i < |ps| && forall j, k :: 0 <= j < k < |ps| ==> ps[j] < ps[k]
    ensures ps[i] >= i
  {
    if i > 0 {
      AtLeastItsPlace(ps, i - 1);
      assert ps[i - 1] < ps[i];
    }
  }

  lemma {:induction false} LastPosition(num: Numbering, cs: seq<Child>, numbered: bool, k: nat)
    requires k + 1 == |cs|
    ensures Positions(num, cs, numbered) ==
            if num(cs[k].name).Some? == numbered then Positions(num, cs[..k], numbered) + [k] else Positions(num, cs[..k], numbered)
  {
  }

  /** The lines of a module with two named children that have none themselves. */
  lemma {:induction false} NamedExample(num: Numbering, m: Module, info: string, c: Child, d: Child)
    requires m == Module(info, [c, d]) && c.mod.children == [] && d.mod.children == []
    requires c.name != "" && d.name != "" && num(c.name).None? && num(d.name).None?
    ensures Lines(num, m, "", 0) ==
            [info + "(", "  (" + c.name + "): " + c.mod.info, "  (" + d.name + "): " + d.mod.info, ")"]
  {
    var texts := [info + "(", "  (" + c.name + "): " + c.mod.info, "  (" + d.name + "): " + d.mod.info, ")"];
    TwoNamed(num, m, "", 0);
    RootText(m, "", 0, texts[0], texts[3]);
    LeafTextIs(c, 1, texts[1]);
    LeafTextIs(d, 1, texts[2]);
    FourLines(texts);
  }

  lemma {:induction false} FourLines(t: seq<string>)
    requires |t| == 4
    ensures [t[0]] + ([] + [t[1], t[2]] + [t[3]]) == t
  {
  }

  lemma {:induction false} RootText(m: Module, name: string, indent: nat, first: string, last: string)
    requires name == "" && indent == 0 && m.children != [] && first == m.info + "(" && last == ")"
    ensures Head(m, name, indent) == first && Pad(indent) + ")" == last
  {
    RootHead(m);
  }

  lemma {:induction false} LeafTextIs(c: Child, indent: nat, text: string)
    requires c.name != "" && indent == 1 && c.mod.children == [] && text == "  (" + c.name + "): " + c.mod.info
    ensures Head(c.mod, c.name, indent) == text
  {
    LeafText(c.mod.info, c.name);
    assert c.mod == Module(c.mod.info, []);
  }

  /** A name that is another one, the end of a label and more: different trees print the same. */
  lemma {:induction false} MarkInNameCollides(
    num: Numbering, x: string, z: string, info: string, a: Module, b: Module, name: string, indent: nat)
    requires x != "" && num(x).None? && num(x + "): " + z).None?
    requires a == Module("M", [Child(x, Module(z + "): " + info, []))])
    requires b == Module("M", [Child(x + "): " + z, Module(info, []))])
    ensures a != b && Lines(num, a, name, indent) == Lines(num, b, name, indent)
  {
    OneNamed(num, a, name, indent);
    OneNamed(num, b, name, indent);
    NamedHead(a.children[0].mod, x, indent + 1);
    NamedHead(b.children[0].mod, x + "): " + z, indent + 1);
    SameLabelText(Pad(indent + 1), x, z, info);
    assert |x| != |x + "): " + z|;
    assert a.children[0].name != b.children[0].name;
  }

  lemma {:induction false} SameLabelText(pad: string, x: string, z: string, info: string)
    ensures pad + ("(" + x + "): ") + (z + "): " + info + "") == pad + ("(" + (x + "): " + z) + "): ") + (info + "")
  {
  }

  /** Two names for one number, or an info that begins with a blank. */
  lemma {:induction false} NumberedTextCollides(num: Numbering, a: Module, b: Module, x: int)
    requires |a.children| == |b.children| == 1 && a.children[0].mod.children == [] && b.children[0].mod.children == []
    requires num(a.children[0].name) == num(b.children[0].name) == Some(x) && a.info == b.info
    requires LStrip(a.children[0].mod.info) == LStrip(b.children[0].mod.info)
    ensures Lines(num, a, "", 0) == Lines(num, b, "", 0)
  {
    OneNumbered(num, a, x, "", 0);
    OneNumbered(num, b, x, "", 0);
    RootHead(a);
    RootHead(b);
  }
}

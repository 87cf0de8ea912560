/** Reading the printed module tree back (vllm/model_inspection.py): the indentation gives the
    structure, and the labels give the names, the indices and the infos. */
module TreeText {
  import opened Wrappers
  import opened ModuleSignature
  import opened ModuleTree
  import R = IndexRanges

  // ---------------------------------------------------------------- structure from indentation

  function Blanks(k: nat): (s: string)
    ensures |s| == k && forall i :: 0 <= i < k ==> s[i] == ' '
  {
    if k == 0 then "" else " " + Blanks(k - 1)
  }

  /** `k` blanks and an opening parenthesis: a child at this depth. */
  predicate Opens(line: string, k: nat) {
    |line| > k && line[k] == '(' && forall i :: 0 <= i < k ==> line[i] == ' '
  }

  /** The end of a child with children of its own. */
  predicate Closes(line: string, k: nat) {
    |line| == k + 1 && line[k] == ')' && forall i :: 0 <= i < k ==> line[i] == ' '
  }

  /** A child as printed: the text of its line, and the children below it. */
  datatype Raw = Raw(text: string, items: seq<Raw>)

  /** The children at depth `k` at the front of `lines`, and the lines behind them. */
  function ParseItems(lines: seq<string>, k: nat): (r: (seq<Raw>, seq<string>))
    ensures |r.1| <= |lines|
    decreases |lines|
  {
    if lines == [] || !Opens(lines[0], k) then ([], lines)
    else
      var (items, behind) := ParseItems(lines[1..], k + 2);
      var next := if items != [] && behind != [] && Closes(behind[0], k) then behind[1..] else behind;
      var (more, rest) := ParseItems(next, k);
      ([Raw(lines[0][k..], items)] + more, rest)
  }

  function Print(raw: Raw, k: nat): seq<string>
    decreases raw, 1
  {
    [Blanks(k) + raw.text] + if raw.items == [] then [] else PrintAll(raw.items, k + 2) + [Blanks(k) + ")"]
  }

  function PrintAll(items: seq<Raw>, k: nat): seq<string>
    decreases items, 0
  {
    if items == [] then [] else Print(items[0], k) + PrintAll(items[1..], k)
  }

  lemma {:induction false} PrintAllAppend(a: seq<Raw>, b: seq<Raw>, k: nat)
    ensures PrintAll(a + b, k) == PrintAll(a, k) + PrintAll(b, k)
    decreases |a|
  {
    if a == [] {
      assert a + b == b;
    } else {
      assert (a + b)[1..] == a[1..] + b;
      PrintAllAppend(a[1..], b, k);
    }
  }

  lemma {:induction false} PrintAllSnoc(items: seq<Raw>, raw: Raw, k: nat)
    ensures PrintAll(items + [raw], k) == PrintAll(items, k) + Print(raw, k)
  {
    PrintAllAppend(items, [raw], k);
    assert [raw][1..] == [] && PrintAll([raw], k) == Print(raw, k) + [];
  }

  predicate Labelled(raw: Raw)
    decreases raw, 1
  {
    raw.text != [] && raw.text[0] == '(' && LabelledAll(raw.items)
  }

  predicate LabelledAll(items: seq<Raw>)
    decreases items, 0
  {
    items == [] || (Labelled(items[0]) && LabelledAll(items[1..]))
  }

  /** A line at which every level ends. */
  ghost predicate EndsLevel(line: string) {
    exists k: nat :: Closes(line, k)
  }

  lemma {:induction false} OpensOnly(k: nat, text: string, j: nat)
    requires text != [] && text[0] == '('
    ensures Opens(Blanks(k) + text, j) <==> j == k
    ensures (Blanks(k) + text)[k..] == text
  {
    var line := Blanks(k) + text;
    assert line[k] == '(' && forall i :: 0 <= i < k ==> line[i] == ' ';
  }

  lemma {:induction false} CloseOpensNothing(line: string, j: nat)
    requires EndsLevel(line)
    ensures !Opens(line, j)
  {
    var k: nat :| Closes(line, k);
    assert line[k] == ')';
  }

  lemma {:induction false} CloseLine(k: nat)
    ensures Closes(Blanks(k) + ")", k) && EndsLevel(Blanks(k) + ")")
  {
    var line := Blanks(k) + ")";
    assert line[k] == ')';
    assert Closes(line, k);
  }

  /** One step of the parser. */
  lemma {:induction false} ParseStep(
    lines: seq<string>, k: nat, items: seq<Raw>, behind: seq<string>, next: seq<string>, more: seq<Raw>, rest: seq<string>)
    requires lines != [] && Opens(lines[0], k) && ParseItems(lines[1..], k + 2) == (items, behind)
    requires next == if items != [] && behind != [] && Closes(behind[0], k) then behind[1..] else behind
    requires ParseItems(next, k) == (more, rest)
    ensures ParseItems(lines, k) == ([Raw(lines[0][k..], items)] + more, rest)
  {
  }

  lemma {:induction false} FirstLine(x: Raw, k: nat, tail: seq<string>)
    ensures var below := if x.items == [] then tail else PrintAll(x.items, k + 2) + ([Blanks(k) + ")"] + tail);
            Print(x, k) + tail == [Blanks(k) + x.text] + below
  {
  }

  /** The structure is read back, whatever the texts are. */
  lemma {:induction false} ParsePrinted(items: seq<Raw>, k: nat, rest: seq<string>)
    requires LabelledAll(items) && (rest == [] || EndsLevel(rest[0]))
    ensures ParseItems(PrintAll(items, k) + rest, k) == (items, rest)
    decreases items
  {
    if items == [] {
      assert PrintAll(items, k) + rest == rest;
      if rest != [] { CloseOpensNothing(rest[0], k); }
    } else {
      var x, more := items[0], items[1..];
      ParsePrinted(more, k, rest);
      NothingDeeper(more, k, rest);
      var tail := PrintAll(more, k) + rest;
      CloseInFront(k, tail);
      ParsePrinted(x.items, k + 2, [Blanks(k) + ")"] + tail);
      ParseFirst(x, more, k, tail, rest);
      PrintAllCons(items, k, rest);
      FirstAndRest(items);
    }
  }

  lemma {:induction false} FirstAndRest(items: seq<Raw>)
    requires items != []
    ensures [items[0]] + items[1..] == items
  {
  }

  lemma {:induction false} CloseInFront(k: nat, tail: seq<string>)
    ensures EndsLevel(([Blanks(k) + ")"] + tail)[0])
  {
    CloseLine(k);
  }

  lemma {:induction false} PrintAllCons(items: seq<Raw>, k: nat, rest: seq<string>)
    requires items != []
    ensures PrintAll(items, k) + rest == Print(items[0], k) + (PrintAll(items[1..], k) + rest)
  {
  }

  /** The first child, given that the others and its own children are read back. */
  lemma {:induction false} ParseFirst(x: Raw, more: seq<Raw>, k: nat, tail: seq<string>, rest: seq<string>)
    requires Labelled(x) && ParseItems(tail, k) == (more, rest) && ParseItems(tail, k + 2) == ([], tail)
    requires x.items != [] ==>
               ParseItems(PrintAll(x.items, k + 2) + ([Blanks(k) + ")"] + tail), k + 2) == (x.items, [Blanks(k) + ")"] + tail)
    ensures ParseItems(Print(x, k) + tail, k) == ([x] + more, rest)
  {
    OpensOnly(k, x.text, k);
    CloseLine(k);
    FirstLine(x, k, tail);
    var lines, close := Print(x, k) + tail, [Blanks(k) + ")"] + tail;
    assert close[0] == Blanks(k) + ")" && close[1..] == tail;
    if x.items == [] {
      assert lines[1..] == tail;
      ParseStep(lines, k, [], tail, tail, more, rest);
    } else {
      assert lines[1..] == PrintAll(x.items, k + 2) + close;
      ParseStep(lines, k, x.items, close, tail, more, rest);
    }
  }

  lemma {:induction false} NothingDeeper(more: seq<Raw>, k: nat, rest: seq<string>)
    requires LabelledAll(more) && (rest == [] || EndsLevel(rest[0]))
    ensures var tail := PrintAll(more, k) + rest; ParseItems(tail, k + 2) == ([], tail)
  {
    var tail := PrintAll(more, k) + rest;
    if more != [] {
      FirstLine(more[0], k, PrintAll(more[1..], k));
      OpensOnly(k, more[0].text, k + 2);
      assert tail[0] == Blanks(k) + more[0].text;
    } else if rest != [] {
      assert tail == rest;
      CloseOpensNothing(rest[0], k + 2);
    }
  }

  // ---------------------------------------------------------------- the printer in these terms

  lemma {:induction false} PadIsBlanks(indent: nat)
    ensures Pad(indent) == Blanks(2 * indent)
  {
    if indent > 0 {
      PadIsBlanks(indent - 1);
      assert Blanks(2 * indent) == " " + (" " + Blanks(2 * indent - 2));
      assert "  " + Pad(indent - 1) == " " + (" " + Pad(indent - 1));
    }
  }

  /** A module as it is printed under a label. */
  function RawOf(num: Numbering, m: Module, front: string, info: string): Raw
    decreases m, 2, 0
  {
    Raw(front + info + (if m.children == [] then "" else "("), RawItems(num, m))
  }

  function RawItems(num: Numbering, m: Module): seq<Raw>
    decreases m, 1, 0
  {
    RawGroups(num, m, PrintedGroups(num, m.children)) + RawNamed(num, m, Positions(num, m.children, false))
  }

  function RawGroup(num: Numbering, m: Module, g: seq<nat>): Raw
    requires NumberedGroup(num, m.children, g)
    decreases m, 0, 0
  {
    var c := m.children[g[0]];
    RawOf(num, c.mod, Label(num, m.children, g), LStrip(c.mod.info))
  }

  function RawGroups(num: Numbering, m: Module, gs: seq<seq<nat>>): (rs: seq<Raw>)
    requires AllNumbered(num, m.children, gs)
    ensures |rs| == |gs|
    decreases m, 0, |gs| + 1
  {
    if gs == [] then [] else RawGroups(num, m, gs[..|gs| - 1]) + [RawGroup(num, m, gs[|gs| - 1])]
  }

  function RawName(num: Numbering, m: Module, p: nat): Raw
    requires p < |m.children|
    decreases m, 0, 0
  {
    var c := m.children[p];
    RawOf(num, c.mod, "(" + c.name + "): ", c.mod.info)
  }

  function RawNamed(num: Numbering, m: Module, ps: seq<nat>): (rs: seq<Raw>)
    requires forall i :: 0 <= i < |ps| ==> ps[i] < |m.children|
    ensures |rs| == |ps|
    decreases m, 0, |ps| + 1
  {
    if ps == [] then [] else RawNamed(num, m, ps[..|ps| - 1]) + [RawName(num, m, ps[|ps| - 1])]
  }

  lemma {:induction false} SortGroupsCount(num: Numbering, cs: seq<Child>)
    ensures |PrintedGroups(num, cs)| == |GroupsOf(cs, Positions(num, cs, true))|
  {
    var gs := GroupsOf(cs, Positions(num, cs, true));
    GroupsAreNumbered(num, cs, Positions(num, cs, true));
    SortGroupsKeeps(num, cs, gs);
    assert |multiset(SortGroups(num, cs, gs))| == |multiset(gs)|;
  }

  /** A module with children prints some of them. */
  lemma {:induction false} SomethingBelow(num: Numbering, m: Module)
    ensures RawItems(num, m) == [] <==> m.children == []
  {
    var cs := m.children;
    SortGroupsCount(num, cs);
    if cs == [] {
      assert Positions(num, cs, true) == [] && Positions(num, cs, false) == [];
    } else if num(cs[0].name).Some? {
      assert 0 in Positions(num, cs, true);
      GroupsPartition(cs, Positions(num, cs, true));
    } else {
      assert 0 in Positions(num, cs, false);
    }
  }

  lemma {:induction false} LStripBlanks(k: nat, s: string)
    ensures LStrip(Blanks(k) + s) == LStrip(s)
  {
    if k > 0 {
      assert (Blanks(k) + s)[1..] == Blanks(k - 1) + s;
      LStripBlanks(k - 1, s);
    } else {
      assert Blanks(0) + s == s;
    }
  }

  lemma {:induction false} LStripOpen(s: string)
    ensures LStrip(s + "(") == LStrip(s) + "("
  {
    if s != [] {
      assert (s + "(")[1..] == s[1..] + "(";
      LStripOpen(s[1..]);
    } else {
      assert s + "(" == "(";
    }
  }

  /** What stands below the first line of a module. */
  function Body(num: Numbering, m: Module, indent: nat): seq<string> {
    if m.children == [] then [] else PrintAll(RawItems(num, m), 2 * (indent + 1)) + [Blanks(2 * indent) + ")"]
  }

  lemma {:induction false} Regroup(h: string, a: seq<string>, b: seq<string>, c: string)
    ensures [h] + a + b + [c] == [h] + (a + b + [c])
  {
  }

  lemma {:induction false} LinesArePrinted(num: Numbering, m: Module, name: string, indent: nat, names: iset<string>)
    requires ValidNames(names) && Over(m, names)
    ensures Lines(num, m, name, indent) == [Head(m, name, indent)] + Body(num, m, indent)
    decreases m, 1, 0
  {
    if m.children != [] {
      var gs, ps := PrintedGroups(num, m.children), Positions(num, m.children, false);
      GroupBlocksArePrinted(num, m, gs, indent + 1, names);
      NamedBlocksArePrinted(num, m, ps, indent + 1, names);
      BlocksArePrinted(num, m, name, indent, gs, ps);
    }
  }

  lemma {:induction false} BlocksArePrinted(num: Numbering, m: Module, name: string, indent: nat, gs: seq<seq<nat>>, ps: seq<nat>)
    requires m.children != [] && gs == PrintedGroups(num, m.children) && ps == Positions(num, m.children, false)
    requires GroupBlocks(num, m, gs, indent + 1) == PrintAll(RawGroups(num, m, gs), 2 * (indent + 1))
    requires NamedBlocks(num, m, ps, indent + 1) == PrintAll(RawNamed(num, m, ps), 2 * (indent + 1))
    ensures Lines(num, m, name, indent) == [Head(m, name, indent)] + Body(num, m, indent)
  {
    var below := 2 * (indent + 1);
    PadIsBlanks(indent);
    PrintAllAppend(RawGroups(num, m, gs), RawNamed(num, m, ps), below);
    LinesParts(num, m, name, indent, GroupBlocks(num, m, gs, indent + 1), NamedBlocks(num, m, ps, indent + 1));
  }

  lemma {:induction false} LinesParts(num: Numbering, m: Module, name: string, indent: nat, groups: seq<string>, named: seq<string>)
    requires m.children != [] && groups == GroupBlocks(num, m, PrintedGroups(num, m.children), indent + 1)
    requires named == NamedBlocks(num, m, Positions(num, m.children, false), indent + 1)
    ensures Lines(num, m, name, indent) == [Head(m, name, indent)] + (groups + named + [Pad(indent) + ")"])
  {
    Regroup(Head(m, name, indent), groups, named, Pad(indent) + ")");
  }

  lemma {:induction false} GroupBlocksArePrinted(num: Numbering, m: Module, gs: seq<seq<nat>>, indent: nat, names: iset<string>)
    requires ValidNames(names) && Over(m, names) && AllNumbered(num, m.children, gs)
    ensures GroupBlocks(num, m, gs, indent) == PrintAll(RawGroups(num, m, gs), 2 * indent)
    decreases m, 0, |gs| + 1
  {
    if gs != [] {
      var k := |gs| - 1;
      GroupBlocksArePrinted(num, m, gs[..k], indent, names);
      GroupBlockIsPrinted(num, m, gs[k], indent, names);
      PrintAllSnoc(RawGroups(num, m, gs[..k]), RawGroup(num, m, gs[k]), 2 * indent);
    }
  }

  lemma {:induction false} GroupBlockIsPrinted(num: Numbering, m: Module, g: seq<nat>, indent: nat, names: iset<string>)
    requires ValidNames(names) && Over(m, names) && NumberedGroup(num, m.children, g)
    ensures GroupBlock(num, m, g, indent) == Print(RawGroup(num, m, g), 2 * indent)
    decreases m, 0, 0
  {
    var c := m.children[g[0]];
    ChildOver(m.children, g[0], names);
    LinesArePrinted(num, c.mod, "", indent, names);
    StrippedHead(c.mod, indent);
    PrintUnderLabel(num, c.mod, Label(num, m.children, g), LStrip(c.mod.info), indent);
    BlockOf(num, m, g, indent);
  }

  lemma {:induction false} BlockOf(num: Numbering, m: Module, g: seq<nat>, indent: nat)
    requires NumberedGroup(num, m.children, g)
    requires var c := m.children[g[0]].mod; Lines(num, c, "", indent) == [Head(c, "", indent)] + Body(num, c, indent)
    ensures var c := m.children[g[0]].mod;
            GroupBlock(num, m, g, indent) ==
            [Pad(indent) + Label(num, m.children, g) + LStrip(Head(c, "", indent))] + Body(num, c, indent)
  {
    var c := m.children[g[0]].mod;
    var lines := Lines(num, c, "", indent);
    assert lines[0] == Head(c, "", indent) && lines[1..] == Body(num, c, indent);
  }

  /** A module printed under a label, from its parts. */
  lemma {:induction false} PrintUnderLabel(num: Numbering, m: Module, front: string, info: string, indent: nat)
    ensures Print(RawOf(num, m, front, info), 2 * indent) ==
            [Pad(indent) + front + (info + if m.children == [] then "" else "(")] + Body(num, m, indent)
  {
    SomethingBelow(num, m);
    PadIsBlanks(indent);
    ThreeTexts(Blanks(2 * indent), front, info, if m.children == [] then "" else "(");
  }

  lemma {:induction false} ThreeTexts(a: string, b: string, c: string, d: string)
    ensures a + (b + c + d) == a + b + (c + d)
  {
  }

  lemma {:induction false} StrippedHead(m: Module, indent: nat)
    ensures LStrip(Head(m, "", indent)) == LStrip(m.info) + if m.children == [] then "" else "("
  {
    PadIsBlanks(indent);
    var open := if m.children == [] then "" else "(";
    assert Head(m, "", indent) == Blanks(2 * indent) + (m.info + open);
    LStripBlanks(2 * indent, m.info + open);
    LStripOpen(m.info);
    assert m.info + "" == m.info && LStrip(m.info) + "" == LStrip(m.info);
  }

  lemma {:induction false} NamedBlocksArePrinted(num: Numbering, m: Module, ps: seq<nat>, indent: nat, names: iset<string>)
    requires ValidNames(names) && Over(m, names) && forall i :: 0 <= i < |ps| ==> ps[i] < |m.children|
    ensures NamedBlocks(num, m, ps, indent) == PrintAll(RawNamed(num, m, ps), 2 * indent)
    decreases m, 0, |ps| + 1
  {
    if ps != [] {
      var k := |ps| - 1;
      NamedBlocksArePrinted(num, m, ps[..k], indent, names);
      NamedBlockIsPrinted(num, m, ps[k], indent, names);
      PrintAllSnoc(RawNamed(num, m, ps[..k]), RawName(num, m, ps[k]), 2 * indent);
    }
  }

  lemma {:induction false} NamedBlockIsPrinted(num: Numbering, m: Module, p: nat, indent: nat, names: iset<string>)
    requires ValidNames(names) && Over(m, names) && p < |m.children|
    ensures Lines(num, m.children[p].mod, m.children[p].name, indent) == Print(RawName(num, m, p), 2 * indent)
    decreases m, 0, 0
  {
    var c := m.children[p];
    ChildOver(m.children, p, names);
    ChildName(m.children, p, names);
    LinesArePrinted(num, c.mod, c.name, indent, names);
    PrintUnderLabel(num, c.mod, "(" + c.name + "): ", c.mod.info, indent);
    NamedHead(c.mod, c.name, indent);
  }

  lemma {:induction false} NamedHead(m: Module, name: string, indent: nat)
    requires name != ""
    ensures Head(m, name, indent) == Pad(indent) + ("(" + name + "): ") + (m.info + if m.children == [] then "" else "(")
  {
    ThreeTexts(Pad(indent), "(" + name + "): ", m.info, if m.children == [] then "" else "(");
  }

  lemma {:induction false} ChildName(cs: seq<Child>, p: nat, names: iset<string>)
    requires OverAll(cs, names) && p < |cs|
    ensures cs[p].name in names
    decreases |cs|
  {
    if p > 0 {
      ChildName(cs[1..], p - 1, names);
      assert cs[1..][p - 1] == cs[p];
    }
  }

  lemma {:induction false} LabelledAppend(a: seq<Raw>, b: seq<Raw>)
    requires LabelledAll(a) && LabelledAll(b)
    ensures LabelledAll(a + b)
    decreases |a|
  {
    if a == [] {
      assert a + b == b;
    } else {
      assert (a + b)[1..] == a[1..] + b;
      LabelledAppend(a[1..], b);
    }
  }

  lemma {:induction false} LabelledSnoc(a: seq<Raw>, x: Raw)
    requires LabelledAll(a) && Labelled(x)
    ensures LabelledAll(a + [x])
  {
    assert [x][1..] == [];
    LabelledAppend(a, [x]);
  }

  lemma {:induction false} LabelOpens(num: Numbering, cs: seq<Child>, g: seq<nat>)
    requires NumberedGroup(num, cs, g)
    ensures Label(num, cs, g) != [] && Label(num, cs, g)[0] == '('
  {
  }

  lemma {:induction false} RawIsLabelled(num: Numbering, m: Module, front: string, info: string)
    requires LabelledAll(RawItems(num, m)) && front != [] && front[0] == '('
    ensures Labelled(RawOf(num, m, front, info))
  {
    var text := front + info + (if m.children == [] then "" else "(");
    assert text[0] == front[0];
  }

  lemma {:induction false} ItemsAreLabelled(num: Numbering, m: Module)
    ensures LabelledAll(RawItems(num, m))
    decreases m, 1, 0
  {
    var gs, ps := PrintedGroups(num, m.children), Positions(num, m.children, false);
    GroupsAreLabelled(num, m, gs);
    NamedAreLabelled(num, m, ps);
    LabelledAppend(RawGroups(num, m, gs), RawNamed(num, m, ps));
  }

  lemma {:induction false} GroupsAreLabelled(num: Numbering, m: Module, gs: seq<seq<nat>>)
    requires AllNumbered(num, m.children, gs)
    ensures LabelledAll(RawGroups(num, m, gs))
    decreases m, 0, |gs| + 1
  {
    if gs != [] {
      var k := |gs| - 1;
      GroupsAreLabelled(num, m, gs[..k]);
      var c := m.children[gs[k][0]].mod;
      ItemsAreLabelled(num, c);
      LabelOpens(num, m.children, gs[k]);
      RawIsLabelled(num, c, Label(num, m.children, gs[k]), LStrip(c.info));
      LabelledSnoc(RawGroups(num, m, gs[..k]), RawGroup(num, m, gs[k]));
    }
  }

  lemma {:induction false} NamedAreLabelled(num: Numbering, m: Module, ps: seq<nat>)
    requires forall i :: 0 <= i < |ps| ==> ps[i] < |m.children|
    ensures LabelledAll(RawNamed(num, m, ps))
    decreases m, 0, |ps| + 1
  {
    if ps != [] {
      var k := |ps| - 1;
      NamedAreLabelled(num, m, ps[..k]);
      var c := m.children[ps[k]];
      ItemsAreLabelled(num, c.mod);
      RawIsLabelled(num, c.mod, "(" + c.name + "): ", c.mod.info);
      LabelledSnoc(RawNamed(num, m, ps[..k]), RawName(num, m, ps[k]));
    }
  }

  // ---------------------------------------------------------------- labels

  /** The text before and behind the first "): ". */
  function SplitLabel(s: string): Option<(string, string)> {
    if |s| < 3 then None
    else if s[..3] == "): " then Some(("", s[3..]))
    else
      match SplitLabel(s[1..])
      case None => None
      case Some((a, b)) => Some(([s[0]] + a, b))
  }

  predicate MarkAt(x: string, i: nat) {
    i + 3 <= |x| && x[i] == ')' && x[i + 1] == ':' && x[i + 2] == ' '
  }

  /** The text does not hold the mark that ends a label. */
  ghost predicate PlainLabel(x: string) {
    forall i: nat :: !MarkAt(x, i)
  }

  lemma {:induction false} SplitBack(x: string, rest: string)
    requires PlainLabel(x)
    ensures SplitLabel(x + "): " + rest) == Some((x, rest))
    decreases |x|
  {
    var s := x + "): " + rest;
    if x == [] {
      assert s[..3] == "): " && s[3..] == rest;
    } else {
      NotYet(x, rest);
      assert s[1..] == x[1..] + "): " + rest;
      forall i: nat ensures !MarkAt(x[1..], i) {
        assert !MarkAt(x, i + 1);
      }
      SplitBack(x[1..], rest);
      assert [x[0]] + x[1..] == x;
    }
  }

  lemma {:induction false} NotYet(x: string, rest: string)
    requires x != [] && PlainLabel(x)
    ensures (x + "): " + rest)[..3] != "): "
  {
    var s := x + "): " + rest;
    assert s[0] == x[0] && s[|x|] == ')' && s[|x| + 1] == ':';
    assert !MarkAt(x, 0);
    if |x| >= 3 {
      assert s[1] == x[1] && s[2] == x[2];
    }
    assert s[0] != ')' || s[1] != ':' || s[2] != ' ';
    assert s[..3][0] == s[0] && s[..3][1] == s[1] && s[..3][2] == s[2];
  }

  /** How many layers a label stands for. */
  function Count(n: nat): string {
    if n > 1 then R.Show(n) + " x " else ""
  }

  lemma {:induction false} LabelText(num: Numbering, cs: seq<Child>, g: seq<nat>)
    requires NumberedGroup(num, cs, g)
    ensures Label(num, cs, g) == "(" + RangeText(Indices(num, cs, g)) + "): " + Count(|g|)
  {
    var xs := Indices(num, cs, g);
    if |xs| == 1 {
      assert xs == [xs[0]];
      R.OneIndexPrintsAlone(xs[0]);
      assert "(" + R.Show(xs[0]) + "): " + "" == "(" + R.Show(xs[0]) + "): ";
    } else {
      Appended("(" + RangeText(xs) + "): ", R.Show(|xs|), " x ");
    }
  }

  lemma {:induction false} Appended(a: string, b: string, c: string)
    ensures a + b + c == a + (b + c)
  {
  }

  lemma {:induction false} RangeTextIsPlain(xs: seq<int>)
    ensures PlainLabel(RangeText(xs)) && '\n' !in RangeText(xs)
  {
    R.OnlyNumbers(R.Runs(R.Sort(xs)));
    NumbersArePlain(RangeText(xs));
  }

  lemma {:induction false} NumbersArePlain(text: string)
    requires forall c :: c in text ==> R.InNumbers(c)
    ensures PlainLabel(text) && '\n' !in text
  {
    forall i: nat ensures !MarkAt(text, i) {
      if i + 3 <= |text| { assert text[i] in text; }
    }
  }

  // ---------------------------------------------------------------- what can be read

  /** What the text shows of a module: its info, and its children in the order of the lines. */
  datatype Outline = Outline(info: string, entries: seq<Entry>)

  /** Layers of one kind, by their indices, or one named child. */
  datatype Entry = Numbered(indices: seq<int>, outline: Outline) | Named(name: string, outline: Outline)

  /** Without the parenthesis that opens the children. */
  function ReadInfo(text: string, branch: bool): string {
    if branch && text != [] then text[..|text| - 1] else text
  }

  function Uncounted(text: string, n: nat): string {
    if |Count(n)| <= |text| then text[|Count(n)|..] else text
  }

  /** A label that lists indices stands for layers, any other one is a name. */
  function ReadEntry(tag: string, text: string, branch: bool, entries: seq<Entry>): Entry {
    match R.Parse(tag)
    case Some(rs) =>
      var indices := R.Expand(rs);
      Numbered(indices, Outline(ReadInfo(Uncounted(text, |indices|), branch), entries))
    case None => Named(tag, Outline(ReadInfo(text, branch), entries))
  }

  function ReadRaw(raw: Raw): Option<Entry>
    decreases raw, 1
  {
    if raw.text == [] then None
    else
      match SplitLabel(raw.text[1..])
      case None => None
      case Some((tag, text)) =>
        match ReadAll(raw.items)
        case None => None
        case Some(entries) => Some(ReadEntry(tag, text, raw.items != [], entries))
  }

  function ReadAll(items: seq<Raw>): Option<seq<Entry>>
    decreases items, 0
  {
    if items == [] then Some([])
    else
      match (ReadRaw(items[0]), ReadAll(items[1..]))
      case (Some(e), Some(es)) => Some([e] + es)
      case _ => None
  }

  /** Reads the printed lines of a module. */
  function ReadTree(lines: seq<string>): Option<Outline> {
    if lines == [] then None
    else
      match ReadAll(ParseItems(lines[1..], 2).0)
      case None => None
      case Some(entries) => Some(Outline(ReadInfo(lines[0], |lines| > 1), entries))
  }

  lemma {:induction false} ReadAllAppend(a: seq<Raw>, b: seq<Raw>)
    requires ReadAll(a).Some? && ReadAll(b).Some?
    ensures ReadAll(a + b) == Some(ReadAll(a).value + ReadAll(b).value)
    decreases |a|
  {
    if a == [] {
      assert a + b == b && [] + ReadAll(b).value == ReadAll(b).value;
    } else {
      assert (a + b)[1..] == a[1..] + b && (a + b)[0] == a[0];
      ReadAllAppend(a[1..], b);
      InFrontOf(ReadRaw(a[0]).value, ReadAll(a[1..]).value, ReadAll(b).value);
    }
  }

  lemma {:induction false} InFrontOf(e: Entry, es: seq<Entry>, fs: seq<Entry>)
    ensures [e] + es + fs == [e] + (es + fs)
  {
  }

  lemma {:induction false} ReadAllSnoc(items: seq<Raw>, raw: Raw)
    requires ReadAll(items).Some? && ReadRaw(raw).Some?
    ensures ReadAll(items + [raw]) == Some(ReadAll(items).value + [ReadRaw(raw).value])
  {
    assert [raw][1..] == [] && ReadAll([raw]) == Some([ReadRaw(raw).value] + []);
    assert [ReadRaw(raw).value] + [] == [ReadRaw(raw).value];
    ReadAllAppend(items, [raw]);
  }

  // ---------------------------------------------------------------- what the tree says

  function OutlineOf(num: Numbering, m: Module, info: string): Outline
    decreases m, 2, 0
  {
    Outline(info, EntriesOf(num, m))
  }

  function EntriesOf(num: Numbering, m: Module): seq<Entry>
    decreases m, 1, 0
  {
    GroupEntries(num, m, PrintedGroups(num, m.children)) + NamedEntries(num, m, Positions(num, m.children, false))
  }

  function GroupEntry(num: Numbering, m: Module, g: seq<nat>): Entry
    requires NumberedGroup(num, m.children, g)
    decreases m, 0, 0
  {
    var c := m.children[g[0]].mod;
    Numbered(R.Sort(Indices(num, m.children, g)), OutlineOf(num, c, LStrip(c.info)))
  }

  function GroupEntries(num: Numbering, m: Module, gs: seq<seq<nat>>): (es: seq<Entry>)
    requires AllNumbered(num, m.children, gs)
    ensures |es| == |gs| && forall i :: 0 <= i < |gs| ==> es[i] == GroupEntry(num, m, gs[i])
    decreases m, 0, |gs| + 1
  {
    if gs == [] then [] else GroupEntries(num, m, gs[..|gs| - 1]) + [GroupEntry(num, m, gs[|gs| - 1])]
  }

  function NamedEntry(num: Numbering, m: Module, p: nat): Entry
    requires p < |m.children|
    decreases m, 0, 0
  {
    var c := m.children[p];
    Named(c.name, OutlineOf(num, c.mod, c.mod.info))
  }

  function NamedEntries(num: Numbering, m: Module, ps: seq<nat>): (es: seq<Entry>)
    requires forall i :: 0 <= i < |ps| ==> ps[i] < |m.children|
    ensures |es| == |ps| && forall i :: 0 <= i < |ps| ==> es[i] == NamedEntry(num, m, ps[i])
    decreases m, 0, |ps| + 1
  {
    if ps == [] then [] else NamedEntries(num, m, ps[..|ps| - 1]) + [NamedEntry(num, m, ps[|ps| - 1])]
  }

  // ---------------------------------------------------------------- reading back

  /** Names that are no numbers neither hold the mark that ends a label nor read as indices. */
  ghost predicate ReadableNames(num: Numbering, names: iset<string>) {
    forall x :: x in names && num(x).None? ==> PlainLabel(x) && R.Parse(x).None?
  }

  lemma {:induction false} ReadUnderLabel(num: Numbering, m: Module, tag: string, text: string)
    requires PlainLabel(tag) && ReadAll(RawItems(num, m)) == Some(EntriesOf(num, m))
    ensures var raw := Raw("(" + tag + "): " + text, RawItems(num, m));
            ReadRaw(raw) == Some(ReadEntry(tag, text, m.children != [], EntriesOf(num, m)))
  {
    SomethingBelow(num, m);
    ReadRawText(RawItems(num, m), EntriesOf(num, m), tag, text);
  }

  lemma {:induction false} ReadRawText(items: seq<Raw>, entries: seq<Entry>, tag: string, text: string)
    requires PlainLabel(tag) && ReadAll(items) == Some(entries)
    ensures ReadRaw(Raw("(" + tag + "): " + text, items)) == Some(ReadEntry(tag, text, items != [], entries))
  {
    BehindParenthesis(tag, text);
    SplitBack(tag, text);
  }

  lemma {:induction false} BehindParenthesis(tag: string, text: string)
    ensures ("(" + tag + "): " + text)[1..] == tag + "): " + text
  {
  }

  lemma {:induction false} ReadInfoBack(info: string, branch: bool)
    ensures ReadInfo(info + if branch then "(" else "", branch) == info
  {
    assert branch ==> (info + "(")[..|info|] == info;
    assert info + "" == info;
  }

  lemma {:induction false} UncountedBack(text: string, n: nat)
    ensures Uncounted(Count(n) + text, n) == text
  {
  }

  lemma {:induction false} ReadGroup(num: Numbering, m: Module, g: seq<nat>)
    requires NumberedGroup(num, m.children, g)
    requires var c := m.children[g[0]].mod; ReadAll(RawItems(num, c)) == Some(EntriesOf(num, c))
    ensures ReadRaw(RawGroup(num, m, g)) == Some(GroupEntry(num, m, g))
  {
    var c, xs := m.children[g[0]].mod, Indices(num, m.children, g);
    var info, open := LStrip(c.info), if c.children == [] then "" else "(";
    LabelText(num, m.children, g);
    RangeTextIsPlain(xs);
    ReadUnderLabel(num, c, RangeText(xs), Count(|g|) + (info + open));
    LabelAndInfo("(" + RangeText(xs) + "): ", Count(|g|), info, open);
    R.PrintedRangesRoundTrip(xs);
    SortSize(xs);
    UncountedBack(info + open, |g|);
    ReadInfoBack(info, c.children != []);
  }

  lemma {:induction false} SortSize(xs: seq<int>)
    ensures |R.Sort(xs)| == |xs|
  {
    R.SortSorts(xs);
    assert |multiset(R.Sort(xs))| == |multiset(xs)|;
  }

  lemma {:induction false} LabelAndInfo(a: string, b: string, c: string, d: string)
    ensures a + b + c + d == a + (b + (c + d))
  {
  }

  lemma {:induction false} ReadName(num: Numbering, m: Module, p: nat, names: iset<string>)
    requires p < |m.children| && ReadableNames(num, names) && m.children[p].name in names && num(m.children[p].name).None?
    requires var c := m.children[p].mod; ReadAll(RawItems(num, c)) == Some(EntriesOf(num, c))
    ensures ReadRaw(RawName(num, m, p)) == Some(NamedEntry(num, m, p))
  {
    var c := m.children[p];
    var open := if c.mod.children == [] then "" else "(";
    ReadUnderLabel(num, c.mod, c.name, c.mod.info + open);
    Appended("(" + c.name + "): ", c.mod.info, open);
    ReadInfoBack(c.mod.info, c.mod.children != []);
  }

  lemma {:induction false} ItemsReadBack(num: Numbering, m: Module, names: iset<string>)
    requires ReadableNames(num, names) && Over(m, names)
    ensures ReadAll(RawItems(num, m)) == Some(EntriesOf(num, m))
    decreases m, 1, 0
  {
    var gs, ps := PrintedGroups(num, m.children), Positions(num, m.children, false);
    GroupsReadBack(num, m, gs, names);
    NamedReadBack(num, m, ps, names);
    ReadAllAppend(RawGroups(num, m, gs), RawNamed(num, m, ps));
  }

  lemma {:induction false} GroupsReadBack(num: Numbering, m: Module, gs: seq<seq<nat>>, names: iset<string>)
    requires ReadableNames(num, names) && Over(m, names) && AllNumbered(num, m.children, gs)
    ensures ReadAll(RawGroups(num, m, gs)) == Some(GroupEntries(num, m, gs))
    decreases m, 0, |gs| + 1
  {
    if gs != [] {
      var k := |gs| - 1;
      GroupsReadBack(num, m, gs[..k], names);
      ChildOver(m.children, gs[k][0], names);
      ItemsReadBack(num, m.children[gs[k][0]].mod, names);
      ReadGroup(num, m, gs[k]);
      OneMoreGroup(num, m, gs, k);
    }
  }

  lemma {:induction false} NamedReadBack(num: Numbering, m: Module, ps: seq<nat>, names: iset<string>)
    requires ReadableNames(num, names) && Over(m, names)
    requires forall i :: 0 <= i < |ps| ==> ps[i] < |m.children| && num(m.children[ps[i]].name).None?
    ensures ReadAll(RawNamed(num, m, ps)) == Some(NamedEntries(num, m, ps))
    decreases m, 0, |ps| + 1
  {
    if ps != [] {
      var k := |ps| - 1;
      NamedReadBack(num, m, ps[..k], names);
      ChildOver(m.children, ps[k], names);
      ChildName(m.children, ps[k], names);
      ItemsReadBack(num, m.children[ps[k]].mod, names);
      ReadName(num, m, ps[k], names);
      OneMoreName(num, m, ps, k);
    }
  }

  lemma {:induction false} OneMoreGroup(num: Numbering, m: Module, gs: seq<seq<nat>>, k: nat)
    requires AllNumbered(num, m.children, gs) && k + 1 == |gs|
    requires ReadAll(RawGroups(num, m, gs[..k])) == Some(GroupEntries(num, m, gs[..k]))
    requires ReadRaw(RawGroup(num, m, gs[k])) == Some(GroupEntry(num, m, gs[k]))
    ensures ReadAll(RawGroups(num, m, gs)) == Some(GroupEntries(num, m, gs))
  {
    ReadAllSnoc(RawGroups(num, m, gs[..k]), RawGroup(num, m, gs[k]));
    assert RawGroups(num, m, gs) == RawGroups(num, m, gs[..k]) + [RawGroup(num, m, gs[k])];
    assert GroupEntries(num, m, gs) == GroupEntries(num, m, gs[..k]) + [GroupEntry(num, m, gs[k])];
  }

  lemma {:induction false} OneMoreName(num: Numbering, m: Module, ps: seq<nat>, k: nat)
    requires (forall i :: 0 <= i < |ps| ==> ps[i] < |m.children|) && k + 1 == |ps|
    requires ReadAll(RawNamed(num, m, ps[..k])) == Some(NamedEntries(num, m, ps[..k]))
    requires ReadRaw(RawName(num, m, ps[k])) == Some(NamedEntry(num, m, ps[k]))
    ensures ReadAll(RawNamed(num, m, ps)) == Some(NamedEntries(num, m, ps))
  {
    ReadAllSnoc(RawNamed(num, m, ps[..k]), RawName(num, m, ps[k]));
  }

  /** Round trip: the printed lines read back as the outline of the tree, with every group, every
      index, every name and every info in it. */
  lemma {:induction false} LinesReadBack(num: Numbering, m: Module, names: iset<string>)
    requires ValidNames(names) && ReadableNames(num, names) && Over(m, names)
    ensures ReadTree(Lines(num, m, "", 0)) == Some(OutlineOf(num, m, m.info))
  {
    LinesArePrinted(num, m, "", 0, names);
    ItemsReadBack(num, m, names);
    BodyReadsBack(num, m);
    var lines := Lines(num, m, "", 0);
    assert lines[0] == Head(m, "", 0) && lines[1..] == Body(num, m, 0);
    RootHead(m);
    ReadInfoBack(m.info, m.children != []);
  }

  lemma {:induction false} RootHead(m: Module)
    ensures Head(m, "", 0) == m.info + if m.children != [] then "(" else ""
  {
    assert "" + "" + m.info == m.info;
  }

  lemma {:induction false} BodyReadsBack(num: Numbering, m: Module)
    ensures ParseItems(Body(num, m, 0), 2).0 == RawItems(num, m)
  {
    SomethingBelow(num, m);
    ItemsAreLabelled(num, m);
    if m.children != [] {
      CloseLine(0);
      ParsePrinted(RawItems(num, m), 2, [Blanks(0) + ")"]);
    }
  }
}

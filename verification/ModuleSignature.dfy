/** Structural signatures of module trees (vllm/model_inspection.py, `_get_child_signature`):
    the preorder list of dotted paths and infos, as text, determines the tree. Modules are
    trees: no module object occurs twice. */
module ModuleSignature {

  datatype Module = Module(info: string, children: seq<Child>)
  datatype Child = Child(name: string, mod: Module)

  datatype Line = Line(path: string, info: string)

  function Path(prefix: string, name: string): string {
    if prefix == "" then name else prefix + "." + name
  }

  /** `named_modules` in order, with each module's info. */
  function Preorder(prefix: string, m: Module): (ls: seq<Line>)
    ensures ls != [] && ls[0] == Line(prefix, m.info)
    decreases m, 1
  {
    [Line(prefix, m.info)] + PreorderAll(prefix, m.children)
  }

  function PreorderAll(prefix: string, cs: seq<Child>): (ls: seq<Line>)
    ensures cs != [] ==> ls != [] && ls[0].path == Path(prefix, cs[0].name)
    decreases cs, 0
  {
    if cs == [] then [] else Preorder(Path(prefix, cs[0].name), cs[0].mod) + PreorderAll(prefix, cs[1..])
  }

  function Text(l: Line): string { l.path + ":" + l.info }

  function JoinLines(ls: seq<Line>): string {
    if ls == [] then "" else if |ls| == 1 then Text(ls[0]) else Text(ls[0]) + "\n" + JoinLines(ls[1..])
  }

  function Signature(m: Module): string {
    JoinLines(Preorder("", m))
  }

  // ---------------------------------------------------------------- paths determine the tree

  /** Names as PyTorch requires them: not empty and without a dot. */
  predicate Named(m: Module)
    decreases m, 1
  {
    NamedAll(m.children)
  }

  predicate NamedAll(cs: seq<Child>)
    decreases cs, 0
  {
    cs == [] || (cs[0].name != "" && '.' !in cs[0].name && Named(cs[0].mod) && NamedAll(cs[1..]))
  }

  /** `path` names a module strictly below `prefix`. */
  predicate Below(prefix: string, path: string) {
    if prefix == "" then path != "" else |path| > |prefix| && path[..|prefix|] == prefix && path[|prefix|] == '.'
  }

  ghost predicate EndsAt(prefix: string, rest: seq<Line>) {
    rest == [] || !Below(prefix, rest[0].path)
  }

  lemma {:induction false} PathFacts(prefix: string, a: string, b: string)
    requires a != "" && b != "" && '.' !in b
    ensures Below(prefix, Path(prefix, a))
    ensures !Below(Path(prefix, a), Path(prefix, b))
    ensures Path(prefix, a) == Path(prefix, b) ==> a == b
  {
    var p, q := Path(prefix, a), Path(prefix, b);
    if prefix != "" {
      assert p == (prefix + ".") + a && q == (prefix + ".") + b;
      assert p[|prefix| + 1..] == a && q[|prefix| + 1..] == b;
    }
    if |a| < |b| {
      assert q[|p|] == b[|a|] && b[|a|] in b;
    }
  }

  lemma {:induction false} BelowChild(prefix: string, name: string, path: string)
    requires name != "" && Below(Path(prefix, name), path)
    ensures Below(prefix, path)
  {
    if prefix != "" {
      var p := Path(prefix, name);
      assert path[..|p|] == p && p[..|prefix|] == prefix && p[|prefix|] == '.';
      assert path[..|prefix|] == path[..|p|][..|prefix|];
      assert path[|prefix|] == path[..|p|][|prefix|];
    }
  }

  /** Equal path lists come from equal trees, and end at the same place. */
  lemma {:induction false} PreorderInjective(prefix: string, a: Module, b: Module, ra: seq<Line>, rb: seq<Line>)
    requires Named(a) && Named(b) && EndsAt(prefix, ra) && EndsAt(prefix, rb)
    requires Preorder(prefix, a) + ra == Preorder(prefix, b) + rb
    ensures a == b && ra == rb
    decreases a, 1
  {
    FirstLineThenChildren(prefix, a, ra);
    FirstLineThenChildren(prefix, b, rb);
    SameHead(Line(prefix, a.info), Line(prefix, b.info),
             PreorderAll(prefix, a.children) + ra, PreorderAll(prefix, b.children) + rb);
    PreorderAllInjective(prefix, a.children, b.children, ra, rb);
  }

  lemma {:induction false} FirstLineThenChildren(prefix: string, m: Module, rest: seq<Line>)
    ensures Preorder(prefix, m) + rest == [Line(prefix, m.info)] + (PreorderAll(prefix, m.children) + rest)
  {
  }

  lemma {:induction false} SameHead(a: Line, b: Line, ra: seq<Line>, rb: seq<Line>)
    requires [a] + ra == [b] + rb
    ensures a == b && ra == rb
  {
    assert ([a] + ra)[0] == a && ([b] + rb)[0] == b;
    assert ([a] + ra)[1..] == ra && ([b] + rb)[1..] == rb;
  }

  lemma {:induction false} PreorderAllInjective(prefix: string, cs: seq<Child>, ds: seq<Child>, ra: seq<Line>, rb: seq<Line>)
    requires NamedAll(cs) && NamedAll(ds) && EndsAt(prefix, ra) && EndsAt(prefix, rb)
    requires PreorderAll(prefix, cs) + ra == PreorderAll(prefix, ds) + rb
    ensures cs == ds && ra == rb
    decreases cs, 0
  {
    BothEmpty(prefix, cs, ds, ra, rb);
    if cs == [] {
      assert PreorderAll(prefix, cs) + ra == ra && PreorderAll(prefix, ds) + rb == rb;
    } else {
      var c, d := cs[0], ds[0];
      var sa, sb := PreorderAll(prefix, cs[1..]) + ra, PreorderAll(prefix, ds[1..]) + rb;
      SameFirstName(prefix, cs, ds, ra, rb);
      FirstThenRest(prefix, cs, ra);
      FirstThenRest(prefix, ds, rb);
      SiblingsEnd(prefix, c.name, cs[1..], ra);
      SiblingsEnd(prefix, c.name, ds[1..], rb);
      PreorderInjective(Path(prefix, c.name), c.mod, d.mod, sa, sb);
      PreorderAllInjective(prefix, cs[1..], ds[1..], ra, rb);
      assert cs == [c] + cs[1..] && ds == [d] + ds[1..];
    }
  }

  lemma {:induction false} FirstThenRest(prefix: string, cs: seq<Child>, rest: seq<Line>)
    requires cs != []
    ensures PreorderAll(prefix, cs) + rest
         == Preorder(Path(prefix, cs[0].name), cs[0].mod) + (PreorderAll(prefix, cs[1..]) + rest)
  {
  }

  lemma {:induction false} BothEmpty(prefix: string, cs: seq<Child>, ds: seq<Child>, ra: seq<Line>, rb: seq<Line>)
    requires NamedAll(cs) && NamedAll(ds) && EndsAt(prefix, ra) && EndsAt(prefix, rb)
    requires PreorderAll(prefix, cs) + ra == PreorderAll(prefix, ds) + rb
    ensures cs == [] <==> ds == []
  {
    var la, lb := PreorderAll(prefix, cs) + ra, PreorderAll(prefix, ds) + rb;
    if cs != [] {
      PathFacts(prefix, cs[0].name, cs[0].name);
      assert la != [] && Below(prefix, la[0].path);
    } else {
      assert la == ra;
    }
    if ds != [] {
      PathFacts(prefix, ds[0].name, ds[0].name);
      assert lb != [] && Below(prefix, lb[0].path);
    } else {
      assert lb == rb;
    }
  }

  lemma {:induction false} SameFirstName(prefix: string, cs: seq<Child>, ds: seq<Child>, ra: seq<Line>, rb: seq<Line>)
    requires NamedAll(cs) && NamedAll(ds) && cs != [] && ds != []
    requires PreorderAll(prefix, cs) + ra == PreorderAll(prefix, ds) + rb
    ensures cs[0].name == ds[0].name
  {
    var la, lb := PreorderAll(prefix, cs) + ra, PreorderAll(prefix, ds) + rb;
    assert la[0].path == Path(prefix, cs[0].name) && lb[0].path == Path(prefix, ds[0].name);
    PathFacts(prefix, cs[0].name, ds[0].name);
  }

  lemma {:induction false} SiblingsEnd(prefix: string, name: string, cs: seq<Child>, rest: seq<Line>)
    requires name != "" && NamedAll(cs) && EndsAt(prefix, rest)
    ensures EndsAt(Path(prefix, name), PreorderAll(prefix, cs) + rest)
  {
    if cs != [] {
      PathFacts(prefix, name, cs[0].name);
    } else if rest != [] && Below(Path(prefix, name), rest[0].path) {
      BelowChild(prefix, name, rest[0].path);
    }
  }

  // ---------------------------------------------------------------- the text determines the lines

  /** Splitting at the first separator is unique. */
  lemma {:induction false} SplitUnique(c: char, a: string, b: string, ta: string, tb: string)
    requires c !in a && c !in b && a + ta == b + tb
    requires (ta == [] || ta[0] == c) && (tb == [] || tb[0] == c)
    ensures a == b && ta == tb
  {
    assert ta != [] ==> (a + ta)[|a|] == c;
    assert tb != [] ==> (b + tb)[|b|] == c;
    assert forall i :: 0 <= i < |a| ==> (a + ta)[i] == a[i] != c;
    assert forall i :: 0 <= i < |b| ==> (b + tb)[i] == b[i] != c;
    assert |a| == |b|;
    assert (a + ta)[..|a|] == a && (b + tb)[..|b|] == b;
    assert (a + ta)[|a|..] == ta && (b + tb)[|b|..] == tb;
  }

  /** Every line of text is one line. */
  ghost predicate Plain(ls: seq<Line>) {
    forall i :: 0 <= i < |ls| ==> '\n' !in Text(ls[i])
  }

  function Tail(ls: seq<Line>): string
    requires ls != []
  {
    if |ls| == 1 then "" else "\n" + JoinLines(ls[1..])
  }

  lemma {:induction false} SameFirstText(ls: seq<Line>, ks: seq<Line>)
    requires ls != [] && ks != [] && Plain(ls) && Plain(ks) && JoinLines(ls) == JoinLines(ks)
    ensures Text(ls[0]) == Text(ks[0]) && Tail(ls) == Tail(ks)
  {
    assert JoinLines(ls) == Text(ls[0]) + Tail(ls) && JoinLines(ks) == Text(ks[0]) + Tail(ks);
    SplitUnique('\n', Text(ls[0]), Text(ks[0]), Tail(ls), Tail(ks));
  }

  /** The joined text determines the text of each line. */
  lemma {:induction false} JoinInjective(ls: seq<Line>, ks: seq<Line>)
    requires ls != [] && ks != [] && Plain(ls) && Plain(ks) && JoinLines(ls) == JoinLines(ks)
    ensures |ls| == |ks| && forall i :: 0 <= i < |ls| ==> Text(ls[i]) == Text(ks[i])
    decreases |ls|
  {
    SameFirstText(ls, ks);
    assert |ls| == 1 <==> |ks| == 1;
    if |ls| > 1 {
      assert Tail(ls)[1..] == JoinLines(ls[1..]) && Tail(ks)[1..] == JoinLines(ks[1..]);
      JoinInjective(ls[1..], ks[1..]);
      forall i | 0 < i < |ls| ensures Text(ls[i]) == Text(ks[i]) {
        assert ls[i] == ls[1..][i - 1] && ks[i] == ks[1..][i - 1];
      }
    }
  }

  // ---------------------------------------------------------------- which names are unambiguous

  /** Possible names: as PyTorch requires them, and on one line. */
  ghost predicate ValidNames(names: iset<string>) {
    forall x :: x in names ==> x != "" && '.' !in x && '\n' !in x
  }

  /** All names of the tree are in `names`, and all infos are on one line. */
  ghost predicate Over(m: Module, names: iset<string>)
    decreases m, 1
  {
    '\n' !in m.info && OverAll(m.children, names)
  }

  ghost predicate OverAll(cs: seq<Child>, names: iset<string>)
    decreases cs, 0
  {
    cs == [] || (cs[0].name in names && Over(cs[0].mod, names) && OverAll(cs[1..], names))
  }

  /** `y` is `x` followed by a colon and more. */
  predicate ColonExtends(x: string, y: string) {
    |x| < |y| && y[..|x|] == x && y[|x|] == ':'
  }

  ghost predicate Ambiguous(names: iset<string>) {
    exists x, y :: x in names && y in names && ColonExtends(x, y)
  }

  lemma {:induction false} OverIsNamed(m: Module, names: iset<string>)
    requires ValidNames(names) && Over(m, names)
    ensures Named(m)
    decreases m, 1
  {
    OverAllIsNamed(m.children, names);
  }

  lemma {:induction false} OverAllIsNamed(cs: seq<Child>, names: iset<string>)
    requires ValidNames(names) && OverAll(cs, names)
    ensures NamedAll(cs)
    decreases cs, 0
  {
    if cs != [] {
      OverIsNamed(cs[0].mod, names);
      OverAllIsNamed(cs[1..], names);
    }
  }

  /** The names on the way to a module, joined with dots. */
  function Dotted(ns: seq<string>): string {
    if ns == [] then "" else if |ns| == 1 then ns[0] else ns[0] + "." + Dotted(ns[1..])
  }

  ghost predicate AllIn(ns: seq<string>, names: iset<string>) {
    forall i :: 0 <= i < |ns| ==> ns[i] in names
  }

  lemma {:induction false} DottedMore(ns: seq<string>, n: string, names: iset<string>)
    requires ValidNames(names) && AllIn(ns, names)
    ensures Dotted(ns + [n]) == Path(Dotted(ns), n)
    decreases |ns|
  {
    if |ns| > 1 {
      DottedMore(ns[1..], n, names);
      assert (ns + [n])[1..] == ns[1..] + [n];
      assert ns[1] in names && Dotted(ns[1..]) != "";
    } else if |ns| == 1 {
      assert (ns + [n])[1..] == [n] && ns[0] in names;
    }
  }

  /** A path to a module below the root. */
  ghost predicate IsPath(p: string, names: iset<string>) {
    exists ns :: ns != [] && AllIn(ns, names) && Dotted(ns) == p
  }

  ghost predicate PathLine(l: Line, names: iset<string>) {
    IsPath(l.path, names) && '\n' !in l.info
  }

  ghost predicate PathLines(ls: seq<Line>, names: iset<string>) {
    forall i :: 0 <= i < |ls| ==> PathLine(ls[i], names)
  }

  lemma {:induction false} PathLinesAppend(ls: seq<Line>, ks: seq<Line>, names: iset<string>)
    requires PathLines(ls, names) && PathLines(ks, names)
    ensures PathLines(ls + ks, names)
  {
    forall i | 0 <= i < |ls + ks| ensures PathLine((ls + ks)[i], names) {
      if i < |ls| {
        assert PathLine(ls[i], names);
      } else {
        assert PathLine(ks[i - |ls|], names);
      }
    }
  }

  lemma {:induction false} ChildPaths(ns: seq<string>, m: Module, names: iset<string>)
    requires ValidNames(names) && ns != [] && AllIn(ns, names) && Over(m, names)
    ensures PathLines(Preorder(Dotted(ns), m), names)
    decreases m, 1
  {
    PreorderAllPaths(ns, m.children, names);
    assert PathLine(Line(Dotted(ns), m.info), names);
    PathLinesAppend([Line(Dotted(ns), m.info)], PreorderAll(Dotted(ns), m.children), names);
  }

  /** Every line below a module names a path of names. */
  lemma {:induction false} PreorderAllPaths(ns: seq<string>, cs: seq<Child>, names: iset<string>)
    requires ValidNames(names) && AllIn(ns, names) && OverAll(cs, names)
    ensures PathLines(PreorderAll(Dotted(ns), cs), names)
    decreases cs, 0
  {
    if cs != [] {
      DottedMore(ns, cs[0].name, names);
      ChildPaths(ns + [cs[0].name], cs[0].mod, names);
      PreorderAllPaths(ns, cs[1..], names);
      PathLinesAppend(Preorder(Path(Dotted(ns), cs[0].name), cs[0].mod), PreorderAll(Dotted(ns), cs[1..]), names);
    }
  }

  /** A path that is another one, a colon and more: then so is one of its names. */
  lemma {:induction false} ExtendedPath(ns: seq<string>, ms: seq<string>, names: iset<string>)
    requires ValidNames(names) && ns != [] && ms != [] && AllIn(ns, names) && AllIn(ms, names)
    requires ColonExtends(Dotted(ns), Dotted(ms))
    ensures Ambiguous(names)
    decreases |ns|
  {
    var x, y := ns[0], ms[0];
    assert x in names && y in names;
    var tail := if |ms| == 1 then "" else "." + Dotted(ms[1..]);
    assert Dotted(ms) == y + tail;
    if |ns| == 1 {
      FirstNameExtends(x, y, tail);
    } else {
      assert Dotted(ns) == x + ("." + Dotted(ns[1..]));
      RestExtends(x, y, Dotted(ns[1..]), tail);
      assert tail[1..] == Dotted(ms[1..]);
      ExtendedPath(ns[1..], ms[1..], names);
    }
  }

  lemma {:induction false} RestExtends(x: string, y: string, more: string, tail: string)
    requires '.' !in x && '.' !in y && (tail == [] || tail[0] == '.')
    requires ColonExtends(x + ("." + more), y + tail)
    ensures tail != [] && ColonExtends(more, tail[1..])
  {
    var p, q := x + ("." + more), y + tail;
    var end := q[|p|..];
    assert q == p + end == x + ("." + more + end);
    SplitUnique('.', x, y, "." + more + end, tail);
    assert tail[1..] == more + end && end[0] == ':';
  }

  lemma {:induction false} FirstNameExtends(x: string, y: string, rest: string)
    requires '.' !in x && (rest == [] || rest[0] == '.') && ColonExtends(x, y + rest)
    ensures ColonExtends(x, y)
  {
    var q := y + rest;
    forall k | 0 <= k < |x| ensures q[k] != '.' {
      assert q[k] == q[..|x|][k] && x[k] in x;
    }
    assert rest != [] ==> q[|y|] == '.';
    assert |x| < |y|;
    assert q[..|x|] == y[..|x|];
  }

  lemma {:induction false} TextInjective(a: Line, b: Line, names: iset<string>)
    requires ValidNames(names) && !Ambiguous(names) && IsPath(a.path, names) && IsPath(b.path, names) && Text(a) == Text(b)
    ensures a == b
  {
    var ns :| ns != [] && AllIn(ns, names) && Dotted(ns) == a.path;
    var ms :| ms != [] && AllIn(ms, names) && Dotted(ms) == b.path;
    if |a.path| < |b.path| {
      ShorterPath(a, b);
      ExtendedPath(ns, ms, names);
    } else if |b.path| < |a.path| {
      ShorterPath(b, a);
      ExtendedPath(ms, ns, names);
    }
    SameLengthPath(a, b);
  }

  lemma {:induction false} ShorterPath(a: Line, b: Line)
    requires Text(a) == Text(b) && |a.path| < |b.path|
    ensures ColonExtends(a.path, b.path)
  {
    assert Text(a)[|a.path|] == ':' && Text(a)[..|a.path|] == a.path;
    assert Text(b)[|a.path|] == b.path[|a.path|] && Text(b)[..|a.path|] == b.path[..|a.path|];
  }

  lemma {:induction false} SameLengthPath(a: Line, b: Line)
    requires Text(a) == Text(b) && |a.path| == |b.path|
    ensures a == b
  {
    assert Text(a)[..|a.path|] == a.path && Text(b)[..|b.path|] == b.path;
    assert Text(a)[|a.path| + 1..] == a.info && Text(b)[|b.path| + 1..] == b.info;
  }

  lemma {:induction false} DottedIsPlain(ns: seq<string>, names: iset<string>)
    requires ValidNames(names) && AllIn(ns, names)
    ensures '\n' !in Dotted(ns)
    decreases |ns|
  {
    if |ns| > 1 {
      DottedIsPlain(ns[1..], names);
      assert ns[0] in names;
    } else if |ns| == 1 {
      assert ns[0] in names;
    }
  }

  lemma {:induction false} PreorderIsPlain(m: Module, names: iset<string>)
    requires ValidNames(names) && Over(m, names)
    ensures Plain(Preorder("", m))
    ensures forall i :: 0 < i < |Preorder("", m)| ==> IsPath(Preorder("", m)[i].path, names)
  {
    var ls := Preorder("", m);
    assert Dotted([]) == "";
    PreorderAllPaths([], m.children, names);
    var below := PreorderAll("", m.children);
    forall i | 0 <= i < |ls| ensures '\n' !in Text(ls[i]) && (i > 0 ==> IsPath(ls[i].path, names)) {
      if i > 0 {
        assert ls[i] == below[i - 1] && PathLine(below[i - 1], names);
        var ns :| ns != [] && AllIn(ns, names) && Dotted(ns) == ls[i].path;
        DottedIsPlain(ns, names);
      }
    }
  }

  /** With unambiguous names, two modules have the same signature text iff they are the same
      tree. */
  lemma {:induction false} SignatureDeterminesTree(a: Module, b: Module, names: iset<string>)
    requires ValidNames(names) && !Ambiguous(names) && Over(a, names) && Over(b, names)
    ensures Signature(a) == Signature(b) <==> a == b
  {
    if Signature(a) == Signature(b) {
      var la, lb := Preorder("", a), Preorder("", b);
      PreorderIsPlain(a, names);
      PreorderIsPlain(b, names);
      JoinInjective(la, lb);
      forall i | 0 <= i < |la| ensures la[i] == lb[i] {
        if i == 0 {
          SameLengthPath(la[0], lb[0]);
        } else {
          TextInjective(la[i], lb[i], names);
        }
      }
      assert la == lb && la + [] == lb + [];
      OverIsNamed(a, names);
      OverIsNamed(b, names);
      PreorderInjective("", a, b, [], []);
    }
  }

  ghost predicate SignaturesDecide(names: iset<string>) {
    forall a, b :: Over(a, names) && Over(b, names) && Signature(a) == Signature(b) ==> a == b
  }

  /** Two trees with one signature, from two names one of which is the other, a colon and more. */
  lemma {:induction false} AmbiguousNamesCollide(x: string, y: string, names: iset<string>) returns (a: Module, b: Module)
    requires ValidNames(names) && x in names && y in names && ColonExtends(x, y)
    ensures Over(a, names) && Over(b, names) && a != b && Signature(a) == Signature(b)
  {
    var rest := y[|x| + 1..];
    var ca, cb := Child(x, Module(rest + ":", [])), Child(y, Module("", []));
    a, b := Module("", [ca]), Module("", [cb]);
    assert '\n' !in rest + ":";
    assert [ca][1..] == [] && [cb][1..] == [];
    assert Over(ca.mod, names) && Over(cb.mod, names) && OverAll([ca], names) && OverAll([cb], names);
    OneChild(ca);
    OneChild(cb);
    assert y == x + ":" + rest;
    assert Text(Line(x, rest + ":")) == x + ":" + rest + ":" == Text(Line(y, ""));
  }

  lemma {:induction false} OneChild(c: Child)
    requires c.mod.children == []
    ensures Signature(Module("", [c])) == ":" + "\n" + Text(Line(c.name, c.mod.info))
  {
    var ls := Preorder("", Module("", [c]));
    assert [c][1..] == [];
    assert Preorder(c.name, c.mod) == [Line(c.name, c.mod.info)];
    assert PreorderAll("", [c]) == [Line(c.name, c.mod.info)];
    assert ls == [Line("", ""), Line(c.name, c.mod.info)];
    assert ls[1..] == [Line(c.name, c.mod.info)];
    assert JoinLines(ls[1..]) == Text(Line(c.name, c.mod.info));
    assert JoinLines(ls) == Text(ls[0]) + "\n" + JoinLines(ls[1..]);
    assert Text(Line("", "")) == ":";
  }

  /** The signature decides for all trees over the names exactly when no name is another one, a
      colon and more. */
  lemma {:induction false} SignaturesDecideIff(names: iset<string>)
    requires ValidNames(names)
    ensures SignaturesDecide(names) <==> !Ambiguous(names)
  {
    if Ambiguous(names) {
      var x, y :| x in names && y in names && ColonExtends(x, y);
      var a, b := AmbiguousNamesCollide(x, y, names);
    } else {
      forall a, b | Over(a, names) && Over(b, names) && Signature(a) == Signature(b) ensures a == b {
        SignatureDeterminesTree(a, b, names);
      }
    }
  }

  /** With a colon in a name, which PyTorch allows, different modules can share a signature. */
  lemma {:induction false} ColonInNameCollides()
    ensures var a := Module("M()", [Child("a", Module("C(:D())", []))]);
            var b := Module("M()", [Child("a:C(", Module("D())", []))]);
            a != b && Signature(a) == Signature(b) && Named(a) && Named(b)
    ensures Ambiguous(iset{"a", "a:C("})
  {
    var ca, cb := Child("a", Module("C(:D())", [])), Child("a:C(", Module("D())", []));
    var a, b := Module("M()", [ca]), Module("M()", [cb]);
    assert [ca][1..] == [] && [cb][1..] == [];
    assert Preorder("a", ca.mod) == [Line("a", "C(:D())")];
    assert Preorder("a:C(", cb.mod) == [Line("a:C(", "D())")];
    assert PreorderAll("", [ca]) == [Line("a", "C(:D())")] && PreorderAll("", [cb]) == [Line("a:C(", "D())")];
    assert Preorder("", a) == [Line("", "M()"), Line("a", "C(:D())")];
    assert Preorder("", b) == [Line("", "M()"), Line("a:C(", "D())")];
    assert Text(Line("a", "C(:D())")) == "a:C(:D())" == Text(Line("a:C(", "D())"));
    assert Preorder("", a)[1..] == [Line("a", "C(:D())")] && Preorder("", b)[1..] == [Line("a:C(", "D())")];
    assert "a" != "a:C(" by { assert |"a"| != |"a:C("|; }
    assert "a:C("[..1] == "a" && ColonExtends("a", "a:C(");
  }
}

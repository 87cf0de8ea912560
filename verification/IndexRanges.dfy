/** Printing layer indices as ranges (vllm/model_inspection.py, `_format_index_ranges`). */
module IndexRanges {
  import opened Wrappers

  /** The integers from `lo` to `hi`, both included. */
  datatype Range = Range(lo: int, hi: int)

  // ---------------------------------------------------------------- sorting

  ghost predicate Sorted(s: seq<int>) {
    forall i, j :: 0 <= i < j < |s| ==> s[i] <= s[j]
  }

  ghost predicate Increasing(s: seq<int>) {
    forall i, j :: 0 <= i < j < |s| ==> s[i] < s[j]
  }

  function Insert(x: int, s: seq<int>): seq<int> {
    if s == [] then [x] else if s[|s| - 1] <= x then s + [x] else Insert(x, s[..|s| - 1]) + [s[|s| - 1]]
  }

  function Sort(s: seq<int>): seq<int> {
    if s == [] then [] else Insert(s[|s| - 1], Sort(s[..|s| - 1]))
  }

  lemma {:induction false} InsertSorts(x: int, s: seq<int>)
    requires Sorted(s)
    ensures Sorted(Insert(x, s)) && multiset(Insert(x, s)) == multiset(s) + multiset{x}
    decreases |s|
  {
    if s != [] {
      var init, last := s[..|s| - 1], s[|s| - 1];
      assert s == init + [last];
      if last > x {
        InsertSorts(x, init);
        AppendSorts(Insert(x, init), init, x, last);
      }
    }
  }

  lemma {:induction false} AppendSorts(r: seq<int>, init: seq<int>, x: int, last: int)
    requires Sorted(r) && multiset(r) == multiset(init) + multiset{x} && x <= last
    requires forall i :: 0 <= i < |init| ==> init[i] <= last
    ensures Sorted(r + [last])
  {
    forall i | 0 <= i < |r| ensures r[i] <= last {
      assert r[i] in multiset(r) && (r[i] == x || r[i] in multiset(init));
    }
  }

  lemma {:induction false} SortSorts(s: seq<int>)
    ensures Sorted(Sort(s)) && multiset(Sort(s)) == multiset(s)
    decreases |s|
  {
    if s != [] {
      assert s == s[..|s| - 1] + [s[|s| - 1]];
      SortSorts(s[..|s| - 1]);
      InsertSorts(s[|s| - 1], Sort(s[..|s| - 1]));
    }
  }

  // ---------------------------------------------------------------- ranges

  function UpTo(lo: int, hi: int): seq<int>
    decreases hi - lo
  {
    if hi < lo then [] else UpTo(lo, hi - 1) + [hi]
  }

  function Expand(rs: seq<Range>): seq<int> {
    if rs == [] then [] else Expand(rs[..|rs| - 1]) + UpTo(rs[|rs| - 1].lo, rs[|rs| - 1].hi)
  }

  /** The ranges collected from `s` by extending the last range when the next index follows it. */
  function Runs(s: seq<int>): (rs: seq<Range>)
    ensures rs == [] <==> s == []
    ensures forall i :: 0 <= i < |rs| ==> rs[i].lo <= rs[i].hi
    ensures s != [] ==> rs[|rs| - 1].hi == s[|s| - 1]
  {
    if s == [] then []
    else
      AddIndex(Runs(s[..|s| - 1]), s[|s| - 1])
  }

  function AddIndex(rs: seq<Range>, x: int): seq<Range> {
    if rs != [] && x == rs[|rs| - 1].hi + 1
    then rs[..|rs| - 1] + [Range(rs[|rs| - 1].lo, x)]
    else rs + [Range(x, x)]
  }

  lemma {:induction false} ExpandSnoc(rs: seq<Range>, r: Range)
    ensures Expand(rs + [r]) == Expand(rs) + UpTo(r.lo, r.hi)
  {
    assert (rs + [r])[..|rs|] == rs;
  }

  lemma {:induction false} ExpandLonger(front: seq<Range>, last: Range, x: int)
    requires last.lo <= last.hi && x == last.hi + 1
    ensures Expand(front + [Range(last.lo, x)]) == Expand(front + [last]) + [x]
  {
    ExpandSnoc(front, last);
    ExpandSnoc(front, Range(last.lo, x));
  }

  lemma {:induction false} ExpandSingle(rs: seq<Range>, x: int)
    ensures Expand(rs + [Range(x, x)]) == Expand(rs) + [x]
  {
    ExpandSnoc(rs, Range(x, x));
    assert UpTo(x, x - 1) == [];
  }

  lemma {:induction false} ExpandAdded(rs: seq<Range>, x: int)
    requires rs != [] ==> rs[|rs| - 1].lo <= rs[|rs| - 1].hi
    ensures Expand(AddIndex(rs, x)) == Expand(rs) + [x]
  {
    if rs != [] && x == rs[|rs| - 1].hi + 1 {
      ExpandLonger(rs[..|rs| - 1], rs[|rs| - 1], x);
      assert rs == rs[..|rs| - 1] + [rs[|rs| - 1]];
    } else {
      ExpandSingle(rs, x);
    }
  }

  /** Nothing is lost: the ranges expand to the indices, repetitions included. */
  lemma {:induction false} ExpandRuns(s: seq<int>)
    ensures Expand(Runs(s)) == s
    decreases |s|
  {
    if s != [] {
      var init, x := s[..|s| - 1], s[|s| - 1];
      ExpandRuns(init);
      assert s == init + [x];
      ExpandAdded(Runs(init), x);
    }
  }

  /** Indices that do not continue a run. */
  ghost function Starts(s: seq<int>): set<int> {
    set x | x in s && !Continues(s, x)
  }

  ghost predicate Continues(s: seq<int>, x: int) {
    x - 1 in s
  }

  lemma {:induction false} RunsCountStarts(s: seq<int>)
    requires Increasing(s)
    ensures |Runs(s)| == |Starts(s)|
    decreases |s|
  {
    if s == [] {
      assert Starts(s) == {};
    } else {
      var init, x := s[..|s| - 1], s[|s| - 1];
      RunsCountStarts(init);
      assert s == init + [x];
      StartsStep(init, x);
    }
  }

  lemma {:induction false} BelowLast(s: seq<int>, x: int)
    requires Increasing(s + [x])
    ensures forall y :: y in s ==> y < x
    ensures x - 1 in s <==> s != [] && s[|s| - 1] == x - 1
  {
    var t := s + [x];
    forall y | y in s ensures y < x && (y == s[|s| - 1] || y < x - 1) {
      var i :| 0 <= i < |s| && s[i] == y;
      assert t[i] < t[|s|] && (i == |s| - 1 || t[i] < t[|s| - 1] < t[|s|]);
    }
  }

  lemma {:induction false} StartsStep(s: seq<int>, x: int)
    requires Increasing(s + [x])
    ensures |Starts(s + [x])| == |Starts(s)| + if s != [] && s[|s| - 1] == x - 1 then 0 else 1
  {
    BelowLast(s, x);
    var t := s + [x];
    forall y ensures y in Starts(t) <==> y in Starts(s) || (y == x && x - 1 !in s) {
      assert y in t <==> y in s || y == x;
      assert y - 1 in t <==> y - 1 in s || y - 1 == x;
    }
    if x - 1 in s {
      assert Starts(t) == Starts(s);
    } else {
      assert Starts(t) == Starts(s) + {x};
    }
  }

  lemma {:induction false} InUpTo(lo: int, hi: int, x: int)
    ensures x in UpTo(lo, hi) <==> lo <= x <= hi
    decreases hi - lo
  {
    if hi >= lo { InUpTo(lo, hi - 1, x); }
  }

  ghost predicate InSome(rs: seq<Range>, x: int) {
    exists i :: 0 <= i < |rs| && rs[i].lo <= x <= rs[i].hi
  }

  lemma {:induction false} InExpand(rs: seq<Range>, x: int)
    ensures x in Expand(rs) <==> InSome(rs, x)
    decreases |rs|
  {
    if rs != [] {
      var k := |rs| - 1;
      InExpand(rs[..k], x);
      InUpTo(rs[k].lo, rs[k].hi, x);
      InSomeStep(rs, x);
    }
  }

  lemma {:induction false} InSomeStep(rs: seq<Range>, x: int)
    requires rs != []
    ensures var k := |rs| - 1; InSome(rs, x) <==> InSome(rs[..k], x) || rs[k].lo <= x <= rs[k].hi
  {
    var k := |rs| - 1;
    if InSome(rs[..k], x) {
      var i :| 0 <= i < k && rs[..k][i].lo <= x <= rs[..k][i].hi;
      assert rs[i] == rs[..k][i];
    }
    if InSome(rs, x) && !(rs[k].lo <= x <= rs[k].hi) {
      var i :| 0 <= i < |rs| && rs[i].lo <= x <= rs[i].hi;
      assert rs[..k][i] == rs[i];
    }
  }

  ghost function Lows(rs: seq<Range>): set<int> {
    set i | 0 <= i < |rs| :: rs[i].lo
  }

  lemma {:induction false} LowsAreFew(rs: seq<Range>)
    ensures |Lows(rs)| <= |rs|
    decreases |rs|
  {
    if rs != [] {
      var k := |rs| - 1;
      LowsAreFew(rs[..k]);
      assert Lows(rs) == Lows(rs[..k]) + {rs[k].lo};
    } else {
      assert Lows(rs) == {};
    }
  }

  lemma {:induction false} SubsetIsSmaller(a: set<int>, b: set<int>)
    requires a <= b
    ensures |a| <= |b|
  {
    assert b == a + (b - a);
  }

  /** No list of ranges for distinct indices is shorter. */
  lemma {:induction false} RunsAreFewest(s: seq<int>, rs: seq<Range>)
    requires Increasing(s) && forall x :: x in Expand(rs) <==> x in s
    ensures |Runs(s)| <= |rs|
  {
    RunsCountStarts(s);
    forall x | x in Starts(s) ensures x in Lows(rs) {
      InExpand(rs, x);
      InExpand(rs, x - 1);
      var i :| 0 <= i < |rs| && rs[i].lo <= x <= rs[i].hi;
    }
    SubsetIsSmaller(Starts(s), Lows(rs));
    LowsAreFew(rs);
  }

  // ---------------------------------------------------------------- text

  function Digit(d: nat): char
    requires d < 10
  {
    '0' + d as char
  }

  predicate IsDigit(c: char) { '0' <= c <= '9' }

  function Digits(n: nat): (s: string)
    ensures s != [] && forall i :: 0 <= i < |s| ==> IsDigit(s[i])
  {
    if n < 10 then [Digit(n)] else Digits(n / 10) + [Digit(n % 10)]
  }

  /** `str` of an integer. */
  function Show(n: int): string {
    if n < 0 then "-" + Digits(-n) else Digits(n)
  }

  function ShowRange(r: Range): string {
    if r.lo == r.hi then Show(r.lo) else Show(r.lo) + "-" + Show(r.hi)
  }

  function Join(parts: seq<string>): string {
    if parts == [] then "" else if |parts| == 1 then parts[0] else parts[0] + ", " + Join(parts[1..])
  }

  function ShowAll(rs: seq<Range>): (parts: seq<string>)
    ensures |parts| == |rs|
  {
    seq(|rs|, i requires 0 <= i < |rs| => ShowRange(rs[i]))
  }

  /** Reads digits; returns the number and the rest of the text. */
  function ReadDigits(s: string, acc: nat): (nat, string) {
    if s != [] && IsDigit(s[0]) then ReadDigits(s[1..], acc * 10 + (s[0] as int - '0' as int)) else (acc, s)
  }

  function ReadInt(s: string): Option<(int, string)> {
    if s != [] && IsDigit(s[0]) then Some(ReadDigits(s, 0))
    else if |s| > 1 && s[0] == '-' && IsDigit(s[1]) then
      var (n, rest) := ReadDigits(s[1..], 0);
      var negative: int := -(n as int);
      Some((negative, rest))
    else None
  }

  function ReadRange(s: string): Option<(Range, string)> {
    match ReadInt(s)
    case None => None
    case Some((lo, rest)) =>
      if rest != [] && rest[0] == '-' then
        match ReadInt(rest[1..])
        case None => None
        case Some((hi, rest')) => Some((Range(lo, hi), rest'))
      else Some((Range(lo, lo), rest))
  }

  /** Reads a printed list of ranges back. */
  function Parse(s: string): Option<seq<Range>>
    decreases |s|
  {
    match ReadRange(s)
    case None => None
    case Some((r, rest)) =>
      if rest == [] then Some([r])
      else if |rest| >= 2 && rest[..2] == ", " && |rest| <= |s| then
        match Parse(rest[2..])
        case None => None
        case Some(rs) => Some([r] + rs)
      else None
  }

  lemma {:induction false} ReadDigitsBack(n: nat, rest: string)
    ensures ReadDigits(Digits(n) + rest, 0) == ReadDigits(rest, n)
    decreases n
  {
    if n < 10 {
      assert (Digits(n) + rest)[1..] == rest;
    } else {
      var tail := [Digit(n % 10)] + rest;
      assert Digits(n) + rest == Digits(n / 10) + tail;
      ReadDigitsBack(n / 10, tail);
      assert tail[1..] == rest;
    }
  }

  lemma {:induction false} ReadNegativeBack(n: int, rest: string)
    requires n > 0 && (rest == [] || !IsDigit(rest[0]))
    ensures ReadInt(Show(-n) + rest) == Some((-n, rest))
  {
    var text := Show(-n) + rest;
    assert text[1..] == Digits(n) + rest;
    assert text[0] == '-' && text[1] == Digits(n)[0];
    ReadDigitsBack(n, rest);
    assert ReadDigits(rest, n) == (n, rest);
  }

  lemma {:induction false} ReadIntBack(n: int, rest: string)
    requires rest == [] || !IsDigit(rest[0])
    ensures ReadInt(Show(n) + rest) == Some((n, rest))
  {
    if n < 0 {
      ReadNegativeBack(-n, rest);
    } else {
      assert (Show(n) + rest)[0] == Digits(n)[0];
      ReadDigitsBack(n, rest);
      assert ReadDigits(rest, n) == (n, rest);
    }
  }

  lemma {:induction false} ReadRangeBack(r: Range, rest: string)
    requires rest == [] || rest[0] == ','
    ensures ReadRange(ShowRange(r) + rest) == Some((r, rest))
  {
    if r.lo == r.hi {
      ReadIntBack(r.lo, rest);
    } else {
      var tail := "-" + (Show(r.hi) + rest);
      assert ShowRange(r) + rest == Show(r.lo) + tail;
      ReadIntBack(r.lo, tail);
      assert tail[1..] == Show(r.hi) + rest;
      ReadIntBack(r.hi, rest);
    }
  }

  /** Printed ranges parse to the ranges. */
  lemma {:induction false} ParseBack(rs: seq<Range>)
    requires rs != []
    ensures Parse(Join(ShowAll(rs))) == Some(rs)
    decreases |rs|
  {
    var text := Join(ShowAll(rs));
    if |rs| == 1 {
      assert text == ShowRange(rs[0]) + [];
      ReadRangeBack(rs[0], []);
      assert rs == [rs[0]];
    } else {
      assert ShowAll(rs)[1..] == ShowAll(rs[1..]);
      var rest := ", " + Join(ShowAll(rs[1..]));
      assert text == ShowRange(rs[0]) + rest;
      ReadRangeBack(rs[0], rest);
      assert rest[..2] == ", " && rest[2..] == Join(ShowAll(rs[1..]));
      ParseBack(rs[1..]);
      assert rs == [rs[0]] + rs[1..];
    }
  }

  /** Round trip: parsing what is printed and expanding the ranges gives the sorted indices,
      with the same repetitions. */
  lemma {:induction false} PrintedRangesRoundTrip(indices: seq<int>)
    requires indices != []
    ensures var parsed := Parse(Join(ShowAll(Runs(Sort(indices)))));
            && parsed.Some?
            && Expand(parsed.value) == Sort(indices)
            && Sorted(Expand(parsed.value)) && multiset(Expand(parsed.value)) == multiset(indices)
  {
    SortSorts(indices);
    assert |multiset(indices)| == |multiset(Sort(indices))|;
    ParseBack(Runs(Sort(indices)));
    ExpandRuns(Sort(indices));
  }

  /** A run of one index prints as its number alone, and a longer one as its two ends. */
  lemma {:induction false} RunsPrint(s: seq<int>, i: nat)
    requires i < |Runs(s)|
    ensures var r := Runs(s)[i];
            ShowAll(Runs(s))[i] == if r.lo == r.hi then Show(r.lo) else Show(r.lo) + "-" + Show(r.hi)
  {
  }

  lemma {:induction false} OneIndexPrintsAlone(x: int)
    ensures Join(ShowAll(Runs(Sort([x])))) == Show(x)
  {
    assert [x][..0] == [] && Sort([x]) == [x];
    assert Runs([x]) == [Range(x, x)];
    assert ShowAll([Range(x, x)]) == [Show(x)];
  }

  /** Numbers are printed without leading zeros. */
  lemma {:induction false} NoLeadingZero(n: nat)
    ensures Digits(n)[0] == '0' ==> n == 0
    decreases n
  {
    if n >= 10 {
      NoLeadingZero(n / 10);
    }
  }

  lemma {:induction false} RunsSnoc(s: seq<int>, x: int)
    ensures Runs(s + [x]) == AddIndex(Runs(s), x)
  {
    assert (s + [x])[..|s|] == s;
  }

  lemma {:induction false} ThreeInARow(s: seq<int>, x: int)
    requires Runs(s) == [] || Runs(s)[|Runs(s)| - 1].hi + 1 < x
    ensures Runs(s + [x, x + 1, x + 2]) == Runs(s) + [Range(x, x + 2)]
  {
    RunsSnoc(s, x);
    RunsSnoc(s + [x], x + 1);
    RunsSnoc(s + [x] + [x + 1], x + 2);
    assert s + [x] + [x + 1] + [x + 2] == s + [x, x + 1, x + 2];
  }

  /** As in the example of the documentation, 0, 1, 2, 4, 5, 6. */
  lemma {:induction false} TwoRunsPrint(x: int, y: int)
    requires x + 3 < y
    ensures Join(ShowAll(Runs([x, x + 1, x + 2] + [y, y + 1, y + 2]))) ==
            Show(x) + "-" + Show(x + 2) + ", " + (Show(y) + "-" + Show(y + 2))
  {
    ThreeInARow([], x);
    assert [] + [x, x + 1, x + 2] == [x, x + 1, x + 2];
    ThreeInARow([x, x + 1, x + 2], y);
    TwoRanges(Range(x, x + 2), Range(y, y + 2));
  }

  lemma {:induction false} TwoRanges(a: Range, b: Range)
    ensures Join(ShowAll([a, b])) == ShowRange(a) + ", " + ShowRange(b)
  {
    assert ShowAll([a, b])[1..] == [ShowRange(b)];
  }

  predicate InNumbers(c: char) { IsDigit(c) || c in "-, " }

  /** Printed ranges consist of digits, signs and separators. */
  lemma {:induction false} OnlyNumbers(rs: seq<Range>)
    ensures forall c :: c in Join(ShowAll(rs)) ==> InNumbers(c)
    decreases |rs|
  {
    if rs != [] {
      assert ShowAll(rs)[1..] == ShowAll(rs[1..]);
      OnlyNumbers(rs[1..]);
      assert forall c :: c in Show(rs[0].lo) || c in Show(rs[0].hi) ==> InNumbers(c);
    }
  }

  lemma {:induction false} RunsStep(s: seq<int>, k: nat, rs: seq<Range>, start: int, end: int)
    requires k < |s| && Runs(s[..k]) == rs + [Range(start, end)]
    ensures Runs(s[..k + 1]) == if s[k] == end + 1 then rs + [Range(start, s[k])] else rs + [Range(start, end)] + [Range(s[k], s[k])]
  {
    assert s[..k + 1][..k] == s[..k] && s[..k + 1][k] == s[k];
    assert (rs + [Range(start, end)])[..|rs|] == rs;
  }

  lemma {:induction false} ShowAllStep(rs: seq<Range>, r: Range)
    ensures ShowAll(rs + [r]) == ShowAll(rs) + [ShowRange(r)]
  {
  }

  method FormatIndexRanges(indices: seq<int>) returns (r: Result<string>)
    ensures r == if indices == [] then Failure(IndexError) else Success(Join(ShowAll(Runs(Sort(indices)))))
  {
    if indices == [] {
      return Failure(IndexError);
    }
    var sorted := Sort(indices);
    SortSorts(indices);
    assert |multiset(indices)| == |multiset(sorted)|;
    var ranges: seq<string> := [];
    ghost var rs: seq<Range> := [];
    var start, end := sorted[0], sorted[0];
    assert sorted[..1] == [sorted[0]];
    for k := 1 to |sorted|
      invariant Runs(sorted[..k]) == rs + [Range(start, end)]
      invariant ranges == ShowAll(rs)
    {
      var idx := sorted[k];
      RunsStep(sorted, k, rs, start, end);
      if idx == end + 1 {
        end := idx;
      } else {
        ShowAllStep(rs, Range(start, end));
        ranges := ranges + [if start == end then Show(start) else Show(start) + "-" + Show(end)];
        rs := rs + [Range(start, end)];
        start, end := idx, idx;
      }
    }
    assert sorted[..|sorted|] == sorted;
    ShowAllStep(rs, Range(start, end));
    ranges := ranges + [if start == end then Show(start) else Show(start) + "-" + Show(end)];
    return Success(Join(ranges));
  }
}

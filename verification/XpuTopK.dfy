/** The best positions of every decode row (vllm/_xpu_ops.py, `top_k_per_row_decode`). */
module XpuTopK {
  import opened Arithmetic

  /** A logit that is finite or minus infinity. */
  datatype Score = NegInf | Fin(value: real)

  predicate AtLeast(a: Score, b: Score) { b.NegInf? || (a.Fin? && a.value >= b.value) }

  predicate Distinct(s: seq<int>) {
    forall i, j :: 0 <= i < j < |s| ==> s[i] != s[j]
  }

  predicate Within(s: seq<int>, n: nat) {
    forall i :: 0 <= i < |s| ==> 0 <= s[i] < n
  }

  ghost predicate Descending(v: seq<Score>, s: seq<int>)
    requires Within(s, |v|)
  {
    forall i, j :: 0 <= i < j < |s| ==> AtLeast(v[s[i]], v[s[j]])
  }

  /** `torch.topk` may return `picks`: it does not say how ties are broken. */
  ghost predicate IsTopK(v: seq<Score>, k: nat, picks: seq<int>) {
    && |picks| == k && Distinct(picks) && Within(picks, |v|) && Descending(v, picks)
    && forall p, i :: 0 <= p < |v| && p !in picks && 0 <= i < k ==> AtLeast(v[picks[i]], v[p])
  }

  // ---------------------------------------------------------------- one row

  /** Number of positions up to `end` in a row of length `width`. */
  function ValidCount(width: nat, end: int): nat {
    if end < 0 then 0 else Min(end + 1, width)
  }

  function Mask(v: seq<Score>, end: int): (w: seq<Score>)
    ensures |w| == |v|
  {
    seq(|v|, p requires 0 <= p < |v| => if p <= end then v[p] else NegInf)
  }

  function Cleared(picks: seq<int>, end: int): (r: seq<int>)
    ensures |r| == |picks|
  {
    seq(|picks|, c requires 0 <= c < |picks| => if picks[c] > end then -1 else picks[c])
  }

  /** The best positions among the allowed ones, followed by -1 only. */
  ghost predicate IsMaskedTopK(v: seq<Score>, end: int, k: nat, row: seq<int>)
    requires |row| == k
  {
    var n := ValidCount(|v|, end);
    && IsTopK(v[..n], Min(k, n), row[..Min(k, n)])
    && forall c :: Min(k, n) <= c < k ==> row[c] == -1
  }

  ghost function FinitePositions(w: seq<Score>): set<int> {
    set p | 0 <= p < |w| && w[p].Fin?
  }

  // ---------------------------------------------------------------- counting

  ghost function Elements(s: seq<int>): set<int> { set x | x in s }

  ghost function Below(n: nat): (r: set<int>)
    ensures |r| == n && forall x :: x in r <==> 0 <= x < n
  {
    if n == 0 then {} else Below(n - 1) + {n - 1}
  }

  lemma {:induction false} CountDistinct(s: seq<int>)
    requires Distinct(s)
    ensures |Elements(s)| == |s|
    decreases |s|
  {
    if s != [] {
      var init, last := s[..|s| - 1], s[|s| - 1];
      CountDistinct(init);
      assert s == init + [last];
      assert Elements(s) == Elements(init) + {last};
    }
  }

  lemma {:induction false} SubsetSize(a: set<int>, b: set<int>)
    requires a <= b
    ensures |a| <= |b| && (|a| == |b| ==> a == b)
    decreases |a|
  {
    if x :| x in a {
      SubsetSize(a - {x}, b - {x});
      assert a == a - {x} + {x} && b == b - {x} + {x};
    } else {
      HasNothing(a);
    }
  }

  lemma {:induction false} HasNothing(a: set<int>)
    requires forall x :: x !in a
    ensures a == {}
  {
    var empty: set<int> := {};
    assert forall x :: x in a <==> x in empty;
  }

  /** Distinct numbers below `n` that are `n` many are all of them. */
  lemma {:induction false} FillsUp(s: seq<int>, n: nat, p: int)
    requires Distinct(s) && Within(s, n) && |s| == n && 0 <= p < n
    ensures p in s
  {
    CountDistinct(s);
    SubsetSize(Elements(s), Below(n));
    assert p in Below(n);
  }

  // ---------------------------------------------------------------- sufficient

  /** All finite positions are picked before the first one that is not finite. */
  lemma {:induction false} FinitePicksFirst(w: seq<Score>, k: nat, picks: seq<int>, i: nat)
    requires IsTopK(w, k, picks) && i < k && i < |FinitePositions(w)|
    ensures w[picks[i]].Fin?
  {
    if w[picks[i]].NegInf? {
      var before := Elements(picks[..i]);
      forall p | p in FinitePositions(w) ensures p in before {
        assert p in picks;
        var j :| 0 <= j < k && picks[j] == p;
        assert j < i;
        assert picks[..i][j] == p;
      }
      CountDistinct(picks[..i]);
      SubsetSize(FinitePositions(w), before);
      assert false;
    }
  }

  lemma {:induction false} MaskAt(v: seq<Score>, end: int, p: int)
    requires 0 <= p < |v|
    ensures p < ValidCount(|v|, end) <==> p <= end
    ensures Mask(v, end)[p] == if p <= end then v[p] else NegInf
  {
  }

  lemma {:induction false} FiniteIsAllowed(v: seq<Score>, end: int)
    ensures |FinitePositions(Mask(v, end))| <= ValidCount(|v|, end)
    ensures |FinitePositions(Mask(v, end))| == ValidCount(|v|, end) ==>
              forall p :: 0 <= p < ValidCount(|v|, end) ==> v[p].Fin?
  {
    var n, finite := ValidCount(|v|, end), FinitePositions(Mask(v, end));
    forall p | p in finite ensures p in Below(n) {
      MaskAt(v, end, p);
    }
    SubsetSize(finite, Below(n));
    if |finite| == n {
      forall p | 0 <= p < n ensures v[p].Fin? {
        assert p in Below(n);
        MaskAt(v, end, p);
      }
    }
  }

  /** Picks that are allowed as far as there are allowed positions, and not beyond. */
  ghost predicate AllowedFirst(v: seq<Score>, end: int, k: nat, picks: seq<int>)
    requires |picks| == k
  {
    var n := ValidCount(|v|, end);
    && (forall i :: 0 <= i < Min(k, n) ==> picks[i] <= end)
    && (forall i :: Min(k, n) <= i < k ==> picks[i] > end)
  }

  lemma {:induction false} AllowedFirstIsMasked(v: seq<Score>, end: int, k: nat, picks: seq<int>)
    requires IsTopK(Mask(v, end), k, picks) && AllowedFirst(v, end, k, picks)
    ensures IsMaskedTopK(v, end, k, Cleared(picks, end))
  {
    var n, row := ValidCount(|v|, end), Cleared(picks, end);
    var m := Min(k, n);
    var best := row[..m];
    forall i | 0 <= i < m ensures best[i] == picks[i] && 0 <= picks[i] < n && Mask(v, end)[picks[i]] == v[..n][best[i]] {
      MaskAt(v, end, picks[i]);
    }
    forall p, i | 0 <= p < n && p !in best && 0 <= i < m ensures AtLeast(v[best[i]], v[p]) {
      UnpickedIsWorse(v, end, k, picks, p, i);
    }
    assert IsTopK(v[..n], m, best);
  }

  lemma {:induction false} UnpickedIsWorse(v: seq<Score>, end: int, k: nat, picks: seq<int>, p: int, i: nat)
    requires IsTopK(Mask(v, end), k, picks) && AllowedFirst(v, end, k, picks)
    requires 0 <= p < ValidCount(|v|, end) && i < Min(k, ValidCount(|v|, end))
    requires p !in Cleared(picks, end)[..Min(k, ValidCount(|v|, end))]
    ensures AtLeast(v[picks[i]], v[p])
  {
    MaskAt(v, end, p);
    MaskAt(v, end, picks[i]);
    PickedIsKept(v, end, k, picks, p);
  }

  lemma {:induction false} PickedIsKept(v: seq<Score>, end: int, k: nat, picks: seq<int>, p: int)
    requires |picks| == k && AllowedFirst(v, end, k, picks) && p <= end
    ensures p in picks ==> p in Cleared(picks, end)[..Min(k, ValidCount(|v|, end))]
  {
    if p in picks {
      var j :| 0 <= j < k && picks[j] == p;
      assert Cleared(picks, end)[..Min(k, ValidCount(|v|, end))][j] == p;
    }
  }

  /** Enough finite logits, only finite allowed logits, or no forbidden position. */
  ghost predicate NoBadTies(v: seq<Score>, end: int, k: nat) {
    var finite, n := |FinitePositions(Mask(v, end))|, ValidCount(|v|, end);
    k <= finite || finite == n || n == |v|
  }

  lemma {:induction false} NoBadTiesAllowedFirst(v: seq<Score>, end: int, k: nat, picks: seq<int>)
    requires NoBadTies(v, end, k) && IsTopK(Mask(v, end), k, picks) && k <= |v|
    ensures AllowedFirst(v, end, k, picks)
  {
    var finite, n := |FinitePositions(Mask(v, end))|, ValidCount(|v|, end);
    FiniteIsAllowed(v, end);
    var m := Min(k, n);
    forall i | 0 <= i < m ensures picks[i] <= end {
      MaskAt(v, end, picks[i]);
      if i < finite {
        FinitePicksFirst(Mask(v, end), k, picks, i);
      }
    }
    if n < k {
      forall i | n <= i < k ensures picks[i] > end {
        BeyondAllowed(v, end, k, picks, i);
      }
    }
  }

  lemma {:induction false} BeyondAllowed(v: seq<Score>, end: int, k: nat, picks: seq<int>, i: nat)
    requires IsTopK(Mask(v, end), k, picks) && ValidCount(|v|, end) <= i < k
    requires forall j :: 0 <= j < ValidCount(|v|, end) ==> picks[j] <= end
    ensures picks[i] > end
  {
    var n := ValidCount(|v|, end);
    var first := picks[..n];
    forall j | 0 <= j < n ensures 0 <= first[j] < n {
      MaskAt(v, end, picks[j]);
    }
    MaskAt(v, end, picks[i]);
    if picks[i] <= end {
      FillsUp(first, n, picks[i]);
      assert false;
    }
  }

  /** However `torch.topk` breaks ties, the row holds the best min(K, valid) allowed positions
      and then only -1. */
  lemma {:induction false} DecodeRow(v: seq<Score>, end: int, k: nat, picks: seq<int>)
    requires k <= |v| && IsTopK(Mask(v, end), k, picks) && NoBadTies(v, end, k)
    ensures IsMaskedTopK(v, end, k, Cleared(picks, end))
  {
    NoBadTiesAllowedFirst(v, end, k, picks);
    AllowedFirstIsMasked(v, end, k, picks);
  }

  /** Finite allowed logits are enough. */
  lemma {:induction false} FiniteLogitsHaveNoBadTies(v: seq<Score>, end: int, k: nat)
    requires forall p :: 0 <= p < |v| && p <= end ==> v[p].Fin?
    ensures NoBadTies(v, end, k)
  {
    var n := ValidCount(|v|, end);
    forall p ensures p in FinitePositions(Mask(v, end)) <==> 0 <= p < n {
      if 0 <= p < |v| {
        MaskAt(v, end, p);
      }
    }
    assert FinitePositions(Mask(v, end)) == Below(n);
  }

  // ---------------------------------------------------------------- necessary

  /** All positions from best to worst, if `s` is long enough. */
  ghost predicate Ranking(w: seq<Score>, a: set<int>, s: seq<int>)
    requires forall p :: p in a ==> 0 <= p < |w|
  {
    Distinct(s) && Elements(s) == a && Within(s, |w|) && Descending(w, s)
  }

  lemma {:induction false} BestOf(w: seq<Score>, a: set<int>) returns (best: int)
    requires (exists p :: p in a) && forall p :: p in a ==> 0 <= p < |w|
    ensures best in a && forall p :: p in a ==> AtLeast(w[best], w[p])
    decreases |a|
  {
    best :| best in a;
    if q :| q in a - {best} {
      var rest := BestOf(w, a - {best});
      if !AtLeast(w[best], w[rest]) {
        best := rest;
      }
    } else {
      forall p | p in a ensures p == best {
        assert p !in a - {best};
      }
    }
  }

  lemma {:induction false} RankAll(w: seq<Score>, a: set<int>) returns (s: seq<int>)
    requires forall p :: p in a ==> 0 <= p < |w|
    ensures Ranking(w, a, s)
    decreases |a|
  {
    if q :| q in a {
      var best := BestOf(w, a);
      var rest := RankAll(w, a - {best});
      s := [best] + rest;
      BestInFront(w, a, best, rest);
    } else {
      s := [];
      HasNothing(a);
    }
  }

  lemma {:induction false} BestInFront(w: seq<Score>, a: set<int>, best: int, rest: seq<int>)
    requires (forall p :: p in a ==> 0 <= p < |w|) && best in a && Ranking(w, a - {best}, rest)
    requires forall p :: p in a ==> AtLeast(w[best], w[p])
    ensures Ranking(w, a, [best] + rest)
  {
    forall i | 0 <= i < |rest| ensures rest[i] in a && rest[i] != best {
      assert rest[i] in Elements(rest);
    }
    assert Elements([best] + rest) == Elements(rest) + {best};
  }

  /** A prefix of a ranking of all positions is a result of `torch.topk`. */
  lemma {:induction false} PrefixIsTopK(w: seq<Score>, s: seq<int>, k: nat)
    requires Ranking(w, Below(|w|), s) && k <= |s|
    ensures IsTopK(w, k, s[..k])
  {
    forall p, i | 0 <= p < |w| && p !in s[..k] && 0 <= i < k ensures AtLeast(w[s[..k][i]], w[p]) {
      assert p in Elements(s) && s == s[..k] + s[k..];
      var j :| 0 <= j < |s[k..]| && s[k..][j] == p;
    }
  }

  /** A ranking that puts a forbidden position right behind the finite ones. */
  lemma {:induction false} ForbiddenEarly(w: seq<Score>, bad: int) returns (s: seq<int>)
    requires 0 <= bad < |w| && w[bad].NegInf?
    ensures Ranking(w, Below(|w|), s) && |s| == |w|
    ensures |FinitePositions(w)| < |w| && s[|FinitePositions(w)|] == bad
  {
    var finite := FinitePositions(w);
    var others := Below(|w|) - finite - {bad};
    var front := RankAll(w, finite);
    var back := RankAll(w, others);
    s := front + [bad] + back;
    RankingsJoin(w, front, bad, back);
    assert Elements(s) == Below(|w|) by {
      assert Elements(s) == Elements(front) + {bad} + Elements(back);
    }
    CountDistinct(s);
    CountDistinct(front);
  }

  lemma {:induction false} RankingsJoin(w: seq<Score>, front: seq<int>, bad: int, back: seq<int>)
    requires 0 <= bad < |w| && w[bad].NegInf?
    requires Ranking(w, FinitePositions(w), front)
    requires Ranking(w, Below(|w|) - FinitePositions(w) - {bad}, back)
    ensures var s := front + [bad] + back; Distinct(s) && Within(s, |w|) && Descending(w, s)
  {
    forall i | 0 <= i < |front| ensures w[front[i]].Fin? {
      assert front[i] in Elements(front);
    }
    forall i | 0 <= i < |back| ensures w[back[i]].NegInf? && back[i] != bad {
      assert back[i] in Elements(back);
    }
  }

  /** With fewer finite logits than asked for, an allowed minus infinity and a forbidden
      position, some way of breaking ties gives a wrong row. */
  lemma {:induction false} BadTie(v: seq<Score>, end: int, k: nat) returns (picks: seq<int>)
    requires k <= |v| && !NoBadTies(v, end, k)
    ensures IsTopK(Mask(v, end), k, picks) && !IsMaskedTopK(v, end, k, Cleared(picks, end))
  {
    var n, w := ValidCount(|v|, end), Mask(v, end);
    FiniteIsAllowed(v, end);
    MaskAt(v, end, n);
    var s := ForbiddenEarly(w, n);
    PrefixIsTopK(w, s, k);
    picks := s[..k];
    var f := |FinitePositions(w)|;
    assert Cleared(picks, end)[f] == -1;
    assert Cleared(picks, end)[..Min(k, n)][f] == -1;
  }

  ghost predicate AlwaysRight(v: seq<Score>, end: int, k: nat) {
    forall picks :: IsTopK(Mask(v, end), k, picks) ==> IsMaskedTopK(v, end, k, Cleared(picks, end))
  }

  /** The row is the masked top-k for every way of breaking ties exactly when there is no bad
      tie. */
  lemma {:induction false} DecodeRowIff(v: seq<Score>, end: int, k: nat)
    requires k <= |v|
    ensures AlwaysRight(v, end, k) <==> NoBadTies(v, end, k)
  {
    if NoBadTies(v, end, k) {
      forall picks | IsTopK(Mask(v, end), k, picks) ensures IsMaskedTopK(v, end, k, Cleared(picks, end)) {
        DecodeRow(v, end, k, picks);
      }
    } else {
      var picks := BadTie(v, end, k);
    }
  }

  // ---------------------------------------------------------------- all rows

  /** Last position of the row: `nextN` rows belong to each request. */
  function RowEnd(seqLens: seq<int>, nextN: nat, row: nat): int
    requires nextN > 0 && row < |seqLens| * nextN
  {
    RowHasRequest(row, |seqLens|, nextN);
    seqLens[row / nextN] - nextN + row % nextN
  }

  /** Every row belongs to a request. */
  lemma {:induction false} RowHasRequest(row: nat, requests: nat, nextN: nat)
    requires nextN > 0 && row < requests * nextN
    ensures row / nextN < requests
  {
    assert row == row / nextN * nextN + row % nextN;
    if row / nextN >= requests {
      MulMono(requests, row / nextN, nextN);
    }
  }

  /** Row `offset` of request `b` ends `nextN - offset` positions before the request does. */
  lemma {:induction false} RowOfRequest(seqLens: seq<int>, nextN: nat, b: nat, offset: nat)
    requires offset < nextN && b < |seqLens|
    ensures (b * nextN + offset) / nextN == b && b * nextN + offset < |seqLens| * nextN
    ensures RowEnd(seqLens, nextN, b * nextN + offset) == seqLens[b] - (nextN - offset)
  {
    DivUnique(b * nextN + offset, nextN, b, offset);
    MulMono(b + 1, |seqLens|, nextN);
    assert (b + 1) * nextN == b * nextN + nextN;
  }

  ghost predicate Requests(seqLens: seq<int>, nextN: nat, rows: nat) {
    nextN > 0 && rows == |seqLens| * nextN
  }

  /** `picks` are results of `torch.topk` for the masked rows. */
  ghost predicate PicksOf(logits: seq<seq<Score>>, seqLens: seq<int>, nextN: nat, k: nat, picks: seq<seq<int>>)
    requires Requests(seqLens, nextN, |logits|)
  {
    && |picks| == |logits|
    && forall row :: 0 <= row < |picks| ==> IsTopK(Mask(logits[row], RowEnd(seqLens, nextN, row)), k, picks[row])
  }

  /** The result that is written for one row. */
  ghost function Written(buffer: array2<int>, row: nat, k: nat): (r: seq<int>)
    requires row < buffer.Length0 && k <= buffer.Length1
    reads buffer
    ensures |r| == k
  {
    seq(k, c requires 0 <= c < k reads buffer => buffer[row, c])
  }

  /** `top_k_per_row_decode`: writes the result of every row into the output buffer and leaves
      the rest of the buffer alone. */
  method TopKPerRowDecode(logits: seq<seq<Score>>, width: nat, nextN: nat, seqLens: seq<int>, buffer: array2<int>,
                          topkTokens: nat, picks: seq<seq<int>>)
    requires Requests(seqLens, nextN, |logits|)
    requires forall row :: 0 <= row < |logits| ==> |logits[row]| == width
    requires |logits| <= buffer.Length0 && Min(topkTokens, width) <= buffer.Length1
    requires PicksOf(logits, seqLens, nextN, Min(topkTokens, width), picks)
    modifies buffer
    ensures forall row :: 0 <= row < |logits| && NoBadTies(logits[row], RowEnd(seqLens, nextN, row), Min(topkTokens, width)) ==>
              IsMaskedTopK(logits[row], RowEnd(seqLens, nextN, row), Min(topkTokens, width),
                           Written(buffer, row, Min(topkTokens, width)))
    ensures forall row, c ::
              (0 <= row < buffer.Length0 && 0 <= c < buffer.Length1 && (row >= |logits| || c >= Min(topkTokens, width)))
              ==> buffer[row, c] == old(buffer[row, c])
  {
    var realTopk := Min(topkTokens, width);
    forall row, c | 0 <= row < |logits| && 0 <= c < realTopk {
      buffer[row, c] := Cleared(picks[row], RowEnd(seqLens, nextN, row))[c];
    }
    forall row | 0 <= row < |logits| && NoBadTies(logits[row], RowEnd(seqLens, nextN, row), realTopk)
      ensures IsMaskedTopK(logits[row], RowEnd(seqLens, nextN, row), realTopk, Written(buffer, row, realTopk))
    {
      DecodeRow(logits[row], RowEnd(seqLens, nextN, row), realTopk, picks[row]);
      assert Written(buffer, row, realTopk) == Cleared(picks[row], RowEnd(seqLens, nextN, row));
    }
  }

  /** An allowed minus infinity beside a forbidden position: the row can come out empty. */
  lemma {:induction false} AllowedNegInfIsLost()
    ensures IsTopK(Mask([NegInf, Fin(1.0)], 0), 1, [1]) && Cleared([1], 0) == [-1]
    ensures ValidCount(2, 0) == 1 && !IsMaskedTopK([NegInf, Fin(1.0)], 0, 1, Cleared([1], 0))
  {
    assert Cleared([1], 0)[..1][0] == -1;
  }
}

/** Banning bad words during generation (vllm/logits_process.py, `NoBadWordsLogitsProcessor`). */
module BadWords {
  import opened Wrappers

  /** Logits as floating point numbers, without rounding. */
  datatype Logit = Fin(value: real) | NegInf | PosInf | NaN

  function Add(a: Logit, b: Logit): Logit {
    if a.NaN? || b.NaN? || (a.PosInf? && b.NegInf?) || (a.NegInf? && b.PosInf?) then NaN
    else if a.PosInf? || b.PosInf? then PosInf
    else if a.NegInf? || b.NegInf? then NegInf
    else Fin(a.value + b.value)
  }

  /** Adding one bias and then the other is adding their sum. */
  lemma {:induction false} BiasesAddUp(logit: Logit, a: Logit, b: Logit)
    ensures Add(Add(logit, a), b) == Add(logit, Add(a, b))
  {
    if logit.Fin? && a.Fin? && b.Fin? {
      assert logit.value + a.value + b.value == logit.value + (a.value + b.value);
    }
  }

  type Word = seq<int>

  // ---------------------------------------------------------------- what is banned

  /** The text ends with all of `w` but its last token. */
  predicate PrefixMatches(w: Word, past: seq<int>) {
    w != [] && |w| - 1 <= |past| && past[|past| - (|w| - 1)..] == w[..|w| - 1]
  }

  /** Generating `t` after `past` would complete `w`. */
  predicate CompletesWord(w: Word, past: seq<int>, t: int) {
    PrefixMatches(w, past) && w[|w| - 1] == t
  }

  ghost predicate Completes(words: seq<Word>, past: seq<int>, t: int) {
    exists i :: 0 <= i < |words| && CompletesWord(words[i], past, t)
  }

  /** The masked logit: the token is banned, or keeps its logit. */
  ghost function Masked(words: seq<Word>, past: seq<int>, t: int, logit: Logit): Logit {
    if Completes(words, past, t) then Add(logit, NegInf) else logit
  }

  ghost function MaskedAll(words: seq<Word>, past: seq<int>, logits: seq<Logit>): (r: seq<Logit>)
    ensures |r| == |logits|
  {
    seq(|logits|, t requires 0 <= t < |logits| => Masked(words, past, t, logits[t]))
  }

  /** A banned token gets minus infinity exactly when its logit is not plus infinity or NaN. */
  lemma {:induction false} BannedIffNotInfinite(words: seq<Word>, past: seq<int>, t: int, logit: Logit)
    requires Completes(words, past, t)
    ensures Masked(words, past, t, logit) == NegInf <==> logit.Fin? || logit.NegInf?
  {
  }

  /** With a plus-infinite logit a bad word can be completed. */
  lemma {:induction false} InfiniteLogitEscapes()
    ensures var out := MaskedAll([[0]], [], [PosInf]); |out| == 1 && out[0] != NegInf && Completes([[0]], [], 0)
  {
    assert CompletesWord([[0]][0], [], 0);
  }

  // ---------------------------------------------------------------- whole runs

  predicate OccursAt(s: seq<int>, w: Word, i: int) {
    0 <= i <= |s| - |w| && s[i..i + |w|] == w
  }

  ghost predicate Contains(s: seq<int>, w: Word) {
    exists i :: OccursAt(s, w, i)
  }

  ghost predicate Clean(words: seq<Word>, s: seq<int>) {
    forall i :: 0 <= i < |words| && words[i] != [] ==> !Contains(s, words[i])
  }

  /** One step of generation: the logits of the model and the token that is picked. */
  datatype Step = Step(logits: seq<Logit>, token: nat)

  /** The step picks a token whose processed logit is not minus infinity. */
  ghost predicate Allowed(words: seq<Word>, past: seq<int>, s: Step) {
    s.token < |s.logits| && MaskedAll(words, past, s.logits)[s.token] != NegInf
  }

  ghost predicate Generates(words: seq<Word>, past: seq<int>, steps: seq<Step>)
    decreases |steps|
  {
    steps == [] || (Allowed(words, past, steps[0]) && Generates(words, past + [steps[0].token], steps[1..]))
  }

  function Tokens(steps: seq<Step>): seq<int> {
    if steps == [] then [] else [steps[0].token] + Tokens(steps[1..])
  }

  lemma {:induction false} OccursInPrefix(past: seq<int>, t: int, w: Word, i: int)
    requires OccursAt(past + [t], w, i)
    ensures i + |w| <= |past| ==> OccursAt(past, w, i)
  {
    assert i + |w| <= |past| ==> past[i..i + |w|] == (past + [t])[i..i + |w|];
  }

  /** A word that appears when one token is added is completed by that token. */
  lemma {:induction false} NewOccurrenceIsCompletion(w: Word, past: seq<int>, t: int)
    requires w != [] && Contains(past + [t], w) && !Contains(past, w)
    ensures CompletesWord(w, past, t)
  {
    var s := past + [t];
    var i :| OccursAt(s, w, i);
    OccursInPrefix(past, t, w, i);
    assert !OccursAt(past, w, i);
    assert i + |w| == |s| && s[i..] == w;
    assert w[|w| - 1] == s[|s| - 1];
    assert past[i..] == s[i..][..|w| - 1];
  }

  /** A token that completes a word makes the text contain it. */
  lemma {:induction false} CompletionIsOccurrence(w: Word, past: seq<int>, t: int)
    requires CompletesWord(w, past, t)
    ensures Contains(past + [t], w)
  {
    var s, i := past + [t], |past| + 1 - |w|;
    assert w == w[..|w| - 1] + [t];
    assert s[i..i + |w|] == past[i..] + [t];
    assert OccursAt(s, w, i);
  }

  /** Whatever is generated after it, a word stays in the text. */
  lemma {:induction false} OccurrenceStays(s: seq<int>, more: seq<int>, w: Word)
    requires Contains(s, w)
    ensures Contains(s + more, w)
  {
    var i :| OccursAt(s, w, i);
    assert (s + more)[i..i + |w|] == s[i..i + |w|];
    assert OccursAt(s + more, w, i);
  }

  lemma {:induction false} UncleanStays(words: seq<Word>, s: seq<int>, more: seq<int>)
    requires !Clean(words, s)
    ensures !Clean(words, s + more)
  {
    var i :| 0 <= i < |words| && words[i] != [] && Contains(s, words[i]);
    OccurrenceStays(s, more, words[i]);
  }

  /** One token keeps a clean text clean exactly when it completes no word. */
  lemma {:induction false} StepIsCleanIff(words: seq<Word>, past: seq<int>, t: int)
    requires Clean(words, past)
    ensures Clean(words, past + [t]) <==> !Completes(words, past, t)
  {
    if Completes(words, past, t) {
      var i :| 0 <= i < |words| && CompletesWord(words[i], past, t);
      CompletionIsOccurrence(words[i], past, t);
    } else {
      forall i | 0 <= i < |words| && words[i] != [] ensures !Contains(past + [t], words[i]) {
        assert !Contains(past, words[i]) && !CompletesWord(words[i], past, t);
        if Contains(past + [t], words[i]) {
          NewOccurrenceIsCompletion(words[i], past, t);
        }
      }
    }
  }

  /** The picked token completes a word, and its logit is plus infinity or NaN. */
  ghost predicate Escapes(words: seq<Word>, past: seq<int>, s: Step) {
    s.token < |s.logits| && Completes(words, past, s.token) && (s.logits[s.token].PosInf? || s.logits[s.token].NaN?)
  }

  ghost predicate SomeStepEscapes(words: seq<Word>, past: seq<int>, steps: seq<Step>)
    decreases |steps|
  {
    steps != [] && (Escapes(words, past, steps[0]) || SomeStepEscapes(words, past + [steps[0].token], steps[1..]))
  }

  /** An allowed step of a clean text keeps it clean exactly when the pick does not escape. */
  lemma {:induction false} AllowedStepIsCleanIff(words: seq<Word>, past: seq<int>, s: Step)
    requires Clean(words, past) && Allowed(words, past, s)
    ensures Clean(words, past + [s.token]) <==> !Escapes(words, past, s)
  {
    StepIsCleanIff(words, past, s.token);
    if Completes(words, past, s.token) {
      BannedIffNotInfinite(words, past, s.token, s.logits[s.token]);
    }
  }

  /** Safety over whole runs: from a clean text, the generated text is free of bad words, at
      every position, exactly when no step picks a completing token whose logit is plus
      infinity or NaN. */
  lemma {:induction false} GeneratedTextIsCleanIff(words: seq<Word>, past: seq<int>, steps: seq<Step>)
    requires Clean(words, past) && Generates(words, past, steps)
    ensures Clean(words, past + Tokens(steps)) <==> !SomeStepEscapes(words, past, steps)
    decreases |steps|
  {
    if steps == [] {
      assert past + Tokens(steps) == past;
    } else {
      var next := past + [steps[0].token];
      AllowedStepIsCleanIff(words, past, steps[0]);
      assert past + Tokens(steps) == next + Tokens(steps[1..]);
      if Clean(words, next) {
        GeneratedTextIsCleanIff(words, next, steps[1..]);
      } else {
        UncleanStays(words, next, Tokens(steps[1..]));
      }
    }
  }

  ghost predicate Ordinary(s: Step) {
    forall t :: 0 <= t < |s.logits| ==> s.logits[t].Fin? || s.logits[t].NegInf?
  }

  /** So no bad word ever appears when the model gives no plus infinity and no NaN. */
  lemma {:induction false} OrdinaryLogitsStayClean(words: seq<Word>, past: seq<int>, steps: seq<Step>)
    requires Clean(words, past) && Generates(words, past, steps)
    requires forall i :: 0 <= i < |steps| ==> Ordinary(steps[i])
    ensures Clean(words, past + Tokens(steps))
  {
    OrdinaryNeverEscapes(words, past, steps);
    GeneratedTextIsCleanIff(words, past, steps);
  }

  lemma {:induction false} OrdinaryNeverEscapes(words: seq<Word>, past: seq<int>, steps: seq<Step>)
    requires forall i :: 0 <= i < |steps| ==> Ordinary(steps[i])
    ensures !SomeStepEscapes(words, past, steps)
    decreases |steps|
  {
    if steps != [] {
      assert Ordinary(steps[0]);
      OrdinaryNeverEscapes(words, past + [steps[0].token], steps[1..]);
    }
  }

  // ---------------------------------------------------------------- the processor

  predicate InRange(w: Word, vocabulary: nat) {
    forall i :: 0 <= i < |w| ==> 0 <= w[i] < vocabulary
  }

  ghost predicate AllInRange(words: seq<Word>, vocabulary: nat) {
    forall i :: 0 <= i < |words| ==> InRange(words[i], vocabulary)
  }

  /** Bias of token `t`: minus infinity if it is a one-token bad word. */
  ghost function SingleBias(words: seq<Word>, t: int): Logit {
    if [t] in words then NegInf else Fin(0.0)
  }

  /** Bias of token `t` from the longer words. */
  ghost function LongBias(words: seq<Word>, past: seq<int>, t: int): Logit {
    if exists i :: 0 <= i < |words| && |words[i]| != 1 && CompletesWord(words[i], past, t) then NegInf else Fin(0.0)
  }

  lemma {:induction false} BiasesMask(words: seq<Word>, past: seq<int>, t: int, logit: Logit)
    ensures Add(Add(logit, SingleBias(words, t)), LongBias(words, past, t)) == Masked(words, past, t, logit)
  {
    if Completes(words, past, t) {
      var i :| 0 <= i < |words| && CompletesWord(words[i], past, t);
      assert |words[i]| == 1 ==> words[i] == [t];
    }
    if [t] in words {
      var i :| 0 <= i < |words| && words[i] == [t];
      assert past[|past|..] == [t][..0];
      assert CompletesWord(words[i], past, t);
    }
  }

  class NoBadWordsLogitsProcessor {
    const badWordsIds: seq<Word>
    var wordBias: array?<Logit>

    constructor (badWordsIds: seq<Word>)
      ensures this.badWordsIds == badWordsIds && wordBias == null && Valid()
    {
      this.badWordsIds := badWordsIds;
      wordBias := null;
    }

    ghost predicate Valid()
      reads this, wordBias
    {
      wordBias != null ==>
        && AllInRange(badWordsIds, wordBias.Length)
        && forall t :: 0 <= t < wordBias.Length ==> wordBias[t] == SingleBias(badWordsIds, t)
    }

    method CheckTokenIdsBounds(vocabulary: nat) returns (ok: bool)
      ensures ok <==> AllInRange(badWordsIds, vocabulary)
    {
      var invalid: seq<int> := [];
      for i := 0 to |badWordsIds|
        invariant invalid == [] <==> forall k :: 0 <= k < i ==> InRange(badWordsIds[k], vocabulary)
      {
        var w := badWordsIds[i];
        ghost var before := invalid;
        for j := 0 to |w|
          invariant invalid == [] <==> before == [] && forall k :: 0 <= k < j ==> 0 <= w[k] < vocabulary
        {
          if w[j] < 0 || w[j] >= vocabulary {
            invalid := invalid + [w[j]];
          }
        }
      }
      ok := invalid == [];
    }

    method InitWordBias(vocabulary: nat) returns (ok: bool)
      requires wordBias == null
      modifies this
      ensures ok <==> AllInRange(badWordsIds, vocabulary)
      ensures Valid() && if ok then wordBias != null && fresh(wordBias) && wordBias.Length == vocabulary else wordBias == null
    {
      ok := CheckTokenIdsBounds(vocabulary);
      if !ok {
        return;
      }
      var bias := new Logit[vocabulary](_ => Fin(0.0));
      for i := 0 to |badWordsIds|
        invariant forall t :: 0 <= t < vocabulary ==> bias[t] == SingleBias(badWordsIds[..i], t)
      {
        var w := badWordsIds[i];
        assert badWordsIds[..i + 1] == badWordsIds[..i] + [w];
        assert InRange(w, vocabulary);
        if |w| == 1 {
          bias[w[0]] := NegInf;
        }
        forall t | 0 <= t < vocabulary ensures bias[t] == SingleBias(badWordsIds[..i + 1], t) {
          assert w == [t] <==> |w| == 1 && w[0] == t;
        }
      }
      assert badWordsIds[..|badWordsIds|] == badWordsIds;
      wordBias := bias;
    }

    /** One bad word of the loop: adds its bias; an empty word raises an IndexError. */
    static method AddWord(w: Word, past: seq<int>, bias: array<Logit>) returns (ok: bool)
      requires InRange(w, bias.Length)
      requires forall t :: 0 <= t < bias.Length ==> bias[t] == NegInf || bias[t] == Fin(0.0)
      modifies bias
      ensures ok <==> w != []
      ensures ok ==> forall t :: 0 <= t < bias.Length ==>
                bias[t] == if |w| != 1 && CompletesWord(w, past, t) then NegInf else old(bias[t])
    {
      if |w| == 1 {
        return true;  // in `wordBias` already
      }
      if |w| > |past| + 1 {
        return true;
      }
      if w == [] {
        return false;
      }
      var prefixLength := |w| - 1;
      var isMatch := past[|past| - prefixLength..] == w[..prefixLength];
      assert isMatch == PrefixMatches(w, past);
      bias[w[prefixLength]] := Add(bias[w[prefixLength]], if isMatch then NegInf else Fin(0.0));
      return true;
    }

    /** The biases of the words longer than one token. */
    method LastTokenBias(past: seq<int>, vocabulary: nat) returns (ok: bool, bias: array<Logit>)
      requires AllInRange(badWordsIds, vocabulary)
      ensures ok <==> [] !in badWordsIds
      ensures fresh(bias) && bias.Length == vocabulary
      ensures ok ==> forall t :: 0 <= t < vocabulary ==> bias[t] == LongBias(badWordsIds, past, t)
    {
      ok, bias := true, new Logit[vocabulary](_ => Fin(0.0));
      for i := 0 to |badWordsIds|
        invariant [] !in badWordsIds[..i]
        invariant forall t :: 0 <= t < vocabulary ==> bias[t] == LongBias(badWordsIds[..i], past, t)
      {
        var w := badWordsIds[i];
        assert InRange(w, vocabulary);
        ok := AddWord(w, past, bias);
        if !ok {
          return;
        }
        forall t | 0 <= t < vocabulary ensures bias[t] == LongBias(badWordsIds[..i + 1], past, t) {
          LongBiasStep(badWordsIds, i, past, t);
        }
      }
      assert badWordsIds[..|badWordsIds|] == badWordsIds;
    }

    static method AddBiases(logits: seq<Logit>, first: array<Logit>, second: array<Logit>) returns (out: seq<Logit>)
      requires first.Length == second.Length == |logits|
      ensures |out| == |logits|
      ensures forall t :: 0 <= t < |out| ==> out[t] == Add(Add(logits[t], first[t]), second[t])
    {
      out := [];
      for t := 0 to |logits|
        invariant |out| == t && forall k :: 0 <= k < t ==> out[k] == Add(Add(logits[k], first[k]), second[k])
      {
        out := out + [Add(Add(logits[t], first[t]), second[t])];
      }
    }

    /** `__call__`: masks exactly the tokens that would complete a bad word. */
    method Call(past: seq<int>, logits: seq<Logit>) returns (r: Result<seq<Logit>>)
      requires Valid() && (wordBias != null ==> wordBias.Length == |logits|)
      modifies this
      ensures Valid()
      ensures r == if !AllInRange(badWordsIds, |logits|) then Failure(ValueError)
                   else if [] in badWordsIds then Failure(IndexError)
                   else Success(MaskedAll(badWordsIds, past, logits))
      ensures AllInRange(badWordsIds, |logits|) ==> wordBias != null && wordBias.Length == |logits|
    {
      if wordBias == null {
        var ok := InitWordBias(|logits|);
        if !ok {
          return Failure(ValueError);
        }
      }
      var ok, lastTokenBias := LastTokenBias(past, |logits|);
      if !ok {
        return Failure(IndexError);
      }
      var out := AddBiases(logits, wordBias, lastTokenBias);
      forall t | 0 <= t < |logits| ensures out[t] == MaskedAll(badWordsIds, past, logits)[t] {
        BiasesMask(badWordsIds, past, t, logits[t]);
      }
      assert out == MaskedAll(badWordsIds, past, logits);
      return Success(out);
    }
  }

  lemma {:induction false} LongBiasStep(words: seq<Word>, i: nat, past: seq<int>, t: int)
    requires i < |words|
    ensures LongBias(words[..i + 1], past, t) ==
            if |words[i]| != 1 && CompletesWord(words[i], past, t) then NegInf else LongBias(words[..i], past, t)
  {
    var longer, shorter := words[..i + 1], words[..i];
    if k :| 0 <= k < |shorter| && |shorter[k]| != 1 && CompletesWord(shorter[k], past, t) {
      assert longer[k] == shorter[k];
    }
    if k :| 0 <= k < |longer| && |longer[k]| != 1 && CompletesWord(longer[k], past, t) {
      if k < i { assert shorter[k] == longer[k]; }
    }
    assert longer[i] == words[i];
  }
}

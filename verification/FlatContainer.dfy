/** The container of log probabilities as an object, and every run of its operations
    (vllm/logprobs.py). */
module FlatContainer {
  import opened Wrappers
  import opened Arithmetic
  import opened Logprobs
  import opened LogprobsSlices

  function Contents(d: Option<Dict>): Dict { if d.Some? then d.value else [] }

  /** Python's `zip` of the four columns of a position. */
  function Zip(tokenIds: seq<int>, logprobs: seq<real>, ranks: seq<int>, decoded: seq<Option<string>>): seq<Item> {
    seq(Min(Min(|tokenIds|, |logprobs|), Min(|ranks|, |decoded|)),
        k requires 0 <= k < Min(Min(|tokenIds|, |logprobs|), Min(|ranks|, |decoded|)) =>
          Item(tokenIds[k], Logprob(logprobs[k], Some(ranks[k]), decoded[k])))
  }

  // ---------------------------------------------------------------- runs of operations

  datatype Op =
    | AppendOp(d: Option<Dict>)
    | FastOp(tokenIds: seq<int>, logprobs: seq<real>, ranks: seq<int>, decoded: seq<Option<string>>)
    | ExtendOp(ds: seq<Option<Dict>>)
    | SliceOp(s: Slice)

  function ExtendedAll(f: Flat, ds: seq<Option<Dict>>): Flat {
    if ds == [] then f else Extended(ExtendedAll(f, ds[..|ds| - 1]), Contents(ds[|ds| - 1]))
  }

  function AllContents(ds: seq<Option<Dict>>): (r: seq<Dict>)
    ensures |r| == |ds|
  {
    seq(|ds|, k requires 0 <= k < |ds| => Contents(ds[k]))
  }

  /** The operations on the six lists. */
  function StepFlat(f: Flat, op: Op): Result<Flat>
    requires SameLengths(f)
  {
    match op
    case AppendOp(d) => Success(Extended(f, Contents(d)))
    case FastOp(tokenIds, logprobs, ranks, decoded) => Success(Extended(f, Zip(tokenIds, logprobs, ranks, decoded)))
    case ExtendOp(ds) => Success(ExtendedAll(f, ds))
    case SliceOp(s) => TakeSlice(f, s)
  }

  /** The same operations on a plain list of dictionaries. */
  function StepList(l: seq<Dict>, op: Op): seq<Dict>
    requires op.SliceOp? ==> Step(op.s) > 0
  {
    match op
    case AppendOp(d) => l + [Contents(d)]
    case FastOp(tokenIds, logprobs, ranks, decoded) => l + [DictOf(Zip(tokenIds, logprobs, ranks, decoded))]
    case ExtendOp(ds) => l + AllContents(ds)
    case SliceOp(s) => Pick(l, Selected(s, |l|))
  }

  predicate PositiveStep(op: Op) { op.SliceOp? ==> Step(op.s) > 0 }

  /** The slice takes at least one of `n` positions. */
  predicate TakesSome(n: nat, op: Op)
    requires PositiveStep(op)
  {
    op.SliceOp? ==> Selected(op.s, n) != []
  }

  ghost predicate Represents(r: Result<Flat>, l: seq<Dict>) {
    r.Success? && Valid(r.value) && View(r.value) == l
  }

  lemma {:induction false} ExtendedAllView(f: Flat, ds: seq<Option<Dict>>)
    requires Valid(f)
    ensures Valid(ExtendedAll(f, ds))
    ensures View(ExtendedAll(f, ds)) == View(f) + AllContents(ds)
    decreases |ds|
  {
    if ds != [] {
      var init, last := ds[..|ds| - 1], Contents(ds[|ds| - 1]);
      ExtendedAllView(f, init);
      ExtendedView(ExtendedAll(f, init), last);
      DictOfDict(last);
      assert AllContents(ds) == AllContents(init) + [last];
    }
  }

  /** One operation: the container goes on representing the list; it fails only where a slice
      takes nothing. */
  lemma {:induction false} StepRefines(f: Flat, op: Op)
    requires Valid(f) && PositiveStep(op)
    ensures if TakesSome(|f.starts|, op) then Represents(StepFlat(f, op), StepList(View(f), op))
            else StepFlat(f, op) == Failure(IndexError)
  {
    match op
    case AppendOp(d) =>
      ExtendedView(f, Contents(d));
      DictOfDict(Contents(d));
    case FastOp(tokenIds, logprobs, ranks, decoded) =>
      ExtendedView(f, Zip(tokenIds, logprobs, ranks, decoded));
    case ExtendOp(ds) =>
      ExtendedAllView(f, ds);
    case SliceOp(s) =>
      if TakesSome(|f.starts|, op) {
        SelectedIsMonotone(s, |f.starts|);
        RebasedView(f, Selected(s, |f.starts|));
      }
  }

  function RunFlat(f: Flat, ops: seq<Op>): Result<Flat>
    requires SameLengths(f)
    decreases |ops|
  {
    if ops == [] then Success(f)
    else
      var next := StepFlat(f, ops[0]);
      if next.Success? && SameLengths(next.value) then RunFlat(next.value, ops[1..]) else next
  }

  predicate PositiveSteps(ops: seq<Op>) {
    forall i :: 0 <= i < |ops| ==> PositiveStep(ops[i])
  }

  function RunList(l: seq<Dict>, ops: seq<Op>): seq<Dict>
    requires PositiveSteps(ops)
    decreases |ops|
  {
    if ops == [] then l else RunList(StepList(l, ops[0]), ops[1..])
  }

  /** No slice of the run on the list takes nothing. */
  predicate AllTakeSome(l: seq<Dict>, ops: seq<Op>)
    requires PositiveSteps(ops)
    decreases |ops|
  {
    ops == [] || (TakesSome(|l|, ops[0]) && AllTakeSome(StepList(l, ops[0]), ops[1..]))
  }

  /** Refinement: after any run of append, append_fast, extend and positive-step slices, the
      container holds what the list of dictionaries would hold; it fails exactly when some
      slice takes nothing. */
  lemma {:induction false} RunsRefine(f: Flat, ops: seq<Op>)
    requires Valid(f) && PositiveSteps(ops)
    ensures if AllTakeSome(View(f), ops) then Represents(RunFlat(f, ops), RunList(View(f), ops))
            else RunFlat(f, ops) == Failure(IndexError)
    decreases |ops|
  {
    if ops != [] {
      StepRefines(f, ops[0]);
      if TakesSome(|f.starts|, ops[0]) {
        RunsRefine(StepFlat(f, ops[0]).value, ops[1..]);
      }
    }
  }

  /** An example: the empty slice `[0:0]` of one position fails where a list gives `[]`. */
  lemma {:induction false} EmptySliceFails(f: Flat, s: Slice)
    requires f == Flat([0], [1], [5], [0.0], [None], [None]) && s == Slice(Some(0), Some(0), None)
    ensures Valid(f) && TakeSlice(f, s) == Failure(IndexError)
    ensures Step(s) > 0 && StepList(View(f), SliceOp(s)) == []
  {
    assert Selected(s, 1) == [];
    StepRefines(f, SliceOp(s));
  }

  // ---------------------------------------------------------------- the object

  class FlatLogprobs {
    var startIndices: seq<int>
    var endIndices: seq<int>
    var tokenIds: seq<int>
    var logprobs: seq<real>
    var ranks: seq<Option<int>>
    var decodedTokens: seq<Option<string>>

    function Value(): Flat
      reads this
    {
      Flat(startIndices, endIndices, tokenIds, logprobs, ranks, decodedTokens)
    }

    constructor (f: Flat)
      ensures Value() == f
    {
      startIndices, endIndices, tokenIds := f.starts, f.ends, f.tokenIds;
      logprobs, ranks, decodedTokens := f.logprobs, f.ranks, f.decodedTokens;
    }

    /** One token of a position. */
    method AppendItem(x: Item, ghost f: Flat, ghost items: seq<Item>)
      requires HoldsMore(f, Value(), items)
      modifies this`tokenIds, this`logprobs, this`ranks, this`decodedTokens
      ensures HoldsMore(f, Value(), items + [x])
    {
      tokenIds := tokenIds + [x.tokenId];
      logprobs := logprobs + [x.data.logprob];
      ranks := ranks + [x.data.rank];
      decodedTokens := decodedTokens + [x.data.decodedToken];
      HoldsOneMore(f, items, x);
    }

    method Append(logprobsOnePosition: Option<Dict>)
      requires Valid(Value())
      modifies this
      ensures Value() == Extended(old(Value()), Contents(logprobsOnePosition))
      ensures Valid(Value()) && View(Value()) == old(View(Value())) + [Contents(logprobsOnePosition)]
    {
      ghost var f, items := Value(), Contents(logprobsOnePosition);
      assert HoldsMore(f, Value(), []);
      startIndices := startIndices + [|logprobs|];
      if logprobsOnePosition.Some? {
        var d := logprobsOnePosition.value;
        for i := 0 to |d|
          invariant startIndices == f.starts + [|f.logprobs|] && endIndices == f.ends
          invariant HoldsMore(f, Value(), d[..i])
        {
          AppendItem(d[i], f, d[..i]);
          assert d[..i + 1] == d[..i] + [d[i]];
        }
        assert d[..|d|] == d;
      }
      ClosePosition(f, items);
      DictOfDict(items);
    }

    /** The position ends where the tokens end so far. */
    method ClosePosition(ghost f: Flat, ghost items: seq<Item>)
      requires Valid(f) && startIndices == f.starts + [|f.logprobs|] && endIndices == f.ends && HoldsMore(f, Value(), items)
      modifies this`endIndices
      ensures Value() == Extended(f, items) && Valid(Value()) && View(Value()) == View(f) + [DictOf(items)]
    {
      endIndices := endIndices + [|logprobs|];
      ExtendedView(f, items);
    }

    method AppendFast(newTokenIds: seq<int>, newLogprobs: seq<real>, newRanks: seq<int>, newDecoded: seq<Option<string>>)
      requires Valid(Value())
      modifies this
      ensures Value() == Extended(old(Value()), Zip(newTokenIds, newLogprobs, newRanks, newDecoded))
      ensures Valid(Value())
      ensures View(Value()) == old(View(Value())) + [DictOf(Zip(newTokenIds, newLogprobs, newRanks, newDecoded))]
    {
      ghost var f, items := Value(), Zip(newTokenIds, newLogprobs, newRanks, newDecoded);
      startIndices := startIndices + [|logprobs|];
      var i := 0;
      while i < |newTokenIds| && i < |newLogprobs| && i < |newRanks| && i < |newDecoded|
        invariant i <= |items|
        invariant startIndices == f.starts + [|f.logprobs|] && endIndices == f.ends
        invariant HoldsMore(f, Value(), items[..i])
      {
        AppendItem(Item(newTokenIds[i], Logprob(newLogprobs[i], Some(newRanks[i]), newDecoded[i])), f, items[..i]);
        assert items[..i + 1] == items[..i] + [items[i]];
        i := i + 1;
      }
      assert items[..i] == items;
      ClosePosition(f, items);
    }

    method Extend(logprobsMultiPositions: seq<Option<Dict>>)
      requires Valid(Value())
      modifies this
      ensures Value() == ExtendedAll(old(Value()), logprobsMultiPositions)
      ensures Valid(Value()) && View(Value()) == old(View(Value())) + AllContents(logprobsMultiPositions)
    {
      ghost var f := Value();
      for i := 0 to |logprobsMultiPositions|
        invariant Valid(Value()) && Value() == ExtendedAll(f, logprobsMultiPositions[..i])
      {
        Append(logprobsMultiPositions[i]);
        assert logprobsMultiPositions[..i + 1][..i] == logprobsMultiPositions[..i];
      }
      assert logprobsMultiPositions[..|logprobsMultiPositions|] == logprobsMultiPositions;
      ExtendedAllView(f, logprobsMultiPositions);
    }

    /** `__iter__`, run to its end. */
    method Iterate() returns (r: seq<Dict>)
      requires Valid(Value())
      ensures r == View(Value())
    {
      r := [];
      for i := 0 to |startIndices|
        invariant r == View(Value())[..i]
      {
        ReadIsList(Value(), i);
        r := r + [Read(Value(), i).value];
      }
    }
  }

  /** The four columns of `g` are those of `f` and then `items`. */
  ghost predicate HoldsMore(f: Flat, g: Flat, items: seq<Item>) {
    var e := Extended(f, items);
    g.tokenIds == e.tokenIds && g.logprobs == e.logprobs && g.ranks == e.ranks && g.decodedTokens == e.decodedTokens
  }

  lemma {:induction false} HoldsOneMore(f: Flat, items: seq<Item>, x: Item)
    ensures var e, more := Extended(f, items), Extended(f, items + [x]);
            && more.tokenIds == e.tokenIds + [x.tokenId]
            && more.logprobs == e.logprobs + [x.data.logprob]
            && more.ranks == e.ranks + [x.data.rank]
            && more.decodedTokens == e.decodedTokens + [x.data.decodedToken]
  {
  }

  // ---------------------------------------------------------------- the next position

  /** The sampled token's rank, and then 1, 2, and so on for the top-k. */
  function Ranks(rank: int, numLogprobs: int): seq<int> {
    [rank] + seq(if numLogprobs > 0 then numLogprobs else 0, k => k + 1)
  }

  function NumLogprobs(numLogprobs: int, logprobs: seq<real>): int {
    if numLogprobs == -1 then |logprobs| else numLogprobs
  }

  function NextPosition(tokenIds: seq<int>, logprobs: seq<real>, decoded: seq<Option<string>>, rank: int, numLogprobs: int): seq<Item>
  {
    Zip(tokenIds, logprobs, Ranks(rank, NumLogprobs(numLogprobs, logprobs)), decoded)
  }

  /** Number of entries: no more than any column has, and than one and the requested top-k. */
  function EntryCount(tokenIds: seq<int>, logprobs: seq<real>, decoded: seq<Option<string>>, numLogprobs: int): (m: nat)
    ensures m <= |tokenIds| && m <= |logprobs| && m <= |decoded|
  {
    var n := if numLogprobs == -1 then |logprobs| else numLogprobs;
    Min(Min(|tokenIds|, |logprobs|), Min(|decoded|, if n > 0 then 1 + n else 1))
  }

  /** What the dictionary of the next position must be: its keys are exactly the first `m` tokens,
      each with the data of its last occurrence there. */
  ghost predicate HoldsPosition(
    d: map<int, Logprob>, m: nat, tokenIds: seq<int>, logprobs: seq<real>, decoded: seq<Option<string>>, rank: int)
    requires m <= |tokenIds| && m <= |logprobs| && m <= |decoded|
  {
    && (forall t :: t in d <==> t in tokenIds[..m])
    && (forall i :: 0 <= i < m && tokenIds[i] !in tokenIds[i + 1..m] ==>
          tokenIds[i] in d && d[tokenIds[i]] == Logprob(logprobs[i], Some(if i == 0 then rank else i), decoded[i]))
  }

  lemma {:induction false} NextPositionHolds(
    tokenIds: seq<int>, logprobs: seq<real>, decoded: seq<Option<string>>, rank: int, numLogprobs: int)
    ensures HoldsPosition(AsMap(DictOf(NextPosition(tokenIds, logprobs, decoded, rank, numLogprobs))),
                          EntryCount(tokenIds, logprobs, decoded, numLogprobs), tokenIds, logprobs, decoded, rank)
  {
    var items := NextPosition(tokenIds, logprobs, decoded, rank, numLogprobs);
    var d, m := AsMap(DictOf(items)), EntryCount(tokenIds, logprobs, decoded, numLogprobs);
    assert |items| == m;
    DictOfMap(items);
    forall t ensures t in d <==> t in tokenIds[..m] {
      KeysOfMap(items, t);
      if t in tokenIds[..m] {
        var j :| 0 <= j < m && tokenIds[..m][j] == t;
        assert items[j].tokenId == t;
      }
    }
    forall i | 0 <= i < m && tokenIds[i] !in tokenIds[i + 1..m]
      ensures tokenIds[i] in d && d[tokenIds[i]] == Logprob(logprobs[i], Some(if i == 0 then rank else i), decoded[i])
    {
      forall j | i < j < m ensures tokenIds[j] != tokenIds[i] {
        assert tokenIds[j] == tokenIds[i + 1..m][j - i - 1];
      }
      EntryOfNextPosition(tokenIds, logprobs, decoded, rank, numLogprobs, i);
    }
  }

  /** A sampled token and one more: both are stored. */
  lemma {:induction false} BothEntriesAreStored()
    ensures DictOf(NextPosition([7, 3], [-0.1, -2.0], [None, None], 1, 1)) ==
            [Item(7, Logprob(-0.1, Some(1), None)), Item(3, Logprob(-2.0, Some(1), None))]
  {
    var items := NextPosition([7, 3], [-0.1, -2.0], [None, None], 1, 1);
    assert items == [Item(7, Logprob(-0.1, Some(1), None)), Item(3, Logprob(-2.0, Some(1), None))];
    DictOfDict(items);
  }

  /** The flat branch. */
  method AppendToFlat(flat: FlatLogprobs, tokenIds: seq<int>, logprobs: seq<real>, decoded: seq<Option<string>>,
                      rank: int, numLogprobs: int)
    requires Valid(flat.Value())
    modifies flat
    ensures Valid(flat.Value())
    ensures View(flat.Value()) == old(View(flat.Value())) + [DictOf(NextPosition(tokenIds, logprobs, decoded, rank, numLogprobs))]
    ensures var before, after := old(View(flat.Value())), View(flat.Value());
            && |after| == |before| + 1
            && HoldsPosition(AsMap(after[|before|]), EntryCount(tokenIds, logprobs, decoded, numLogprobs),
                             tokenIds, logprobs, decoded, rank)
  {
    NextPositionHolds(tokenIds, logprobs, decoded, rank, numLogprobs);
    var n := if numLogprobs == -1 then |logprobs| else numLogprobs;
    flat.AppendFast(tokenIds, logprobs, Ranks(rank, n), decoded);
  }

  /** The list branch. */
  method AppendToList(list: seq<Dict>, tokenIds: seq<int>, logprobs: seq<real>, decoded: seq<Option<string>>,
                      rank: int, numLogprobs: int) returns (r: seq<Dict>)
    ensures r == list + [DictOf(NextPosition(tokenIds, logprobs, decoded, rank, numLogprobs))]
    ensures |r| == |list| + 1
    ensures HoldsPosition(AsMap(r[|list|]), EntryCount(tokenIds, logprobs, decoded, numLogprobs), tokenIds, logprobs, decoded, rank)
  {
    NextPositionHolds(tokenIds, logprobs, decoded, rank, numLogprobs);
    var n := if numLogprobs == -1 then |logprobs| else numLogprobs;
    var ranks := Ranks(rank, n);
    ghost var items := NextPosition(tokenIds, logprobs, decoded, rank, numLogprobs);
    var d: Dict := [];
    var i := 0;
    while i < |tokenIds| && i < |logprobs| && i < |ranks| && i < |decoded|
      invariant i <= |items| && d == DictOf(items[..i])
    {
      var x := Item(tokenIds[i], Logprob(logprobs[i], Some(ranks[i]), decoded[i]));
      assert x == items[i];
      d := Put(d, x);
      NextDict(items, i);
      i := i + 1;
    }
    assert items[..i] == items;
    r := list + [d];
  }

  lemma {:induction false} NextDict(items: seq<Item>, i: nat)
    requires i < |items|
    ensures DictOf(items[..i + 1]) == Put(DictOf(items[..i]), items[i])
  {
    DictOfSnoc(items[..i], items[i]);
    assert items[..i + 1] == items[..i] + [items[i]];
  }

  /** The entry of a token: its last occurrence among the zipped columns, with the sampled
      token's rank in front and the top-k's own ranks behind. */
  lemma {:induction false} EntryOfNextPosition(tokenIds: seq<int>, logprobs: seq<real>, decoded: seq<Option<string>>,
                                               rank: int, numLogprobs: int, i: nat)
    requires i < |NextPosition(tokenIds, logprobs, decoded, rank, numLogprobs)|
    requires forall j :: i < j < |NextPosition(tokenIds, logprobs, decoded, rank, numLogprobs)| ==> tokenIds[j] != tokenIds[i]
    ensures var d := AsMap(DictOf(NextPosition(tokenIds, logprobs, decoded, rank, numLogprobs)));
            tokenIds[i] in d && d[tokenIds[i]] == Logprob(logprobs[i], Some(if i == 0 then rank else i), decoded[i])
  {
    var items := NextPosition(tokenIds, logprobs, decoded, rank, numLogprobs);
    DictOfMap(items);
    LastWins(items, i);
  }

  lemma {:induction false} LastWins(items: seq<Item>, i: nat)
    requires i < |items| && forall j :: i < j < |items| ==> items[j].tokenId != items[i].tokenId
    ensures items[i].tokenId in AsMap(items) && AsMap(items)[items[i].tokenId] == items[i].data
    decreases |items|
  {
    if i < |items| - 1 {
      var init := items[..|items| - 1];
      assert forall j :: 0 <= j < |init| ==> init[j] == items[j];
      LastWins(init, i);
    }
  }
}

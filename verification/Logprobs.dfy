/** The flat container of log probabilities (vllm/logprobs.py). */
module Logprobs {
  import opened Wrappers

  datatype Logprob = Logprob(logprob: real, rank: Option<int>, decodedToken: Option<string>)

  datatype Item = Item(tokenId: int, data: Logprob)

  // ---------------------------------------------------------------- dictionaries

  predicate DistinctKeys(items: seq<Item>) {
    forall i, j :: 0 <= i < j < |items| ==> items[i].tokenId != items[j].tokenId
  }

  /** A dictionary from token ids to log probabilities, in insertion order. */
  type Dict = d: seq<Item> | DistinctKeys(d)

  function IndexOf(d: seq<Item>, key: int): (i: nat)
    ensures i <= |d|
    ensures i < |d| ==> d[i].tokenId == key
    ensures forall k :: 0 <= k < i ==> d[k].tokenId != key
  {
    if d == [] || d[0].tokenId == key then 0 else IndexOf(d[1..], key) + 1
  }

  /** Assignment `d[key] = value`: an existing key keeps its place. */
  function Put(d: Dict, x: Item): Dict {
    var i := IndexOf(d, x.tokenId);
    if i < |d| then d[i := x] else d + [x]
  }

  /** The dictionary that inserting `items` one after the other gives. */
  function DictOf(items: seq<Item>): Dict {
    if items == [] then [] else Put(DictOf(items[..|items| - 1]), items[|items| - 1])
  }

  /** A dictionary up to the order of its keys, which is what Python's `==` compares. */
  function AsMap(items: seq<Item>): map<int, Logprob> {
    if items == [] then map[]
    else AsMap(items[..|items| - 1])[items[|items| - 1].tokenId := items[|items| - 1].data]
  }

  lemma {:induction false} PutInMap(d: Dict, x: Item, i: nat)
    requires i <= |d| && (i < |d| ==> d[i].tokenId == x.tokenId)
    ensures AsMap(if i < |d| then d[i := x] else d + [x]) == AsMap(d)[x.tokenId := x.data]
    decreases |d|
  {
    if i == |d| {
      assert (d + [x])[..|d|] == d;
    } else {
      var init, last := d[..|d| - 1], d[|d| - 1];
      if i == |d| - 1 {
        assert d[i := x][..i] == init;
      } else {
        PutInMap(init, x, i);
        assert d[i := x][..|d| - 1] == init[i := x];
      }
    }
  }

  /** Inserting items one after the other is the map in which later items win. */
  lemma {:induction false} DictOfMap(items: seq<Item>)
    ensures AsMap(DictOf(items)) == AsMap(items)
    decreases |items|
  {
    if items != [] {
      var init, last := items[..|items| - 1], items[|items| - 1];
      DictOfMap(init);
      PutInMap(DictOf(init), last, IndexOf(DictOf(init), last.tokenId));
    }
  }

  /** Inserting the items of a dictionary gives it back, in the same order. */
  lemma {:induction false} DictOfDict(d: Dict)
    ensures DictOf(d) == d
    decreases |d|
  {
    if d != [] {
      var init, last := d[..|d| - 1], d[|d| - 1];
      DictOfDict(init);
      assert d == init + [last];
    }
  }

  lemma {:induction false} DictOfSnoc(items: seq<Item>, x: Item)
    ensures DictOf(items + [x]) == Put(DictOf(items), x)
  {
    assert (items + [x])[..|items|] == items;
  }

  /** The keys are in the order in which they were first inserted. */
  lemma {:induction false} KeysInOrder(items: seq<Item>, k: nat)
    requires k <= |items|
    ensures TokenIds(DictOf(items[..k])) <= TokenIds(DictOf(items))
    decreases |items|
  {
    if k == |items| {
      assert items[..k] == items;
    } else {
      var init := items[..|items| - 1];
      KeysInOrder(init, k);
      assert init[..k] == items[..k];
      PutKeepsKeys(DictOf(init), items[|items| - 1]);
    }
  }

  lemma {:induction false} PutKeepsKeys(d: Dict, x: Item)
    ensures TokenIds(d) <= TokenIds(Put(d, x))
  {
  }

  lemma {:induction false} AsMapConcat(a: seq<Item>, b: seq<Item>)
    ensures AsMap(a + b) == AsMap(a) + AsMap(b)
    decreases |b|
  {
    if b == [] {
      assert a + b == a;
    } else {
      AsMapConcat(a, b[..|b| - 1]);
      assert (a + b)[..|a + b| - 1] == a + b[..|b| - 1];
    }
  }

  ghost predicate HasKey(items: seq<Item>, key: int) {
    exists j :: 0 <= j < |items| && items[j].tokenId == key
  }

  lemma {:induction false} KeysOfMap(items: seq<Item>, key: int)
    ensures key in AsMap(items) <==> HasKey(items, key)
    decreases |items|
  {
    if items != [] {
      var init := items[..|items| - 1];
      KeysOfMap(init, key);
      assert HasKey(items, key) <==> HasKey(init, key) || items[|items| - 1].tokenId == key by {
        if j :| 0 <= j < |init| && init[j].tokenId == key { assert items[j].tokenId == key; }
      }
    }
  }

  /** The sampled token in front of the top-k: once it is among the top-k, the entry in front
      changes nothing, whatever data it carries; otherwise it adds one key. */
  lemma {:induction false} SampledTokenTwiceIsOnce(sampled: Item, topk: seq<Item>)
    ensures AsMap(DictOf([sampled] + topk)) ==
            if HasKey(topk, sampled.tokenId) then AsMap(DictOf(topk))
            else AsMap(DictOf(topk))[sampled.tokenId := sampled.data]
  {
    var front, rest := AsMap([sampled]), AsMap(topk);
    AsMapConcat([sampled], topk);
    DictOfMap([sampled] + topk);
    DictOfMap(topk);
    assert [sampled][..0] == [];
    assert front == map[sampled.tokenId := sampled.data];
    KeysOfMap(topk, sampled.tokenId);
    assert front + rest == if HasKey(topk, sampled.tokenId) then rest else rest[sampled.tokenId := sampled.data];
  }

  // ---------------------------------------------------------------- the six lists

  datatype Flat = Flat(starts: seq<int>, ends: seq<int>, tokenIds: seq<int>, logprobs: seq<real>,
                       ranks: seq<Option<int>>, decodedTokens: seq<Option<string>>)

  predicate SameLengths(f: Flat) {
    |f.starts| == |f.ends| && |f.tokenIds| == |f.logprobs| == |f.ranks| == |f.decodedTokens|
  }

  /** Positions in order, possibly with unused entries between them. */
  ghost predicate Valid(f: Flat) {
    && SameLengths(f)
    && (forall i :: 0 <= i < |f.starts| ==> 0 <= f.starts[i] <= f.ends[i] <= |f.tokenIds|)
    && (forall i, j :: 0 <= i < j < |f.starts| ==> f.ends[i] <= f.starts[j])
  }

  function ItemAt(f: Flat, i: int): Item
    requires SameLengths(f) && 0 <= i < |f.tokenIds|
  {
    Item(f.tokenIds[i], Logprob(f.logprobs[i], f.ranks[i], f.decodedTokens[i]))
  }

  function Items(f: Flat, lo: int, hi: int): (r: seq<Item>)
    requires SameLengths(f) && 0 <= lo <= hi <= |f.tokenIds|
    ensures |r| == hi - lo
  {
    seq(hi - lo, k requires 0 <= k < hi - lo => ItemAt(f, lo + k))
  }

  /** The list of dictionaries that the container stands for. */
  ghost function View(f: Flat): (r: seq<Dict>)
    requires Valid(f)
    ensures |r| == |f.starts|
  {
    seq(|f.starts|, i requires 0 <= i < |f.starts| => DictOf(Items(f, f.starts[i], f.ends[i])))
  }

  // ---------------------------------------------------------------- reading

  /** Python's index: negative indices count from the end. */
  function Wrap(i: int, n: nat): int { if i < 0 then i + n else i }

  function ReadRange(f: Flat, lo: int, hi: int): Result<Dict>
    requires SameLengths(f)
    decreases hi - lo
  {
    if lo >= hi then Success([])
    else
      var before := ReadRange(f, lo, hi - 1);
      if before.Failure? then before
      else
        var i := Wrap(hi - 1, |f.tokenIds|);
        if 0 <= i < |f.tokenIds| then Success(Put(before.value, ItemAt(f, i))) else Failure(IndexError)
  }

  /** `__getitem__` of an integer. */
  function Read(f: Flat, index: int): Result<Dict>
    requires SameLengths(f)
  {
    var i := Wrap(index, |f.starts|);
    if 0 <= i < |f.starts| then ReadRange(f, f.starts[i], f.ends[i]) else Failure(IndexError)
  }

  lemma {:induction false} ReadRangeIsDict(f: Flat, lo: int, hi: int)
    requires SameLengths(f) && 0 <= lo <= hi <= |f.tokenIds|
    ensures ReadRange(f, lo, hi) == Success(DictOf(Items(f, lo, hi)))
    decreases hi - lo
  {
    if lo < hi {
      ReadRangeIsDict(f, lo, hi - 1);
      ReadRangeSnoc(f, lo, hi);
      DictOfSnoc(Items(f, lo, hi - 1), ItemAt(f, hi - 1));
      ItemsSnoc(f, lo, hi);
    }
  }

  lemma {:induction false} ReadRangeSnoc(f: Flat, lo: int, hi: int)
    requires SameLengths(f) && 0 <= lo < hi <= |f.tokenIds| && ReadRange(f, lo, hi - 1).Success?
    ensures ReadRange(f, lo, hi) == Success(Put(ReadRange(f, lo, hi - 1).value, ItemAt(f, hi - 1)))
  {
  }

  lemma {:induction false} ItemsSnoc(f: Flat, lo: int, hi: int)
    requires SameLengths(f) && 0 <= lo < hi <= |f.tokenIds|
    ensures Items(f, lo, hi) == Items(f, lo, hi - 1) + [ItemAt(f, hi - 1)]
  {
  }

  /** Reading agrees with indexing the list of dictionaries, from both ends. */
  lemma {:induction false} ReadIsList(f: Flat, index: int)
    requires Valid(f)
    ensures Read(f, index) ==
            if 0 <= index < |f.starts| then Success(View(f)[index])
            else if -|f.starts| <= index < 0 then Success(View(f)[index + |f.starts|])
            else Failure(IndexError)
  {
    if -|f.starts| <= index < |f.starts| {
      var i := Wrap(index, |f.starts|);
      ReadRangeIsDict(f, f.starts[i], f.ends[i]);
    }
  }

  // ---------------------------------------------------------------- appending

  function TokenIds(items: seq<Item>): seq<int> {
    seq(|items|, k requires 0 <= k < |items| => items[k].tokenId)
  }

  /** `f` with one more position that holds `items`. */
  function Extended(f: Flat, items: seq<Item>): Flat {
    Flat(f.starts + [|f.logprobs|], f.ends + [|f.logprobs| + |items|],
         f.tokenIds + TokenIds(items),
         f.logprobs + seq(|items|, k requires 0 <= k < |items| => items[k].data.logprob),
         f.ranks + seq(|items|, k requires 0 <= k < |items| => items[k].data.rank),
         f.decodedTokens + seq(|items|, k requires 0 <= k < |items| => items[k].data.decodedToken))
  }

  lemma {:induction false} ExtendedView(f: Flat, items: seq<Item>)
    requires Valid(f)
    ensures Valid(Extended(f, items))
    ensures View(Extended(f, items)) == View(f) + [DictOf(items)]
  {
    var g := Extended(f, items);
    var n := |f.starts|;
    forall i | 0 <= i < n ensures Items(g, g.starts[i], g.ends[i]) == Items(f, f.starts[i], f.ends[i]) {
      ExtendedItems(f, items, f.starts[i], f.ends[i]);
    }
    NewItems(f, items);
  }

  lemma {:induction false} ExtendedItems(f: Flat, items: seq<Item>, lo: int, hi: int)
    requires SameLengths(f) && 0 <= lo <= hi <= |f.tokenIds|
    ensures SameLengths(Extended(f, items)) && Items(Extended(f, items), lo, hi) == Items(f, lo, hi)
  {
    var g := Extended(f, items);
    forall k | 0 <= k < hi - lo ensures Items(g, lo, hi)[k] == Items(f, lo, hi)[k] {
      assert ItemAt(g, lo + k) == ItemAt(f, lo + k);
    }
  }

  lemma {:induction false} NewItems(f: Flat, items: seq<Item>)
    requires SameLengths(f)
    ensures SameLengths(Extended(f, items))
    ensures Items(Extended(f, items), |f.tokenIds|, |f.tokenIds| + |items|) == items
  {
    var g, n := Extended(f, items), |f.tokenIds|;
    forall k | 0 <= k < |items| ensures Items(g, n, n + |items|)[k] == items[k] {
      assert ItemAt(g, n + k) == items[k];
    }
  }
}

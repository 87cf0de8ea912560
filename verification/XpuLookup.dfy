/** Finding the sequence of a token (vllm/_xpu_ops.py, `cp_gather_indexer_k_quant_cache`). */
module XpuLookup {
  import opened Arithmetic

  ghost predicate NonDecreasing(cu: seq<int>) {
    forall i, j :: 0 <= i <= j < |cu| ==> cu[i] <= cu[j]
  }

  /** Cumulative lengths of `|cu| - 1` sequences, some of which may be empty. */
  ghost predicate Cumulative(cu: seq<int>) {
    |cu| >= 2 && cu[0] == 0 && NonDecreasing(cu)
  }

  /** `torch.searchsorted`: the first place where `value` can be inserted. */
  function SearchSorted(cu: seq<int>, value: int): (i: nat)
    ensures i <= |cu|
    ensures forall k :: 0 <= k < i ==> cu[k] < value
    ensures i < |cu| ==> cu[i] >= value
  {
    if cu == [] || cu[0] >= value then 0 else SearchSorted(cu[1..], value) + 1
  }

  datatype Place = Place(batch: int, inBatch: int)

  /** The batch of token `t` and its index in that batch, counted from one. */
  function Lookup(cu: seq<int>, t: int): (p: Place)
    requires |cu| >= 2
    ensures 0 <= p.batch < |cu| - 1
  {
    var b := Clamp(SearchSorted(cu, t + 1) - 1, 0, |cu| - 2);
    Place(b, t + 1 - cu[b])
  }

  /** The tokens of sequence `b` are those from `cu[b]` up to `cu[b + 1]`. */
  predicate Contains(cu: seq<int>, b: int, t: int) {
    0 <= b < |cu| - 1 && cu[b] <= t < cu[b + 1]
  }

  lemma {:induction false} OneSequence(cu: seq<int>, a: int, b: int, t: int)
    requires NonDecreasing(cu) && Contains(cu, a, t) && Contains(cu, b, t)
    ensures a == b
  {
  }

  /** Every token of the batch is looked up in the one sequence that holds it. */
  lemma {:induction false} LookupFindsSequence(cu: seq<int>, t: int)
    requires Cumulative(cu) && 0 <= t < cu[|cu| - 1]
    ensures forall b :: Contains(cu, b, t) <==> b == Lookup(cu, t).batch
    ensures var p := Lookup(cu, t); 1 <= p.inBatch <= cu[p.batch + 1] - cu[p.batch]
  {
    var i := SearchSorted(cu, t + 1);
    assert cu[0] < t + 1 <= cu[|cu| - 1];
    var p := Lookup(cu, t);
    assert 1 <= i < |cu|;
    assert p.batch == i - 1 && Contains(cu, p.batch, t);
    forall b | Contains(cu, b, t) ensures b == p.batch {
      OneSequence(cu, b, p.batch, t);
    }
  }

  /** The lookup is the inverse of laying the sequences out one after the other. */
  lemma {:induction false} LookupRoundTrip(cu: seq<int>, b: int, j: int)
    requires Cumulative(cu) && 0 <= b < |cu| - 1 && 1 <= j <= cu[b + 1] - cu[b]
    ensures Lookup(cu, cu[b] + j - 1) == Place(b, j)
  {
    var t := cu[b] + j - 1;
    assert cu[0] <= cu[b] && cu[b + 1] <= cu[|cu| - 1];
    LookupFindsSequence(cu, t);
    assert Contains(cu, b, t);
  }

  /** Padding tokens behind the last sequence are attributed to the last one, empty or not. */
  lemma {:induction false} PaddingGoesLast(cu: seq<int>, t: int)
    requires Cumulative(cu) && t >= cu[|cu| - 1]
    ensures Lookup(cu, t).batch == |cu| - 2 && Lookup(cu, t).inBatch > cu[|cu| - 1] - cu[|cu| - 2]
  {
    assert SearchSorted(cu, t + 1) == |cu|;
  }

  /** Block of the token's cache entry, from the one-based index. */
  function BlockIndex(inBatch: int, blockSize: int): int
    requires blockSize > 0
  {
    inBatch / blockSize
  }

  /** Entry within the block. */
  function BlockOffset(inBatch: int, blockSize: int): int
    requires blockSize > 0
  {
    (inBatch - 1) % blockSize
  }

  /** Block and offset address position `j - 1` of the sequence exactly when `j` is not a
      multiple of the block size; the last entry of every block is looked for one block late. */
  lemma {:induction false} BlockIndexIsRightIff(j: int, blockSize: int)
    requires blockSize > 0 && j >= 1
    ensures BlockIndex(j, blockSize) * blockSize + BlockOffset(j, blockSize) == j - 1 <==> j % blockSize != 0
    ensures j % blockSize == 0 ==> BlockIndex(j, blockSize) == (j - 1) / blockSize + 1
  {
    var k, r := j / blockSize, j % blockSize;
    assert j == k * blockSize + r;
    if r != 0 {
      DivUnique(j - 1, blockSize, k, r - 1);
    } else {
      assert (k - 1) * blockSize == k * blockSize - blockSize;
      DivUnique(j - 1, blockSize, k - 1, blockSize - 1);
    }
  }

  /** The first block of one entry is already missed. */
  lemma {:induction false} FirstBlockIsMissed()
    ensures Lookup([0, 1], 0) == Place(0, 1) && BlockIndex(1, 1) == 1 && BlockOffset(1, 1) == 0
  {
    assert [0, 1][1..] == [1];
  }
}

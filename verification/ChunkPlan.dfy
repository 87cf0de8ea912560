/** Size alignment and chunk planning of `my_malloc` (csrc/cumem_allocator.cpp), in 64-bit
    unsigned arithmetic. */
module ChunkPlan {
  import opened Wrappers
  import opened Arithmetic

  const U64: nat := 0x1_0000_0000_0000_0000
  const MB: nat := 1024 * 1024
  const DEFAULT_CHUNK_SIZE: nat := 256 * MB

  function Wrap(x: int): nat { x % U64 }

  /** `((size + granularity - 1) / granularity) * granularity` on `size_t`. */
  function AlignUp(size: nat, granularity: nat): nat
    requires granularity > 0
  {
    var q := Wrap(size + granularity - 1) / granularity;
    MulMono(0, q, granularity);
    q * granularity
  }

  /** Quotient and remainder, spelled out for the solver. */
  lemma {:induction false} DivMod(x: nat, m: nat)
    requires m > 0
    ensures x / m >= 0 && x / m * m <= x < x / m * m + m
    ensures (x / m - 1) * m == x / m * m - m
  {
  }

  /** The configured chunk size: the environment value in MB when it parses, is positive and
      fits in 64 bits as bytes; 256 MB otherwise. */
  function MemcreateChunkSize(env: Option<nat>): (c: nat)
    ensures 0 < c < U64 && c % MB == 0
    ensures c == if env.Some? && 0 < env.value * 1048576 < 18446744073709551616 then env.value * 1048576 else 268435456
  {
    if env.None? || env.value == 0 || env.value > (U64 - 1) / MB then DEFAULT_CHUNK_SIZE
    else
      MultipleOf(env.value, MB);
      assert env.value * MB <= (U64 - 1) / MB * MB;
      env.value * MB
  }

  function NumChunks(alignedSize: nat, chunk: nat): nat
    requires chunk > 0
  {
    Wrap(alignedSize + chunk - 1) / chunk
  }

  function Sum(s: seq<nat>): nat {
    if s == [] then 0 else Sum(s[..|s| - 1]) + s[|s| - 1]
  }

  lemma {:induction false} MultipleOf(k: nat, m: nat)
    requires m > 0
    ensures k * m % m == 0
  {
    if k > 0 {
      MultipleOf(k - 1, m);
      assert k * m == (k - 1) * m + m;
      AddModulus((k - 1) * m, m);
    }
  }

  lemma {:induction false} AddModulus(x: nat, m: nat)
    requires m > 0
    ensures (x + m) % m == x % m && (x + m) / m == x / m + 1
  {
    var q, r := x / m, x % m;
    assert x + m == (q + 1) * m + r;
    DivUnique(x + m, m, q + 1, r);
  }

  /** Rounding up without wrap-around. */
  function RoundUp(x: nat, granularity: nat): (r: nat)
    requires granularity > 0
    ensures x <= r < x + granularity && r % granularity == 0
  {
    DivMod(x + granularity - 1, granularity);
    MultipleOf((x + granularity - 1) / granularity, granularity);
    (x + granularity - 1) / granularity * granularity
  }

  /** The result is the rounded size exactly when the rounding addition does not wrap; when it
      wraps the result is zero. */
  lemma {:induction false} AlignUpRounds(size: nat, granularity: nat)
    requires size < U64 && 0 < granularity < U64
    ensures AlignUp(size, granularity) == if size + granularity - 1 < U64 then RoundUp(size, granularity) else 0
  {
    var sum := size + granularity - 1;
    if sum >= U64 {
      WrapsOnce(sum);
      DivUnique(Wrap(sum), granularity, 0, Wrap(sum));
    }
  }

  lemma {:induction false} WrapsOnce(x: nat)
    requires U64 <= x < 2 * U64
    ensures Wrap(x) == x - U64
  {
  }

  /** No smaller multiple holds the size. */
  lemma {:induction false} RoundUpIsLeast(size: nat, granularity: nat, k: nat)
    requires granularity > 0 && k * granularity >= size
    ensures k * granularity >= RoundUp(size, granularity)
  {
    var q := (size + granularity - 1) / granularity;
    if k < q {
      MulMono(k, q - 1, granularity);
      OneLess(q, granularity);
    } else {
      MulMono(q, k, granularity);
    }
  }

  lemma {:induction false} OneLess(q: int, granularity: int)
    ensures (q - 1) * granularity == q * granularity - granularity
  {
  }

  /** What the chunks must be: positive multiples of the granularity, all but the last of them
      full, that sum to the aligned size. */
  ghost predicate ExactPlan(sizes: seq<nat>, alignedSize: nat, chunk: nat, granularity: nat)
    requires granularity > 0
  {
    && (forall i :: 0 <= i < |sizes| ==> 0 < sizes[i] <= chunk && sizes[i] % granularity == 0)
    && (forall i :: 0 <= i < |sizes| - 1 ==> sizes[i] == chunk)
    && Sum(sizes) == alignedSize
  }

  /** The number of chunks is right exactly when the third rounding addition does not wrap;
      when it wraps there are no chunks at all. */
  lemma {:induction false} NumChunksCovers(alignedSize: nat, chunk: nat)
    requires alignedSize < U64 && 0 < chunk < U64
    ensures var n := NumChunks(alignedSize, chunk);
            if alignedSize + chunk - 1 < U64
            then (n - 1) * chunk < alignedSize <= n * chunk || (alignedSize == 0 && n == 0)
            else n == 0
  {
    var sum := Wrap(alignedSize + chunk - 1);
    var n := sum / chunk;
    DivMod(sum, chunk);
    if alignedSize + chunk - 1 >= U64 {
      DivUnique(sum, chunk, 0, alignedSize + chunk - 1 - U64);
    } else if alignedSize == 0 {
      DivUnique(sum, chunk, 0, chunk - 1);
    }
  }

  lemma {:induction false} ModDifference(a: nat, b: nat, m: nat)
    requires m > 0 && a >= b && a % m == 0 && b % m == 0
    ensures (a - b) % m == 0
  {
    assert a - b == (a / m - b / m) * m + 0;
    DivUnique(a - b, m, a / m - b / m, 0);
  }

  lemma {:induction false} ProductModulus(i: nat, c: nat, m: nat)
    requires m > 0 && c % m == 0
    ensures i * c % m == 0
  {
    assert i * c == i * (c / m) * m;
    MultipleOf(i * (c / m), m);
  }

  lemma {:induction false} ChunkFacts(alignedSize: nat, chunk: nat, granularity: nat, i: nat)
    requires alignedSize < U64 && 0 < chunk < U64 && granularity > 0
    requires alignedSize % granularity == 0 && chunk % granularity == 0
    requires i < NumChunks(alignedSize, chunk)
    ensures 0 <= i * chunk < alignedSize
    ensures (alignedSize - i * chunk) % granularity == 0
    ensures (i + 1) * chunk == i * chunk + chunk
    ensures if i + 1 < NumChunks(alignedSize, chunk) then i * chunk + chunk < alignedSize else alignedSize - i * chunk <= chunk
  {
    var n := NumChunks(alignedSize, chunk);
    NumChunksCovers(alignedSize, chunk);
    MulMono(0, i, chunk);
    MulMono(i, n - 1, chunk);
    if i + 1 < n { MulMono(i + 1, n - 1, chunk); }
    ProductModulus(i, chunk, granularity);
    ModDifference(alignedSize, i * chunk, granularity);
  }

  /** Filling the chunk array of `my_malloc`. */
  method FillChunks(alignedSize: nat, chunk: nat, granularity: nat) returns (chunkSizes: array<nat>)
    requires alignedSize < U64 && 0 < chunk < U64 && granularity > 0
    requires alignedSize % granularity == 0 && chunk % granularity == 0
    ensures fresh(chunkSizes)
    ensures chunkSizes.Length == NumChunks(alignedSize, chunk)
    ensures alignedSize + chunk - 1 < U64 ==> ExactPlan(chunkSizes[..], alignedSize, chunk, granularity)
    ensures alignedSize + chunk - 1 >= U64 ==> chunkSizes.Length == 0
  {
    var n := NumChunks(alignedSize, chunk);
    NumChunksCovers(alignedSize, chunk);
    chunkSizes := new nat[n];
    for i := 0 to n
      invariant forall k :: 0 <= k < i ==> 0 < chunkSizes[k] <= chunk && chunkSizes[k] % granularity == 0
      invariant forall k :: 0 <= k < i && k < n - 1 ==> chunkSizes[k] == chunk
      invariant Sum(chunkSizes[..i]) == if i == n > 0 then alignedSize else i * chunk
    {
      ChunkFacts(alignedSize, chunk, granularity, i);
      ghost var before := chunkSizes[..i];
      chunkSizes[i] := Min(alignedSize - i * chunk, chunk);
      assert chunkSizes[..i] == before;
      assert chunkSizes[..i + 1][..i] == chunkSizes[..i];
    }
    assert chunkSizes[..] == chunkSizes[..n];
  }

  /** The plan that a request should get: the least aligned size that holds it, in chunks of the
      least aligned size that holds the configured chunk size. */
  ghost predicate RightPlan(sizes: seq<nat>, size: nat, granularity: nat, env: Option<nat>)
    requires granularity > 0
  {
    ExactPlan(sizes, RoundUp(size, granularity), RoundUp(MemcreateChunkSize(env), granularity), granularity)
  }

  /** None of the three rounding additions wraps. */
  predicate NoWrap(size: nat, granularity: nat, env: Option<nat>)
    requires granularity > 0
  {
    && size + granularity - 1 < U64
    && MemcreateChunkSize(env) + granularity - 1 < U64
    && RoundUp(size, granularity) + RoundUp(MemcreateChunkSize(env), granularity) - 1 < U64
  }

  /** The plan is right exactly when none of the additions wraps, and empty when one does. */
  ghost predicate RightIffNoWrap(sizes: seq<nat>, size: nat, granularity: nat, env: Option<nat>)
    requires granularity > 0
  {
    && (RightPlan(sizes, size, granularity, env) <==> NoWrap(size, granularity, env))
    && (!NoWrap(size, granularity, env) ==> sizes == [])
  }

  /** The whole planning. A wrapped chunk size is zero, and the division by it stops the
      program; otherwise the plan is right exactly when none of the additions wraps, and empty
      when one does. */
  method PlanChunks(size: nat, granularity: nat, env: Option<nat>) returns (r: Result<array<nat>>)
    requires size < U64 && 0 < granularity < U64
    ensures r.Failure? <==> MemcreateChunkSize(env) + granularity - 1 >= U64
    ensures r.Failure? ==> r.error == DivisionByZero
    ensures r.Success? ==> fresh(r.value)
    ensures r.Success? ==> RightIffNoWrap(r.value[..], size, granularity, env)
    ensures r.Success? ==> forall i :: 0 <= i < r.value.Length ==> r.value[i] > 0
  {
    var alignedSize := AlignUp(size, granularity);
    var chunk := AlignUp(MemcreateChunkSize(env), granularity);
    AlignUpRounds(size, granularity);
    AlignUpRounds(MemcreateChunkSize(env), granularity);
    if chunk == 0 {
      return Failure(DivisionByZero);
    }
    var chunkSizes := FillChunks(alignedSize, chunk, granularity);
    if alignedSize == 0 {
      NumChunksCovers(0, chunk);
    }
    r := Success(chunkSizes);
  }

  /** A configured chunk size just below 2^64 bytes is rounded up to zero, and the planning of
      every request divides by it. */
  lemma {:induction false} HugeChunkDividesByZero()
    ensures var env := Some(17592186044415); var granularity := 2 * MB;
            MemcreateChunkSize(env) + granularity - 1 >= U64 && AlignUp(MemcreateChunkSize(env), granularity) == 0
  {
    AlignUpRounds(MemcreateChunkSize(Some(17592186044415)), 2 * MB);
  }

  /** One megabyte less, and a request of two granules gets no chunk at all. */
  lemma {:induction false} HugeChunkPlansNothing()
    ensures var env := Some(17592186044414); var granularity := 2 * MB;
            && MemcreateChunkSize(env) + granularity - 1 < U64 && !NoWrap(2 * granularity, granularity, env)
            && NumChunks(AlignUp(2 * granularity, granularity), AlignUp(MemcreateChunkSize(env), granularity)) == 0
  {
    var granularity, base := 2 * MB, MemcreateChunkSize(Some(17592186044414));
    AlignUpRounds(2 * granularity, granularity);
    AlignUpRounds(base, granularity);
    NumChunksCovers(AlignUp(2 * granularity, granularity), AlignUp(base, granularity));
  }

  /** A size within one granule of 2^64 is rounded up to zero. */
  lemma {:induction false} HugeRequestIsRoundedToZero()
    ensures AlignUp(U64 - 1, 2 * MB) == 0
  {
    AlignUpRounds(U64 - 1, 2 * MB);
  }
}

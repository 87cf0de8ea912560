/** Group quantization with ordinary and power-of-two scales (vllm/_xpu_ops.py,
    `group_quant_torch`), over the real numbers. */
module XpuGroupQuant {
  import opened Wrappers
  import opened Arithmetic
  import opened XpuQuant

  // ---------------------------------------------------------------- powers of two

  function Exp2(k: int): (r: real)
    ensures r > 0.0
    decreases if k < 0 then -k else k
  {
    if k == 0 then 1.0 else if k > 0 then 2.0 * Exp2(k - 1) else Exp2(k + 1) / 2.0
  }

  lemma {:induction false} Exp2Next(k: int)
    ensures Exp2(k + 1) == 2.0 * Exp2(k)
  {
  }

  lemma {:induction false} Exp2Mono(j: int, k: int)
    requires j <= k
    ensures Exp2(j) <= Exp2(k)
    decreases k - j
  {
    if j < k {
      Exp2Mono(j, k - 1);
      Exp2Next(k - 1);
    }
  }

  /** How far `r` is from the interval above one half up to one. */
  function Distance(r: real): int
    requires r > 0.0
  {
    if r > 1.0 then r.Floor + 1 else (1.0 / r).Floor
  }

  lemma {:induction false} HalfIsNearer(r: real)
    requires r > 1.0
    ensures 0 <= Distance(r / 2.0) < Distance(r)
  {
    if r / 2.0 <= 1.0 {
      var d := 1.0 / (r / 2.0);
      assert d * (r / 2.0) == 1.0;
      Reciprocal(d, r / 2.0);
    }
  }

  lemma {:induction false} Reciprocal(d: real, r: real)
    requires 0.5 < r <= 1.0 && d * r == 1.0
    ensures 1.0 <= d < 2.0
  {
    if d < 1.0 {
      MulLt(d, 1.0, r);
    }
    if d >= 2.0 {
      MulLe(2.0, d, r);
    }
  }

  lemma {:induction false} DoubleIsNearer(r: real)
    requires 0.0 < r <= 0.5
    ensures 0 <= Distance(2.0 * r) < Distance(r)
  {
    var d := 1.0 / r;
    assert d * r == 1.0;
    if d < 2.0 {
      MulLt(d, 2.0, r);
    }
    assert 1.0 / (2.0 * r) == d / 2.0;
  }

  /** `ceil(log2(r))`. */
  function CeilLog2(r: real): int
    requires r > 0.0
    decreases Distance(r)
  {
    if r > 1.0 then
      HalfIsNearer(r);
      CeilLog2(r / 2.0) + 1
    else if r <= 0.5 then
      DoubleIsNearer(r);
      CeilLog2(2.0 * r) - 1
    else 0
  }

  /** `CeilLog2` is the least exponent whose power reaches `r`. */
  lemma {:induction false} CeilLog2Bounds(r: real)
    requires r > 0.0
    ensures Exp2(CeilLog2(r) - 1) < r <= Exp2(CeilLog2(r))
    decreases Distance(r)
  {
    if r > 1.0 {
      HalfIsNearer(r);
      CeilLog2Bounds(r / 2.0);
      Exp2Next(CeilLog2(r / 2.0));
      Exp2Next(CeilLog2(r / 2.0) - 1);
    } else if r <= 0.5 {
      DoubleIsNearer(r);
      CeilLog2Bounds(2.0 * r);
      Exp2Next(CeilLog2(2.0 * r) - 1);
      Exp2Next(CeilLog2(2.0 * r) - 2);
    } else {
      assert Exp2(-1) == 0.5;
    }
  }

  lemma {:induction false} CeilLog2Least(r: real, j: int)
    requires r > 0.0
    ensures r <= Exp2(j) <==> CeilLog2(r) <= j
  {
    CeilLog2Bounds(r);
    if CeilLog2(r) <= j {
      Exp2Mono(CeilLog2(r), j);
    } else {
      Exp2Mono(j, CeilLog2(r) - 1);
    }
  }

  // ---------------------------------------------------------------- one group

  const EPS := 0.0000000001

  function AbsMax(group: seq<real>): (m: real)
    ensures m >= 0.0
  {
    if group == [] then 0.0 else Max(AbsMax(group[..|group| - 1]), Abs(group[|group| - 1]))
  }

  function RawScale(group: seq<real>, fp8Max: real): (s: real)
    requires fp8Max > 0.0
    ensures s > 0.0
  {
    Max(AbsMax(group), EPS) / fp8Max
  }

  function GroupScale(group: seq<real>, useUe8m0: bool, fp8Max: real): (s: real)
    requires fp8Max > 0.0
    ensures s > 0.0
  {
    if useUe8m0 then Exp2(CeilLog2(RawScale(group, fp8Max))) else RawScale(group, fp8Max)
  }

  function ClampReal(x: real, bound: real): real {
    if x < -bound then -bound else if x > bound then bound else x
  }

  /** Clamping the scaled group to the range of the format changes nothing. */
  ghost predicate ClampIsNoOp(group: seq<real>, scale: real, fp8Max: real)
    requires scale > 0.0
  {
    forall i :: 0 <= i < |group| ==> ClampReal(group[i] / scale, fp8Max) == group[i] / scale
  }

  lemma {:induction false} AbsMaxLeast(group: seq<real>, bound: real)
    requires bound >= 0.0
    ensures AbsMax(group) <= bound <==> forall i :: 0 <= i < |group| ==> Abs(group[i]) <= bound
    decreases |group|
  {
    if group != [] {
      var init := group[..|group| - 1];
      AbsMaxLeast(init, bound);
      assert group == init + [group[|group| - 1]];
      if forall i :: 0 <= i < |group| ==> Abs(group[i]) <= bound {
        forall i | 0 <= i < |init| ensures Abs(init[i]) <= bound {
          assert init[i] == group[i];
        }
      }
    }
  }

  lemma {:induction false} ElementFits(x: real, scale: real, fp8Max: real)
    requires scale > 0.0 && fp8Max > 0.0
    ensures ClampReal(x / scale, fp8Max) == x / scale <==> Abs(x) <= fp8Max * scale
  {
    var d := x / scale;
    assert d * scale == x;
    CancelLe(d, fp8Max, scale);
    CancelLe(-fp8Max, d, scale);
    assert -fp8Max * scale == -(fp8Max * scale);
  }

  /** The scales under which the clamp does nothing are exactly those from `AbsMax / fp8Max`. */
  lemma {:induction false} NoOpIff(group: seq<real>, scale: real, fp8Max: real)
    requires scale > 0.0 && fp8Max > 0.0
    ensures ClampIsNoOp(group, scale, fp8Max) <==> AbsMax(group) / fp8Max <= scale
  {
    var bound := fp8Max * scale;
    DivLe(AbsMax(group), scale, fp8Max);
    MulLe(0.0, scale, fp8Max);
    AbsMaxLeast(group, bound);
    forall i | 0 <= i < |group|
      ensures ClampReal(group[i] / scale, fp8Max) == group[i] / scale <==> Abs(group[i]) <= bound
    {
      ElementFits(group[i], scale, fp8Max);
    }
  }

  /** Among the scales that are not below `EPS / fp8Max`, the ordinary scale is the least one
      that makes the clamp a no-op. */
  lemma {:induction false} RawScaleIsLeast(group: seq<real>, scale: real, fp8Max: real)
    requires fp8Max > 0.0 && scale >= EPS / fp8Max
    ensures scale > 0.0 && (ClampIsNoOp(group, scale, fp8Max) <==> GroupScale(group, false, fp8Max) <= scale)
  {
    RawScaleCases(group, fp8Max);
    NoOpIff(group, scale, fp8Max);
  }

  lemma {:induction false} RawScaleCases(group: seq<real>, fp8Max: real)
    requires fp8Max > 0.0
    ensures 0.0 <= EPS / fp8Max <= RawScale(group, fp8Max)
    ensures RawScale(group, fp8Max) == Max(AbsMax(group) / fp8Max, EPS / fp8Max)
  {
    DivMono(AbsMax(group), EPS, fp8Max);
    DivMono(EPS, AbsMax(group), fp8Max);
    DivMono(0.0, EPS, fp8Max);
  }

  lemma {:induction false} DivMono(a: real, b: real, s: real)
    requires s > 0.0
    ensures a <= b <==> a / s <= b / s
  {
    var d, e := a / s, b / s;
    assert d * s == a && e * s == b;
    CancelLe(d, e, s);
  }

  /** Among the powers of two that are not below `EPS / fp8Max`, the power-of-two scale is the
      least one that makes the clamp a no-op. */
  lemma {:induction false} PowerOfTwoScaleIsLeast(group: seq<real>, j: int, fp8Max: real)
    requires fp8Max > 0.0 && Exp2(j) >= EPS / fp8Max
    ensures ClampIsNoOp(group, Exp2(j), fp8Max) <==> GroupScale(group, true, fp8Max) <= Exp2(j)
  {
    var r := RawScale(group, fp8Max);
    RawScaleCases(group, fp8Max);
    NoOpIff(group, Exp2(j), fp8Max);
    CeilLog2Least(r, j);
    CeilLog2Bounds(r);
    if CeilLog2(r) <= j {
      Exp2Mono(CeilLog2(r), j);
    }
  }

  /** The power-of-two scale is the least of all powers of two that make the clamp a no-op. */
  ghost predicate IsLeastPower(group: seq<real>, fp8Max: real)
    requires fp8Max > 0.0
  {
    forall j :: ClampIsNoOp(group, Exp2(j), fp8Max) <==> GroupScale(group, true, fp8Max) <= Exp2(j)
  }

  lemma {:induction false} Exp2Order(j: int, k: int)
    ensures Exp2(j) <= Exp2(k) <==> j <= k
  {
    if j <= k {
      Exp2Mono(j, k);
    } else {
      Exp2Mono(k, j - 1);
      Exp2Next(j - 1);
    }
  }

  /** It is the least of all exactly when the group is not zero and the lower limit `EPS` does
      not change the exponent. */
  lemma {:induction false} LeastPowerIff(group: seq<real>, fp8Max: real)
    requires fp8Max > 0.0
    ensures IsLeastPower(group, fp8Max) <==>
            AbsMax(group) > 0.0 && NeedsExponent(group, fp8Max) == CeilLog2(RawScale(group, fp8Max))
  {
    var e := CeilLog2(RawScale(group, fp8Max));
    if AbsMax(group) > 0.0 {
      var c := NeedsExponent(group, fp8Max);
      forall j ensures ClampIsNoOp(group, Exp2(j), fp8Max) <==> c <= j {
        NoOpIff(group, Exp2(j), fp8Max);
        QuotientPositive(AbsMax(group), fp8Max);
        CeilLog2Least(AbsMax(group) / fp8Max, j);
      }
      forall j ensures GroupScale(group, true, fp8Max) <= Exp2(j) <==> e <= j {
        Exp2Order(e, j);
      }
      assert c == e || (c <= c && !(e <= c)) || (e <= e && !(c <= e));
      if c != e {
        var j := if c < e then c else e;
        assert (c <= j) != (e <= j);
        assert (ClampIsNoOp(group, Exp2(j), fp8Max) <==> c <= j) && (GroupScale(group, true, fp8Max) <= Exp2(j) <==> e <= j);
      }
    } else {
      NoOpIff(group, Exp2(e - 1), fp8Max);
      Exp2Order(e, e - 1);
      assert AbsMax(group) / fp8Max == 0.0;
    }
  }

  lemma {:induction false} QuotientPositive(x: real, s: real)
    requires x > 0.0 && s > 0.0
    ensures x / s > 0.0
  {
    DivMono(x, 0.0, s);
  }

  /** The exponent of the least power of two that the group itself needs. */
  function NeedsExponent(group: seq<real>, fp8Max: real): int
    requires fp8Max > 0.0
  {
    var need := AbsMax(group) / fp8Max;
    if need > 0.0 then CeilLog2(need) else 0
  }

  /** A group that reaches `EPS` meets the condition. */
  lemma {:induction false} LargeGroupsGetLeastPower(group: seq<real>, fp8Max: real)
    requires fp8Max > 0.0 && AbsMax(group) >= EPS
    ensures IsLeastPower(group, fp8Max)
  {
    QuotientPositive(AbsMax(group), fp8Max);
    LeastPowerIff(group, fp8Max);
  }

  /** In numbers: a group of zeros, or an empty one, gets the scale 1e-10 / fp8Max. */
  lemma {:induction false} ScaleOfZeros(group: seq<real>, fp8Max: real)
    requires fp8Max > 0.0 && forall i :: 0 <= i < |group| ==> group[i] == 0.0
    ensures GroupScale(group, false, fp8Max) * fp8Max * 10000000000.0 == 1.0
  {
    AbsMaxLeast(group, 0.0);
    QuotientTimes(EPS, fp8Max);
  }

  /** A group of zeros does not: every scale would do. */
  lemma {:induction false} ZeroGroupHasNoLeastPower()
    ensures !IsLeastPower([0.0], 448.0)
  {
    assert AbsMax([0.0]) == 0.0;
    LeastPowerIff([0.0], 448.0);
  }

  /** The ordinary scale is the least of all scales that make the clamp a no-op. */
  ghost predicate IsLeastScale(group: seq<real>, fp8Max: real)
    requires fp8Max > 0.0
  {
    forall s :: s > 0.0 ==> (ClampIsNoOp(group, s, fp8Max) <==> GroupScale(group, false, fp8Max) <= s)
  }

  /** It is the least of all exactly when the group reaches `EPS`. */
  lemma {:induction false} LeastScaleIff(group: seq<real>, fp8Max: real)
    requires fp8Max > 0.0
    ensures IsLeastScale(group, fp8Max) <==> AbsMax(group) >= EPS
  {
    RawScaleCases(group, fp8Max);
    DivMono(EPS, AbsMax(group), fp8Max);
    var need, limit := AbsMax(group) / fp8Max, RawScale(group, fp8Max);
    if AbsMax(group) >= EPS {
      forall s | s > 0.0 ensures ClampIsNoOp(group, s, fp8Max) <==> limit <= s {
        NoOpIff(group, s, fp8Max);
      }
    } else {
      DivMono(0.0, AbsMax(group), fp8Max);
      var s := (need + limit) / 2.0;
      NoOpIff(group, s, fp8Max);
      assert ClampIsNoOp(group, s, fp8Max) && !(GroupScale(group, false, fp8Max) <= s);
    }
  }

  // ---------------------------------------------------------------- all groups of a row

  /** Group `g` of a row. */
  function Group(x: seq<real>, g: nat, groupSize: nat): seq<real>
    requires (g + 1) * groupSize <= |x|
  {
    GroupStart(g, groupSize);
    x[g * groupSize..(g + 1) * groupSize]
  }

  lemma {:induction false} GroupStart(g: nat, groupSize: nat)
    ensures 0 <= g * groupSize && (g + 1) * groupSize == g * groupSize + groupSize
  {
  }

  /** Every element is in one group. */
  lemma {:induction false} GroupOf(i: nat, n: nat, groupSize: nat)
    requires groupSize > 0 && i < n * groupSize
    ensures i / groupSize < n && i / groupSize * groupSize <= i < (i / groupSize + 1) * groupSize
  {
    var g := i / groupSize;
    assert i == g * groupSize + i % groupSize;
    GroupStart(g, groupSize);
    if g >= n {
      MulMono(n, g, groupSize);
    }
  }

  /** Conversion to the 8-bit format: a relative error of at most `u`, an absolute error of at
      most `eta` for small numbers, and never out of range. */
  datatype Format = Format(cast: real -> real, u: real, eta: real, fp8Max: real) {
    ghost predicate Valid() {
      u >= 0.0 && eta >= 0.0 && fp8Max > 0.0 && forall y {:trigger CastOk(y)} :: Abs(y) <= fp8Max ==> CastOk(y)
    }

    predicate CastOk(y: real) { Abs(cast(y) - y) <= u * Abs(y) + eta && Abs(cast(y)) <= fp8Max }
  }

  /** The stored value of an element, times its scale, is the element up to the error of the
      format, and it is in the range of the format. */
  predicate Close(x: real, xq: real, scale: real, f: Format) {
    scale > 0.0 && Abs(xq * scale - x) <= f.u * Abs(x) + f.eta * scale && Abs(xq) <= f.fp8Max
  }

  lemma {:induction false} GroupScaleSuffices(group: seq<real>, useUe8m0: bool, fp8Max: real)
    requires fp8Max > 0.0
    ensures ClampIsNoOp(group, GroupScale(group, useUe8m0, fp8Max), fp8Max)
  {
    RawScaleCases(group, fp8Max);
    CeilLog2Bounds(RawScale(group, fp8Max));
    NoOpIff(group, GroupScale(group, useUe8m0, fp8Max), fp8Max);
  }

  /** What is stored for an element of a group. */
  function Store(x: real, scale: real, f: Format): real
    requires scale > 0.0
  {
    f.cast(ClampReal(x / scale, f.fp8Max))
  }

  lemma {:induction false} StoredIsClose(x: real, scale: real, f: Format)
    requires f.Valid() && scale > 0.0 && ClampReal(x / scale, f.fp8Max) == x / scale
    ensures Close(x, Store(x, scale, f), scale, f)
  {
    QuotientTimes(x, scale);
    InRange(x / scale, f);
    CastIsClose(x, x / scale, Store(x, scale, f), scale, f);
  }

  lemma {:induction false} CastIsClose(x: real, y: real, c: real, scale: real, f: Format)
    requires scale > 0.0 && y * scale == x && Abs(c - y) <= f.u * Abs(y) + f.eta && Abs(c) <= f.fp8Max
    ensures Close(x, c, scale, f)
  {
    ErrorAt(c, y, x, scale, f.u, f.eta);
  }

  lemma {:induction false} InRange(y: real, f: Format)
    requires f.Valid() && ClampReal(y, f.fp8Max) == y
    ensures Abs(f.cast(y) - y) <= f.u * Abs(y) + f.eta && Abs(f.cast(y)) <= f.fp8Max
  {
    assert f.CastOk(y);
  }

  lemma {:induction false} ErrorAt(c: real, y: real, x: real, s: real, u: real, eta: real)
    requires s > 0.0 && y * s == x && Abs(c - y) <= u * Abs(y) + eta
    ensures Abs(c * s - x) <= u * Abs(x) + eta * s
  {
    ErrorTimesScale(c, y, s, u, eta);
  }

  lemma {:induction false} ErrorTimesScale(c: real, y: real, s: real, u: real, eta: real)
    requires s > 0.0 && Abs(c - y) <= u * Abs(y) + eta
    ensures Abs(c * s - y * s) <= u * Abs(y * s) + eta * s
  {
    Distributes(c, y, s);
    AbsTimes(c - y, s);
    AbsTimes(y, s);
    MulLe(Abs(c - y), u * Abs(y) + eta, s);
    assert (u * Abs(y) + eta) * s == u * (Abs(y) * s) + eta * s;
  }

  lemma {:induction false} AbsTimes(y: real, s: real)
    requires s > 0.0
    ensures Abs(y * s) == Abs(y) * s
  {
    MulLe(0.0, Abs(y), s);
    if y < 0.0 {
      assert -y * s == -(y * s);
    }
  }

  /** Group `g` of the output, with its scale. */
  ghost predicate GroupDone(x: seq<real>, xq: seq<real>, g: nat, groupSize: nat, scale: real, useUe8m0: bool, f: Format)
    requires |xq| == |x| && f.fp8Max > 0.0
  {
    && (g + 1) * groupSize <= |x|
    && scale == GroupScale(Group(x, g, groupSize), useUe8m0, f.fp8Max)
    && forall i :: g * groupSize <= i < (g + 1) * groupSize && i < |x| ==> 0 <= i && xq[i] == Store(x[i], scale, f)
  }

  /** One group: writes its part of the output. */
  method QuantizeGroup(x: seq<real>, g: nat, groupSize: nat, useUe8m0: bool, f: Format, xq: array<real>)
    returns (scale: real)
    requires f.fp8Max > 0.0 && xq.Length == |x| && (g + 1) * groupSize <= |x|
    modifies xq
    ensures GroupDone(x, xq[..], g, groupSize, scale, useUe8m0, f)
    ensures forall i :: 0 <= i < |x| && !(g * groupSize <= i < (g + 1) * groupSize) ==> xq[i] == old(xq[i])
  {
    GroupStart(g, groupSize);
    var low, high := g * groupSize, (g + 1) * groupSize;
    scale := GroupScale(Group(x, g, groupSize), useUe8m0, f.fp8Max);
    for i := low to high
      invariant forall k :: low <= k < i ==> xq[k] == Store(x[k], scale, f)
      invariant forall k :: 0 <= k < |x| && !(low <= k < i) ==> xq[k] == old(xq[k])
    {
      xq[i] := Store(x[i], scale, f);
    }
  }

  lemma {:induction false} GroupKept(x: seq<real>, before: seq<real>, after: seq<real>, h: nat, g: nat, groupSize: nat,
                                     scale: real, useUe8m0: bool, f: Format)
    requires |before| == |after| == |x| && h < g && f.fp8Max > 0.0
    requires GroupDone(x, before, h, groupSize, scale, useUe8m0, f)
    requires forall i :: 0 <= i < |x| && !(g * groupSize <= i < (g + 1) * groupSize) ==> after[i] == before[i]
    ensures GroupDone(x, after, h, groupSize, scale, useUe8m0, f)
  {
    MulMono(h + 1, g, groupSize);
    GroupStart(h, groupSize);
  }

  /** All groups, one after the other. */
  method QuantizeGroups(x: seq<real>, n: nat, groupSize: nat, useUe8m0: bool, f: Format, xq: array<real>)
    returns (scales: seq<real>)
    requires f.fp8Max > 0.0 && xq.Length == |x| == n * groupSize
    modifies xq
    ensures |scales| == n
    ensures forall g :: 0 <= g < n ==> GroupDone(x, xq[..], g, groupSize, scales[g], useUe8m0, f)
  {
    scales := [];
    for g := 0 to n
      invariant |scales| == g
      invariant forall h :: 0 <= h < g ==> GroupDone(x, xq[..], h, groupSize, scales[h], useUe8m0, f)
    {
      MulMono(g + 1, n, groupSize);
      ghost var before := xq[..];
      var scale := QuantizeGroup(x, g, groupSize, useUe8m0, f, xq);
      forall h | 0 <= h < g ensures GroupDone(x, xq[..], h, groupSize, scales[h], useUe8m0, f) {
        GroupKept(x, before, xq[..], h, g, groupSize, scales[h], useUe8m0, f);
      }
      scales := scales + [scale];
    }
  }

  /** Every element of the row is stored close to its value, with the scale of its group. */
  ghost predicate AllClose(x: seq<real>, xq: seq<real>, scales: seq<real>, groupSize: nat, f: Format)
    requires groupSize > 0 && |xq| == |x|
  {
    forall i :: 0 <= i < |x| ==> i / groupSize < |scales| && Close(x[i], xq[i], scales[i / groupSize], f)
  }

  /** `group_quant_torch` on one row with an output buffer: every group gets its scale, and the
      stored values times the scale are the input up to the error of the format. */
  method GroupQuant(x: seq<real>, groupSize: nat, useUe8m0: bool, f: Format, xq: array<real>)
    returns (r: Result<seq<real>>)
    requires groupSize > 0 && f.Valid()
    modifies xq
    ensures r.Success? <==> |x| % groupSize == 0 && xq.Length == |x|
    ensures r.Failure? ==> r.error == AssertionError && xq[..] == old(xq[..])
    ensures r.Success? ==> |r.value| * groupSize == |x| && AllClose(x, xq[..], r.value, groupSize, f)
    ensures r.Success? ==> forall g :: 0 <= g < |r.value| ==>
              GroupDone(x, xq[..], g, groupSize, r.value[g], useUe8m0, f)
  {
    if |x| % groupSize != 0 || xq.Length != |x| {
      return Failure(AssertionError);
    }
    var n := |x| / groupSize;
    assert |x| == n * groupSize;
    var scales := QuantizeGroups(x, n, groupSize, useUe8m0, f, xq);
    DoneIsClose(x, xq[..], groupSize, scales, useUe8m0, f);
    return Success(scales);
  }

  lemma {:induction false} DoneIsClose(x: seq<real>, xq: seq<real>, groupSize: nat, scales: seq<real>, useUe8m0: bool, f: Format)
    requires groupSize > 0 && f.Valid() && |xq| == |x| == |scales| * groupSize
    requires forall g :: 0 <= g < |scales| ==> GroupDone(x, xq, g, groupSize, scales[g], useUe8m0, f)
    ensures AllClose(x, xq, scales, groupSize, f)
  {
    forall i | 0 <= i < |x| ensures i / groupSize < |scales| && Close(x[i], xq[i], scales[i / groupSize], f) {
      GroupOf(i, |scales|, groupSize);
      var g := i / groupSize;
      assert GroupDone(x, xq, g, groupSize, scales[g], useUe8m0, f);
      ElementIsClose(x, xq, g, groupSize, scales[g], useUe8m0, f, i);
    }
  }

  lemma {:induction false} ElementIsClose(x: seq<real>, xq: seq<real>, g: nat, groupSize: nat, scale: real, useUe8m0: bool,
                                          f: Format, i: nat)
    requires f.Valid() && |xq| == |x| && GroupDone(x, xq, g, groupSize, scale, useUe8m0, f)
    requires g * groupSize <= i < (g + 1) * groupSize
    ensures Close(x[i], xq[i], scale, f)
  {
    GroupStart(g, groupSize);
    var group := Group(x, g, groupSize);
    GroupScaleSuffices(group, useUe8m0, f.fp8Max);
    assert group[i - g * groupSize] == x[i];
    StoredIsClose(x[i], scale, f);
  }
}

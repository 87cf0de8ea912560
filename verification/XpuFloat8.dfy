/** The 8-bit floating point format with four exponent and three mantissa bits
    (`torch.float8_e4m3fn`), and what group quantization into it costs. */
module XpuFloat8 {
  import opened XpuQuant
  import opened XpuGroupQuant

  const E4M3_MAX := 448.0

  /** Exponent of the distance between neighbouring numbers of the format around `y`; numbers
      below 2^-6 all have the distance 2^-9. */
  function StepExponent(y: real): int
    requires y != 0.0
  {
    var e := CeilLog2(Abs(y)) - 4;
    if e < -9 then -9 else e
  }

  /** Rounding to the nearest number of the format, ties to even. */
  function ToE4M3(y: real): real {
    if y == 0.0 then 0.0 else RoundTo(y, Exp2(StepExponent(y)))
  }

  /** The nearest multiple of `step`. */
  function RoundTo(y: real, step: real): real
    requires step > 0.0
  {
    Round(y / step) as real * step
  }

  function E4M3(): Format { Format(ToE4M3, 0.0625, 0.0009765625, E4M3_MAX) }

  lemma {:induction false} Exp2Minus4(k: int)
    ensures Exp2(k) == 16.0 * Exp2(k - 4)
  {
    Exp2Next(k - 1);
    Exp2Next(k - 2);
    Exp2Next(k - 3);
    Exp2Next(k - 4);
  }

  /** Half a step is below a sixteenth of a number above 2^-6, and 2^-10 for the others. */
  lemma {:induction false} StepIsSmall(y: real)
    requires y != 0.0
    ensures if Abs(y) > 0.015625 then Exp2(StepExponent(y)) / 2.0 < 0.0625 * Abs(y)
            else Exp2(StepExponent(y)) / 2.0 == 0.0009765625
  {
    var c := CeilLog2(Abs(y));
    CeilLog2Bounds(Abs(y));
    CeilLog2Least(Abs(y), -6);
    SmallestStep();
    if c > -6 {
      Exp2Minus4(c);
      Exp2Next(c - 1);
    }
  }

  lemma {:induction false} SmallestStep()
    ensures Exp2(-6) == 0.015625 && Exp2(-9) == 0.001953125
  {
    assert Exp2(-3) == 0.125;
    assert Exp2(-6) == 0.015625;
  }

  lemma {:induction false} RoundingError(y: real, step: real)
    requires step > 0.0
    ensures Abs(RoundTo(y, step) - y) <= step / 2.0
  {
    ErrorScales(Round(y / step), 0, y, step);
  }

  /** The largest number of the format is a whole number of steps. */
  function StepsToMax(n: nat): (m: nat) {
    14 * Pow2(n)
  }

  lemma {:induction false} MaxInSteps(n: nat, e: int)
    requires e == 5 - n
    ensures StepsToMax(n) as real * Exp2(e) == E4M3_MAX
    decreases n
  {
    if n == 0 {
      LargestIsFourteen(e);
    } else {
      MaxInSteps(n - 1, e + 1);
      Exp2Next(e);
      TwiceHalf(StepsToMax(n), StepsToMax(n - 1), Exp2(e), Exp2(e + 1));
    }
  }

  lemma {:induction false} LargestIsFourteen(e: int)
    requires e == 5
    ensures StepsToMax(0) as real * Exp2(e) == E4M3_MAX
  {
    assert Exp2(3) == 8.0 && Exp2(5) == 32.0;
  }

  lemma {:induction false} TwiceHalf(m: int, half: int, s: real, twice: real)
    requires m == 2 * half && twice == 2.0 * s
    ensures m as real * s == half as real * twice
  {
  }

  lemma {:induction false} LargestStep(y: real)
    requires y != 0.0 && Abs(y) <= E4M3_MAX
    ensures -9 <= StepExponent(y) <= 5
  {
    assert Exp2(9) == 512.0 by {
      assert Exp2(3) == 8.0 && Exp2(6) == 64.0;
    }
    CeilLog2Least(Abs(y), 9);
  }

  lemma {:induction false} StaysInRange(y: real)
    requires y != 0.0 && Abs(y) <= E4M3_MAX
    ensures Abs(ToE4M3(y)) <= E4M3_MAX
  {
    LargestStep(y);
    RangeAt(y, StepExponent(y));
  }

  lemma {:induction false} RangeAt(y: real, e: int)
    requires -9 <= e <= 5 && Abs(y) <= E4M3_MAX
    ensures Abs(RoundTo(y, Exp2(e))) <= E4M3_MAX
  {
    MaxInSteps(5 - e, e);
    RoundedWithin(y, StepsToMax(5 - e), Exp2(e), E4M3_MAX);
  }

  lemma {:induction false} RoundedWithin(y: real, m: int, s: real, top: real)
    requires s > 0.0 && m as real * s == top && Abs(y) <= top
    ensures Abs(RoundTo(y, s)) <= top
  {
    SymmetricRange(y, m as real, s);
    RoundedAt(y, y / s, m, s, top);
  }

  lemma {:induction false} RoundedAt(y: real, d: real, m: int, s: real, top: real)
    requires s > 0.0 && d == y / s && m as real * s == top && -m as real <= d <= m as real
    ensures Abs(RoundTo(y, s)) <= top
  {
    RoundedFrom(d, m, s, top);
  }

  lemma {:induction false} RoundedFrom(d: real, m: int, s: real, top: real)
    requires s > 0.0 && m as real * s == top && -m as real <= d <= m as real
    ensures Abs(Round(d) as real * s) <= top
  {
    RoundWithin(d, m);
    TimesWithin(Round(d) as real, m as real, s, top);
  }

  lemma {:induction false} RoundWithin(d: real, m: int)
    requires -m as real <= d <= m as real
    ensures -m <= Round(d) <= m
  {
  }

  lemma {:induction false} TimesWithin(r: real, m: real, s: real, top: real)
    requires s > 0.0 && m * s == top && -m <= r <= m
    ensures Abs(r * s) <= top
  {
    MulLe(r, m, s);
    MulLe(-r, m, s);
    assert -r * s == -(r * s);
  }

  /** The error is below a sixteenth of a number above 2^-6, and at most 2^-10 for the others. */
  lemma {:induction false} CastError(y: real)
    requires Abs(y) <= E4M3_MAX
    ensures Abs(ToE4M3(y)) <= E4M3_MAX
    ensures if Abs(y) > 0.015625 then Abs(ToE4M3(y) - y) < 0.0625 * Abs(y) else Abs(ToE4M3(y) - y) <= 0.0009765625
  {
    if y != 0.0 {
      StepIsSmall(y);
      RoundingError(y, Exp2(StepExponent(y)));
      StaysInRange(y);
    }
  }

  /** The larger of the two errors is at most their sum, which is the form the format needs. */
  lemma {:induction false} E4M3IsValid()
    ensures E4M3().Valid()
  {
    var f := E4M3();
    forall y | Abs(y) <= f.fp8Max ensures f.CastOk(y) {
      assert f.cast(y) == ToE4M3(y);
      CastError(y);
    }
  }

  /** So every element is recovered up to a sixteenth of itself and 2^-10 of its scale. */
  lemma {:induction false} GroupQuantToE4M3(x: seq<real>, xq: seq<real>, groupSize: nat, scales: seq<real>, useUe8m0: bool, i: nat)
    requires groupSize > 0 && |xq| == |x| == |scales| * groupSize && i < |x|
    requires forall g :: 0 <= g < |scales| ==> GroupDone(x, xq, g, groupSize, scales[g], useUe8m0, E4M3())
    ensures i / groupSize < |scales|
    ensures Abs(xq[i] * scales[i / groupSize] - x[i]) <= 0.0625 * Abs(x[i]) + 0.0009765625 * scales[i / groupSize]
  {
    E4M3IsValid();
    DoneIsClose(x, xq, groupSize, scales, useUe8m0, E4M3());
    assert Close(x[i], xq[i], scales[i / groupSize], E4M3());
  }
}

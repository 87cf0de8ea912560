/** The reference quantizers (vllm/_xpu_ops.py), over the real numbers. */
module XpuQuant {
  import opened Arithmetic

  // ---------------------------------------------------------------- arithmetic

  function Abs(x: real): real { if x < 0.0 then -x else x }

  function Max(x: real, y: real): real { if x < y then y else x }

  /** Rounding to the nearest integer, ties to even, as `torch.round` does. */
  function Round(x: real): (r: int)
    ensures Abs(r as real - x) <= 0.5
  {
    var f := x.Floor;
    var rest := x - f as real;
    if rest < 0.5 || (rest == 0.5 && f % 2 == 0) then f else f + 1
  }

  /** A number half way between two integers goes to the even one. */
  lemma {:induction false} TiesGoToEven(n: int)
    ensures Round(n as real + 0.5) % 2 == 0
  {
    assert (n as real + 0.5).Floor == n;
  }

  function Pow2(n: nat): (r: int)
    ensures r > 0
  {
    if n == 0 then 1 else 2 * Pow2(n - 1)
  }

  lemma {:induction false} Pow2Mono(m: nat, n: nat)
    requires m <= n
    ensures Pow2(m) <= Pow2(n)
    decreases n
  {
    if m < n {
      Pow2Mono(m, n - 1);
    }
  }

  function ToInt8(x: int): int { (x + 128) % 256 - 128 }

  function ToUint8(x: int): int { x % 256 }

  function Minimum(row: seq<real>): real
    requires row != []
  {
    if |row| == 1 || row[0] < Minimum(row[1..]) then row[0] else Minimum(row[1..])
  }

  function Maximum(row: seq<real>): real
    requires row != []
  {
    if |row| == 1 || row[0] > Maximum(row[1..]) then row[0] else Maximum(row[1..])
  }

  lemma {:induction false} Between(row: seq<real>, i: nat)
    requires i < |row|
    ensures Minimum(row) <= row[i] <= Maximum(row)
  {
    if |row| > 1 {
      Between(row[1..], if i == 0 then 0 else i - 1);
    }
  }

  lemma {:induction false} MulLe(a: real, b: real, s: real)
    requires a <= b && s >= 0.0
    ensures a * s <= b * s
  {
    assert b * s - a * s == (b - a) * s;
  }

  lemma {:induction false} DivLe(a: real, b: real, s: real)
    requires s > 0.0
    ensures a / s <= b <==> a <= b * s
  {
    var d := a / s;
    assert d * s == a;
    CancelLe(d, b, s);
  }

  lemma {:induction false} CancelLe(a: real, b: real, s: real)
    requires s > 0.0
    ensures a <= b <==> a * s <= b * s
  {
    if a <= b {
      MulLe(a, b, s);
    } else {
      MulLt(b, a, s);
    }
  }

  lemma {:induction false} MulLt(a: real, b: real, s: real)
    requires a < b && s > 0.0
    ensures a * s < b * s
  {
    assert b * s - a * s == (b - a) * s;
  }

  // ---------------------------------------------------------------- the integer quantizer

  datatype Quantized = Quantized(values: seq<int>, scale: real, zeroPoint: int)

  const MIN_SCALE := 0.00001

  function QMin(symmetric: bool, bits: nat): int
    requires bits >= 1
  {
    if symmetric then -Pow2(bits - 1) else 0
  }

  function QMax(symmetric: bool, bits: nat): int
    requires bits >= 1
  {
    if symmetric then Pow2(bits - 1) - 1 else Pow2(bits) - 1
  }

  /** With one bit the symmetric range has no positive value to scale by. */
  predicate EnoughBits(symmetric: bool, bits: nat) { bits >= if symmetric then 2 else 1 }

  lemma {:induction false} QMaxPositive(symmetric: bool, bits: nat)
    requires EnoughBits(symmetric, bits)
    ensures QMax(symmetric, bits) >= 1
  {
    Pow2Mono(1, if symmetric then bits - 1 else bits);
  }

  /** Largest magnitude (symmetric) or spread (asymmetric) of a row from `low` to `high`. */
  function Extent(low: real, high: real, symmetric: bool): real {
    if symmetric then Max(Abs(low), Abs(high)) else high - low
  }

  function Scale(low: real, high: real, symmetric: bool, bits: nat): (s: real)
    requires EnoughBits(symmetric, bits)
    ensures s > 0.0
  {
    QMaxPositive(symmetric, bits);
    Max(Extent(low, high, symmetric) / QMax(symmetric, bits) as real, MIN_SCALE)
  }

  /** The zero point before its conversion to 32 bits. */
  function ExactZeroPoint(low: real, scale: real, symmetric: bool): int
    requires scale > 0.0
  {
    if symmetric then 0 else -Round(low / scale)
  }

  /** The zero point as stored; `overflow` is what the conversion gives out of range. */
  function ZeroPoint(low: real, scale: real, symmetric: bool, overflow: int): int
    requires scale > 0.0
  {
    var exact := ExactZeroPoint(low, scale, symmetric);
    if FitsInt32(exact) then exact else overflow
  }

  /** The number and its negation fit in 32 bits: the quotient is converted before its sign changes. */
  predicate FitsInt32(x: int) { -2147483648 < x < 2147483648 }

  /** An element before the cast to eight bits. */
  function Level(x: real, scale: real, zeroPoint: int, symmetric: bool, bits: nat): int
    requires scale > 0.0 && EnoughBits(symmetric, bits)
  {
    Clamp(Round(x / scale + zeroPoint as real), QMin(symmetric, bits), QMax(symmetric, bits))
  }

  function Stored(level: int, symmetric: bool): int {
    if symmetric then ToInt8(level) else ToUint8(level)
  }

  /** The row with a given scale and zero point. */
  function QuantizeWith(row: seq<real>, scale: real, zeroPoint: int, symmetric: bool, bits: nat): (q: Quantized)
    requires scale > 0.0 && EnoughBits(symmetric, bits)
    ensures |q.values| == |row|
  {
    Quantized(seq(|row|, i requires 0 <= i < |row| => Stored(Level(row[i], scale, zeroPoint, symmetric, bits), symmetric)),
              scale, zeroPoint)
  }

  /** `dynamic_per_token_int8_quant_ref` on one row. */
  function QuantizeRow(row: seq<real>, symmetric: bool, bits: nat, overflow: int): (q: Quantized)
    requires row != [] && EnoughBits(symmetric, bits)
    ensures |q.values| == |row|
  {
    var scale := Scale(Minimum(row), Maximum(row), symmetric, bits);
    QuantizeWith(row, scale, ZeroPoint(Minimum(row), scale, symmetric, overflow), symmetric, bits)
  }

  /** The int32 conversion of the zero point is exact. */
  predicate ZeroPointFits(low: real, high: real, symmetric: bool, bits: nat)
    requires EnoughBits(symmetric, bits)
  {
    FitsInt32(ExactZeroPoint(low, Scale(low, high, symmetric, bits), symmetric))
  }

  // ---------------------------------------------------------------- its error

  /** The scale spreads the row over no more than the available levels. */
  predicate Covers(low: real, high: real, scale: real, symmetric: bool, top: int) {
    scale > 0.0 && Extent(low, high, symmetric) <= top as real * scale
  }

  lemma {:induction false} ScaleCovers(low: real, high: real, symmetric: bool, bits: nat)
    requires EnoughBits(symmetric, bits)
    ensures Covers(low, high, Scale(low, high, symmetric, bits), symmetric, QMax(symmetric, bits))
  {
    QMaxPositive(symmetric, bits);
    var e, m, s := Extent(low, high, symmetric), QMax(symmetric, bits) as real, Scale(low, high, symmetric, bits);
    assert e / m <= s;
    DivLe(e, s, m);
    assert s * m == m * s;
  }

  /** Before rounding, a level leaves the range by at most one half, and not at all in
      symmetric mode. */
  lemma {:induction false} RawLevelInRange(x: real, low: real, high: real, s: real, symmetric: bool, top: int)
    requires low <= x <= high && Covers(low, high, s, symmetric, top)
    ensures var y := x / s + ExactZeroPoint(low, s, symmetric) as real;
            if symmetric then -top as real <= y <= top as real else -0.5 <= y <= top as real + 0.5
  {
    if symmetric {
      SymmetricRange(x, top as real, s);
    } else {
      AsymmetricRange(x, low, high, top as real, s);
    }
  }

  lemma {:induction false} SymmetricRange(x: real, top: real, s: real)
    requires s > 0.0 && Abs(x) <= top * s
    ensures -top <= x / s <= top
  {
    var d := x / s;
    assert d * s == x;
    CancelLe(d, top, s);
    CancelLe(-top, d, s);
    assert -top * s == -(top * s);
  }

  lemma {:induction false} AsymmetricRange(x: real, low: real, high: real, top: real, s: real)
    requires s > 0.0 && low <= x <= high && high - low <= top * s
    ensures -0.5 <= x / s - Round(low / s) as real <= top + 0.5
  {
    var a, b := x / s, low / s;
    assert a * s == x && b * s == low;
    SpreadRange(a, b, top, s);
  }

  lemma {:induction false} SpreadRange(a: real, b: real, top: real, s: real)
    requires s > 0.0 && 0.0 <= a * s - b * s <= top * s
    ensures -0.5 <= a - Round(b) as real <= top + 0.5
  {
    CancelLe(b, a, s);
    CancelLe(a - b, top, s);
    assert (a - b) * s == a * s - b * s;
  }

  /** Rounding and clamping stay within one half of the unrounded level. */
  lemma {:induction false} LevelIsNear(x: real, low: real, high: real, s: real, symmetric: bool, bits: nat)
    requires EnoughBits(symmetric, bits) && low <= x <= high && Covers(low, high, s, symmetric, QMax(symmetric, bits))
    ensures var zero := ExactZeroPoint(low, s, symmetric);
            Abs(Level(x, s, zero, symmetric, bits) as real - (x / s + zero as real)) <= 0.5
  {
    RawLevelInRange(x, low, high, s, symmetric, QMax(symmetric, bits));
    QMaxPositive(symmetric, bits);
    ClampIsNear(x / s + ExactZeroPoint(low, s, symmetric) as real, QMin(symmetric, bits), QMax(symmetric, bits));
  }

  lemma {:induction false} ClampIsNear(y: real, low: int, high: int)
    requires low <= high && low as real - 0.5 <= y <= high as real + 0.5
    ensures Abs(Clamp(Round(y), low, high) as real - y) <= 0.5
  {
  }

  lemma {:induction false} Pow2Eight()
    ensures Pow2(7) == 128 && Pow2(8) == 256 && Pow2(9) == 512
  {
    assert Pow2(4) == 16;
  }

  lemma {:induction false} StoredExactly(level: int, symmetric: bool, bits: nat)
    requires EnoughBits(symmetric, bits) && bits <= 8
    requires QMin(symmetric, bits) <= level <= QMax(symmetric, bits)
    ensures Stored(level, symmetric) == level
  {
    Pow2Mono(if symmetric then bits - 1 else bits, if symmetric then 7 else 8);
    Pow2Eight();
  }

  /** Dequantizing `value` gives `x` up to half a scale. */
  predicate Near(value: int, zeroPoint: int, x: real, scale: real) {
    Abs((value - zeroPoint) as real * scale - x) <= scale / 2.0
  }

  ghost predicate WithinHalfScale(row: seq<real>, q: Quantized)
    requires |q.values| == |row|
  {
    forall i :: 0 <= i < |row| ==> Near(q.values[i], q.zeroPoint, row[i], q.scale)
  }

  /** One element, for any scale that covers the row. */
  lemma {:induction false} ElementError(x: real, low: real, high: real, s: real, symmetric: bool, bits: nat)
    requires EnoughBits(symmetric, bits) && bits <= 8
    requires low <= x <= high && Covers(low, high, s, symmetric, QMax(symmetric, bits))
    ensures var zero := ExactZeroPoint(low, s, symmetric);
            Near(Stored(Level(x, s, zero, symmetric, bits), symmetric), zero, x, s)
  {
    var zero := ExactZeroPoint(low, s, symmetric);
    var level := Level(x, s, zero, symmetric, bits);
    assert Stored(level, symmetric) == level by {
      QMaxPositive(symmetric, bits);
      StoredExactly(level, symmetric, bits);
    }
    assert Abs(level as real - (x / s + zero as real)) <= 0.5 by {
      LevelIsNear(x, low, high, s, symmetric, bits);
    }
    ErrorScales(level, zero, x, s);
  }

  lemma {:induction false} ErrorScales(level: int, zero: int, x: real, s: real)
    requires s > 0.0 && Abs(level as real - (x / s + zero as real)) <= 0.5
    ensures Near(level, zero, x, s)
  {
    var r := x / s;
    var d := (level - zero) as real - r;
    assert r * s == x;
    assert -0.5 <= d <= 0.5;
    HalfScale(d, r, s);
    assert (level - zero) as real * s - x == (d + r) * s - r * s;
  }

  lemma {:induction false} HalfScale(d: real, r: real, s: real)
    requires s > 0.0 && -0.5 <= d <= 0.5
    ensures -s / 2.0 <= (d + r) * s - r * s <= s / 2.0
  {
    assert (d + r) * s == d * s + r * s;
    MulLe(d, 0.5, s);
    MulLe(-0.5, d, s);
  }

  /** Dequantizing is within half a scale of the input, in both modes, in spite of the rounded
      zero point and the final clamp. */
  lemma {:induction false} QuantizationError(row: seq<real>, symmetric: bool, bits: nat, overflow: int)
    requires row != [] && EnoughBits(symmetric, bits) && bits <= 8
    requires ZeroPointFits(Minimum(row), Maximum(row), symmetric, bits)
    ensures WithinHalfScale(row, QuantizeRow(row, symmetric, bits, overflow))
  {
    var low, high := Minimum(row), Maximum(row);
    var scale := Scale(low, high, symmetric, bits);
    ScaleCovers(low, high, symmetric, bits);
    ErrorWith(row, low, high, scale, symmetric, bits);
  }

  lemma {:induction false} ErrorWith(row: seq<real>, low: real, high: real, s: real, symmetric: bool, bits: nat)
    requires row != [] && EnoughBits(symmetric, bits) && bits <= 8
    requires low == Minimum(row) && high == Maximum(row) && Covers(low, high, s, symmetric, QMax(symmetric, bits))
    ensures WithinHalfScale(row, QuantizeWith(row, s, ExactZeroPoint(low, s, symmetric), symmetric, bits))
  {
    var zero := ExactZeroPoint(low, s, symmetric);
    forall i | 0 <= i < |row|
      ensures Near(Stored(Level(row[i], s, zero, symmetric, bits), symmetric), zero, row[i], s)
    {
      Between(row, i);
      ElementError(row[i], low, high, s, symmetric, bits);
    }
  }

  // ---------------------------------------------------------------- the error in numbers

  /** `width` is the largest difference, or the largest magnitude, in the row. */
  ghost predicate IsSpread(row: seq<real>, width: real) {
    && (forall i, j :: 0 <= i < |row| && 0 <= j < |row| ==> row[i] - row[j] <= width)
    && exists i, j :: 0 <= i < |row| && 0 <= j < |row| && row[i] - row[j] == width
  }

  ghost predicate IsLargest(row: seq<real>, width: real) {
    && (forall i :: 0 <= i < |row| ==> -width <= row[i] <= width)
    && exists i :: 0 <= i < |row| && (row[i] == width || row[i] == -width)
  }

  lemma {:induction false} ExtentIs(row: seq<real>, symmetric: bool)
    requires row != []
    ensures var e := Extent(Minimum(row), Maximum(row), symmetric);
            if symmetric then IsLargest(row, e) else IsSpread(row, e)
  {
    var i := MinimumIsIn(row);
    var j := MaximumIsIn(row);
    forall k | 0 <= k < |row| ensures Minimum(row) <= row[k] <= Maximum(row) {
      Between(row, k);
    }
    var width := Extent(Minimum(row), Maximum(row), symmetric);
    assert row[j] - row[i] == Maximum(row) - Minimum(row);
    assert symmetric ==> row[i] in [width, -width] || row[j] in [width, -width];
  }

  lemma {:induction false} MaximumIsIn(row: seq<real>) returns (i: nat)
    requires row != []
    ensures i < |row| && row[i] == Maximum(row)
  {
    if |row| == 1 || row[0] > Maximum(row[1..]) {
      i := 0;
    } else {
      i := MaximumIsIn(row[1..]);
      i := i + 1;
    }
  }

  /** The scale is the width of the row over the number of steps, but at least 0.00001. */
  predicate StepsOver(scale: real, width: real, steps: int) {
    scale >= 0.00001 && scale * steps as real >= width && (scale == 0.00001 || scale * steps as real == width)
  }

  lemma {:induction false} ScaleInNumbers(low: real, high: real, symmetric: bool, bits: nat)
    requires EnoughBits(symmetric, bits)
    ensures StepsOver(Scale(low, high, symmetric, bits), Extent(low, high, symmetric),
                      if symmetric then Pow2(bits - 1) - 1 else Pow2(bits) - 1)
  {
    QMaxPositive(symmetric, bits);
    var width, steps := Extent(low, high, symmetric), QMax(symmetric, bits);
    ScaleCovers(low, high, symmetric, bits);
    QuotientTimes(width, steps as real);
  }

  /** Every element comes back within half a step: a step is the spread of the row over 2^bits - 1
      (asymmetric), or its largest magnitude over 2^(bits-1) - 1 (symmetric), or 0.00001 if that is
      more. */
  lemma {:induction false} RowError(row: seq<real>, symmetric: bool, bits: nat, overflow: int, width: real, i: nat)
    requires EnoughBits(symmetric, bits) && bits <= 8 && i < |row|
    requires if symmetric then IsLargest(row, width) else IsSpread(row, width)
    requires ZeroPointFits(Minimum(row), Maximum(row), symmetric, bits)
    ensures var q := QuantizeRow(row, symmetric, bits, overflow);
            && StepsOver(q.scale, width, if symmetric then Pow2(bits - 1) - 1 else Pow2(bits) - 1)
            && Abs((q.values[i] - q.zeroPoint) as real * q.scale - row[i]) <= q.scale / 2.0
            && (if symmetric then -Pow2(bits - 1) <= q.values[i] < Pow2(bits - 1) && q.zeroPoint == 0
                else 0 <= q.values[i] < Pow2(bits))
  {
    var low, high := Minimum(row), Maximum(row);
    ExtentIs(row, symmetric);
    SpreadIsUnique(row, width, Extent(low, high, symmetric));
    ScaleInNumbers(low, high, symmetric, bits);
    QuantizationError(row, symmetric, bits, overflow);
    var q := QuantizeRow(row, symmetric, bits, overflow);
    assert Near(q.values[i], q.zeroPoint, row[i], q.scale);
    QMaxPositive(symmetric, bits);
    StoredExactly(Level(row[i], q.scale, q.zeroPoint, symmetric, bits), symmetric, bits);
  }

  lemma {:induction false} SpreadIsUnique(row: seq<real>, a: real, b: real)
    ensures IsSpread(row, a) && IsSpread(row, b) ==> a == b
    ensures row != [] && IsLargest(row, a) && IsLargest(row, b) ==> a == b
  {
  }

  /** The bound written out. */
  lemma {:induction false} RowErrorBound(row: seq<real>, symmetric: bool, bits: nat, overflow: int, width: real, i: nat)
    requires EnoughBits(symmetric, bits) && bits <= 8 && i < |row|
    requires if symmetric then IsLargest(row, width) else IsSpread(row, width)
    requires ZeroPointFits(Minimum(row), Maximum(row), symmetric, bits)
    ensures var q := QuantizeRow(row, symmetric, bits, overflow);
            var steps := if symmetric then Pow2(bits - 1) - 1 else Pow2(bits) - 1;
            && steps > 0
            && Abs((q.values[i] - q.zeroPoint) as real * q.scale - row[i]) <= Max(width / (2.0 * steps as real), 0.000005)
  {
    RowError(row, symmetric, bits, overflow, width, i);
    QMaxPositive(symmetric, bits);
    HalfStep(QuantizeRow(row, symmetric, bits, overflow).scale, width, QMax(symmetric, bits));
  }

  lemma {:induction false} HalfStep(scale: real, width: real, steps: int)
    requires steps > 0 && StepsOver(scale, width, steps)
    ensures scale / 2.0 <= Max(width / (2.0 * steps as real), 0.000005)
  {
    if scale * steps as real == width {
      HalfQuotient(scale, width, steps as real);
    }
  }

  lemma {:induction false} HalfQuotient(scale: real, width: real, steps: real)
    requires steps > 0.0 && scale * steps == width
    ensures width / (2.0 * steps) == scale / 2.0
  {
    var q := width / (2.0 * steps);
    assert q * (2.0 * steps) == width;
    SameProduct(2.0 * q, scale, steps);
  }

  lemma {:induction false} SameProduct(a: real, b: real, s: real)
    requires s > 0.0 && a * s == b * s
    ensures a == b
  {
    CancelLe(a, b, s);
    CancelLe(b, a, s);
  }

  /** Two rows at eight bits that use the whole range. */
  lemma {:induction false} FullRange(overflow: int)
    ensures QuantizeRow([0.0, 255.0], false, 8, overflow) == Quantized([0, 255], 1.0, 0)
    ensures QuantizeRow([-127.0, 127.0], true, 8, overflow) == Quantized([-127, 127], 1.0, 0)
  {
    Pow2Eight();
    FromZero(255.0);
    SelfDiv(255.0);
    SelfDiv(127.0);
    RoundInt(0);
    assert [-127.0, 127.0][1..] == [127.0] && Minimum([127.0]) == 127.0 && Maximum([127.0]) == 127.0;
    assert FitsInt32(0);
    assert Scale(0.0, 255.0, false, 8) == 1.0 && Scale(-127.0, 127.0, true, 8) == 1.0;
    WholeLevels(0, false);
    WholeLevels(255, false);
    WholeLevels(-127, true);
    WholeLevels(127, true);
    assert QuantizeRow([0.0, 255.0], false, 8, overflow).values == [0, 255];
    assert QuantizeRow([-127.0, 127.0], true, 8, overflow).values == [-127, 127];
  }

  lemma {:induction false} WholeLevels(n: int, symmetric: bool)
    requires if symmetric then -128 <= n <= 127 else 0 <= n <= 255
    ensures Stored(Level(n as real, 1.0, 0, symmetric, 8), symmetric) == n
  {
    Pow2Eight();
    RoundInt(n);
    assert n as real / 1.0 + 0 as real == n as real;
  }

  /** No more than eight bits: with more, the cast wraps on some row in each mode. */
  lemma {:induction false} MoreBitsWrap(symmetric: bool, bits: nat, overflow: int)
    requires bits > 8
    ensures var row := [0.0, QMax(symmetric, bits) as real];
            && ZeroPointFits(Minimum(row), Maximum(row), symmetric, bits)
            && !WithinHalfScale(row, QuantizeRow(row, symmetric, bits, overflow))
  {
    var top := QMax(symmetric, bits);
    var row := [0.0, top as real];
    QMaxPositive(symmetric, bits);
    FromZero(top as real);
    UnitScale(symmetric, bits);
    assert FitsInt32(0);
    WrapsTop(symmetric, bits);
    var q := QuantizeWith(row, 1.0, 0, symmetric, bits);
    assert q.values[1] == Stored(top, symmetric);
  }

  lemma {:induction false} FromZero(x: real)
    requires x > 0.0
    ensures Minimum([0.0, x]) == 0.0 && Maximum([0.0, x]) == x
  {
    assert [0.0, x][1..] == [x];
    assert Minimum([x]) == x && Maximum([x]) == x;
  }

  lemma {:induction false} UnitScale(symmetric: bool, bits: nat)
    requires bits > 8
    ensures var top := QMax(symmetric, bits);
            && Scale(0.0, top as real, symmetric, bits) == 1.0
            && ExactZeroPoint(0.0, 1.0, symmetric) == 0
            && Level(top as real, 1.0, 0, symmetric, bits) == top
  {
    QMaxPositive(symmetric, bits);
    var top := QMax(symmetric, bits);
    assert Extent(0.0, top as real, symmetric) == top as real;
    SelfDiv(top as real);
    RoundInt(top);
    RoundInt(0);
    assert top as real / 1.0 + 0 as real == top as real;
  }

  lemma {:induction false} SelfDiv(x: real)
    requires x > 0.0
    ensures x / x == 1.0
  {
  }

  lemma {:induction false} RoundInt(n: int)
    ensures Round(n as real) == n
  {
  }

  lemma {:induction false} WrapsTop(symmetric: bool, bits: nat)
    requires bits > 8
    ensures Stored(QMax(symmetric, bits), symmetric) + 1 <= QMax(symmetric, bits)
  {
    Pow2Eight();
    Pow2Mono(if symmetric then 8 else 9, if symmetric then bits - 1 else bits);
  }

  /** Rows that reach zero always have an exact zero point. */
  lemma {:induction false} RowsAroundZeroFit(low: real, high: real, symmetric: bool, bits: nat)
    requires EnoughBits(symmetric, bits) && bits <= 8 && low <= 0.0 <= high
    ensures ZeroPointFits(low, high, symmetric, bits)
  {
    EightBitsAreFew(symmetric, bits);
    if !symmetric {
      ScaleCovers(low, high, symmetric, bits);
      LowZeroPointFits(low, high, QMax(symmetric, bits), Scale(low, high, symmetric, bits));
    }
  }

  lemma {:induction false} LowZeroPointFits(low: real, high: real, top: int, s: real)
    requires Covers(low, high, s, false, top) && low <= 0.0 <= high && 0 <= top < 256
    ensures FitsInt32(ExactZeroPoint(low, s, false))
  {
    LowLevel(low, top, s);
  }

  lemma {:induction false} EightBitsAreFew(symmetric: bool, bits: nat)
    requires EnoughBits(symmetric, bits) && bits <= 8
    ensures QMax(symmetric, bits) < 256
  {
    Pow2Eight();
    Pow2Mono(if symmetric then bits - 1 else bits, 8);
  }

  lemma {:induction false} LowLevel(low: real, top: int, s: real)
    requires s > 0.0 && -low <= top as real * s && low <= 0.0
    ensures -top - 1 <= Round(low / s) <= 1
  {
    LowQuotient(low, top as real, s);
    RoundBetween(low / s, top);
  }

  lemma {:induction false} LowQuotient(low: real, top: real, s: real)
    requires s > 0.0 && -low <= top * s && low <= 0.0
    ensures -top <= low / s <= 0.0
  {
    var d := low / s;
    assert d * s == low;
    CancelLe(-top, d, s);
    CancelLe(d, 0.0, s);
    assert -top * s == -(top * s);
  }

  lemma {:induction false} RoundBetween(d: real, top: int)
    requires -(top as real) <= d <= 0.0
    ensures -top - 1 <= Round(d) <= 1
  {
  }

  // ---------------------------------------------------------------- zero points that do not fit

  lemma {:induction false} MinimumIsIn(row: seq<real>) returns (i: nat)
    requires row != []
    ensures i < |row| && row[i] == Minimum(row)
  {
    if |row| == 1 || row[0] < Minimum(row[1..]) {
      i := 0;
    } else {
      i := MinimumIsIn(row[1..]);
      i := i + 1;
    }
  }

  lemma {:induction false} NearCancels(value: int, zeroPoint: int, x: real, s: real)
    requires s > 0.0 && Near(value, zeroPoint, x, s)
    ensures -0.5 <= (value - zeroPoint) as real - x / s <= 0.5
  {
    var v, r := (value - zeroPoint) as real, x / s;
    assert Abs(v * s - x) <= s / 2.0;
    QuotientTimes(x, s);
    HalfCancels(v, r, s, v * s, x);
  }

  lemma {:induction false} QuotientTimes(x: real, s: real)
    requires s > 0.0
    ensures x / s * s == x
  {
  }

  lemma {:induction false} HalfCancels(v: real, r: real, s: real, vs: real, rs: real)
    requires s > 0.0 && vs == v * s && rs == r * s && Abs(vs - rs) <= s / 2.0
    ensures -0.5 <= v - r <= 0.5
  {
    Distributes(v, r, s);
    HalfOf(v - r, s, vs - rs);
  }

  lemma {:induction false} Distributes(v: real, r: real, s: real)
    ensures (v - r) * s == v * s - r * s
  {
  }

  lemma {:induction false} HalfOf(d: real, s: real, ds: real)
    requires s > 0.0 && ds == d * s && Abs(ds) <= s / 2.0
    ensures -0.5 <= d <= 0.5
  {
    if d > 0.5 {
      MulLt(0.5, d, s);
    } else if d < -0.5 {
      MulLt(d, -0.5, s);
    }
  }

  /** With the 32-bit zero point that is farthest from the exact one, no stored level is near. */
  lemma {:induction false} FarZeroPoint(value: int, low: real, s: real)
    requires s > 0.0 && 0 <= value < 256 && !FitsInt32(-Round(low / s))
    ensures !Near(value, FarInt32(-Round(low / s)), low, s)
  {
    var zero := FarInt32(-Round(low / s));
    if Near(value, zero, low, s) {
      NearCancels(value, zero, low, s);
    }
  }

  /** The end of the 32-bit range on the other side of zero. */
  function FarInt32(x: int): int { if x > 0 then -2147483648 else 2147483647 }

  /** Whatever the conversion to 32 bits gives out of range, the bound holds. */
  ghost predicate AlwaysWithinHalfScale(row: seq<real>, symmetric: bool, bits: nat)
    requires row != [] && EnoughBits(symmetric, bits)
  {
    forall z :: -2147483648 <= z < 2147483648 ==> WithinHalfScale(row, QuantizeRow(row, symmetric, bits, z))
  }

  /** The bound holds for every such conversion exactly when the zero point fits 32 bits. */
  lemma {:induction false} QuantizationErrorIff(row: seq<real>, symmetric: bool, bits: nat)
    requires row != [] && EnoughBits(symmetric, bits) && bits <= 8
    ensures AlwaysWithinHalfScale(row, symmetric, bits) <==>
            symmetric || -2147483648 < Round(Minimum(row) / Scale(Minimum(row), Maximum(row), false, bits)) < 2147483648
  {
    if ZeroPointFits(Minimum(row), Maximum(row), symmetric, bits) {
      forall z | -2147483648 <= z < 2147483648 ensures WithinHalfScale(row, QuantizeRow(row, symmetric, bits, z)) {
        QuantizationError(row, symmetric, bits, z);
      }
    } else {
      assert !symmetric;
      UnfitBreaks(row, bits);
    }
  }

  lemma {:induction false} UnfitBreaks(row: seq<real>, bits: nat)
    requires row != [] && EnoughBits(false, bits) && !ZeroPointFits(Minimum(row), Maximum(row), false, bits)
    ensures !AlwaysWithinHalfScale(row, false, bits)
  {
    var low := Minimum(row);
    var s := Scale(low, Maximum(row), false, bits);
    var z := FarInt32(-Round(low / s));
    var i := MinimumIsIn(row);
    var q := QuantizeRow(row, false, bits, z);
    assert q.zeroPoint == z && q.scale == s;
    FarZeroPoint(q.values[i], low, s);
    assert !Near(q.values[i], q.zeroPoint, row[i], q.scale);
    assert !WithinHalfScale(row, q);
  }

  /** A constant row has a zero point that 32 bits cannot hold, and for some result of the
      conversion it is not recovered. */
  lemma {:induction false} ConstantRowDoesNotFit()
    ensures !ZeroPointFits(1000000.0, 1000000.0, false, 8)
    ensures !AlwaysWithinHalfScale([1000000.0], false, 8)
  {
    assert Scale(1000000.0, 1000000.0, false, 8) == MIN_SCALE;
    assert 1000000.0 / MIN_SCALE == 100000000000.0;
    UnfitBreaks([1000000.0], 8);
  }
}

// Affine float -> int8 quantization with a per-vector (scale, zero_point)
// pair (Quantizer.cpp). Values are reals; std::round is `Round`.

module Quantizer {

  datatype Params = Params(scale: real, zeroPoint: int)

  const QMIN: int := -128
  const QMAX: int := 127
  const NEUTRAL: Params := Params(1.0, 0)
  /** Ranges narrower than this get the neutral parameters. */
  const MIN_RANGE: real := 0.000001
  /** 2^31: static_cast<int32_t> of a float is defined only strictly inside (-2^31 - 1, 2^31). */
  const INT32_BOUND: real := 2147483648.0

  /** std::round: the nearest integer, halfway cases away from zero. */
  function Round(x: real): (r: int)
    ensures x - 0.5 <= r as real <= x + 0.5
  {
    if x >= 0.0 then (x + 0.5).Floor else -((-x + 0.5).Floor)
  }

  lemma RoundMonotone(x: real, y: real)
    requires x <= y
    ensures Round(x) <= Round(y)
  {
    if x < 0.0 && y >= 0.0 {
    } else if x >= 0.0 {
      assert (x + 0.5).Floor <= (y + 0.5).Floor;
    } else {
      assert (-y + 0.5).Floor <= (-x + 0.5).Floor;
    }
  }

  /** The int8 saturation applied by quantize_scalar and to the zero point. */
  function Clamp(q: int): (r: int)
    ensures QMIN <= r <= QMAX
    ensures QMIN <= q <= QMAX ==> r == q
  {
    if q < QMIN then QMIN else if q > QMAX then QMAX else q
  }

  predicate InInt8(q: int) { QMIN <= q <= QMAX }

  function Abs(x: real): real { if x < 0.0 then -x else x }

  // ---------------------------------------------------------------------
  // Scalars

  /** quantize_scalar: round(value / scale) + zero_point, saturated to int8. */
  function QuantizeScalar(v: real, p: Params): (q: int)
    requires p.scale != 0.0
    ensures InInt8(q)
  {
    Clamp(Round(v / p.scale) + p.zeroPoint)
  }

  /** dequantize_scalar: (q - zero_point) * scale. */
  function DequantizeScalar(q: int, p: Params): real
  {
    (q - p.zeroPoint) as real * p.scale
  }

  /** Quantization preserves order: it never maps a larger value below a smaller one. */
  lemma QuantizeMonotone(v: real, w: real, p: Params)
    requires p.scale > 0.0 && v <= w
    ensures QuantizeScalar(v, p) <= QuantizeScalar(w, p)
  {
    assert v / p.scale <= w / p.scale;
    RoundMonotone(v / p.scale, w / p.scale);
  }

  /**
   * Out-of-range values saturate at the int8 bounds instead of wrapping, as
   * long as the rounded quotient fits the int32 it is cast to (beyond that
   * the cast is undefined in C++).
   */
  lemma QuantizeSaturates(v: real, p: Params)
    requires p.scale > 0.0 && InInt8(p.zeroPoint)
    requires Abs(v / p.scale) + 128.0 < INT32_BOUND
    ensures v / p.scale >= 255.5 ==> QuantizeScalar(v, p) == QMAX
    ensures v / p.scale <= -255.5 ==> QuantizeScalar(v, p) == QMIN
  {
  }

  /** Dequantizing a quantized value recovers it exactly when no saturation happens. */
  lemma ScalarRoundTrip(q: int, p: Params)
    requires p.scale != 0.0 && InInt8(q)
    ensures QuantizeScalar(DequantizeScalar(q, p), p) == q
  {
    var v := DequantizeScalar(q, p);
    assert v / p.scale == (q - p.zeroPoint) as real;
  }

  // ---------------------------------------------------------------------
  // Vectors

  function QuantizeAll(data: seq<real>, p: Params): (r: seq<int>)
    requires p.scale != 0.0
    ensures |r| == |data|
  {
    seq(|data|, i requires 0 <= i < |data| => QuantizeScalar(data[i], p))
  }

  function DequantizeAll(data: seq<int>, p: Params): (r: seq<real>)
    ensures |r| == |data|
  {
    seq(|data|, i requires 0 <= i < |data| => DequantizeScalar(data[i], p))
  }

  /** quantize: one int8 per input value, in order. */
  method Quantize(data: seq<real>, p: Params) returns (q: seq<int>)
    requires p.scale != 0.0
    ensures |q| == |data|
    ensures q == QuantizeAll(data, p)
    ensures forall i | 0 <= i < |q| :: InInt8(q[i])
  {
    q := [];
    var i := 0;
    while i < |data|
      invariant 0 <= i <= |data| && |q| == i
      invariant forall j | 0 <= j < i :: q[j] == QuantizeScalar(data[j], p)
    {
      q := q + [QuantizeScalar(data[i], p)];
      i := i + 1;
    }
  }

  /** dequantize: one real per stored int8, in order. */
  method Dequantize(data: seq<int>, p: Params) returns (v: seq<real>)
    ensures |v| == |data|
    ensures v == DequantizeAll(data, p)
  {
    v := [];
    var i := 0;
    while i < |data|
      invariant 0 <= i <= |data| && |v| == i
      invariant forall j | 0 <= j < i :: v[j] == DequantizeScalar(data[j], p)
    {
      v := v + [DequantizeScalar(data[i], p)];
      i := i + 1;
    }
  }

  // ---------------------------------------------------------------------
  // Parameters

  function Min(s: seq<real>): (m: real)
    requires |s| > 0
    ensures m in s && forall i | 0 <= i < |s| :: m <= s[i]
  {
    if |s| == 1 then s[0]
    else var rest := Min(s[1..]); if s[0] <= rest then s[0] else rest
  }

  function Max(s: seq<real>): (m: real)
    requires |s| > 0
    ensures m in s && forall i | 0 <= i < |s| :: s[i] <= m
  {
    if |s| == 1 then s[0]
    else var rest := Max(s[1..]); if s[0] >= rest then s[0] else rest
  }

  /** The parameters for the range [lo, hi], as calculate_params derives them. */
  function RangeParams(lo: real, hi: real): Params
  {
    if Abs(hi - lo) < MIN_RANGE then NEUTRAL
    else
      var scale := (hi - lo) / 255.0;
      Params(scale, Clamp(Round(QMIN as real - lo / scale)))
  }

  /** calculate_params exactly as written: the range is the data's own [min, max]. */
  function ParamsAsWritten(data: seq<real>): Params
  {
    if |data| == 0 then NEUTRAL else RangeParams(Min(data), Max(data))
  }

  /**
   * The corrected parameters: the data's range widened to contain 0, so
   * that the zero point needs no clamping. The stores keep using
   * calculate_params as written; this is the repaired definition the
   * round-trip bound is proved for.
   */
  function ParamsFor(data: seq<real>): Params
  {
    if |data| == 0 then NEUTRAL
    else
      var lo := Min(data);
      var hi := Max(data);
      RangeParams(if lo < 0.0 then lo else 0.0, if hi > 0.0 then hi else 0.0)
  }

  predicate ValidParams(p: Params) { p.scale > 0.0 && InInt8(p.zeroPoint) }

  lemma RangeParamsValid(lo: real, hi: real)
    requires lo <= hi
    ensures ValidParams(RangeParams(lo, hi))
  {
  }

  lemma RangeParamsShape(lo: real, hi: real)
    requires lo <= hi
    ensures hi - lo < MIN_RANGE ==> RangeParams(lo, hi) == NEUTRAL
    ensures hi - lo >= MIN_RANGE ==>
      RangeParams(lo, hi) == Params((hi - lo) / 255.0, Clamp(Round(QMIN as real - lo / ((hi - lo) / 255.0))))
  {
  }

  /** calculate_params as written always yields a positive scale and an int8 zero point. */
  lemma ParamsAsWrittenValid(data: seq<real>)
    ensures ValidParams(ParamsAsWritten(data))
  {
    if |data| > 0 {
      assert Min(data) <= data[0] <= Max(data);
      RangeParamsValid(Min(data), Max(data));
    }
  }

  /** When the data's range already contains 0, the clamp is harmless: both derivations agree. */
  lemma AsWrittenAgreesWhenRangeHasZero(data: seq<real>)
    requires |data| > 0 && Min(data) <= 0.0 <= Max(data)
    ensures ParamsAsWritten(data) == ParamsFor(data)
  {
    var lo, hi := Min(data), Max(data);
    assert (if lo < 0.0 then lo else 0.0) == lo && (if hi > 0.0 then hi else 0.0) == hi;
    assert ParamsFor(data) == RangeParams(lo, hi);
  }

  // Real-division facts the solver does not find on its own.

  lemma DivDef(x: real, s: real)
    requires s > 0.0
    ensures (x / s) * s == x
  {
  }

  lemma MulCancel(a: real, b: real, s: real)
    requires s > 0.0 && a * s == b * s
    ensures a == b
  {
    assert (a - b) * s == 0.0;
  }

  lemma DivMono(x: real, y: real, s: real)
    requires s > 0.0 && x <= y
    ensures x / s <= y / s
  {
    DivDef(x, s);
    DivDef(y, s);
  }

  lemma DivShift(x: real, c: real, s: real)
    requires s > 0.0
    ensures (x + c * s) / s == x / s + c
  {
    DivDef(x + c * s, s);
    DivDef(x, s);
    assert (x / s + c) * s == x / s * s + c * s;
    MulCancel((x + c * s) / s, x / s + c, s);
  }

  lemma ScaleError(e: real, s: real)
    requires s > 0.0 && -0.5 <= e <= 0.5
    ensures -(s / 2.0) <= e * s <= s / 2.0
  {
    MulNonNegative(0.5 - e, s);
    MulNonNegative(e + 0.5, s);
    assert (0.5 - e) * s == s / 2.0 - e * s;
    assert (e + 0.5) * s == e * s + s / 2.0;
  }

  lemma MulNonNegative(a: real, b: real)
    requires a >= 0.0 && b >= 0.0
    ensures a * b >= 0.0
  {
  }

  /**
   * In units of the scale: a value a in [t, t + 255] comes back within 1/2
   * when the zero point is round(-128 - t).
   */
  lemma ScaledRoundTrip(a: real, t: real, zp: int)
    requires zp == Round(QMIN as real - t) && t <= a <= t + 255.0
    ensures var q := Clamp(Round(a) + zp); -0.5 <= (q - zp) as real - a <= 0.5
  {
  }

  /**
   * Every value v in [lo, lo + 255 * scale] comes back within scale / 2 when
   * the zero point is round(-128 - lo / scale) itself.
   */
  lemma RangeRoundTrip(v: real, lo: real, scale: real, zp: int)
    requires scale > 0.0 && zp == Round(QMIN as real - lo / scale)
    requires lo <= v <= lo + 255.0 * scale
    ensures Abs(DequantizeScalar(QuantizeScalar(v, Params(scale, zp)), Params(scale, zp)) - v) <= scale / 2.0
  {
    var q := QuantizeScalar(v, Params(scale, zp));
    assert -0.5 <= (q - zp) as real - v / scale <= 0.5 by {
      ScaledRange(v, lo, scale);
      ScaledRoundTrip(v / scale, lo / scale, zp);
    }
    ScaledErrorBound(v, scale, zp, q);
  }

  /** An error of at most 1/2 in units of the scale is at most scale / 2 after dequantizing. */
  lemma ScaledErrorBound(v: real, scale: real, zp: int, q: int)
    requires scale > 0.0 && -0.5 <= (q - zp) as real - v / scale <= 0.5
    ensures Abs(DequantizeScalar(q, Params(scale, zp)) - v) <= scale / 2.0
  {
    var e := (q - zp) as real - v / scale;
    var d := DequantizeScalar(q, Params(scale, zp)) - v;
    DequantError(v, scale, zp, q);
    assert d == e * scale;
    ScaleError(e, scale);
    assert -(scale / 2.0) <= d <= scale / 2.0;
  }

  lemma ScaledRange(v: real, lo: real, scale: real)
    requires scale > 0.0 && lo <= v <= lo + 255.0 * scale
    ensures lo / scale <= v / scale <= lo / scale + 255.0
  {
    DivMono(lo, v, scale);
    DivMono(v, lo + 255.0 * scale, scale);
    DivShift(lo, 255.0, scale);
  }

  lemma DequantError(v: real, scale: real, zp: int, q: int)
    requires scale > 0.0
    ensures DequantizeScalar(q, Params(scale, zp)) - v == ((q - zp) as real - v / scale) * scale
  {
    DivDef(v, scale);
  }

  /** A range containing 0 puts -lo / scale in [0, 255], so the zero point is in int8. */
  lemma ZeroRange(lo: real, hi: real)
    requires lo <= 0.0 <= hi && hi - lo >= MIN_RANGE
    ensures var scale := (hi - lo) / 255.0;
      scale > 0.0 && lo + 255.0 * scale == hi && -255.0 <= lo / scale <= 0.0
  {
    var scale := (hi - lo) / 255.0;
    DivMono(lo, 0.0, scale);
    DivMono(0.0 + -255.0 * scale, lo, scale);
    DivShift(0.0, -255.0, scale);
  }

  lemma ZeroPointInRange(t: real)
    requires -255.0 <= t <= 0.0
    ensures InInt8(Round(QMIN as real - t))
  {
  }

  lemma NarrowRoundTrip(lo: real, hi: real, v: real)
    requires lo <= 0.0 <= hi && hi - lo < MIN_RANGE && lo <= v <= hi
    ensures var p := RangeParams(lo, hi);
      ValidParams(p) && Abs(DequantizeScalar(QuantizeScalar(v, p), p) - v) <= p.scale / 2.0
  {
    assert RangeParams(lo, hi) == NEUTRAL;
    assert v / 1.0 == v;
    assert Round(v) == 0;
  }

  lemma WideRoundTrip(lo: real, hi: real, v: real)
    requires lo <= 0.0 <= hi && hi - lo >= MIN_RANGE && lo <= v <= hi
    ensures var p := RangeParams(lo, hi);
      ValidParams(p) && Abs(DequantizeScalar(QuantizeScalar(v, p), p) - v) <= p.scale / 2.0
  {
    RangeParamsShape(lo, hi);
    var scale := (hi - lo) / 255.0;
    ZeroRange(lo, hi);
    ZeroPointInRange(lo / scale);
    var zp := Round(QMIN as real - lo / scale);
    assert RangeParams(lo, hi) == Params(scale, zp);
    RangeRoundTrip(v, lo, scale, zp);
  }

  /** The corrected parameters keep every in-range value within scale / 2 of itself. */
  lemma RoundTripErrorBound(data: seq<real>, v: real)
    requires |data| > 0 && Min(data) <= v <= Max(data)
    ensures ValidParams(ParamsFor(data))
    ensures var p := ParamsFor(data);
      Abs(DequantizeScalar(QuantizeScalar(v, p), p) - v) <= p.scale / 2.0
  {
    var lo := if Min(data) < 0.0 then Min(data) else 0.0;
    var hi := if Max(data) > 0.0 then Max(data) else 0.0;
    assert ParamsFor(data) == RangeParams(lo, hi);
    if hi - lo < MIN_RANGE {
      NarrowRoundTrip(lo, hi, v);
    } else {
      WideRoundTrip(lo, hi, v);
    }
  }

  /** With the zero point clamped, a range that does not contain 0 is lost. */
  lemma ClampedZeroPointLosesRange()
    ensures var data := [10.0, 11.0];
      var p := ParamsAsWritten(data);
      p == Params(1.0 / 255.0, QMIN) &&
      QuantizeScalar(10.0, p) == QMAX && DequantizeScalar(QuantizeScalar(10.0, p), p) == 1.0 &&
      Abs(DequantizeScalar(QuantizeScalar(10.0, p), p) - 10.0) > p.scale / 2.0
  {
    var data := [10.0, 11.0];
    assert Min(data) == 10.0 && Max(data) == 11.0;
    var p := ParamsAsWritten(data);
    assert p.scale == 1.0 / 255.0;
    assert 10.0 / p.scale == 2550.0;
    assert Round(QMIN as real - 2550.0) == -2678;
  }

  /** The parameters the unit test derives for [-1, -0.5, 0, 0.5, 1]. */
  lemma UnitTestParams()
    ensures ParamsAsWritten([-1.0, -0.5, 0.0, 0.5, 1.0]) == Params(2.0 / 255.0, -1)
  {
    var data := [-1.0, -0.5, 0.0, 0.5, 1.0];
    assert Min(data[3..]) == 0.5 && Max(data[3..]) == 1.0;
    assert Min(data[1..]) == -0.5 && Max(data[1..]) == 1.0;
    assert Min(data) == -1.0 && Max(data) == 1.0;
    assert QMIN as real - (-1.0) / (2.0 / 255.0) == -0.5;
    assert Round(-0.5) == -1;
  }

  /** With those parameters, 1000 and -1000 saturate at the int8 bounds, as the unit test checks. */
  lemma UnitTestSaturation()
    ensures var p := Params(2.0 / 255.0, -1);
      QuantizeScalar(1000.0, p) == QMAX && QuantizeScalar(-1000.0, p) == QMIN
  {
    assert 1000.0 / (2.0 / 255.0) == 127500.0;
    assert -1000.0 / (2.0 / 255.0) == -127500.0;
  }

  /**
   * calculate_params: one pass for the minimum and maximum, then the
   * parameters of exactly that range, the zero point clamped to int8.
   */
  method CalculateParams(data: seq<real>) returns (p: Params)
    ensures p == ParamsAsWritten(data) && ValidParams(p)
    ensures |data| > 0 && Min(data) <= 0.0 <= Max(data) ==> p == ParamsFor(data)
  {
    if |data| == 0 {
      return NEUTRAL;
    }
    var lo, hi := data[0], data[0];
    var i := 0;
    while i < |data|
      invariant 0 <= i <= |data|
      invariant lo in data && hi in data
      invariant forall j | 0 <= j < i :: lo <= data[j] <= hi
    {
      if data[i] < lo { lo := data[i]; }
      if data[i] > hi { hi := data[i]; }
      i := i + 1;
    }
    assert lo == Min(data) && hi == Max(data);
    p := RangeParams(lo, hi);
    ParamsAsWrittenValid(data);
    if lo <= 0.0 <= hi {
      AsWrittenAgreesWhenRangeHasZero(data);
    }
  }

  lemma ParamsValid(data: seq<real>)
    ensures ValidParams(ParamsFor(data))
  {
    if |data| > 0 {
      RoundTripErrorBound(data, Min(data));
    }
  }
}

/**
 JavaScript's rounding as the price code uses it: `Math.round(x)` and the
 two-decimal presentation `Math.round(x * 100) / 100`, both on exact reals
 (the binary floating-point representation of the operands is not modelled).
 */
module Rounding {

  /** `Math.round(x)`: the nearest integer, halves going towards +infinity. */
  function RoundHalfUp(x: real): (n: int)
    ensures x - 0.5 < n as real <= x + 0.5
  {
    (x + 0.5).Floor
  }

  /** `Math.round(x * 100) / 100`: `x` to the nearest cent. */
  function RoundCents(x: real): (r: real)
    ensures x - 0.005 < r <= x + 0.005
    ensures WholeCents(r)
  {
    var n := RoundHalfUp(x * 100.0);
    assert (n as real / 100.0) * 100.0 == n as real;
    n as real / 100.0
  }

  /** An amount that is a whole number of cents. */
  predicate WholeCents(x: real)
  {
    (x * 100.0).Floor as real == x * 100.0
  }

  lemma RoundHalfUpMonotone(x: real, y: real)
    requires x <= y
    ensures RoundHalfUp(x) <= RoundHalfUp(y)
  {
  }

  lemma RoundCentsMonotone(x: real, y: real)
    requires x <= y
    ensures RoundCents(x) <= RoundCents(y)
  {
    RoundHalfUpMonotone(x * 100.0, y * 100.0);
  }

  /** Rounding to cents leaves a whole-cent amount unchanged. */
  lemma RoundCentsOfWholeCents(x: real)
    requires WholeCents(x)
    ensures RoundCents(x) == x
  {
    var k := (x * 100.0).Floor;
    assert (x * 100.0 + 0.5).Floor == k;
  }

  /** `Math.round` of a percentage in [0, 100] stays in [0, 100]. */
  lemma RoundHalfUpWithin(x: real, lo: int, hi: int)
    requires lo as real <= x <= hi as real
    ensures lo <= RoundHalfUp(x) <= hi
  {
  }

  /** A non-negative part of a positive whole is a fraction in [0, 1]. */
  lemma FractionInUnit(a: real, b: real)
    requires 0.0 <= a <= b && 0.0 < b
    ensures 0.0 <= a / b <= 1.0
  {
    var q := a / b;
    assert q * b == a;
  }

  /** A value inside a non-empty range sits at a rounded percentage in [0, 100] of it. */
  lemma PercentOfRange(current: real, min: real, max: real)
    requires min < max && min <= current <= max
    ensures 0 <= RoundHalfUp((current - min) / (max - min) * 100.0) <= 100
  {
    FractionInUnit(current - min, max - min);
    RoundHalfUpWithin((current - min) / (max - min) * 100.0, 0, 100);
  }
}

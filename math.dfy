/** The scalar helpers of src/math.js over exact reals, plus JavaScript's
    `Math.round`, which the gameplay code applies to damage and experience. */
module MathUtil {

  /** Linear interpolation from `a` (at 0) to `b` (at 1). */
  function Lerp(x: real, a: real, b: real): (r: real)
    ensures x == 0.0 ==> r == a
    ensures x == 1.0 ==> r == b
  {
    x * (b - a) + a
  }

  /** The cubic easing curve 3x^2 - 2x^3 used by `smoothstep`. */
  function SmoothCurve(x: real): (t: real)
    ensures x == 0.0 ==> t == 0.0
    ensures x == 1.0 ==> t == 1.0
  {
    x * x * (3.0 - 2.0 * x)
  }

  /** The quintic easing curve 6x^5 - 15x^4 + 10x^3 used by `smootherstep`. */
  function SmootherCurve(x: real): (t: real)
    ensures x == 0.0 ==> t == 0.0
    ensures x == 1.0 ==> t == 1.0
  {
    x * x * x * (x * (x * 6.0 - 15.0) + 10.0)
  }

  /** Eased interpolation: `a` at 0, `b` at 1, and inside [a, b] between. */
  function Smoothstep(x: real, a: real, b: real): (r: real)
    ensures x == 0.0 ==> r == a
    ensures x == 1.0 ==> r == b
  {
    SmoothCurve(x) * (b - a) + a
  }

  /** Eased interpolation with a flatter start and end: `a` at 0, `b` at 1. */
  function Smootherstep(x: real, a: real, b: real): (r: real)
    ensures x == 0.0 ==> r == a
    ensures x == 1.0 ==> r == b
  {
    SmootherCurve(x) * (b - a) + a
  }

  /** `Math.min(Math.max(x, a), b)`. For an empty interval (a > b) the
      upper bound wins. */
  function Clamp(x: real, a: real, b: real): (r: real)
    ensures a <= b ==> a <= r <= b
    ensures a <= x <= b ==> r == x
    ensures a <= b && x < a ==> r == a
    ensures x > b ==> r == b
    ensures a > b ==> r == b
  {
    var m := if x >= a then x else a;
    if m <= b then m else b
  }

  /** Saturation: `x` clamped to the unit interval. */
  function Sat(x: real): (r: real)
    ensures 0.0 <= r <= 1.0
    ensures 0.0 <= x <= 1.0 ==> r == x
    ensures x <= 0.0 ==> r == 0.0
    ensures x >= 1.0 ==> r == 1.0
  {
    Clamp(x, 0.0, 1.0)
  }

  /** Membership in the closed interval [a, b]. */
  predicate InRange(x: real, a: real, b: real)
  {
    x >= a && x <= b
  }

  /** `InRange` holds exactly where clamping leaves the value alone, so both
      of its ends are inclusive. */
  lemma InRangeIffClampFixes(x: real, a: real, b: real)
    requires a <= b
    ensures InRange(x, a, b) <==> Clamp(x, a, b) == x
  {
  }

  /** Saturation is monotone. */
  lemma SatMonotone(x: real, y: real)
    requires x <= y
    ensures Sat(x) <= Sat(y)
  {
  }

  lemma MulNonNegative(p: real, q: real)
    requires 0.0 <= p && 0.0 <= q
    ensures 0.0 <= p * q
  {
  }

  /** For a weight in [0, 1], interpolating between `a <= b` stays in
      [a, b]. */
  lemma LerpBetween(t: real, a: real, b: real)
    requires 0.0 <= t <= 1.0 && a <= b
    ensures a <= Lerp(t, a, b) <= b
  {
    MulNonNegative(t, b - a);
    MulNonNegative(1.0 - t, b - a);
    assert t * (b - a) + (1.0 - t) * (b - a) == b - a;
  }

  /** On the unit interval the smoothstep curve stays in the unit interval,
      so `Smoothstep` never leaves [a, b]. */
  lemma SmoothstepBetween(x: real, a: real, b: real)
    requires 0.0 <= x <= 1.0 && a <= b
    ensures 0.0 <= SmoothCurve(x) <= 1.0
    ensures a <= Smoothstep(x, a, b) <= b
  {
    var t := SmoothCurve(x);
    MulNonNegative(x, x);
    MulNonNegative(x * x, 3.0 - 2.0 * x);
    // 1 - t = (1 - x)^2 (1 + 2x)
    assert 1.0 - t == (1.0 - x) * (1.0 - x) * (1.0 + 2.0 * x);
    MulNonNegative(1.0 - x, 1.0 - x);
    MulNonNegative((1.0 - x) * (1.0 - x), 1.0 + 2.0 * x);
    LerpBetween(t, a, b);
  }

  /** JavaScript's `Math.round`: the nearest integer, halves rounded up. */
  function Round(x: real): (r: int)
    ensures r as real - 0.5 <= x < r as real + 0.5
  {
    (x + 0.5).Floor
  }

  /** Rounding leaves an integer where it is. */
  lemma RoundInteger(n: int)
    ensures Round(n as real) == n
  {
  }
}

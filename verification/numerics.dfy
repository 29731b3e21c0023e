/** The two integer conversions the helpers apply to computed real values:
    `Convert.ToInt32` on a floating-point value (round to nearest, ties to
    even) and the C# `(int)` cast (truncation toward zero). Floating-point
    values are modelled as mathematical reals. */
module Numerics {

  /** True if `n` is a nearest integer to `x`. */
  predicate IsNearest(x: real, n: int) {
    -0.5 <= n as real - x <= 0.5
  }

  /** True if `x` lies exactly halfway between two integers. */
  predicate IsTie(x: real) {
    x - x.Floor as real == 0.5
  }

  /** `Convert.ToInt32(x)`: the nearest integer, and the even one on a tie. */
  function RoundHalfEven(x: real): (n: int)
    ensures IsNearest(x, n)
    ensures !IsTie(x) ==> -0.5 < n as real - x < 0.5
    ensures IsTie(x) ==> n % 2 == 0
  {
    var f := x.Floor;
    var frac := x - f as real;
    if frac < 0.5 then f
    else if frac > 0.5 then f + 1
    else if f % 2 == 0 then f
    else f + 1
  }

  /** Nearest-with-ties-to-even pins the result down: any integer meeting
      the rounding contract is the rounded value. */
  lemma RoundHalfEvenUnique(x: real, n: int)
    requires IsNearest(x, n)
    requires !IsTie(x) ==> -0.5 < n as real - x < 0.5
    requires IsTie(x) ==> n % 2 == 0
    ensures n == RoundHalfEven(x)
  {
  }

  /** Rounding never reverses the order of its arguments. */
  lemma RoundHalfEvenMonotone(x: real, y: real)
    requires x <= y
    ensures RoundHalfEven(x) <= RoundHalfEven(y)
  {
  }

  /** A value in [lo, hi] with integer bounds rounds into [lo, hi]. */
  lemma RoundHalfEvenBounded(x: real, lo: int, hi: int)
    requires lo as real <= x <= hi as real
    ensures lo <= RoundHalfEven(x) <= hi
  {
  }

  /** The C# `(int)` cast of a floating-point value: truncation toward zero. */
  function TruncateToward0(x: real): (n: int)
    ensures 0.0 <= x ==> 0 <= n && n as real <= x < n as real + 1.0
    ensures x < 0.0 ==> n <= 0 && n as real - 1.0 < x <= n as real
  {
    if 0.0 <= x then x.Floor else -((-x).Floor)
  }

  /** A value between two integers truncates to a value between them. */
  lemma TruncateBetween(x: real, lo: int, hi: int)
    requires 0 <= lo
    requires lo as real <= x <= hi as real
    ensures lo <= TruncateToward0(x) <= hi
  {
  }

  /** The product of two non-negative values is non-negative. */
  lemma ProductNonneg(x: real, y: real)
    requires 0.0 <= x && 0.0 <= y
    ensures 0.0 <= x * y
  {
  }

  /** A non-negative value times a fraction in [0, 1] shrinks into [0, x]. */
  lemma ShrinkBy(x: real, y: real)
    requires 0.0 <= x && 0.0 <= y <= 1.0
    ensures 0.0 <= x * y <= x
  {
  }

  /** The weighted average `a * wa + b * wb` of a and b: with non-negative
      weights summing to 1 it lies between them. */
  function Weighted(a: real, wa: real, b: real, wb: real): (v: real)
    requires 0.0 <= wa && 0.0 <= wb && wa + wb == 1.0
    ensures a <= b ==> a <= v <= b
    ensures b <= a ==> b <= v <= a
  {
    a * wa + b * wb
  }

  /** `t * span + lo`: with t in [0, 1] it climbs from lo to lo + span. */
  function Climb(t: real, lo: real, span: real): (v: real)
    requires 0.0 <= t <= 1.0 && 0.0 <= span
    ensures lo <= v <= lo + span
  {
    t * span + lo
  }

  /** `lo - t * span`: with t in [-1, 0] it climbs from lo to lo + span as t
      falls. */
  function Descend(t: real, lo: real, span: real): (v: real)
    requires -1.0 <= t <= 0.0 && 0.0 <= span
    ensures lo <= v <= lo + span
  {
    lo - t * span
  }
}

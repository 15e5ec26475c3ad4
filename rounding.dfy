/** The real-to-integer conversions of the Kotlin standard library that the
    viewer's geometry uses, stated over exact reals. */
module Rounding {

  /** `roundToInt()`: the nearest integer, a half rounding up (as `Math.round`). */
  function Round(x: real): int
  {
    (x + 0.5).Floor
  }

  /** `toInt()` on a floating-point value: truncation toward zero. */
  function Trunc(x: real): (n: int)
    ensures 0.0 <= x ==> 0 <= n && n as real <= x < n as real + 1.0
    ensures x < 0.0 ==> n <= 0 && x <= n as real < x + 1.0
  {
    if x >= 0.0 then x.Floor else -((-x).Floor)
  }

  /** The value `v` pushed into the range `[lo, hi]` (a reference definition). */
  function Clamp(v: int, lo: int, hi: int): int
  {
    if v < lo then lo else if v > hi then hi else v
  }

  function Abs(x: real): real
  {
    if x < 0.0 then -x else x
  }

  /** `Round` gives the integer nearest its argument, a half going up. */
  lemma RoundIsNearest(x: real)
    ensures x - 0.5 < Round(x) as real <= x + 0.5
  {
  }

  lemma RoundIsMonotone(x: real, y: real)
    requires x <= y
    ensures Round(x) <= Round(y)
  {
  }

  lemma RoundAtLeast(x: real, n: int)
    requires n as real - 0.5 <= x
    ensures n <= Round(x)
  {
  }

  /** Everything within half a unit below or above zero rounds to zero. */
  lemma RoundNearZero(x: real)
    requires -0.5 <= x < 0.5
    ensures Round(x) == 0
  {
  }

  lemma RoundOfInteger(n: int)
    ensures Round(n as real) == n
  {
  }

  lemma TruncOfInteger(n: int)
    ensures Trunc(n as real) == n
  {
  }

  /** A truncated value reaches every integer its argument reaches. */
  lemma TruncAtLeast(x: real, k: int)
    requires 0 <= k && k as real <= x
    ensures k <= Trunc(x)
  {
  }
}

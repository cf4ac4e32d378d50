/**
  Python's `round(x, 0)` on a number, in exact arithmetic: the nearest whole
  number, with an exact tie going to the even neighbour (banker's rounding).
  The binary floating-point representation error of the real implementation
  is not modelled.
*/
module Rounding {

  /** Round to the nearest integer, ties to even. */
  function RoundHalfEven(x: real): (r: int)
    ensures -0.5 <= r as real - x <= 0.5
    ensures (r as real - x == 0.5 || x - r as real == 0.5) ==> r % 2 == 0
  {
    var f := x.Floor;
    var frac := x - f as real;
    if frac < 0.5 then f
    else if frac > 0.5 then f + 1
    else if f % 2 == 0 then f
    else f + 1
  }

  /** The two properties in `RoundHalfEven`'s contract determine its result:
      no other integer is within one half of `x` and even on a tie. */
  lemma RoundHalfEvenUnique(x: real, k: int)
    requires -0.5 <= k as real - x <= 0.5
    requires (k as real - x == 0.5 || x - k as real == 0.5) ==> k % 2 == 0
    ensures k == RoundHalfEven(x)
  {
  }

  /** `r` is a whole number within one half of `x`, and even when `x` lies
      exactly halfway between two whole numbers. */
  ghost predicate IsRounded(x: real, r: real)
  {
    && r.Floor as real == r
    && -0.5 <= r - x <= 0.5
    && ((r - x == 0.5 || x - r == 0.5) ==> r.Floor % 2 == 0)
  }

  /** `round(x, 0)`: a whole-valued float. */
  function Round(x: real): (r: real)
    ensures IsRounded(x, r)
  {
    var k := RoundHalfEven(x);
    assert (k as real).Floor == k;
    k as real
  }

  /** `IsRounded` determines `Round`: it is an independent definition of
      rounding to 0 digits. */
  lemma RoundUnique(x: real, y: real)
    requires IsRounded(x, y)
    ensures y == Round(x)
  {
    RoundHalfEvenUnique(x, y.Floor);
  }

  /** Rounding a non-negative number gives a non-negative number. */
  lemma RoundNonNegative(x: real)
    requires x >= 0.0
    ensures Round(x) >= 0.0
  {
  }

  /** Rounding leaves a whole number unchanged. */
  lemma RoundWhole(k: int)
    ensures Round(k as real) == k as real
  {
    RoundUnique(k as real, k as real);
  }
}

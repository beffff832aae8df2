/** Quantisation on values: a real number rounded to a whole number of units of 10^-places. */
module Quantisation {
  import opened Wrappers
  import opened Errors
  import opened Powers
  import opened Rounding
  import opened SignificantDigits
  import opened Decimals
  import opened RatingRules

  /** One unit in the last place. */
  function Ulp(places: nat): real {
    Shift(10, 1.0, 0 - places)
  }

  /** x rounded to places decimal places. */
  function Quantised(mode: Mode, places: nat, x: real): real {
    Shift(10, Units(mode, places, x) as real, 0 - places)
  }

  /** The quantize operation either refuses or returns the quantised value, written at the requested scale. */
  lemma QuantizeValue(prec: nat, mode: Mode, places: nat, d: Decimal)
    ensures var q := Quantize(prec, mode, places, d); q.Success? ==>
      Val(q.value) == Quantised(mode, places, Val(d)) && q.value.exp == 0 - places && Fits(10, prec, q.value.coef)
    ensures Quantize(prec, mode, places, d).Success? <==> Fits(10, prec, Units(mode, places, Val(d)))
  {
    QuantizeRounds(prec, mode, places, d);
  }

  /** Quantisation of decimals never reverses an order, in any mode and across zero. */
  lemma QuantisedMonotone(mode: Mode, places: nat, x: real, y: real)
    requires x <= y
    ensures Units(mode, places, x) <= Units(mode, places, y)
    ensures Quantised(mode, places, x) <= Quantised(mode, places, y)
  {
    ShiftOrder(10, x, y, places);
    RoundMonotone(mode, Shift(10, x, places), Shift(10, y, places));
    ShiftOrder(10, Units(mode, places, x) as real, Units(mode, places, y) as real, 0 - places);
  }

  /** The result is a whole number of units, and a second quantisation changes nothing. */
  lemma QuantisedIdempotent(mode: Mode, places: nat, x: real)
    ensures IsWhole(Quantised(mode, places, x), places)
    ensures Quantised(mode, places, Quantised(mode, places, x)) == Quantised(mode, places, x)
  {
    ShiftAdd(10, Units(mode, places, x) as real, 0 - places, places);
    UnitsKeepWhole(mode, places, Quantised(mode, places, x));
  }

  /** Whole numbers of units are kept, and nothing else is. */
  lemma QuantisedFixes(mode: Mode, places: nat, x: real)
    ensures Quantised(mode, places, x) == x <==> IsWhole(x, places)
  {
    UnitsKeepWhole(mode, places, x);
  }

  /** Strictly within one unit, and within half a unit in the HALF modes. */
  lemma QuantisedError(mode: Mode, places: nat, x: real)
    ensures Abs(Quantised(mode, places, x) - x) < Ulp(places)
    ensures IsHalf(mode) ==> Abs(Quantised(mode, places, x) - x) <= 0.5 * Ulp(places)
  {
    var s := Shift(10, x, places);
    var n := Units(mode, places, x) as real;
    RoundError(mode, s);
    ShiftAdd(10, x, places, 0 - places);
    ShiftLinear(10, n, s, 0 - places);
    ShiftAbs(10, n - s, 0 - places);
    ShiftOrder(10, Abs(n - s), 1.0, 0 - places);
    ShiftOrder(10, Abs(n - s), 0.5, 0 - places);
    HalfUlp(places);
  }

  lemma HalfUlp(places: nat)
    ensures Shift(10, 0.5, 0 - places) == 0.5 * Ulp(places)
  {
    ShiftScale(10, 0.5, 1.0, 0 - places);
    assert Product(0.5, 1.0) == 0.5;
    assert Product(0.5, Ulp(places)) == 0.5 * Ulp(places);
  }

  /** A whole bound on the exact value bounds the quantised one. */
  lemma QuantisedCap(mode: Mode, places: nat, x: real, cap: real)
    requires IsWhole(cap, places)
    ensures x <= cap ==> Quantised(mode, places, x) <= cap
    ensures x >= cap ==> Quantised(mode, places, x) >= cap
  {
    QuantisedFixes(mode, places, cap);
    if x <= cap {
      QuantisedMonotone(mode, places, x, cap);
    }
    if x >= cap {
      QuantisedMonotone(mode, places, cap, x);
    }
  }

  lemma ZeroIsWhole(places: nat)
    ensures IsWhole(0.0, places)
  {
    ShiftLinear(10, 0.0, 0.0, places);
  }

  /** Quantising two numbers of the same sign moves their difference by at most one unit. */
  lemma QuantisedDifference(mode: Mode, places: nat, x: real, y: real)
    requires x >= 0.0 && y >= 0.0
    ensures Abs(Quantised(mode, places, x) - Quantised(mode, places, y)) <= Abs(x - y) + Ulp(places)
  {
    var s, t := Shift(10, x, places), Shift(10, y, places);
    var m, n := Round(mode, s) as real, Round(mode, t) as real;
    ShiftSign(x, places);
    ShiftSign(y, places);
    RoundDifference(mode, s, t);
    DifferenceInUnits(m, n, s, t, places);
    ShiftAdd(10, x, places, 0 - places);
    ShiftAdd(10, y, places, 0 - places);
  }

  lemma ShiftSign(x: real, k: int)
    ensures x >= 0.0 <==> Shift(10, x, k) >= 0.0
    ensures x > 0.0 <==> Shift(10, x, k) > 0.0
  {
    ShiftLinear(10, 0.0, 0.0, k);
    ShiftOrder(10, 0.0, x, k);
  }

  lemma DifferenceInUnits(m: real, n: real, s: real, t: real, places: nat)
    requires Abs(m - n) <= Abs(s - t) + 1.0
    ensures Abs(Shift(10, m, 0 - places) - Shift(10, n, 0 - places))
         <= Abs(Shift(10, s, 0 - places) - Shift(10, t, 0 - places)) + Ulp(places)
  {
    var k := 0 - places;
    ShiftLinear(10, m, n, k);
    ShiftLinear(10, s, t, k);
    ShiftAbs(10, m - n, k);
    ShiftAbs(10, s - t, k);
    ShiftLinear(10, Abs(s - t), 1.0, k);
    ShiftOrder(10, Abs(m - n), Abs(s - t) + 1.0, k);
  }
}

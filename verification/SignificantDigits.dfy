/**
 Rounding a real number to p significant digits in radix b, ties to even. With b = 10 this is what the
 decimal context does after every arithmetic operation; with b = 2 and p = 53 it is binary64.
 */
module SignificantDigits {
  import opened Powers
  import opened Rounding

  /** x, scaled by b^-e, has exactly p digits before the point. */
  ghost predicate IsScale(b: Radix, p: nat, x: real, e: int) {
    Pow(b, p - 1) <= Abs(Shift(b, x, -e)) < Pow(b, p)
  }

  /** Distance of |x| from the interval [b^(p-1), b^p), as a termination measure. */
  ghost function Distance(b: Radix, p: nat, x: real): nat
    requires x != 0.0
  {
    PowPositive(b, p);
    if Abs(x) >= Pow(b, p) then Abs(x).Floor + 1
    else if Abs(x) < Pow(b, p - 1) then FloorOfQuotient(Pow(b, p), Abs(x)) + 1
    else 0
  }

  ghost function FloorOfQuotient(x: real, y: real): nat
    requires x > 0.0 && y > 0.0
  {
    assert x / y > 0.0;
    (x / y).Floor
  }

  lemma QuotientShrinks(b: Radix, x: real, y: real)
    requires x > 0.0 && y > 0.0 && Times(b, y) < x
    ensures FloorOfQuotient(x, Times(b, y)) < FloorOfQuotient(x, y)
  {
    var q, h := x / y, x / Times(b, y);
    assert q * y == x && h * Times(b, y) == x;
    assert Product(h, Times(b, y)) == Product(Times(b, h), y) by { ProductRadix(b, h, y); ProductRadix(b, y, h); }
    assert (q - Times(b, h)) * y == 0.0;
    assert q == Times(b, h);
    assert h > 1.0;
  }

  /** The exponent of the last kept digit of x. */
  function Scale(b: Radix, p: nat, x: real): (e: int)
    requires p >= 1 && x != 0.0
    ensures IsScale(b, p, x, e)
    decreases Distance(b, p, x)
  {
    ShiftStep(b, 1.0, p - 1);
    PowMonotone(b, 1, p);
    if Abs(x) >= Pow(b, p) then
      var e := Scale(b, p, Over(b, x));
      ShiftStep(b, x, -e - 1);
      ShiftStep(b, Over(b, x), -e - 1);
      e + 1
    else if Abs(x) < Pow(b, p - 1) then
      QuotientShrinks(b, Pow(b, p), Abs(x));
      var e := Scale(b, p, Times(b, x));
      ShiftStep(b, x, -e);
      e - 1
    else 0
  }

  /** x rounded to p significant digits of radix b, ties to even. */
  function RoundSig(b: Radix, p: nat, x: real): real
    requires p >= 1
  {
    if x == 0.0 then 0.0
    else
      var e := Scale(b, p, x);
      Shift(b, Round(HalfEven, Shift(b, x, -e)) as real, e)
  }

  /** x can be written with a coefficient of at most p digits. */
  ghost predicate Representable(b: Radix, p: nat, x: real) {
    exists c: int, e: int :: Writes(b, p, x, c, e)
  }

  ghost predicate Writes(b: Radix, p: nat, x: real, c: int, e: int) {
    Fits(b, p, c) && x == Shift(b, c as real, e)
  }

  predicate Fits(b: Radix, p: nat, c: int) {
    0 - PowNat(b, p) < c < PowNat(b, p)
  }

  lemma ScaleUnique(b: Radix, p: nat, x: real, d: int, e: int)
    requires p >= 1 && IsScale(b, p, x, d) && IsScale(b, p, x, e)
    ensures d == e
  {
    ScaleBelow(b, p, x, x, d, e);
    ScaleBelow(b, p, x, x, e, d);
  }

  /** |x| in units of b^-e, as a shift of |x| itself. */
  lemma ShiftAbs(b: Radix, x: real, e: int)
    ensures Abs(Shift(b, x, e)) == Shift(b, Abs(x), e)
  {
    ShiftLinear(b, x, 0.0, e);
    ShiftOrder(b, x, 0.0, e);
  }

  lemma ScaleBelow(b: Radix, p: nat, x: real, y: real, d: int, e: int)
    requires p >= 1 && Abs(x) <= Abs(y) && IsScale(b, p, x, d) && IsScale(b, p, y, e)
    ensures d <= e
  {
    // b^(p-1+d) <= |x| <= |y| < b^(p+e)
    ScaleBounds(b, p, x, d);
    ScaleBounds(b, p, y, e);
    PowOrder(b, p - 1 + d, p + e);
  }

  lemma ScaleBounds(b: Radix, p: nat, x: real, e: int)
    requires IsScale(b, p, x, e)
    ensures Pow(b, p - 1 + e) <= Abs(x) < Pow(b, p + e)
  {
    ShiftAbs(b, x, -e);
    ShiftAdd(b, Abs(x), -e, e);
    ShiftOrder(b, Pow(b, p - 1), Shift(b, Abs(x), -e), e);
    ShiftOrder(b, Shift(b, Abs(x), -e), Pow(b, p), e);
    ShiftAdd(b, 1.0, p - 1, e);
    ShiftAdd(b, 1.0, p, e);
  }

  /** A representable number is a whole number of units of its last kept digit. */
  lemma WholeAtScale(b: Radix, p: nat, x: real, e: int) returns (n: int)
    requires p >= 1 && x != 0.0 && Representable(b, p, x) && e == Scale(b, p, x)
    ensures Shift(b, x, -e) == n as real
  {
    var c: int, k: int :| Writes(b, p, x, c, k);
    PowIsNat(b, p);
    ShiftAdd(b, c as real, k, -e);
    assert e <= k by {
      ScaleBounds(b, p, x, e);
      ShiftAbs(b, c as real, k);
      ShiftOrder(b, Abs(c as real), Pow(b, p), k);
      ShiftAdd(b, 1.0, p, k);
      PowOrder(b, p - 1 + e, p + k);
    }
    ShiftInteger(b, c, k - e);
    n := c * PowNat(b, k - e);
  }

  /** And a whole number of any smaller unit in which it has at least p digits. */
  lemma WholeInUnits(b: Radix, p: nat, x: real, e: int) returns (n: int)
    requires p >= 1 && Representable(b, p, x) && x >= Pow(b, p - 1 + e)
    ensures Shift(b, x, -e) == n as real
  {
    hide Shift, Representable;
    PowPositive(b, p - 1 + e);
    var s := Scale(b, p, x);
    ScaleBounds(b, p, x, s);
    PowOrder(b, p - 1 + e, p + s);
    var m := WholeAtScale(b, p, x, s);
    ShiftAdd(b, x, -s, s - e);
    ShiftInteger(b, m, s - e);
    n := m * PowNat(b, s - e);
  }

  /** A representable number is not changed. */
  lemma RoundSigFixes(b: Radix, p: nat, x: real)
    requires p >= 1 && Representable(b, p, x)
    ensures RoundSig(b, p, x) == x
  {
    if x != 0.0 {
      var e := Scale(b, p, x);
      var n := WholeAtScale(b, p, x, e);
      RoundInteger(HalfEven, n);
      ShiftAdd(b, x, -e, e);
    }
  }

  /** The result is representable. */
  lemma RoundSigRepresentable(b: Radix, p: nat, x: real)
    requires p >= 1
    ensures Representable(b, p, RoundSig(b, p, x))
  {
    if x == 0.0 {
      ShiftLinear(b, 0.0, 0.0, 0);
      assert Writes(b, p, 0.0, 0, 0);
    } else {
      var e := Scale(b, p, x);
      var c := Round(HalfEven, Shift(b, x, -e));
      PowIsNat(b, p);
      RoundBetween(HalfEven, 0 - PowNat(b, p), Shift(b, x, -e), PowNat(b, p));
      if Fits(b, p, c) {
        assert Writes(b, p, RoundSig(b, p, x), c, e);
      } else {
        CarryOut(b, p, c, e);
      }
    }
  }

  /** Rounding up to b^p itself leaves a one-digit coefficient. */
  lemma CarryOut(b: Radix, p: nat, c: int, e: int)
    requires p >= 1 && (c == PowNat(b, p) || c == 0 - PowNat(b, p))
    ensures Representable(b, p, Shift(b, c as real, e))
  {
    var s := if c < 0 then -1 else 1;
    PowIsNat(b, p);
    ShiftLinear(b, 1.0, 0.0, p);
    ShiftAdd(b, s as real, p, e);
    assert Fits(b, p, s) by { PowMonotone(b, 1, p); PowIsNat(b, p); }
    assert Writes(b, p, Shift(b, c as real, e), s, p + e);
  }

  /** Exactly the representable numbers are left alone. */
  lemma RoundSigExact(b: Radix, p: nat, x: real)
    requires p >= 1
    ensures RoundSig(b, p, x) == x <==> Representable(b, p, x)
  {
    RoundSigRepresentable(b, p, x);
    if Representable(b, p, x) {
      RoundSigFixes(b, p, x);
    }
  }

  /** In units of its last kept digit, a rounded positive number stays between b^(p-1) and b^p. */
  lemma RoundSigBounds(b: Radix, p: nat, x: real, e: int)
    requires p >= 1 && x > 0.0 && e == Scale(b, p, x)
    ensures Pow(b, p - 1 + e) <= RoundSig(b, p, x) <= Pow(b, p + e)
  {
    hide Shift, Round;
    PowIsNat(b, p);
    PowIsNat(b, p - 1);
    ShiftAbs(b, x, -e);
    RoundBetween(HalfEven, PowNat(b, p - 1), Shift(b, x, -e), PowNat(b, p));
    var c := Round(HalfEven, Shift(b, x, -e));
    ShiftOrder(b, Pow(b, p - 1), c as real, e);
    ShiftOrder(b, c as real, Pow(b, p), e);
    ShiftAdd(b, 1.0, p - 1, e);
    ShiftAdd(b, 1.0, p, e);
  }

  lemma RoundSigMonotonePositive(b: Radix, p: nat, x: real, y: real)
    requires p >= 1 && 0.0 < x <= y
    ensures 0.0 < RoundSig(b, p, x) <= RoundSig(b, p, y)
  {
    hide Shift, Round;
    var d, e := Scale(b, p, x), Scale(b, p, y);
    ScaleBelow(b, p, x, y, d, e);
    RoundSigBounds(b, p, x, d);
    RoundSigBounds(b, p, y, e);
    PowPositive(b, p - 1 + d);
    if d == e {
      ShiftOrder(b, x, y, -e);
      RoundMonotone(HalfEven, Shift(b, x, -e), Shift(b, y, -e));
      ShiftOrder(b, Round(HalfEven, Shift(b, x, -e)) as real, Round(HalfEven, Shift(b, y, -e)) as real, e);
    } else {
      PowMonotone(b, p + d, p - 1 + e);
    }
  }

  lemma NegateScale(b: Radix, p: nat, x: real, e: int)
    requires p >= 1 && x != 0.0 && e == Scale(b, p, x)
    ensures Scale(b, p, -x) == e
    ensures Shift(b, -x, -e) == -Shift(b, x, -e)
  {
    ShiftLinear(b, x, 0.0, -e);
    ScaleUnique(b, p, -x, Scale(b, p, -x), e);
  }

  lemma RoundHalfEvenOdd(x: real)
    ensures Round(HalfEven, -x) == -Round(HalfEven, x)
  {
  }

  /** Rounding is symmetric about zero. */
  lemma RoundSigOdd(b: Radix, p: nat, x: real)
    requires p >= 1
    ensures RoundSig(b, p, -x) == -RoundSig(b, p, x)
  {
    hide Shift, Round;
    if x != 0.0 {
      var e := Scale(b, p, x);
      NegateScale(b, p, x, e);
      RoundHalfEvenOdd(Shift(b, x, -e));
      ShiftLinear(b, Round(HalfEven, Shift(b, x, -e)) as real, 0.0, e);
    }
  }

  /** Rounding to p digits never reverses an order. */
  lemma RoundSigMonotone(b: Radix, p: nat, x: real, y: real)
    requires p >= 1 && x <= y
    ensures RoundSig(b, p, x) <= RoundSig(b, p, y)
  {
    if x > 0.0 {
      RoundSigMonotonePositive(b, p, x, y);
    } else if y < 0.0 {
      RoundSigMonotonePositive(b, p, -y, -x);
      RoundSigOdd(b, p, x);
      RoundSigOdd(b, p, y);
    } else {
      RoundSigSign(b, p, x);
      RoundSigSign(b, p, y);
    }
  }

  lemma RoundSigSign(b: Radix, p: nat, x: real)
    requires p >= 1
    ensures x >= 0.0 ==> RoundSig(b, p, x) >= 0.0
    ensures x <= 0.0 ==> RoundSig(b, p, x) <= 0.0
  {
    if x > 0.0 {
      RoundSigMonotonePositive(b, p, x, x);
    } else if x < 0.0 {
      RoundSigMonotonePositive(b, p, -x, -x);
      RoundSigOdd(b, p, x);
    }
  }

  /** A representable bound on the exact number bounds the rounded one. */
  lemma RoundSigCap(b: Radix, p: nat, x: real, cap: real)
    requires p >= 1 && Representable(b, p, cap)
    ensures x <= cap ==> RoundSig(b, p, x) <= cap
    ensures x >= cap ==> RoundSig(b, p, x) >= cap
  {
    RoundSigFixes(b, p, cap);
    if x <= cap {
      RoundSigMonotone(b, p, x, cap);
    }
    if x >= cap {
      RoundSigMonotone(b, p, cap, x);
    }
  }

  /** A number within half a unit of the p-digit coefficient c is rounded to it. */
  lemma RoundSigNearest(b: Radix, p: nat, x: real, e: int, c: int)
    requires p >= 1 && IsScale(b, p, x, e) && Abs(Shift(b, x, -e) - c as real) < 0.5
    ensures x != 0.0 && RoundSig(b, p, x) == Shift(b, c as real, e)
  {
    hide Shift, Round;
    ShiftLinear(b, x, 0.0, -e);
    ShiftLinear(b, 0.0, 0.0, -e);
    PowPositive(b, p - 1);
    ScaleUnique(b, p, x, Scale(b, p, x), e);
    RoundMeets(HalfEven, Shift(b, x, -e), c);
  }

  /** The absolute error is at most half a unit of the last kept digit. */
  lemma RoundSigStep(b: Radix, p: nat, x: real)
    requires p >= 1 && x != 0.0
    ensures Abs(RoundSig(b, p, x) - x) <= 0.5 * Pow(b, Scale(b, p, x))
  {
    var e := Scale(b, p, x);
    var s := Shift(b, x, -e);
    RoundError(HalfEven, s);
    var delta := Round(HalfEven, s) as real - s;
    ShiftLinear(b, Round(HalfEven, s) as real, s, e);
    ShiftAdd(b, x, -e, e);
    assert RoundSig(b, p, x) - x == Shift(b, delta, e);
    ShiftAbs(b, delta, e);
    ShiftOrder(b, Abs(delta), 0.5, e);
    ShiftScale(b, 0.5, 1.0, e);
    assert Product(0.5, 1.0) == 0.5 && Product(0.5, Pow(b, e)) == 0.5 * Pow(b, e);
  }

  /** The relative error is at most half of b^(1-p). */
  lemma RoundSigError(b: Radix, p: nat, x: real)
    requires p >= 1
    ensures Abs(RoundSig(b, p, x) - x) <= 0.5 * Shift(b, Abs(x), 1 - p)
  {
    if x == 0.0 {
      ShiftLinear(b, 0.0, 0.0, 1 - p);
    } else {
      var e := Scale(b, p, x);
      RoundSigStep(b, p, x);
      ScaleBounds(b, p, x, e);
      ShiftOrder(b, Pow(b, p - 1 + e), Abs(x), 1 - p);
      ShiftAdd(b, 1.0, p - 1 + e, 1 - p);
    }
  }
}

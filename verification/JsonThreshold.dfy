/**
 How far the projection to JSON numbers is exact: for amounts in cents up to 2^46, for vehicle values with up to four
 decimals, for numbers of up to fifteen digits, and in each case no further.
 */
module JsonThreshold {
  import opened Powers
  import opened Rounding
  import opened SignificantDigits
  import opened Decimals
  import opened RatingRules
  import opened Quantisation
  import opened JsonNumber
  import DefaultRules
  import ShortestPrinting

  /** One cent above 2^46. */
  const FIRST_LOST := Dec(7036874417766401, -2)

  /** What is printed for it: two cents above. */
  const PRINTED := Dec(7036874417766402, -2)

  /** 2^46 and one sixty-fourth, the nearest binary64 of both. */
  const THEIR_FLOAT := 70368744177664.015625

  /** Below 2^k the nearest binary64 is within 2^(k-54). */
  lemma BinaryStep(x: real, k: int)
    requires 0.0 < x < Pow(2, k)
    ensures Abs(Binary64(x) - x) <= Pow(2, k - 54)
  {
    hide RoundSig;
    var e := Scale(2, 53, x);
    ScaleBounds(2, 53, x, e);
    PowOrder(2, 52 + e, k);
    RoundSigStep(2, 53, x);
    ShiftStep(2, 1.0, e - 1);
    PowMonotone(2, e - 1, k - 54);
  }

  lemma MorePowers()
    ensures Pow(2, 46) == 70368744177664.0 && Pow(2, 47) == 140737488355328.0
    ensures Pow(2, -8) == 0.00390625 && Pow(2, -7) == 0.0078125
  {
    Literals();
    PowStep(2, 46); PowStep(2, 47); PowStep(2, 48); PowStep(2, 49); PowStep(2, 50); PowStep(2, 51);
    SmallHalves();
  }

  lemma SmallHalves()
    ensures Pow(2, -8) == 0.00390625 && Pow(2, -7) == 0.0078125
  {
    assert Shift(2, 1.0, -8) == Shift(2, 0.5, -7) == Shift(2, 0.25, -6) == Shift(2, 0.125, -5);
    assert Shift(2, 0.125, -5) == Shift(2, 0.0625, -4) == Shift(2, 0.03125, -3) == Shift(2, 0.015625, -2);
    assert Shift(2, 0.015625, -2) == Shift(2, 0.0078125, -1) == 0.00390625;
    ShiftStep(2, 1.0, -8);
  }

  /** In cents. */
  lemma Cents(x: real)
    ensures Shift(10, x, 2) == 100.0 * x
  {
    assert Shift(10, x, 2) == Shift(10, 10.0 * x, 1) == Shift(10, 100.0 * x, 0);
  }

  /** From 10^13 on, at most 16 digits write nothing finer than cents. */
  lemma SixteenDigitsAreCents(w: Decimal)
    requires Val(w) >= Pow(10, 13) && Digits(AbsInt(w.coef)) <= 16
    ensures IsWhole(Val(w), 2)
  {
    hide Digits, Shift, PowNat;
    DigitsFit(w, 16);
    var c := w.coef;
    if w.exp >= -2 {
      ShiftAdd(10, c as real, w.exp, 2);
      ShiftInteger(10, c, w.exp + 2);
    } else {
      PowIsNat(10, 16);
      ShiftOrder(10, c as real, Pow(10, 16), w.exp);
      ShiftAdd(10, 1.0, 16, w.exp);
      PowMonotone(10, 16 + w.exp, 13);
    }
  }

  lemma CentsApart(x: real, y: real)
    requires IsWhole(x, 2) && IsWhole(y, 2) && Abs(x - y) < 0.01
    ensures x == y
  {
    hide Shift;
    Cents(x);
    Cents(y);
    var m, n := Shift(10, x, 2).Floor, Shift(10, y, 2).Floor;
    assert m as real == 100.0 * x && n as real == 100.0 * y;
    assert -1.0 < m as real - n as real < 1.0;
    assert m == n;
  }

  lemma BinaryLimit()
    ensures Binary64(70368744177664.0) == 70368744177664.0 && Binary64(140737488355328.0) == 140737488355328.0
  {
    MorePowers();
    BinaryPower(46);
    BinaryPower(47);
  }

  /** A number with the same binary64 as one below 2^46 that is not next to it lies below 2^46 too, and close. */
  lemma SameFloatIsNear(x: real, y: real)
    requires 0.0 < x <= 70368744177663.99 && Binary64(y) == Binary64(x)
    ensures 0.0 < y && Abs(y - x) <= 0.0078125
  {
    hide Binary64, Pow;
    MorePowers();
    BinaryLimit();
    BinaryStep(x, 46);
    PositiveBinary64(x);
    PositiveBinary64(y);
    if y >= 70368744177664.0 {
      NoLowerFloat(70368744177664.0, y);
    }
    BinaryStep(y, 46);
  }

  lemma NoLowerFloat(x: real, y: real)
    requires x <= y
    ensures Binary64(x) <= Binary64(y)
  {
    RoundSigMonotone(2, 53, x, y);
  }

  lemma PrintedCents(d: Decimal, w: Decimal)
    requires 10000000000000.01 <= Val(d) <= 70368744177663.99 && IsWhole(Val(d), 2)
    requires Digits(AbsInt(d.coef)) <= 16 && Prints(w, Binary64(Val(d)))
    ensures Val(w) == Val(d)
  {
    hide Val, Binary64, Digits, Pow, IsWhole;
    TenPowers();
    SameFloatIsNear(Val(d), Val(w));
    assert NotBetter(d, w, Binary64(Val(d)));
    SixteenDigitsAreCents(w);
    CentsApart(Val(w), Val(d));
  }

  lemma InCents(d: Decimal) returns (c: int)
    requires 0.0 < Val(d) && IsWhole(Val(d), 2)
    ensures 0 < c && Val(Dec(c, -2)) == Val(d) && c as real == 100.0 * Val(d)
  {
    c := Shift(10, Val(d), 2).Floor;
    Cents(Val(d));
    ShiftBack(10, Val(d), 2);
  }

  /** Every amount in cents up to 2^46 is carried. */
  lemma CentsCarried(d: Decimal)
    requires 0.0 < Val(d) <= 70368744177664.0 && IsWhole(Val(d), 2)
    ensures Carries(AsJsonNumber(d), d)
  {
    hide Val, Binary64, Prints, Digits, Pow, PowNat, IsWhole;
    var c := InCents(d);
    Literals();
    PowIsNat(10, 15);
    PowIsNat(10, 16);
    if c < 1000000000000000 {
      DigitsBelow(c, 15);
      FifteenDigitsCarried(Dec(c, -2));
      CarriesByValue(d, Dec(c, -2));
    } else if !IsIntegral(Val(d)) {
      DigitsBelow(c, 16);
      NotWhole(c, Val(d));
      forall w: Decimal | Prints(w, Binary64(Val(d))) ensures Val(w) == Val(d) {
        PrintedCents(Dec(c, -2), w);
      }
      ShortestPrinting.CarriedIfAllEqual(d);
    }
  }

  /** An amount in cents that is no whole number lies a cent inside the whole numbers around it. */
  lemma NotWhole(c: int, x: real)
    requires c as real == 100.0 * x && !IsIntegral(x) && 10000000000000.0 <= x <= 70368744177664.0
    ensures 10000000000000.01 <= x <= 70368744177663.99
  {
    assert 10000000000000.0.Floor == 10000000000000 && 70368744177664.0.Floor == 70368744177664;
    assert c > 1000000000000000 && c < 7036874417766400;
  }

  // ---------------------------------------------------------------- the first amount that is lost

  lemma SixteenDigitsExactly(n: nat)
    requires 1000000000000000 <= n < 10000000000000000
    ensures Digits(n) == 16
  {
    hide PowNat;
    Literals();
    PowIsNat(10, 15);
    PowIsNat(10, 16);
    DigitsBelow(n, 16);
    if Digits(n) <= 15 {
      PowNatMonotone(Digits(n), 15);
    }
  }

  lemma TwoPlaces(n: int)
    ensures Val(Dec(n, -2)) == 0.01 * n as real
  {
    var x := n as real;
    assert Shift(10, x, -2) == Shift(10, 0.1 * x, -1) == Shift(10, 0.01 * x, 0);
  }

  /** One and two cents above 2^46 are nearest to the same binary64. */
  lemma SameFloat(x: real)
    requires 70368744177664.01 <= x <= 70368744177664.02
    ensures Binary64(x) == THEIR_FLOAT
  {
    hide RoundSig;
    Literals();
    var s := Shift(2, x, 6);
    assert s == 64.0 * x by {
      assert Shift(2, x, 6) == Shift(2, 2.0 * x, 5) == Shift(2, 4.0 * x, 4) == Shift(2, 8.0 * x, 3);
      assert Shift(2, 8.0 * x, 3) == Shift(2, 16.0 * x, 2) == Shift(2, 32.0 * x, 1) == Shift(2, 64.0 * x, 0);
    }
    assert 0 - -6 == 6;
    RoundSigNearest(2, 53, x, -6, 4503599627370497);
    var c := 4503599627370497.0;
    assert Shift(2, c, -6) == Shift(2, 0.5 * c, -5) == Shift(2, 0.25 * c, -4) == Shift(2, 0.125 * c, -3);
    assert Shift(2, 0.125 * c, -3) == Shift(2, 0.0625 * c, -2) == Shift(2, 0.03125 * c, -1);
    assert Shift(2, 0.03125 * c, -1) == 0.015625 * c;
  }

  /** A short number with that binary64 is one of the two. */
  lemma OnlyTwo(w: Decimal)
    requires Binary64(Val(w)) == THEIR_FLOAT && Digits(AbsInt(w.coef)) <= 16
    ensures Val(w) == 70368744177664.01 || Val(w) == 70368744177664.02
  {
    hide Val, Binary64, Digits, Pow, IsWhole;
    MorePowers();
    TenPowers();
    BinaryLimit();
    PositiveBinary64(Val(w));
    if Val(w) >= 140737488355328.0 {
      NoLowerFloat(140737488355328.0, Val(w));
    }
    BinaryStep(Val(w), 47);
    SixteenDigitsAreCents(w);
    var c := InCents(w);
    assert 7036874417766400 < c < 7036874417766403;
  }

  lemma PrintedIsPrinted()
    ensures Prints(PRINTED, THEIR_FLOAT)
  {
    hide Val, Binary64, Digits;
    var n := 7036874417766401;
    TwoPlaces(n);
    TwoPlaces(n + 1);
    SixteenDigitsExactly(n);
    SixteenDigitsExactly(n + 1);
    SameFloat(Val(PRINTED));
    forall w: Decimal | Binary64(Val(w)) == THEIR_FLOAT ensures NotBetter(w, PRINTED, THEIR_FLOAT) {
      if Digits(AbsInt(w.coef)) <= 16 {
        OnlyTwo(w);
        var t := if Val(w) == Val(PRINTED) then PRINTED else FIRST_LOST;
        TrimmedIsSmallest(t, w);
        DigitsMonotone(t.coef, w.coef);
      }
    }
  }

  /** One cent above 2^46 is printed as two cents above. */
  lemma FirstLost()
    ensures Val(FIRST_LOST) == 70368744177664.01 && IsWhole(Val(FIRST_LOST), 2)
    ensures Prints(PRINTED, Binary64(Val(FIRST_LOST))) && !Carries(AsJsonNumber(FIRST_LOST), FIRST_LOST)
  {
    hide Val, Binary64, Prints, Digits;
    TwoPlaces(7036874417766401);
    TwoPlaces(7036874417766402);
    Cents(Val(FIRST_LOST));
    SameFloat(Val(FIRST_LOST));
    PrintedIsPrinted();
    assert 70368744177664.01.Floor == 70368744177664;
  }

  /** All amounts in cents from zero to a limit are carried exactly when the limit is below 2^46 and one cent. */
  lemma CentsThreshold(limit: real)
    ensures (forall d: Decimal | 0.0 <= Val(d) <= limit && IsWhole(Val(d), 2) :: Carries(AsJsonNumber(d), d))
       <==> limit < 70368744177664.01
  {
    hide Val, Carries, AsJsonNumber, IsWhole, Prints;
    FirstLost();
    if limit < 70368744177664.01 {
      forall d: Decimal | 0.0 <= Val(d) <= limit && IsWhole(Val(d), 2) ensures Carries(AsJsonNumber(d), d) {
        if Val(d) == 0.0 {
          ZeroCarried(d);
        } else {
          var c := InCents(d);
          assert c <= 7036874417766400;
          CentsCarried(d);
        }
      }
    }
  }

  lemma ZeroCarried(d: Decimal)
    requires Val(d) == 0.0
    ensures Carries(AsJsonNumber(d), d)
  {
    IntegralCarried(d);
  }

  // ---------------------------------------------------------------- vehicle values

  /** 99999999999.99999, a vehicle value with five decimals, and what is printed for it. */
  const LOST_VALUE := Dec(9999999999999999, -5)
  const CLOSER_VALUE := Dec(9999999999999998, -5)

  /** 10^11 less 2^-16, the nearest binary64 of both. */
  const VALUE_FLOAT := 99999999999.9999847412109375

  lemma FivePlaces(n: int)
    ensures Val(Dec(n, -5)) == 0.00001 * n as real && IsWhole(Val(Dec(n, -5)), 5)
  {
    var x := n as real;
    assert Shift(10, x, -5) == Shift(10, 0.1 * x, -4) == Shift(10, 0.01 * x, -3) == Shift(10, 0.001 * x, -2);
    assert Shift(10, 0.001 * x, -2) == Shift(10, 0.0001 * x, -1) == Shift(10, 0.00001 * x, 0);
    ShiftAdd(10, x, -5, 5);
    assert Shift(10, x, 0) == x;
  }

  lemma Sixteen(x: real)
    ensures Shift(2, x, 16) == 65536.0 * x
  {
    ShiftAdd(2, x, 8, 8);
    Eight(x);
    Eight(256.0 * x);
  }

  lemma Eight(x: real)
    ensures Shift(2, x, 8) == 256.0 * x
  {
    assert Shift(2, x, 8) == Shift(2, 2.0 * x, 7) == Shift(2, 4.0 * x, 6) == Shift(2, 8.0 * x, 5);
    assert Shift(2, 8.0 * x, 5) == Shift(2, 16.0 * x, 4) == Shift(2, 32.0 * x, 3) == Shift(2, 64.0 * x, 2);
    assert Shift(2, 64.0 * x, 2) == Shift(2, 128.0 * x, 1) == Shift(2, 256.0 * x, 0);
  }

  lemma SameValueFloat(x: real)
    requires x == 99999999999.99999 || x == 99999999999.99998
    ensures Binary64(x) == VALUE_FLOAT
  {
    hide Shift, RoundSig;
    Literals();
    Sixteen(x);
    assert 0 - -16 == 16;
    assert IsScale(2, 53, x, -16);
    RoundSigNearest(2, 53, x, -16, 6553599999999999);
    Sixteen(VALUE_FLOAT);
    ShiftBack(2, VALUE_FLOAT, 16);
  }

  /** A printing of that float is the closer number, so the first one is lost. */
  lemma LostValue()
    ensures 0.0 < Val(LOST_VALUE) <= Pow(10, 11) && IsWhole(Val(LOST_VALUE), 5)
    ensures !Carries(AsJsonNumber(LOST_VALUE), LOST_VALUE)
  {
    hide Val, Binary64, Digits, Shift, Trim;
    FivePlaces(9999999999999999);
    FivePlaces(9999999999999998);
    SameValueFloat(Val(LOST_VALUE));
    SameValueFloat(Val(CLOSER_VALUE));
    SixteenDigitsExactly(9999999999999999);
    SixteenDigitsExactly(9999999999999998);
    TenToEleven();
    assert 99999999999.99999.Floor == 99999999999;
    if Carries(AsJsonNumber(LOST_VALUE), LOST_VALUE) {
      var w: Decimal :| Prints(w, VALUE_FLOAT);
      assert NotBetter(CLOSER_VALUE, w, VALUE_FLOAT);
      TrimmedIsSmallest(LOST_VALUE, w);
      DigitsMonotone(LOST_VALUE.coef, w.coef);
    }
  }

  lemma TenToEleven()
    ensures Pow(10, 11) == 100000000000.0 && Pow(10, 15) == 1000000000000000.0
  {
    Literals();
    PowStep(10, 14); PowStep(10, 13); PowStep(10, 12); PowStep(10, 11);
  }

  /** Up to four decimals a vehicle value has at most fifteen digits, or is 10^11 itself. */
  lemma FourDecimalsCarried(d: Decimal)
    requires 0.0 < Val(d) <= Pow(10, 11) && IsWhole(Val(d), 4)
    ensures Carries(AsJsonNumber(d), d)
  {
    var c := Shift(10, Val(d), 4).Floor;
    ShiftAdd(10, Val(d), 4, -4);
    ShiftSign(Val(d), 4);
    ShiftOrder(10, Val(d), Pow(10, 11), 4);
    ShiftAdd(10, 1.0, 11, 4);
    hide Val, Binary64, Prints, Digits, Shift, PowNat, Carries, AsJsonNumber;
    TenToEleven();
    PowIsNat(10, 15);
    if c < 1000000000000000 {
      ValueOf(c, d);
      DigitsBelow(c, 15);
      FifteenDigitsCarried(Dec(c, -4));
      CarriesByValue(d, Dec(c, -4));
    } else {
      ShiftBack(10, Pow(10, 11), 4);
      ShiftAdd(10, 1.0, 11, 4);
      WholeCarried(d);
    }
  }

  lemma ValueOf(c: int, d: Decimal)
    requires Shift(10, c as real, -4) == Val(d)
    ensures Val(Dec(c, -4)) == Val(d)
  {
  }

  lemma WholeCarried(d: Decimal)
    requires Val(d) == 100000000000.0
    ensures Carries(AsJsonNumber(d), d)
  {
    hide Val;
    assert 100000000000.0.Floor == 100000000000;
  }

  /** All vehicle values up to the ceiling with k decimals are echoed exactly, precisely when k is at most four. */
  lemma VehicleValueDecimals(k: nat)
    ensures (forall d: Decimal | 0.0 < Val(d) <= Pow(10, 11) && IsWhole(Val(d), k) :: Carries(AsJsonNumber(d), d))
       <==> k <= 4
  {
    hide Val, Carries, AsJsonNumber, IsWhole, Prints, Pow;
    if k <= 4 {
      forall d: Decimal | 0.0 < Val(d) <= Pow(10, 11) && IsWhole(Val(d), k) ensures Carries(AsJsonNumber(d), d) {
        DefaultRules.WholeMore(Val(d), k, 4);
        FourDecimalsCarried(d);
      }
    } else {
      LostValue();
      DefaultRules.WholeMore(Val(LOST_VALUE), 5, k);
    }
  }

  /** All numbers of k digits, from zero on, are carried, precisely when k is at most fifteen. */
  lemma DigitsThreshold(k: nat)
    ensures (forall d: Decimal | Val(d) >= 0.0 && Digits(AbsInt(d.coef)) <= k :: Carries(AsJsonNumber(d), d))
       <==> k <= 15
  {
    hide Val, Carries, AsJsonNumber, Digits, IsWhole;
    if k <= 15 {
      forall d: Decimal | Val(d) >= 0.0 && Digits(AbsInt(d.coef)) <= k ensures Carries(AsJsonNumber(d), d) {
        if Val(d) == 0.0 {
          ZeroCarried(d);
        } else {
          FifteenDigitsCarried(d);
        }
      }
    } else {
      FirstLost();
      SixteenDigitsExactly(7036874417766401);
    }
  }

  /** A number below 10^m with k decimals is carried when these make at most fifteen digits. */
  lemma PlacesCarried(d: Decimal, k: nat, m: nat)
    requires 0.0 <= Val(d) <= Pow(10, m) && IsWhole(Val(d), k) && k + m < 15
    ensures Carries(AsJsonNumber(d), d)
  {
    hide Prints, Digits, Shift, PowNat, Carries, AsJsonNumber;
    if Val(d) == 0.0 {
      ZeroCarried(d);
    } else {
      var c := Shift(10, Val(d), k).Floor;
      ShiftSign(Val(d), k);
      ShiftBack(10, Val(d), k);
      ShiftOrder(10, Val(d), Pow(10, m), k);
      ShiftAdd(10, 1.0, m, k);
      PowOrder(10, m + k, 15);
      PowIsNat(10, 15);
      assert Val(Dec(c, 0 - k)) == Val(d);
      hide Val;
      DigitsBelow(c, 15);
      FifteenDigitsCarried(Dec(c, 0 - k));
      CarriesByValue(d, Dec(c, 0 - k));
    }
  }
}

/**
 The projection of a decimal to a JSON number: an integral value becomes an integer, any other the nearest
 binary64, which is printed with the fewest decimal digits that read back as the same binary64.
 */
module JsonNumber {
  import opened Powers
  import opened Rounding
  import opened SignificantDigits
  import opened Decimals
  import opened RatingRules
  import opened Quantisation

  datatype Json = JsonInt(n: int) | JsonFloat(x: real)

  /** The nearest binary64, in the range of normal numbers: 53 significant binary digits, ties to even. */
  function Binary64(x: real): real {
    RoundSig(2, 53, x)
  }

  predicate IsIntegral(x: real) {
    x.Floor as real == x
  }

  function AsJsonNumber(d: Decimal): Json {
    if IsIntegral(Val(d)) then JsonInt(Val(d).Floor) else JsonFloat(Binary64(Val(d)))
  }

  /** w is what a shortest-digits printer may write for the binary64 f. */
  ghost predicate Prints(w: Decimal, f: real) {
    && Binary64(Val(w)) == f
    && forall w': Decimal | Binary64(Val(w')) == f :: NotBetter(w', w, f)
  }

  /** w' has more digits than w, or as many and is no closer to f. */
  predicate NotBetter(w': Decimal, w: Decimal, f: real) {
    Digits(AbsInt(w'.coef)) > Digits(AbsInt(w.coef))
    || (Digits(AbsInt(w'.coef)) == Digits(AbsInt(w.coef)) && Abs(Val(w') - f) >= Abs(Val(w) - f))
  }

  /** A JSON number carries the decimal d when it has a text and every reader of its text gets the value of d back. */
  ghost predicate Carries(j: Json, d: Decimal) {
    match j
    case JsonInt(n) => n as real == Val(d)
    case JsonFloat(f) => (exists w: Decimal :: Prints(w, f)) && forall w: Decimal | Prints(w, f) :: Val(w) == Val(d)
  }

  lemma DigitsFit(d: Decimal, k: nat)
    requires Digits(AbsInt(d.coef)) <= k
    ensures Fits(10, k, d.coef) && Representable(10, k, Val(d))
  {
    PowNatMonotone(Digits(AbsInt(d.coef)), k);
    FitsVal(k, d);
  }

  lemma DigitsBelow(c: nat, k: nat)
    requires c < PowNat(10, k) && k >= 1
    ensures Digits(c) <= k
  {
    hide PowNat, Digits;
    var most: nat := Digits(c) - 1;
    if c == 0 {
      OneDigit();
    } else if k <= most {
      PowNatMonotone(k, most);
    }
  }

  lemma OneDigit()
    ensures Digits(0) == 1
  {
  }

  /** Two different 15-digit numbers are more than one part in 10^15 apart. */
  lemma Separation(x: real, y: real)
    requires 0.0 < x < y && Representable(10, 15, x) && Representable(10, 15, y)
    ensures y - x > Shift(10, x, -15)
  {
    hide Representable;
    var s, t := Scale(10, 15, x), Scale(10, 15, y);
    ScaleBelow(10, 15, x, y, s, t);
    var m := WholeAtScale(10, 15, x, s);
    var n := WholeAtScale(10, 15, y, t);
    CoarserWhole(y, t, s, n);
    UnitApart(x, y, s, m, n * PowNat(10, t - s));
    ScaleBounds(10, 15, x, s);
    ShiftOrder(10, x, Pow(10, 15 + s), -15);
    ShiftAdd(10, 1.0, 15 + s, -15);
  }

  lemma CoarserWhole(y: real, t: int, s: int, n: int)
    requires s <= t && Shift(10, y, -t) == n as real
    ensures Shift(10, y, -s) == (n * PowNat(10, t - s)) as real
  {
    ShiftAdd(10, y, -t, t - s);
    ShiftInteger(10, n, t - s);
  }

  /** Different whole numbers of units are at least one unit apart. */
  lemma UnitApart(x: real, y: real, s: int, m: int, n: int)
    requires x < y && Shift(10, x, -s) == m as real && Shift(10, y, -s) == n as real
    ensures y - x >= Pow(10, s)
  {
    hide Shift;
    ShiftOrder(10, x, y, -s);
    ShiftLinear(10, y, x, -s);
    assert m + 1 <= n;
    assert Shift(10, y - x, -s) >= 1.0;
    ShiftOrder(10, 1.0, Shift(10, y - x, -s), s);
    ShiftBack(10, y - x, -s);
    assert 0 - (0 - s) == s;
  }

  /** Four parts in 2^52 are less than one part in 10^15. */
  lemma BinaryFinerThanDecimal(x: real)
    requires x > 0.0
    ensures 0.0 < 4.0 * Shift(2, x, -52) < Shift(10, x, -15)
  {
    var t, u := Shift(2, x, -52), Shift(10, x, -15);
    ShiftAdd(2, x, -52, 52);
    ShiftAdd(10, x, -15, 15);
    ShiftScale(2, t, 1.0, 52);
    ShiftScale(10, u, 1.0, 15);
    Literals();
    assert Product(t, 4503599627370496.0) == x == Product(u, 1000000000000000.0);
  }

  lemma Literals()
    ensures Pow(2, 52) == 4503599627370496.0 && Pow(10, 15) == 1000000000000000.0
    ensures Pow(2, 53) == 9007199254740992.0 && Pow(10, 16) == 10000000000000000.0
  {
    PowStep(2, 0); PowStep(2, 1); PowStep(2, 2); PowStep(2, 3);
    PowDouble(2, 4);
    PowStep(2, 8); PowStep(2, 9); PowStep(2, 10); PowStep(2, 11); PowStep(2, 12);
    PowDouble(2, 13);
    PowDouble(2, 26);
    PowStep(2, 52);
    PowStep(10, 0); PowStep(10, 1); PowStep(10, 2); PowStep(10, 3);
    PowDouble(10, 4);
    PowStep(10, 8);
    PowStep(10, 9); PowStep(10, 10); PowStep(10, 11); PowStep(10, 12);
    PowStep(10, 13); PowStep(10, 14); PowStep(10, 15);
  }

  lemma PowStep(b: Radix, k: nat)
    ensures Pow(b, k + 1) == b as real * Pow(b, k)
    ensures Pow(b, 0) == 1.0
  {
    ShiftStep(b, 1.0, k);
  }

  lemma PowDouble(b: Radix, k: nat)
    ensures Pow(b, 2 * k) == Product(Pow(b, k), Pow(b, k))
  {
    ShiftProduct(b, 1.0, k, 1.0, k);
    assert Product(1.0, 1.0) == 1.0;
  }

  lemma Binary64Error(x: real)
    requires x > 0.0
    ensures Abs(Binary64(x) - x) <= 0.5 * Shift(2, x, -52)
  {
    RoundSigError(2, 53, x);
  }

  /** Numbers of at most 15 significant digits have different nearest binary64 numbers. */
  lemma Injective(x: real, y: real)
    requires 0.0 < x < y && Representable(10, 15, x) && Representable(10, 15, y)
    ensures Binary64(x) < Binary64(y)
  {
    hide Shift, RoundSig, Representable;
    Separation(x, y);
    BinaryFinerThanDecimal(x);
    BinaryFinerThanDecimal(y);
    BinaryFinerThanDecimal(y - x);
    TenthBound(y - x);
    Binary64Error(x);
    Binary64Error(y);
    ShiftLinear(2, y, x, -52);
  }

  lemma TenthBound(x: real)
    requires x > 0.0
    ensures Shift(10, x, -15) < x
  {
    ShiftBack(10, x, -15);
    PowOrder(10, -15, 0);
    ShiftScale(10, x, 1.0, -15);
    ProductBelow(x, Pow(10, -15));
    assert Product(x, 1.0) == x;
  }

  lemma ProductBelow(x: real, y: real)
    requires x > 0.0 && y < 1.0
    ensures Product(x, y) < x
  {
    assert x * (1.0 - y) > 0.0;
  }

  lemma PositiveBinary64(x: real)
    ensures Binary64(x) > 0.0 <==> x > 0.0
  {
    if x > 0.0 {
      RoundSigMonotonePositive(2, 53, x, x);
    } else {
      RoundSigSign(2, 53, x);
    }
  }

  /** At most 15 significant digits survive the projection and the printing. */
  lemma FifteenDigitsCarried(d: Decimal)
    requires Val(d) > 0.0 && Digits(AbsInt(d.coef)) <= 15
    ensures Carries(AsJsonNumber(d), d)
  {
    if !IsIntegral(Val(d)) {
      var f := Binary64(Val(d));
      PrintingExists(d);
      forall w: Decimal | Prints(w, f) ensures Val(w) == Val(d) {
        PrintedIs(d, w);
      }
    }
  }

  lemma PrintedIs(d: Decimal, w: Decimal)
    requires Val(d) > 0.0 && Digits(AbsInt(d.coef)) <= 15 && Prints(w, Binary64(Val(d)))
    ensures Val(w) == Val(d)
  {
    hide Val, Binary64, Digits;
    assert NotBetter(d, w, Binary64(Val(d)));
    SameFloatSameValue(d, w);
  }

  // ---------------------------------------------------------------- a printing exists

  /** The coefficient without its trailing zeros. */
  function Trim(d: Decimal): (t: Decimal)
    requires d.coef > 0
    ensures t.coef > 0 && t.coef % 10 != 0
    decreases d.coef
  {
    if d.coef % 10 == 0 then Trim(Dec(d.coef / 10, d.exp + 1)) else d
  }

  lemma {:induction false} TrimMeaning(d: Decimal)
    requires d.coef > 0
    ensures Val(Trim(d)) == Val(d)
    ensures Digits(Trim(d).coef) <= Digits(d.coef)
    decreases d.coef
  {
    if d.coef % 10 == 0 {
      var h := d.coef / 10;
      TrimMeaning(Dec(h, d.exp + 1));
      ShiftStep(10, h as real, d.exp);
      assert d.coef as real == Times(10, h as real);
    }
  }

  lemma {:induction false} DigitsMonotone(m: nat, n: nat)
    requires m <= n
    ensures Digits(m) <= Digits(n)
  {
    if n >= 10 {
      DigitsMonotone(m / 10, n / 10);
    }
  }

  /** Among the ways to write a positive value, the one without trailing zeros has the smallest coefficient. */
  lemma TrimmedIsSmallest(t: Decimal, w: Decimal)
    requires t.coef > 0 && t.coef % 10 != 0 && Val(t) == Val(w)
    ensures 0 < t.coef <= w.coef
  {
    NonzeroVal(t);
    NonzeroVal(w);
    if w.exp <= t.exp {
      AlignedVal(t, w.exp);
      SameCoefficient(Aligned(t, w.exp), w.coef, w.exp);
      assert t.coef * PowNat(10, t.exp - w.exp) >= t.coef * 1;
    } else {
      AlignedVal(w, t.exp);
      SameCoefficient(Aligned(w, t.exp), t.coef, t.exp);
      var k := w.exp - t.exp;
      assert PowNat(10, k) == 10 * PowNat(10, k - 1);
      MultipleOfTen(w.coef, PowNat(10, k - 1));
    }
  }

  lemma MultipleOfTen(m: int, n: int)
    ensures (m * (10 * n)) % 10 == 0
  {
    assert m * (10 * n) == 10 * (m * n);
  }

  lemma SameCoefficient(m: int, n: int, e: int)
    requires Shift(10, m as real, e) == Shift(10, n as real, e)
    ensures m == n
  {
    ShiftOrder(10, m as real, n as real, e);
    ShiftOrder(10, n as real, m as real, e);
  }

  /** A 15-digit number written without trailing zeros is itself what the printer writes. */
  lemma PrintingExists(d: Decimal)
    requires Val(d) > 0.0 && Digits(AbsInt(d.coef)) <= 15
    ensures d.coef > 0 && Prints(Trim(d), Binary64(Val(d)))
  {
    NonzeroVal(d);
    TrimMeaning(d);
    var t, f := Trim(d), Binary64(Val(d));
    forall w: Decimal | Binary64(Val(w)) == f ensures NotBetter(w, t, f) {
      NothingBetter(t, w);
    }
  }

  lemma NothingBetter(t: Decimal, w: Decimal)
    requires t.coef > 0 && t.coef % 10 != 0 && Digits(t.coef) <= 15 && Binary64(Val(w)) == Binary64(Val(t))
    ensures NotBetter(w, t, Binary64(Val(t)))
  {
    hide Val, Binary64, Digits;
    NonzeroVal(t);
    if Digits(AbsInt(w.coef)) <= Digits(t.coef) {
      SameFloatSameValue(t, w);
      TrimmedIsSmallest(t, w);
      DigitsMonotone(t.coef, w.coef);
    }
  }

  lemma SameFloatSameValue(d: Decimal, w: Decimal)
    requires Val(d) > 0.0 && Digits(AbsInt(d.coef)) <= 15 && Digits(AbsInt(w.coef)) <= 15
    requires Binary64(Val(w)) == Binary64(Val(d))
    ensures Val(w) == Val(d)
  {
    hide Val, Binary64, Digits;
    DigitsFit(d, 15);
    DigitsFit(w, 15);
    PositiveBinary64(Val(d));
    PositiveBinary64(Val(w));
    if Val(w) < Val(d) {
      Injective(Val(w), Val(d));
    } else if Val(d) < Val(w) {
      Injective(Val(d), Val(w));
    }
  }

  // ---------------------------------------------------------------- the vehicle value

  /** A vehicle value of at most 10^11 with at most two decimals has at most 14 digits when trimmed. */
  lemma VehicleValueDigits(d: Decimal)
    requires 0.0 < Val(d) <= Pow(10, 11) && IsWhole(Val(d), 2)
    ensures exists c: int :: 0 < c <= 10000000000000 && Val(Dec(c, -2)) == Val(d)
  {
    var c := Shift(10, Val(d), 2).Floor;
    ShiftAdd(10, Val(d), 2, -2);
    ShiftSign(Val(d), 2);
    ShiftOrder(10, Val(d), Pow(10, 11), 2);
    ShiftAdd(10, 1.0, 11, 2);
    Literals();
    TenPowers();
    assert 0 < c <= 10000000000000 && Val(Dec(c, -2)) == Val(d);
  }

  lemma TenPowers()
    ensures Pow(10, 13) == 10000000000000.0 && PowNat(10, 13) == 10000000000000
  {
    Literals();
    PowStep(10, 13);
    PowStep(10, 14);
    PowIsNat(10, 13);
  }

  /** Carrying depends on the value, not on how it is written. */
  lemma CarriesByValue(d: Decimal, d': Decimal)
    requires Val(d) == Val(d') && Carries(AsJsonNumber(d'), d')
    ensures Carries(AsJsonNumber(d), d)
  {
    hide Val, Binary64, Prints;
  }

  /** The echoed vehicle value is exact: 10^11 at most, two decimals at most. */
  lemma VehicleValueCarried(d: Decimal)
    requires 0.0 < Val(d) <= Pow(10, 11) && IsWhole(Val(d), 2)
    ensures Carries(AsJsonNumber(d), d)
  {
    hide Val, Binary64, Prints, Digits, Pow, Carries, AsJsonNumber;
    VehicleValueDigits(d);
    var c: int :| 0 < c <= 10000000000000 && Val(Dec(c, -2)) == Val(d);
    FourteenDigits(c);
    FifteenDigitsCarried(Dec(c, -2));
    CarriesByValue(d, Dec(c, -2));
  }

  lemma FourteenDigits(c: int)
    requires 0 < c <= 10000000000000
    ensures Digits(AbsInt(c)) <= 15
  {
    TenPowers();
    if Digits(c) > 15 {
      PowNatMonotone(15, Digits(c) - 1);
      PowNatMonotone(13, 15);
      Literals();
      PowIsNat(10, 15);
    }
  }

  /** Whole numbers of any size and sign, zero included, and nothing else, are emitted as integers; they are carried. */
  lemma IntegralCarried(d: Decimal)
    ensures AsJsonNumber(d).JsonInt? <==> IsIntegral(Val(d))
    ensures IsIntegral(Val(d)) ==> Carries(AsJsonNumber(d), d)
    ensures forall n: int :: Val(d) == n as real ==> AsJsonNumber(d) == JsonInt(n)
    ensures !IsIntegral(Val(d)) ==> AsJsonNumber(d) == JsonFloat(Binary64(Val(d)))
  {
    hide Val, Binary64;
  }

  // ---------------------------------------------------------------- where the promise ends

  /** From 2^52 up to 2^53 the nearest binary64 is an integer. */
  lemma LargeIsIntegral(x: real)
    requires 4503599627370496.0 <= x < 9007199254740992.0
    ensures Binary64(x) == Round(HalfEven, x) as real
  {
    Literals();
    assert IsScale(2, 53, x, 0);
    ScaleUnique(2, 53, x, Scale(2, 53, x), 0);
  }

  /** A non-integral number above 2^52 needs more than 16 digits. */
  lemma LargeFractionDigits(d: Decimal)
    requires Val(d) >= 4503599627370496.0 && !IsIntegral(Val(d))
    ensures Digits(AbsInt(d.coef)) > 16
  {
    NonzeroVal(d);
    if d.exp >= 0 {
      AlignedVal(d, 0);
    } else {
      Literals();
      // coef = Val * 10^-exp >= 10 * Val
      ShiftBack(10, d.coef as real, d.exp);
      ShiftStep(10, Val(d), -d.exp - 1);
      PowMonotone(10, 0, -d.exp - 1);
      ShiftScale(10, Val(d), 1.0, -d.exp - 1);
      GrowsBy(Val(d), Pow(10, -d.exp - 1));
      PowIsNat(10, 16);
      if Digits(AbsInt(d.coef)) <= 16 {
        PowNatMonotone(Digits(AbsInt(d.coef)), 16);
      }
    }
  }

  lemma GrowsBy(x: real, y: real)
    requires x >= 0.0 && y >= 1.0
    ensures Product(x, y) >= x && Product(x, 1.0) == x
  {
    assert x * (y - 1.0) >= 0.0;
  }

  /**
   A non-integral amount between 2^52 and 2^53 is never carried: its binary64 is an integer of at most 16
   digits, which the printer prefers to anything longer.
   */
  lemma LargeFractionLost(d: Decimal)
    requires 4503599627370496.0 <= Val(d) < 9007199254740992.0 && !IsIntegral(Val(d))
    ensures !Carries(AsJsonNumber(d), d)
  {
    hide Val, Binary64, Digits, Round;
    LargeIsIntegral(Val(d));
    var n := Round(HalfEven, Val(d));
    RoundBetween(HalfEven, 4503599627370496, Val(d), 9007199254740992);
    IntegerBinary64(n);
    SixteenDigits(n);
    if Carries(AsJsonNumber(d), d) {
      var w: Decimal :| Prints(w, Binary64(Val(d)));
      assert NotBetter(Dec(n, 0), w, Binary64(Val(d)));
      LargeFractionDigits(w);
    }
  }

  lemma IntegerBinary64(n: int)
    requires 0 < n <= 9007199254740992
    ensures Val(Dec(n, 0)) == n as real && Binary64(n as real) == n as real
  {
    Literals();
    PowIsNat(2, 53);
    if n == 9007199254740992 {
      assert Pow(2, 53) == n as real;
      BinaryPower(53);
    } else {
      assert Writes(2, 53, n as real, n, 0);
      RoundSigFixes(2, 53, n as real);
    }
  }

  lemma BinaryPower(k: nat)
    ensures Binary64(Pow(2, k)) == Pow(2, k)
  {
    PowMonotone(2, 1, 53);
    PowIsNat(2, 53);
    assert Writes(2, 53, Pow(2, k), 1, k);
    RoundSigFixes(2, 53, Pow(2, k));
  }

  lemma SixteenDigits(n: int)
    requires 0 < n <= 9007199254740992
    ensures Digits(AbsInt(n)) <= 16
  {
    Literals();
    PowIsNat(10, 16);
    if Digits(n) > 16 {
      PowNatMonotone(16, Digits(n) - 1);
    }
  }
}

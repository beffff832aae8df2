/** Every positive binary64 is printed: seventeen digits always name it, and among the shortest names one is closest. */
module ShortestPrinting {
  import opened Powers
  import opened Rounding
  import opened SignificantDigits
  import opened Decimals
  import opened Quantisation
  import opened JsonNumber

  // ---------------------------------------------------------------- seventeen digits are enough

  /** A number this close to the binary64 m * 2^e, with m of 53 binary digits, is rounded to it. */
  lemma NearestIs(w: real, m: int, e: int)
    requires 4503599627370496 <= m < 9007199254740992
    requires 20000000000000000.0 * Abs(Shift(2, w, -e) - m as real) <= m as real
    ensures Binary64(w) == Shift(2, m as real, e)
  {
    hide Shift, RoundSig;
    Literals();
    var s := Shift(2, w, -e);
    if s >= 4503599627370496.0 {
      assert IsScale(2, 53, w, e);
      RoundSigNearest(2, 53, w, e, m);
    } else {
      assert m == 4503599627370496;
      ShiftStep(2, w, -e);
      assert -e + 1 == -(e - 1);
      assert IsScale(2, 53, w, e - 1);
      RoundSigNearest(2, 53, w, e - 1, 9007199254740992);
      ShiftStep(2, 4503599627370496.0, e - 1);
    }
  }

  /** Rounding f to 17 digits stays that close. */
  lemma SeventeenDigitsClose(f: real, m: int, e: int)
    requires f > 0.0 && Shift(2, f, -e) == m as real
    ensures 20000000000000000.0 * Abs(Shift(2, RoundSig(10, 17, f), -e) - m as real) <= m as real
  {
    hide Shift, RoundSig;
    Literals();
    var w := RoundSig(10, 17, f);
    var t := Shift(10, f, -16);
    RoundSigError(10, 17, f);
    ShiftBack(10, f, -16);
    ShiftScale(10, t, 1.0, 16);
    assert Product(t, 1.0) == t && Product(t, Pow(10, 16)) == 10000000000000000.0 * t;
    var delta := Abs(w - f);
    assert 20000000000000000.0 * delta <= f;
    ShiftScale(2, 20000000000000000.0, delta, -e);
    ShiftOrder(2, Product(20000000000000000.0, delta), f, -e);
    ShiftLinear(2, w, f, -e);
    ShiftAbs(2, w - f, -e);
    assert Product(20000000000000000.0, Shift(2, delta, -e)) == 20000000000000000.0 * Shift(2, delta, -e);
  }

  /** f names itself in at most seventeen digits. */
  lemma SeventeenDigitsName(x: real) returns (w: Decimal)
    requires x > 0.0
    ensures Binary64(Val(w)) == Binary64(x) && Digits(AbsInt(w.coef)) <= 17
  {
    hide Shift, RoundSig, Scale, Digits;
    var f := Binary64(x);
    PositiveBinary64(x);
    RoundSigRepresentable(2, 53, x);
    var e := Scale(2, 53, f);
    var m := WholeAtScale(2, 53, f, e);
    Literals();
    ShiftBack(2, f, -e);
    assert 0 - -e == e;
    ShiftSign2(f, -e);
    SeventeenDigitsClose(f, m, e);
    NearestIs(RoundSig(10, 17, f), m, e);
    w := Written(f);
  }

  lemma ShiftSign2(x: real, k: int)
    requires x > 0.0
    ensures Shift(2, x, k) > 0.0
  {
    ShiftLinear(2, 0.0, 0.0, k);
    ShiftOrder(2, 0.0, x, k);
  }

  lemma Written(f: real) returns (w: Decimal)
    ensures Val(w) == RoundSig(10, 17, f) && Digits(AbsInt(w.coef)) <= 17
  {
    hide RoundSig, Digits, Shift, PowNat;
    RoundSigRepresentable(10, 17, f);
    var c: int, k: int :| Writes(10, 17, RoundSig(10, 17, f), c, k);
    w := Dec(c, k);
    DigitsBelow(AbsInt(c), 17);
  }

  // ---------------------------------------------------------------- a shortest and closest name exists

  ghost predicate Names(w: Decimal, f: real) {
    Binary64(Val(w)) == f
  }

  /** No name of f has fewer digits than w. */
  ghost predicate Shortest(w: Decimal, f: real) {
    forall w': Decimal | Names(w', f) :: Digits(AbsInt(w'.coef)) >= Digits(AbsInt(w.coef))
  }

  lemma {:induction false} ShortestExists(w: Decimal, f: real) returns (m: Decimal)
    requires Names(w, f)
    ensures Names(m, f) && Shortest(m, f) && Digits(AbsInt(m.coef)) <= Digits(AbsInt(w.coef))
    decreases Digits(AbsInt(w.coef))
  {
    hide Names, Digits;
    if Shortest(w, f) {
      m := w;
    } else {
      var w': Decimal :| Names(w', f) && Digits(AbsInt(w'.coef)) < Digits(AbsInt(w.coef));
      m := ShortestExists(w', f);
    }
  }

  /** w is a whole number n of units u. */
  ghost predicate InUnits(w: Decimal, u: int, n: int) {
    Val(w) == Shift(10, n as real, u)
  }

  /** The names of f with at most 17 digits are whole numbers of one small unit. */
  lemma CommonUnit(f: real) returns (u: int)
    requires f > 0.0
    ensures forall w: Decimal | Names(w, f) && Digits(AbsInt(w.coef)) <= 17 :: exists n: int :: InUnits(w, u, n)
  {
    hide Digits;
    var half := 0.5 * f;
    u := Scale(10, 17, half);
    forall w: Decimal | Names(w, f) && Digits(AbsInt(w.coef)) <= 17 ensures exists n: int :: InUnits(w, u, n) {
      NameAboveHalf(w, f);
      CoarserThan(w, half, u);
      ShiftAdd(10, w.coef as real, w.exp - u, u);
      ShiftInteger(10, w.coef, w.exp - u);
      assert InUnits(w, u, w.coef * PowNat(10, w.exp - u));
    }
  }

  lemma NameAboveHalf(w: Decimal, f: real)
    requires f > 0.0 && Names(w, f)
    ensures Val(w) >= 0.5 * f
  {
    hide RoundSig, Val;
    PositiveBinary64(Val(w));
    Binary64Error(Val(w));
    BinaryFinerThanDecimal(Val(w));
    TenthBound(Val(w));
  }

  /** A number of at most 17 digits is a whole number of any unit that a smaller number needs. */
  lemma CoarserThan(w: Decimal, x: real, u: int)
    requires 0.0 < x <= Val(w) && Digits(AbsInt(w.coef)) <= 17 && u == Scale(10, 17, x)
    ensures w.exp >= u
  {
    hide Shift, Digits, Scale, PowNat;
    DigitsFit(w, 17);
    PowIsNat(10, 17);
    ScaleBounds(10, 17, x, u);
    ShiftOrder(10, w.coef as real, Pow(10, 17), w.exp);
    ShiftAdd(10, 1.0, 17, w.exp);
    PowOrder(10, 16 + u, 17 + w.exp);
  }

  /** How many whole numbers of units are no further from f than delta, give or take one. */
  ghost function Around(f: real, delta: real, u: int): int {
    Shift(10, f + delta, -u).Floor + Shift(10, delta - f, -u).Floor
  }

  /** Moving closer to f loses at least the number just left. */
  lemma CloserIsFewer(f: real, u: int, w: Decimal, n: int, delta: real)
    requires InUnits(w, u, n) && 0.0 <= delta < Abs(Val(w) - f)
    ensures Around(f, delta, u) < Around(f, Abs(Val(w) - f), u)
  {
    hide Shift, Val;
    var far := Abs(Val(w) - f);
    ShiftBack(10, n as real, u);
    ShiftLinear(10, Val(w), 0.0, -u);
    ShiftOrder(10, f + delta, f + far, -u);
    ShiftOrder(10, delta - f, far - f, -u);
    assert f + far == Val(w) || far - f == -Val(w);
    FloorsBelow(Shift(10, f + delta, -u), Shift(10, f + far, -u), Shift(10, delta - f, -u), Shift(10, far - f, -u), n);
  }

  lemma FloorsBelow(a: real, b: real, c: real, d: real, n: int)
    requires a < b && c < d && (b == n as real || d == -(n as real))
    ensures a.Floor + c.Floor < b.Floor + d.Floor
  {
    if b == n as real {
      assert a.Floor < n && c.Floor <= d.Floor;
    } else {
      assert d == (-n) as real;
      assert c.Floor < -n && a.Floor <= b.Floor;
    }
  }

  /** At least minus one, for there is no room between two neighbours. */
  lemma AroundBounded(f: real, delta: real, u: int)
    requires delta >= 0.0
    ensures Around(f, delta, u) >= -1
  {
    hide Shift;
    ShiftLinear(10, f, 0.0, -u);
    ShiftOrder(10, f, f + delta, -u);
    ShiftOrder(10, -f, delta - f, -u);
  }

  /** Among the shortest names of f one is closest to it. */
  lemma {:induction false} ClosestExists(f: real, u: int, w: Decimal) returns (m: Decimal)
    requires Names(w, f) && Shortest(w, f) && Digits(AbsInt(w.coef)) <= 17
    requires forall w': Decimal | Names(w', f) && Digits(AbsInt(w'.coef)) <= 17 :: exists n: int :: InUnits(w', u, n)
    ensures Prints(m, f) && Digits(AbsInt(m.coef)) <= 17
    decreases Around(f, Abs(Val(w) - f), u) + 1
  {
    hide Val, Binary64, Digits, Around, InUnits;
    if closer: Decimal :|
      Names(closer, f) && Digits(AbsInt(closer.coef)) == Digits(AbsInt(w.coef))
      && Abs(Val(closer) - f) < Abs(Val(w) - f)
    {
      var n: int :| InUnits(w, u, n);
      CloserIsFewer(f, u, w, n, Abs(Val(closer) - f));
      AroundBounded(f, Abs(Val(closer) - f), u);
      m := ClosestExists(f, u, closer);
    } else {
      m := w;
    }
  }

  /** The nearest binary64 of any positive number has a printing, of at most seventeen digits. */
  lemma AlwaysPrinted(x: real) returns (w: Decimal)
    requires x > 0.0
    ensures Prints(w, Binary64(x)) && Digits(AbsInt(w.coef)) <= 17
    ensures forall v: Decimal | Prints(v, Binary64(x)) ::
      Digits(AbsInt(v.coef)) == Digits(AbsInt(w.coef)) && Abs(Val(v) - Binary64(x)) == Abs(Val(w) - Binary64(x))
  {
    hide Val, Binary64, Digits;
    var f := Binary64(x);
    PositiveBinary64(x);
    var some := SeventeenDigitsName(x);
    assert Names(some, f);
    var short := ShortestExists(some, f);
    var u := CommonUnit(f);
    w := ClosestExists(f, u, short);
  }

  // ---------------------------------------------------------------- what is carried and what is not

  /** Carrying is about every printing, and there always is one. */
  lemma CarriedIfAllEqual(d: Decimal)
    requires Val(d) > 0.0 && forall w: Decimal | Prints(w, Binary64(Val(d))) :: Val(w) == Val(d)
    ensures Carries(AsJsonNumber(d), d)
  {
    hide Val, Binary64, Prints;
    if !IsIntegral(Val(d)) {
      var w := AlwaysPrinted(Val(d));
    }
  }

  /** A number that needs more than 17 digits, whole numbers excepted, is never carried. */
  lemma MoreThanSeventeenDigitsLost(d: Decimal)
    requires d.coef > 0 && !IsIntegral(Val(d)) && Digits(Trim(d).coef) > 17
    ensures !Carries(AsJsonNumber(d), d)
  {
    hide Val, Binary64, Digits, Trim;
    NonzeroVal(d);
    TrimMeaning(d);
    var short := SeventeenDigitsName(Val(d));
    if Carries(AsJsonNumber(d), d) {
      var w: Decimal :| Prints(w, Binary64(Val(d)));
      assert NotBetter(short, w, Binary64(Val(d)));
      TrimmedIsSmallest(Trim(d), w);
      DigitsMonotone(Trim(d).coef, w.coef);
    }
  }
}

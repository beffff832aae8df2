/**
 Up to which deductible a higher base leaves more after the discount. The discount is rounded to prec digits; the
 order is lost only where the discounts of two neighbouring bases fall on different sides of a power of ten, and
 the largest deductible for which that cannot happen is computed exactly. It lies just above 0.55.
 */
module DeductibleThreshold {
  import opened Wrappers
  import opened Powers
  import opened Rounding
  import opened SignificantDigits
  import opened Decimals
  import opened RatingRules
  import opened Quantisation
  import opened Calculators
  import opened MoneyLaws
  import RateLaws

  /** The greatest n with 11 n < 20 N - 1, where N = 10^(p-1): the last base at which the order can be lost. */
  function LastBad(p: nat): (n: nat)
    requires p >= 1
    ensures 11 * n < 20 * PowNat(10, p - 1) - 1 <= 11 * (n + 1)
  {
    (20 * PowNat(10, p - 1) - 2) / 11
  }

  function Threshold(p: nat): real
    requires p >= 1
  {
    (PowNat(10, p - 1) as real + 0.5) / (LastBad(p) + 1) as real
  }

  lemma BigEnough(p: nat)
    requires p >= 2
    ensures PowNat(10, p) == 10 * PowNat(10, p - 1) && PowNat(10, p - 1) >= 10 && PowNat(10, p - 1) % 2 == 0
    ensures PowNat(10, p - 1) <= LastBad(p) <= 2 * PowNat(10, p - 1) - 2
  {
    TenTimesLess(p);
    TenTimesLess(p - 1);
    hide PowNat;
    EvenTen(PowNat(10, p - 2));
  }

  lemma TenTimesLess(p: nat)
    requires p >= 1
    ensures PowNat(10, p) == 10 * PowNat(10, p - 1)
  {
  }

  lemma EvenTen(m: nat)
    requires m >= 1
    ensures 10 * m % 2 == 0 && 10 * m >= 10
  {
    assert 10 * m == 2 * (5 * m);
    DoubleIsEven(5 * m);
  }

  lemma DoubleIsEven(k: nat)
    ensures 2 * k % 2 == 0
  {
  }

  /** The threshold, multiplied out. */
  lemma ThresholdMeaning(p: nat)
    requires p >= 2
    ensures Product((LastBad(p) + 1) as real, Threshold(p)) == PowNat(10, p - 1) as real + 0.5
    ensures 0.55 < Threshold(p) < 0.6
    ensures Product(LastBad(p) as real, Threshold(p)) < PowNat(10, p - 1) as real - 0.05
  {
    hide PowNat;
    BigEnough(p);
    var n, t := (LastBad(p) + 1) as real, Threshold(p);
    Quotient(PowNat(10, p - 1) as real + 0.5, n);
    TimesBelow(n, t, 0.55, 0.6);
  }

  lemma Quotient(x: real, y: real)
    requires y > 0.0
    ensures Product(y, x / y) == x
  {
  }

  lemma TimesBelow(n: real, t: real, a: real, b: real)
    requires n > 0.0 && n * a < Product(n, t) < n * b
    ensures a < t < b
    ensures Product(n - 1.0, t) == Product(n, t) - t
  {
    assert n * (t - a) > 0.0 && n * (b - t) > 0.0;
  }

  // ---------------------------------------------------------------- below the threshold the order is kept

  /** Discounts of the same scale: both are rounded to units that divide the difference of the bases. */
  lemma SameScale(p: nat, b: real, b': real, d: real, e: int)
    requires p >= 1 && Representable(10, p, b) && Representable(10, p, b') && 0.0 < b < b' && 0.0 < d < 1.0
    requires Product(b, d) > 0.0 && Product(b', d) > 0.0
    requires e == Scale(10, p, Product(b, d)) == Scale(10, p, Product(b', d))
    ensures RoundedProduct(p, b', d) - RoundedProduct(p, b, d) <= b' - b
  {
    hide Shift, Representable, Round, Scale;
    var x, y := Product(b, d), Product(b', d);
    ProductLess(b, d);
    ProductLess(b', d);
    ScaleBounds(10, p, x, e);
    var m := WholeInUnits(10, p, b, e);
    var m' := WholeInUnits(10, p, b', e);
    ShiftOrder(10, b, b', -e);
    var s, t := Shift(10, x, -e), Shift(10, y, -e);
    InScale(b, d, -e);
    InScale(b', d, -e);
    LessThanBase(m as real, m' as real, d);
    RoundError(HalfEven, s);
    RoundError(HalfEven, t);
    var r, r' := Round(HalfEven, s), Round(HalfEven, t);
    assert r' - r <= m' - m;
    ShiftOrder(10, (r' - r) as real, (m' - m) as real, e);
    ShiftLinear(10, r' as real, r as real, e);
    ShiftLinear(10, m' as real, m as real, e);
    ShiftBack(10, b, -e);
    ShiftBack(10, b', -e);
    assert 0 - (0 - e) == e;
  }

  lemma ProductLess(b: real, d: real)
    requires b > 0.0 && 0.0 < d < 1.0
    ensures 0.0 < Product(b, d) < b
  {
    LessThanBase(0.0, b, d);
    assert Product(0.0, d) == 0.0 && Product(b, d) > 0.0;
  }

  lemma InScale(b: real, d: real, k: int)
    ensures Shift(10, Product(b, d), k) == Product(Shift(10, b, k), d)
  {
    ShiftScale(10, d, b, k);
    assert Product(d, b) == Product(b, d) && Product(d, Shift(10, b, k)) == Product(Shift(10, b, k), d);
  }

  lemma LessThanBase(m: real, m': real, d: real)
    requires m < m' && d < 1.0
    ensures Product(m', d) - Product(m, d) < m' - m
  {
    var c, k := 1.0 - d, m' - m;
    assert k * c > 0.0;
    assert k * c == k - (m' * d - m * d);
  }

  /** Discounts of different scales, in units of the larger: n is the smaller base, N = 10^(p-1). */
  lemma NeighbourDiscounts(p: nat, n: nat, d: real)
    requires p >= 2 && 0.0 <= d <= Threshold(p)
    requires Product((n + 1) as real, d) > PowNat(10, p - 1) as real + 0.5
    ensures Product(n as real, d) >= PowNat(10, p - 1) as real - 0.05
  {
    hide PowNat, Threshold;
    BigEnough(p);
    ThresholdMeaning(p);
    var power := PowNat(10, p - 1) as real;
    if Product(n as real, d) < power - 0.05 {
      CrossMultiply(n as real, d, power);
      assert n <= LastBad(p);
      RateLaws.ProductMonotone((n + 1) as real, (n + 1) as real, d, Threshold(p));
      RateLaws.ProductMonotone((n + 1) as real, (LastBad(p) + 1) as real, Threshold(p), Threshold(p));
    }
  }

  lemma CrossMultiply(n: real, d: real, power: real)
    requires n >= 0.0 && n * d < power - 0.05 && power + 0.5 < (n + 1.0) * d
    ensures 0.55 * n < power - 0.05
  {
    assert (n + 1.0) * (n * d) <= (n + 1.0) * (power - 0.05) by { Scale1(n + 1.0, n * d, power - 0.05); }
    assert n * (power + 0.5) <= n * ((n + 1.0) * d) by { Scale1(n, power + 0.5, (n + 1.0) * d); }
    assert (n + 1.0) * (n * d) == n * ((n + 1.0) * d);
    assert n * (power - 0.05) + (power - 0.05) - n * (power + 0.5) == (power - 0.05) - 0.55 * n;
  }

  lemma Scale1(a: real, x: real, y: real)
    requires a >= 0.0 && x <= y
    ensures a * x <= a * y
  {
  }

  /** A tie between N - 1/2 and N + 1/2, for an even N, goes to N, and so does everything between. */
  lemma RoundsToEven(power: int, x: real)
    requires power % 2 == 0
    ensures power as real - 0.5 <= x <= power as real + 0.5 ==> Round(HalfEven, x) == power
    ensures power as real + 0.5 < x < power as real + 1.5 ==> Round(HalfEven, x) == power + 1
  {
    RoundMeets(HalfEven, x, power);
    RoundMeets(HalfEven, x, power + 1);
  }

  /** The smaller discount in units of the larger one's scale k: close to the exact product. */
  lemma FinerDiscount(p: nat, x: real, k: int)
    requires p >= 2 && x > 0.0 && Scale(10, p, x) < k
    ensures Abs(Shift(10, RoundSig(10, p, x), -k) - Shift(10, x, -k)) <= 0.05
    ensures Shift(10, x, -k) < PowNat(10, p - 1) as real
  {
    hide RoundSig, Shift, Scale;
    var e := Scale(10, p, x);
    RoundSigStep(10, p, x);
    var delta := RoundSig(10, p, x) - x;
    PowMonotone(10, e, k - 1);
    assert Abs(delta) <= 0.5 * Pow(10, k - 1);
    ShiftOrder(10, Abs(delta), 0.5 * Pow(10, k - 1), -k);
    ShiftAbs(10, delta, -k);
    ShiftLinear(10, RoundSig(10, p, x), x, -k);
    HalfTenth(k);
    ScaleBounds(10, p, x, e);
    PowMonotone(10, p + e, p - 1 + k);
    ShiftOrder(10, x, Pow(10, p - 1 + k), -k);
    ShiftAdd(10, 1.0, p - 1 + k, -k);
    PowIsNat(10, p - 1);
  }

  lemma HalfTenth(k: int)
    ensures Shift(10, 0.5 * Pow(10, k - 1), -k) == 0.05
  {
    ShiftScale(10, 0.5, 1.0, k - 1);
    assert Product(0.5, 1.0) == 0.5 && Product(0.5, Pow(10, k - 1)) == 0.5 * Pow(10, k - 1);
    ShiftAdd(10, 0.5, k - 1, -k);
    assert Shift(10, 0.5, -1) == Shift(10, 0.05, 0);
  }

  /** Just below the power of ten the smaller discount is rounded up to it. */
  lemma RoundsUpToPower(p: nat, x: real, k: int)
    requires p >= 2 && x > 0.0 && Scale(10, p, x) < k
    requires Shift(10, x, -k) >= PowNat(10, p - 1) as real - 0.05
    ensures Shift(10, RoundSig(10, p, x), -k) == PowNat(10, p - 1) as real
  {
    hide Shift, PowNat, Round, Scale;
    BigEnough(p);
    var power := PowNat(10, p - 1);
    FinerDiscount(p, x, k);
    TenTimes(x, k);
    JustBelow(p, x, k);
    RoundsToEven(10 * power, Shift(10, x, -(k - 1)));
    BackDown(power, k);
  }

  lemma TenTimes(x: real, k: int)
    ensures Shift(10, x, -(k - 1)) == 10.0 * Shift(10, x, -k)
  {
    ShiftStep(10, x, -k);
  }

  lemma JustBelow(p: nat, x: real, k: int)
    requires p >= 2 && x > 0.0
    requires PowNat(10, p - 1) as real <= Shift(10, x, -(k - 1)) < PowNat(10, p) as real
    ensures Scale(10, p, x) == k - 1
  {
    hide Shift, PowNat;
    PowIsNat(10, p - 1);
    PowIsNat(10, p);
    ScaleUnique(10, p, x, Scale(10, p, x), k - 1);
  }

  lemma BackDown(n: int, k: int)
    ensures Shift(10, Shift(10, (10 * n) as real, k - 1), -k) == n as real
  {
    ShiftAdd(10, (10 * n) as real, k - 1, -k);
    assert Shift(10, (10 * n) as real, -1) == Shift(10, n as real, 0) by {
      assert Over(10, (10 * n) as real) == n as real;
    }
  }

  /** Neighbouring bases n and n + 1, in units of the larger discount's scale. */
  lemma Neighbours(p: nat, b: real, b': real, d: real, k: int, n: nat)
    requires p >= 2 && 0.0 < d <= Threshold(p) && Product(b, d) > 0.0 && Product(b', d) > 0.0
    requires Scale(10, p, Product(b, d)) < k == Scale(10, p, Product(b', d))
    requires Shift(10, b, -k) == n as real && Shift(10, b', -k) == (n + 1) as real
    ensures Shift(10, RoundedProduct(p, b', d), -k) - Shift(10, RoundedProduct(p, b, d), -k) <= 1.0
  {
    hide Shift, PowNat, Round, Scale, Threshold;
    var x, y, power := Product(b, d), Product(b', d), PowNat(10, p - 1);
    BigEnough(p);
    ThresholdMeaning(p);
    InScale(b, d, -k);
    InScale(b', d, -k);
    NextProduct(n as real, d);
    FinerDiscount(p, x, k);
    ScaleStart(p, y, k);
    var t := Shift(10, y, -k);
    RoundsToEven(power, t);
    ShiftBack(10, Round(HalfEven, t) as real, k);
    if t > power as real + 0.5 {
      NeighbourDiscounts(p, n, d);
      RoundsUpToPower(p, x, k);
    }
  }

  lemma NextProduct(n: real, d: real)
    ensures Product(n + 1.0, d) == Product(n, d) + d
  {
  }

  lemma ScaleStart(p: nat, y: real, k: int)
    requires p >= 1 && y > 0.0 && Scale(10, p, y) == k
    ensures PowNat(10, p - 1) as real <= Shift(10, y, -k)
  {
    hide Shift, PowNat;
    PowIsNat(10, p - 1);
    ShiftSign(y, -k);
  }

  /** Discounts of different scales. */
  lemma DifferentScales(p: nat, b: real, b': real, d: real, k: int)
    requires p >= 2 && Representable(10, p, b) && Representable(10, p, b') && 0.0 < b < b' && 0.0 < d <= Threshold(p)
    requires Product(b, d) > 0.0 && Product(b', d) > 0.0
    requires Scale(10, p, Product(b, d)) < k == Scale(10, p, Product(b', d))
    ensures RoundedProduct(p, b', d) - RoundedProduct(p, b, d) <= b' - b
  {
    hide Shift, PowNat, Round, Scale, Threshold, Representable, Pow;
    var x, y, power := Product(b, d), Product(b', d), PowNat(10, p - 1);
    BigEnough(p);
    ThresholdMeaning(p);
    InScale(b, d, -k);
    InScale(b', d, -k);
    FinerDiscount(p, x, k);
    ScaleStart(p, y, k);
    var beta, beta' := Shift(10, b, -k), Shift(10, b', -k);
    var t := Shift(10, y, -k);
    RoundError(HalfEven, t);
    ShiftBack(10, Round(HalfEven, t) as real, k);
    ShiftOrder(10, b, b', -k);
    ShiftSign(b, -k);
    if beta' - beta >= 1.375 {
      FarApart(beta, beta', d);
    } else {
      var n := NeighbouringBases(p, b, b', d, k);
      Neighbours(p, b, b', d, k, n);
    }
    InUnitsOf(RoundedProduct(p, b', d), RoundedProduct(p, b, d), b', b, k);
  }

  lemma FarApart(beta: real, beta': real, d: real)
    requires beta' - beta >= 1.375 && d <= 0.6
    ensures Product(beta', d) - Product(beta, d) + 0.55 <= beta' - beta
  {
    var c, k := 1.0 - d, beta' - beta;
    assert (k - 1.375) * c >= 0.0;
    assert k * c == k - (beta' * d - beta * d);
  }

  /** Bases close together are both whole numbers of the larger unit, and so are neighbours. */
  lemma NeighbouringBases(p: nat, b: real, b': real, d: real, k: int) returns (n: nat)
    requires p >= 2 && Representable(10, p, b) && Representable(10, p, b') && 0.0 < b < b' && 0.0 < d <= 0.6
    requires Product(Shift(10, b', -k), d) >= PowNat(10, p - 1) as real
    requires 0.0 < Shift(10, b, -k) < Shift(10, b', -k) < Shift(10, b, -k) + 1.375
    ensures Shift(10, b, -k) == n as real && Shift(10, b', -k) == (n + 1) as real
  {
    hide Shift, PowNat, Representable, Product, Pow;
    assert PowNat(10, p - 1) >= 10 by { BigEnough(p); }
    var beta, beta', power := Shift(10, b, -k), Shift(10, b', -k), PowNat(10, p - 1) as real;
    AtLeast(beta', d, power);
    assert power <= beta && power <= beta';
    AbovePower(p, b, k);
    AbovePower(p, b', k);
    var m := WholeInUnits(10, p, b, k);
    var m' := WholeInUnits(10, p, b', k);
    NextInteger(m, m');
    n := m;
  }

  lemma NextInteger(m: int, n: int)
    requires 0.0 < m as real < n as real < m as real + 1.375
    ensures m > 0 && n == m + 1
  {
  }

  lemma AbovePower(p: nat, x: real, k: int)
    requires p >= 1 && Shift(10, x, -k) >= PowNat(10, p - 1) as real
    ensures x >= Pow(10, p - 1 + k)
  {
    hide Shift, PowNat;
    PowIsNat(10, p - 1);
    ShiftBack(10, x, -k);
    assert 0 - (0 - k) == k;
    ShiftOrder(10, Pow(10, p - 1), Shift(10, x, -k), k);
    ShiftAdd(10, 1.0, p - 1, k);
  }

  lemma AtLeast(beta: real, d: real, power: real)
    requires beta > 0.0 && 0.0 < d <= 0.6 && Product(beta, d) >= power >= 10.0
    ensures beta - 1.375 >= power
  {
    RateLaws.ProductMonotone(beta, beta, d, 0.6);
    assert Product(beta, 0.6) == 0.6 * beta;
  }

  lemma InUnitsOf(x': real, x: real, y': real, y: real, k: int)
    ensures x' - x <= y' - y <==> Shift(10, x', -k) - Shift(10, x, -k) <= Shift(10, y', -k) - Shift(10, y, -k)
  {
    ShiftLinear(10, x', x, -k);
    ShiftLinear(10, y', y, -k);
    ShiftOrder(10, x' - x, y' - y, -k);
  }

  /** Up to the threshold a larger base never leaves less, before the difference is rounded and after. */
  lemma OrderKept(p: nat, b: real, b': real, d: real)
    requires p >= 2 && Representable(10, p, b) && Representable(10, p, b') && 0.0 <= b <= b'
    requires 0.0 <= d <= Threshold(p)
    ensures AfterDeductible(p, b, d) <= AfterDeductible(p, b', d)
  {
    hide RoundSig, Representable, Scale, Threshold;
    ThresholdMeaning(p);
    assert RoundedProduct(p, b', d) - RoundedProduct(p, b, d) <= b' - b by {
      if b == 0.0 || d == 0.0 {
        NoDiscount(p, b, b', d);
      } else if b < b' {
        DiscountsOrdered(p, b, b', d);
      }
    }
    RoundSigMonotone(10, p, b - RoundedProduct(p, b, d), b' - RoundedProduct(p, b', d));
  }

  lemma NoDiscount(p: nat, b: real, b': real, d: real)
    requires p >= 1 && Representable(10, p, b') && 0.0 <= b <= b' && 0.0 <= d <= 1.0 && (b == 0.0 || d == 0.0)
    ensures RoundedProduct(p, b', d) - RoundedProduct(p, b, d) <= b' - b
  {
    DiscountWithinBase(p, b', d);
    assert Product(0.0, d) == 0.0 && Product(b, 0.0) == 0.0 && Product(b', 0.0) == 0.0;
    assert RoundSig(10, p, 0.0) == 0.0;
  }

  lemma DiscountsOrdered(p: nat, b: real, b': real, d: real)
    requires p >= 2 && Representable(10, p, b) && Representable(10, p, b') && 0.0 < b < b'
    requires 0.0 < d <= Threshold(p) < 1.0
    ensures RoundedProduct(p, b', d) - RoundedProduct(p, b, d) <= b' - b
  {
    hide RoundSig, Representable, Scale, Threshold, Product;
    ProductLess(b, d);
    ProductLess(b', d);
    RateLaws.ProductMonotone(b, b', d, d);
    var e, k := Scale(10, p, Product(b, d)), Scale(10, p, Product(b', d));
    ScaleBelow(10, p, Product(b, d), Product(b', d), e, k);
    if e == k {
      SameScale(p, b, b', d, e);
    } else {
      DifferentScales(p, b, b', d, k);
    }
  }
}

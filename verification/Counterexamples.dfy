/** Accepted inputs at which a promise or an expectation ends, each with what is computed there. */
module Counterexamples {
  import opened Wrappers
  import opened Powers
  import opened Rounding
  import opened SignificantDigits
  import opened Decimals
  import opened RatingRules
  import opened Quantisation
  import opened Calculators
  import opened RateLaws
  import opened MoneyLaws
  import opened ExactArithmetic
  import opened DefaultRules
  import opened JsonNumber
  import ShortestPrinting
  import SimulationLaws

  const A_CAR := Vehicle("Make", "Model", Money(Dec(1, 11), "USD"), 2026)

  /** A new car at the value ceiling, with a fee of one cent and no deductible. */
  const CENT_FEE := Quotation(A_CAR, Money(Dec(1, -2), "USD"), ZERO, ZERO, 2026)

  lemma CentFeeAccepted()
    ensures Accepted(CENT_FEE) && Digits50(CENT_FEE, 0, 0)
    ensures Val(CENT_FEE.vehicle.value.amount) == 100000000000.0 && Val(CENT_FEE.brokerFee.amount) == 0.01
    ensures Val(ZERO) == 0.0
  {
    DefaultValues();
    HundredthsOf(1);
    ElevenZeros();
    PowOrder(10, 0, 9);
    PowIsNat(10, 11);
    ZeroIsWhole(50);
    ZeroIsWhole(0);
    WholeMoreCent();
    hide Shift;
  }

  lemma ElevenZeros()
    ensures Pow(10, 11) == 100000000000.0
  {
    SmallPowers();
    ShiftAdd(10, 1.0, 7, 4);
    ShiftTimesNat(Pow(10, 7), 4);
    PowIsNat(10, 4);
    assert Product(10000.0, 10000000.0) == 100000000000.0;
  }

  lemma WholeMoreCent()
    ensures IsWhole(0.01, 50)
  {
    assert Shift(10, 0.01, 2) == Shift(10, 0.1, 1) == Shift(10, 1.0, 0) == 1.0;
    WholeMore(0.01, 2, 50);
  }

  lemma CentFeeFormula()
    requires Valid(DEFAULT_RULES)
    ensures RateFormula(DEFAULT_RULES, 0, 100000000000.0, 0.0) == 50000.0
    ensures PremiumFormula(100000000000.0, 50000.0, 0.01, 0.0) == 5000000000000000.01
    ensures Quantised(HalfUp, 2, 5000000000000000.01) == 5000000000000000.01
  {
    DefaultValues();
    assert 100000000000.0 / 10000.0 == 10000000.0;
    assert Bands(DEFAULT_RULES, 100000000000.0) == 10000000;
    assert Product(10000000.0, 0.005) == 50000.0 && Product(0.0, 0.005) == 0.0;
    assert RawRateFormula(DEFAULT_RULES, 0, 10000000, 0.0) == 50000.0;
    IntegerWhole(50000);
    WholeMore(50000.0, 0, 6);
    QuantisedFixes(HalfUp, 6, 50000.0);
    var x := 5000000000000000.01;
    assert Shift(10, x, 2) == Shift(10, 50000000000000000.1, 1) == Shift(10, 500000000000000001.0, 0);
    QuantisedFixes(HalfUp, 2, x);
  }

  /**
   The projection to JSON is not exact for the premium: this accepted quotation costs 5000000000000000.01 and
   the response says 5000000000000000.
   */
  lemma PremiumLosesACent()
    ensures Accepted(CENT_FEE) && Simulate(CALCULATION_PRECISION, DEFAULT_RULES, CENT_FEE).Success?
    ensures var premium := Simulate(CALCULATION_PRECISION, DEFAULT_RULES, CENT_FEE).value.premium;
      && Val(premium) == 5000000000000000.01
      && AsJsonNumber(premium) == JsonFloat(5000000000000000.0)
      && Prints(Dec(5, 15), 5000000000000000.0) && !Carries(AsJsonNumber(premium), premium)
  {
    hide Val, Simulate, Accepted, Digits50, RateFormula, PremiumFormula, Quantised, Binary64, Prints, Valid, Round;
    CentFeeAccepted();
    DefaultIsExact(CENT_FEE, 0, 0);
    CentFeeFormula();
    var premium := Simulate(CALCULATION_PRECISION, DEFAULT_RULES, CENT_FEE).value.premium;
    assert Val(premium) == 5000000000000000.01;
    LargeIsIntegral(Val(premium));
    FiveQuadrillion();
    assert Prints(Dec(5, 15), 5000000000000000.0);
  }

  lemma FiveQuadrillion()
    ensures Val(Dec(5, 15)) == 5000000000000000.0
    ensures Round(HalfEven, 5000000000000000.01) == 5000000000000000
    ensures Prints(Dec(5, 15), 5000000000000000.0)
  {
    Literals();
    ShiftScale(10, 5.0, 1.0, 15);
    assert Product(5.0, 1.0) == 5.0 && Product(5.0, Pow(10, 15)) == 5000000000000000.0;
    LargeIsIntegral(5000000000000000.0);
    RoundInteger(HalfEven, 5000000000000000);
    PrintingExists(Dec(5, 15));
    assert Digits(5) == 1 && Trim(Dec(5, 15)) == Dec(5, 15);
  }

  // ---------------------------------------------------------------- more digits than the context has

  lemma AlmostHalfCentUnits(p: nat)
    requires p >= 1
    ensures Shift(10, 0.005, p + 2) == 5.0 * Pow(10, p - 1)
    ensures Shift(10, Pow(10, 0 - p - 20), p + 2) == Pow(10, -18)
    ensures 0.0 < Pow(10, -18) < 0.1 && 1.0 <= Pow(10, p - 1)
  {
    assert Shift(10, 0.005, 3) == Shift(10, 0.05, 2) == Shift(10, 0.5, 1) == Shift(10, 5.0, 0);
    ShiftAdd(10, 0.005, 3, p - 1);
    ShiftScale(10, 5.0, 1.0, p - 1);
    assert Product(5.0, 1.0) == 5.0 && Product(5.0, Pow(10, p - 1)) == 5.0 * Pow(10, p - 1);
    ShiftAdd(10, 1.0, 0 - p - 20, p + 2);
    PowPositive(10, -18);
    PowOrder(10, -18, -1);
    PowMonotone(10, 0, p - 1);
    assert Pow(10, -1) == Shift(10, 0.1, 0);
  }

  /** A fraction 10^-(p+20) below 0.005 is rounded up to 0.005 by a context of p digits. */
  lemma AlmostHalfCentRounds(p: nat, d: real)
    requires p >= 1 && d == 0.005 - Pow(10, 0 - p - 20)
    ensures Rounded(p, d) == 0.005
  {
    AlmostHalfCentUnits(p);
    hide Shift, RoundSig;
    ShiftLinear(10, 0.005, Pow(10, 0 - p - 20), p + 2);
    PowTen(p - 1);
    PowIsNat(10, p - 1);
    var e := 0 - p - 2;
    assert 0 - e == p + 2;
    assert IsScale(10, p, d, e);
    RoundSigNearest(10, p, d, e, 5 * PowNat(10, p - 1));
    ShiftBack(10, 0.005, p + 2);
  }

  /** 10^-100 below half a cent. */
  const BELOW_HALF_CENT := Dec(5 * PowNat(10, 97) - 1, -100)

  /** A new car worth 1, with that deductible and nothing else. */
  const TINY_DEDUCTIBLE :=
    Quotation(Vehicle("Make", "Model", Money(Dec(1, 0), "USD"), 2026), Money(ZERO, "USD"), BELOW_HALF_CENT, ZERO, 2026)

  /** n units of 10^-k, less one unit of 10^-(k+m). */
  lemma LessOne(n: int, k: nat, m: nat)
    ensures Val(Dec(n * PowNat(10, m) - 1, 0 - k - m)) == Shift(10, n as real, 0 - k) - Pow(10, 0 - k - m)
  {
    hide Shift, PowNat;
    ShiftInteger(10, n, m);
    ShiftLinear(10, (n * PowNat(10, m)) as real, 1.0, 0 - k - m);
    ShiftAdd(10, n as real, m, 0 - k - m);
    assert m + (0 - k - m) == 0 - k;
    assert (n * PowNat(10, m) - 1) as real == (n * PowNat(10, m)) as real - 1.0;
  }

  lemma TinyDeductibleAccepted()
    ensures Accepted(TINY_DEDUCTIBLE) && Val(BELOW_HALF_CENT) == 0.005 - Pow(10, -100)
    ensures Val(TINY_DEDUCTIBLE.vehicle.value.amount) == 1.0
  {
    hide Shift, PowNat;
    DefaultValues();
    ThousandthsOf(5);
    LessOne(5, 3, 97);
    FormulaQuantisesToZero(0.005 - Pow(10, -100));
    PowOrder(10, 0, 11);
    NineZeros();
    IntegerVal(1);
    IntegerVal(0);
  }

  /**
   Quantisation is not the only rounding: for this accepted quotation a deductible just below half a cent is first
   rounded to 80 digits and then up to a cent, although the formula quantises to zero.
   */
  lemma DeductibleRoundedTwice()
    ensures Accepted(TINY_DEDUCTIBLE) && Simulate(CALCULATION_PRECISION, DEFAULT_RULES, TINY_DEDUCTIBLE).Success?
    ensures Simulate(CALCULATION_PRECISION, DEFAULT_RULES, TINY_DEDUCTIBLE).value.limits.deductibleValue == Dec(1, -2)
    ensures Quantised(HalfUp, 2, KeptFormula(1.0, Val(DEFAULT_RULES.coveragePercentage), Val(BELOW_HALF_CENT))) == 0.0
  {
    hide Val, PolicyLimit, Rate, Premium, Simulate, Valid, Check, Accepted, Guard, KeptFormula, Quantised;
    TinyDeductibleAccepted();
    DefaultNeverFails(TINY_DEDUCTIBLE);
    DefaultRulesValid();
    SimulationLaws.SimulateParts(80, DEFAULT_RULES, TINY_DEDUCTIBLE);
    RoundedTwice(TINY_DEDUCTIBLE.vehicle, BELOW_HALF_CENT);
  }

  lemma RoundedTwice(v: Vehicle, d: Decimal)
    requires Val(v.value.amount) == 1.0 && Val(d) == 0.005 - Pow(10, -100)
    ensures Valid(DEFAULT_RULES)
    ensures var limits := PolicyLimit(CALCULATION_PRECISION, d, DEFAULT_RULES, v);
      limits.Success? && limits.value.deductibleValue == Dec(1, -2)
    ensures Quantised(HalfUp, 2, KeptFormula(1.0, Val(DEFAULT_RULES.coveragePercentage), Val(d))) == 0.0
  {
    DefaultRulesValid();
    DefaultValues();
    AlmostHalfCentRounds(80, Val(d));
    FormulaQuantisesToZero(Val(d));
    HalfCentUnits();
    hide Val, PolicyLimit, Units, Valid, Check, RoundSig;
    OneRounds();
    PolicyLimitMeaning(80, d, DEFAULT_RULES, v);
    assert Product(1.0, 1.0) == 1.0 && Product(1.0, Val(d)) == Val(d);
    PowOrder(10, -100, 0);
    PowPositive(10, -100);
    LimitAtMostOne(Val(d));
    SmallUnitsFit(80, HalfUp, 2, AfterDeductible(80, 1.0, Val(d)), 11);
    FitsSmall(80, 1);
  }

  lemma OneRounds()
    ensures Rounded(80, 1.0) == 1.0
  {
    PowRepresentable(80, 0);
    RoundSigFixes(10, 80, 1.0);
  }

  lemma LimitAtMostOne(d: real)
    requires 0.0 <= d <= 1.0
    ensures 0.0 <= AfterDeductible(80, 1.0, d) <= Pow(10, 11)
  {
    PowRepresentable(80, 0);
    DiscountWithinBase(80, 1.0, d);
    PowOrder(10, 0, 11);
  }

  lemma HalfCentUnits()
    ensures Units(HalfUp, 2, 0.005) == 1
  {
    assert Shift(10, 0.005, 2) == Shift(10, 0.05, 1) == Shift(10, 0.5, 0) == 0.5;
  }

  lemma FormulaQuantisesToZero(d: real)
    requires d == 0.005 - Pow(10, -100)
    ensures Quantised(HalfUp, 2, KeptFormula(1.0, 1.0, d)) == 0.0 && 0.0 < d < 0.005
  {
    PowPositive(10, -100);
    PowOrder(10, -100, -3);
    assert Pow(10, -3) == Shift(10, 0.1, -2) == Shift(10, 0.01, -1) == Shift(10, 0.001, 0);
    ShiftOrder(10, d, 0.005, 2);
    ShiftSign(d, 2);
    assert Shift(10, 0.005, 2) == Shift(10, 0.05, 1) == Shift(10, 0.5, 0) == 0.5;
    assert Units(HalfUp, 2, d) == 0;
    ShiftLinear(10, 0.0, 0.0, 0 - 2);
  }

  lemma PowProduct(j: int, k: int)
    ensures Product(Pow(10, j), Pow(10, k)) == Pow(10, j + k)
  {
    ShiftProduct(10, 1.0, j, 1.0, k);
    assert Product(1.0, 1.0) == 1.0;
  }

  // ---------------------------------------------------------------- a vehicle value with too many digits

  /** 10^-20 below 20000. */
  const LONG_VALUE := Dec(20000 * PowNat(10, 20) - 1, -20)

  const LONG_QUOTATION :=
    Quotation(Vehicle("Make", "Model", Money(LONG_VALUE, "USD"), 2026), Money(ZERO, "USD"), ZERO, ZERO, 2026)

  lemma LongValue()
    ensures Val(LONG_VALUE) == 20000.0 - 0.00000000000000000001
  {
    hide PowNat;
    LessOne(20000, 0, 20);
    Literals();
    PowProduct(16, -20);
    assert Pow(10, -4) == Shift(10, 0.1, -3) == Shift(10, 0.01, -2) == Shift(10, 0.001, -1) == Shift(10, 0.0001, 0);
  }

  lemma LongValueAccepted()
    ensures Accepted(LONG_QUOTATION)
  {
    LongValue();
    DefaultValues();
    ElevenZeros();
    PowPositive(10, 9);
    hide Shift, PowNat;
    IntegerVal(0);
  }

  lemma TwoTo38()
    ensures Pow(2, 38) == 274877906944.0
  {
    Literals();
    PowStep(2, 51); PowStep(2, 50); PowStep(2, 49); PowStep(2, 48); PowStep(2, 47); PowStep(2, 46); PowStep(2, 45);
    PowStep(2, 44); PowStep(2, 43); PowStep(2, 42); PowStep(2, 41); PowStep(2, 40); PowStep(2, 39); PowStep(2, 38);
  }

  /** Everything this close to 20000 has its binary64. */
  lemma NearTwentyThousand(x: real)
    requires 20000.0 - 0.000000000001 <= x <= 20000.0
    ensures Binary64(x) == 20000.0
  {
    hide Shift, RoundSig;
    TwoTo38();
    ShiftScale(2, x, 1.0, 38);
    ShiftScale(2, 20000.0, 1.0, 38);
    assert Product(x, 1.0) == x && Product(20000.0, 1.0) == 20000.0;
    assert Product(x, 274877906944.0) == 274877906944.0 * x && Product(20000.0, 274877906944.0) == 5497558138880000.0;
    assert 0 - -38 == 38;
    ShortestPrinting.NearestIs(x, 5497558138880000, -38);
    ShiftBack(2, 20000.0, 38);
  }

  /**
   Nor is the projection exact for every vehicle value: the number of its decimals is not limited, and this accepted
   value, 19999.99999999999999999999, is echoed as 20000.
   */
  lemma VehicleValueNotEchoed()
    ensures Accepted(LONG_QUOTATION) && LONG_QUOTATION.vehicle.value.amount == LONG_VALUE
    ensures Val(LONG_VALUE) < 20000.0 && AsJsonNumber(LONG_VALUE) == JsonFloat(20000.0)
    ensures Prints(Dec(2, 4), 20000.0) && !Carries(AsJsonNumber(LONG_VALUE), LONG_VALUE)
  {
    hide Val, Binary64, Digits, PowNat, Trim, Accepted, Prints, Carries;
    LongValue();
    LongValueAccepted();
    NearTwentyThousand(Val(LONG_VALUE));
    NearTwentyThousand(20000.0);
    TwentyThousand();
    LongDigits();
    assert !IsIntegral(Val(LONG_VALUE)) by { assert (20000.0 - 0.00000000000000000001).Floor == 19999; }
    ShortestPrinting.MoreThanSeventeenDigitsLost(LONG_VALUE);
  }

  lemma TwentyThousand()
    ensures Prints(Dec(2, 4), Binary64(20000.0))
  {
    SmallPowers();
    ShiftScale(10, 2.0, 1.0, 4);
    assert Product(2.0, 1.0) == 2.0 && Product(2.0, Pow(10, 4)) == 20000.0;
    hide Binary64, Prints, Shift;
    PrintingExists(Dec(2, 4));
    assert Trim(Dec(2, 4)) == Dec(2, 4);
  }

  lemma LongDigits()
    ensures LONG_VALUE.coef > 0 && Trim(LONG_VALUE) == LONG_VALUE && Digits(LONG_VALUE.coef) > 17
  {
    hide PowNat, Digits;
    PowNatMonotone(17, 20);
    if Digits(LONG_VALUE.coef) <= 17 {
      PowNatMonotone(Digits(LONG_VALUE.coef), 17);
    }
  }

  // ---------------------------------------------------------------- an older vehicle, a lower premium

  /** 10^-80 below one, and 10^-80 below half a cent. */
  const NEARLY_ALL := Dec(1 * PowNat(10, 80) - 1, -80)
  const NEARLY_HALF_CENT := Dec(5 * PowNat(10, 77) - 1, -80)

  /** A vehicle worth 100 from some year, quoted in 2026 with that deductible and that fee. */
  function FromYear(year: int): Quotation {
    Quotation(Vehicle("Make", "Model", Money(Dec(100, 0), "USD"), year), Money(NEARLY_HALF_CENT, "USD"),
              NEARLY_ALL, ZERO, 2026)
  }

  lemma SteepValues()
    ensures Val(NEARLY_ALL) == 1.0 - Pow(10, -80) && Val(NEARLY_HALF_CENT) == 0.005 - Pow(10, -80)
    ensures 0.0 < Pow(10, -80) < 0.001
    ensures Val(Dec(100, 0)) == 100.0 && Val(ZERO) == 0.0
  {
    hide PowNat;
    LessOne(1, 0, 80);
    LessOne(5, 3, 77);
    assert Shift(10, 5.0, -3) == Shift(10, 0.5, -2) == Shift(10, 0.05, -1) == Shift(10, 0.005, 0);
    PowPositive(10, -80);
    PowOrder(10, -80, -3);
    assert Pow(10, -3) == Shift(10, 0.1, -2) == Shift(10, 0.01, -1) == Shift(10, 0.001, 0);
  }

  lemma FromYearAccepted(year: int)
    requires 1900 <= year <= 2026
    ensures Accepted(FromYear(year))
  {
    SteepValues();
    DefaultValues();
    ElevenZeros();
    NineZeros();
    hide Shift, PowNat;
  }

  lemma NineZeros()
    ensures Pow(10, 9) >= 1.0 && Val(MAX_BROKER_FEE) == Pow(10, 9) && Val(MAX_VEHICLE_VALUE) == Pow(10, 11)
  {
    PowMonotone(10, 0, 9);
  }

  /** Its rate: half a percent for every year of age. */
  lemma FromYearRate(year: int)
    requires 1900 <= year <= 2026
    ensures Valid(DEFAULT_RULES)
    ensures var rate := Rate(CALCULATION_PRECISION, 2026, ZERO, DEFAULT_RULES, FromYear(year).vehicle);
      rate.Success? && Val(rate.value) == 0.005 * (2026 - year) as real
  {
    hide Rate, Quantised, Valid, Accepted, Check, Shift, Val, IsWhole;
    FromYearAccepted(year);
    SteepValues();
    ZeroIsWhole(50);
    DefaultRateIsFormula(FromYear(year));
    SteepRateFormula(2026 - year);
  }

  lemma SteepRateFormula(age: int)
    requires 0 <= age <= 126
    ensures Val(DEFAULT_RULES.valueBandAmount) > 0.0
    ensures RateFormula(DEFAULT_RULES, age, 100.0, 0.0) == 0.005 * age as real
  {
    DefaultValues();
    DefaultTerms(age, 0);
    hide Shift, IsWhole, Quantised, Val;
    assert (100.0 / 10000.0).Floor == 0;
    assert Bands(DEFAULT_RULES, 100.0) == 0;
    assert Product(0.0, 0.005) == 0.0 && Product(age as real, 0.005) == 0.005 * age as real;
    WholeMore(0.005 * age as real, 3, 6);
    QuantisedFixes(HalfUp, 6, 0.005 * age as real);
  }

  lemma ShortNumbers()
    ensures Representable(10, 80, 1.0) && Representable(10, 80, 1.5) && Representable(10, 80, 0.005)
    ensures Representable(10, 80, Pow(10, -80)) && Representable(10, 80, 0.0)
  {
    hide PowNat;
    PowRepresentable(80, 0);
    PowNatMonotone(3, 80);
    Thousand();
    SmallPowers();
    assert Shift(10, 15.0, -1) == 1.5;
    assert Shift(10, 5.0, -3) == Shift(10, 0.5, -2) == Shift(10, 0.05, -1) == Shift(10, 0.005, 0);
    assert Writes(10, 80, 1.5, 15, -1) && Writes(10, 80, 0.005, 5, -3) && Writes(10, 80, Pow(10, -80), 1, -80);
    ZeroRepresentable(80);
  }

  lemma Thousand()
    ensures PowNat(10, 3) == 1000
  {
    assert PowNat(10, 1) == 10 && PowNat(10, 2) == 100;
  }

  lemma SteepRepresentable()
    ensures Representable(10, 80, Val(NEARLY_ALL)) && Representable(10, 80, Val(NEARLY_HALF_CENT))
  {
    hide PowNat, Val;
    PowNatMonotone(78, 80);
    SevenAndEight();
    FitsVal(80, NEARLY_ALL);
    FitsVal(80, NEARLY_HALF_CENT);
  }

  lemma SevenAndEight()
    ensures PowNat(10, 78) == 10 * PowNat(10, 77)
  {
    hide PowNat;
    PowIsNat(10, 77);
    PowIsNat(10, 78);
    PowTen(77);
  }

  /** At a base of 1 the discount leaves 10^-80, which with the fee makes half a cent. */
  lemma LowBase(d: real, fee: real)
    requires d == 1.0 - Pow(10, -80) && fee == 0.005 - Pow(10, -80) && Representable(10, 80, d)
    ensures RoundedPremium(80, 100.0, 0.01, fee, d) == 0.005
  {
    hide RoundSig, Representable, Pow;
    ShortNumbers();
    RoundSigFixes(10, 80, 1.0);
    RoundSigFixes(10, 80, d);
    RoundSigFixes(10, 80, Pow(10, -80));
    RoundSigFixes(10, 80, 0.005);
    assert Product(100.0, 0.01) == 1.0 && Product(1.0, d) == d;
  }

  /** At a base of 1.5 the discount is rounded to the whole base. */
  lemma HighBase(d: real, fee: real)
    requires d == 1.0 - Pow(10, -80) && Representable(10, 80, fee)
    ensures RoundedPremium(80, 100.0, 0.015, fee, d) == fee
  {
    hide RoundSig, Representable, Pow;
    ShortNumbers();
    RoundSigFixes(10, 80, 1.5);
    assert Product(100.0, 0.015) == 1.5;
    SwallowsBase(d);
    RoundSigFixes(10, 80, 0.0);
    RoundSigFixes(10, 80, fee);
    assert 1.5 - 1.5 == 0.0 && 0.0 + fee == fee;
  }

  lemma SwallowsBase(d: real)
    requires d == 1.0 - Pow(10, -80)
    ensures Rounded(80, Product(1.5, d)) == 1.5
  {
    hide Shift, RoundSig, PowNat, Pow;
    var x, u := Product(1.5, d), Pow(10, -80);
    assert x == 1.5 - 1.5 * u;
    FifteenTimes();
    PowTen(78);
    PowTen(79);
    PowIsNat(10, 78);
    PowMonotone(10, 0, 78);
    ShiftLinear(10, 1.5, 1.5 * u, 79);
    assert 0 - -79 == 79;
    assert IsScale(10, 80, x, -79);
    RoundSigNearest(10, 80, x, -79, 15 * PowNat(10, 78));
    ShiftBack(10, 1.5, 79);
  }

  lemma FifteenTimes()
    ensures Shift(10, 1.5, 79) == 15.0 * Pow(10, 78) && Shift(10, 1.5 * Pow(10, -80), 79) == 0.15
  {
    assert Shift(10, 1.5, 1) == Shift(10, 15.0, 0);
    hide Pow;
    ShiftAdd(10, 1.5, 1, 78);
    ShiftScale(10, 15.0, 1.0, 78);
    ShiftScale(10, 1.5, 1.0, -80);
    assert Product(15.0, 1.0) == 15.0 && Product(1.5, 1.0) == 1.5;
    TenthOf();
  }

  lemma TenthOf()
    ensures Product(15.0, Shift(10, 1.0, 78)) == 15.0 * Pow(10, 78)
    ensures Product(1.5, Shift(10, 1.0, -80)) == 1.5 * Pow(10, -80)
    ensures Shift(10, Shift(10, 1.5, -80), 79) == 0.15
  {
    ShiftAdd(10, 1.5, -80, 79);
    assert Shift(10, 1.5, -1) == Shift(10, 0.15, 0);
  }

  lemma BelowHalfCentUnits(fee: real)
    requires fee == 0.005 - Pow(10, -80)
    ensures Units(HalfUp, 2, fee) == 0
  {
    PowPositive(10, -80);
    PowOrder(10, -80, -3);
    assert Pow(10, -3) == Shift(10, 0.1, -2) == Shift(10, 0.01, -1) == Shift(10, 0.001, 0);
    ShiftOrder(10, fee, 0.005, 2);
    ShiftSign(fee, 2);
    assert Shift(10, 0.005, 2) == Shift(10, 0.05, 1) == Shift(10, 0.5, 0) == 0.5;
  }

  lemma FromYearPremium(rate: Decimal, year: int)
    requires Valid(DEFAULT_RULES) && (Val(rate) == 0.01 || Val(rate) == 0.015)
    ensures Premium(80, rate, NEARLY_HALF_CENT, NEARLY_ALL, DEFAULT_RULES, FromYear(year).vehicle)
      == Success(if Val(rate) == 0.01 then Dec(1, -2) else Dec(0, -2))
  {
    hide Val, Premium, RoundedPremium, Units, Valid, Pow, PowNat;
    SteepValues();
    SteepRepresentable();
    PremiumMeaning(80, rate, NEARLY_HALF_CENT, NEARLY_ALL, DEFAULT_RULES, FromYear(year).vehicle);
    HalfCentUnits();
    BelowHalfCentUnits(Val(NEARLY_HALF_CENT));
    FitsSmall(80, 1);
    FitsSmall(80, 0);
    if Val(rate) == 0.01 {
      LowBase(Val(NEARLY_ALL), Val(NEARLY_HALF_CENT));
    } else {
      HighBase(Val(NEARLY_ALL), Val(NEARLY_HALF_CENT));
    }
  }

  /**
   Above the threshold the order of premiums can be lost under the shipped rules too: two accepted quotations that
   differ only in the year of the vehicle. The one of 2024 has the rate 0.010000 and pays a cent; the one of 2023 has
   the higher rate 0.015000 and pays nothing.
   */
  lemma HigherRateLowerQuote()
    ensures Accepted(FromYear(2024)) && Accepted(FromYear(2023))
    ensures Simulate(CALCULATION_PRECISION, DEFAULT_RULES, FromYear(2024)).Success?
    ensures Simulate(CALCULATION_PRECISION, DEFAULT_RULES, FromYear(2023)).Success?
    ensures var f := Simulate(CALCULATION_PRECISION, DEFAULT_RULES, FromYear(2024)).value;
      var f' := Simulate(CALCULATION_PRECISION, DEFAULT_RULES, FromYear(2023)).value;
      && Val(f.appliedRate) == 0.010 && f.premium == Dec(1, -2)
      && Val(f'.appliedRate) == 0.015 && f'.premium == Dec(0, -2)
  {
    hide Val, Rate, Premium, PolicyLimit, Simulate, Valid, Accepted, Guard;
    FromYearFigures(2024);
    FromYearFigures(2023);
  }

  lemma FromYearFigures(year: int)
    requires year == 2024 || year == 2023
    ensures Accepted(FromYear(year)) && Simulate(CALCULATION_PRECISION, DEFAULT_RULES, FromYear(year)).Success?
    ensures var f := Simulate(CALCULATION_PRECISION, DEFAULT_RULES, FromYear(year)).value;
      && Val(f.appliedRate) == (if year == 2024 then 0.010 else 0.015)
      && f.premium == if year == 2024 then Dec(1, -2) else Dec(0, -2)
  {
    hide Val, Rate, Premium, PolicyLimit, Simulate, Valid, Accepted, Guard;
    FromYearAccepted(year);
    FromYearRate(year);
    DefaultNeverFails(FromYear(year));
    SimulationLaws.SimulateParts(80, DEFAULT_RULES, FromYear(year));
    FromYearPremium(Simulate(80, DEFAULT_RULES, FromYear(year)).value.appliedRate, year);
  }
}

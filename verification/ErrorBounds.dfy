/**
 How far the shipped service can be from the real-number formulas on inputs with any number of digits: every figure
 is within one unit of its last place.
 */
module ErrorBounds {
  import opened Wrappers
  import opened Powers
  import opened Rounding
  import opened SignificantDigits
  import opened Decimals
  import opened RatingRules
  import opened Quantisation
  import opened Calculators
  import opened RateLaws
  import opened MoneyLaws
  import opened ExactArithmetic
  import opened DefaultRules
  import Conservation
  import SimulationLaws

  /** More than one rounding of a number up to 10^19 can be off. */
  function Tiny(): real {
    Pow(10, -60)
  }

  lemma TinyIsTiny()
    ensures 0.0 < Tiny() < 0.0000001
  {
    PowPositive(10, -60);
    PowOrder(10, -60, -7);
    assert Pow(10, -7) == Shift(10, 0.1, -6) == Shift(10, 0.01, -5) == Shift(10, 0.001, -4) == Shift(10, 0.0001, -3);
    assert Shift(10, 0.0001, -3) == Shift(10, 0.00001, -2) == Shift(10, 0.000001, -1) == Shift(10, 0.0000001, 0);
  }

  lemma RoundedNear(x: real)
    requires Abs(x) <= Pow(10, 19)
    ensures Abs(Rounded(80, x) - x) <= Tiny()
  {
    hide Shift, RoundSig;
    RoundSigError(10, 80, x);
    ShiftOrder(10, Abs(x), Pow(10, 19), -79);
    ShiftAdd(10, 1.0, 19, -79);
    PowPositive(10, -60);
  }

  /** Two non-negative numbers less than a unit apart are quantised at most a unit apart. */
  lemma QuantisedNear(mode: Mode, places: nat, x: real, y: real)
    requires x >= 0.0 && y >= 0.0 && Abs(x - y) < Ulp(places)
    ensures Abs(Quantised(mode, places, x) - Quantised(mode, places, y)) <= Ulp(places)
  {
    hide Shift, Round;
    var s, t := Shift(10, x, places), Shift(10, y, places);
    ShiftSign(x, places);
    ShiftSign(y, places);
    ShiftLinear(10, x, y, places);
    ShiftAbs(10, x - y, places);
    ShiftOrder(10, Abs(x - y), Ulp(places), places);
    ShiftBack(10, 1.0, 0 - places);
    assert 0 - (0 - places) == places;
    RoundDifference(mode, s, t);
    var m, n := Round(mode, s), Round(mode, t);
    assert -1 <= m - n <= 1;
    ShiftLinear(10, m as real, n as real, 0 - places);
    ShiftAbs(10, (m - n) as real, 0 - places);
    ShiftOrder(10, Abs((m - n) as real), 1.0, 0 - places);
  }

  // ---------------------------------------------------------------- the rate

  lemma RawRateNear(age: int, bands: int, adjustment: real)
    requires 0 <= age <= 9999 && 0 <= bands <= 10000000 && -0.02 <= adjustment <= 0.02
    ensures Abs(RoundedRawRate(80, DEFAULT_RULES, age, bands, adjustment)
                - RawRateFormula(DEFAULT_RULES, age, bands, adjustment)) <= 5.0 * Tiny()
  {
    DefaultValues();
    DefaultTerms(age, bands);
    hide Val, RoundSig, IsWhole, Product, Tiny;
    SumsNear(Product(age as real, 0.005), Product(bands as real, 0.005), adjustment);
  }

  lemma SumsNear(a: real, v: real, g: real)
    requires 0.0 <= a <= 50.0 && 0.0 <= v <= 50000.0 && -0.02 <= g <= 0.02
    ensures Abs(RoundedSum(80, RoundedSum(80, RoundedSum(80, Rounded(80, a), Rounded(80, v)), 0.0), g)
                - (a + v + 0.0 + g)) <= 5.0 * Tiny()
  {
    TinyIsTiny();
    LargeEnough();
    hide Pow, RoundSig, Tiny, Rounded;
    RoundedNear(a);
    RoundedNear(v);
    var s := Rounded(80, a) + Rounded(80, v);
    RoundedNear(s);
    RoundedNear(Rounded(80, s) + 0.0);
    RoundedNear(Rounded(80, Rounded(80, s) + 0.0) + g);
  }

  lemma LargeEnough()
    ensures Pow(10, 19) >= 1000000.0
  {
    SmallPowers();
    PowMonotone(10, 6, 19);
  }

  lemma RateNear(q: Quotation)
    requires Accepted(q)
    ensures Valid(DEFAULT_RULES)
    ensures var rate := Rate(80, q.calculationYear, q.adjustment, DEFAULT_RULES, q.vehicle);
      rate.Success? && 0.0 <= Val(rate.value) <= Pow(10, 7)
      && Abs(Val(rate.value) - RateFormula(DEFAULT_RULES, q.calculationYear - q.vehicle.year,
               Val(q.vehicle.value.amount), Val(q.adjustment))) <= Ulp(6)
  {
    hide Val, Rate, Pow, Accepted, Valid, RoundedRawRate, RawRateFormula, ClampReal, Ulp, Quantised, ValidVehicle,
      Bands, RateCompletes, Tiny, Check;
    DefaultRateCompletes(q);
    AcceptedRanges(q);
    var age, value, g := q.calculationYear - q.vehicle.year, Val(q.vehicle.value.amount), Val(q.adjustment);
    RateMeaning(80, q.calculationYear, q.adjustment, DEFAULT_RULES, q.vehicle);
    BandsAtMost(value);
    var bands := Bands(DEFAULT_RULES, value);
    RawRateNear(age, bands, g);
    ClampedNear(RoundedRawRate(80, DEFAULT_RULES, age, bands, g), RawRateFormula(DEFAULT_RULES, age, bands, g));
  }

  lemma ClampedNear(x: real, y: real)
    requires Valid(DEFAULT_RULES) && Abs(x - y) <= 5.0 * Tiny()
    ensures Abs(Quantised(HalfUp, 6, ClampReal(DEFAULT_RULES, x)) - Quantised(HalfUp, 6, ClampReal(DEFAULT_RULES, y)))
         <= Ulp(6)
  {
    TinyIsTiny();
    Conservation.ClampLipschitz(DEFAULT_RULES, x, y);
    ClampWithin(DEFAULT_RULES, x);
    ClampWithin(DEFAULT_RULES, y);
    UlpOf();
    hide Val, Ulp, Quantised, Tiny, Valid;
    QuantisedNear(HalfUp, 6, ClampReal(DEFAULT_RULES, x), ClampReal(DEFAULT_RULES, y));
  }

  lemma UlpOf()
    ensures Ulp(2) == 0.01 && Ulp(6) == 0.000001
  {
    assert Ulp(2) == Shift(10, 0.1, -1) == Shift(10, 0.01, 0);
    assert Ulp(6) == Shift(10, 0.1, -5) == Shift(10, 0.01, -4) == Shift(10, 0.001, -3) == Shift(10, 0.0001, -2);
    assert Shift(10, 0.0001, -2) == Shift(10, 0.00001, -1) == Shift(10, 0.000001, 0);
  }

  // ---------------------------------------------------------------- the amounts

  /** Base, discount and remainder, each within a few roundings of its formula. */
  lemma RemainderNear(value: real, factor: real, d: real)
    requires value >= 0.0 && factor >= 0.0 && 0.0 <= d <= 1.0 && Product(value, factor) <= Pow(10, 18)
    ensures var base := RoundedProduct(80, value, factor);
      && Abs(RoundedProduct(80, base, d) - KeptFormula(value, factor, d)) <= 2.0 * Tiny()
      && Abs(AfterDeductible(80, base, d) - LimitFormula(value, factor, d)) <= 4.0 * Tiny()
      && 0.0 <= AfterDeductible(80, base, d) <= base && 0.0 <= RoundedProduct(80, base, d) <= base
      && 0.0 <= base <= Pow(10, 18)
  {
    hide RoundSig, Pow, Tiny, Representable, KeptFormula, LimitFormula;
    var x := Product(value, factor);
    var base := RoundedProduct(80, value, factor);
    PowTen(18);
    Remainder(value, factor, d);
    ProductSign(80, value, factor);
    NonNegativeProduct(value, factor);
    RoundedAtMost(80, x, 18);
    ProductRepresentable(80, value, factor);
    DiscountWithinBase(80, base, d);
    RoundedNear(x);
    CloseProducts(base, x, d);
    UnitFraction(base, d);
    hide Product, Rounded;
    RoundedNear(Product(base, d));
    RoundedNear(base - RoundedProduct(80, base, d));
  }

  lemma NonNegativeProduct(x: real, y: real)
    requires x >= 0.0 && y >= 0.0
    ensures Product(x, y) >= 0.0
  {
  }

  lemma CloseProducts(x: real, y: real, d: real)
    requires 0.0 <= d <= 1.0
    ensures Abs(Product(x, d) - Product(y, d)) <= Abs(x - y)
  {
    var z := x - y;
    assert Product(x, d) - Product(y, d) == z * d;
    UnitTimes(z, d);
  }

  lemma UnitTimes(z: real, d: real)
    requires 0.0 <= d <= 1.0
    ensures Abs(z * d) <= Abs(z)
  {
    if z >= 0.0 {
      UnitFraction(z, d);
    } else {
      UnitFraction(-z, d);
      assert Product(-z, d) == -(z * d);
    }
  }

  lemma PremiumNear(value: real, rate: real, fee: real, d: real)
    requires value >= 0.0 && rate >= 0.0 && 0.0 <= d <= 1.0 && Product(value, rate) <= Pow(10, 18)
    requires 0.0 <= fee <= Pow(10, 9)
    ensures Abs(RoundedPremium(80, value, rate, fee, d) - PremiumFormula(value, rate, fee, d)) <= 5.0 * Tiny()
    ensures RoundedPremium(80, value, rate, fee, d) >= 0.0 && PremiumFormula(value, rate, fee, d) >= 0.0
  {
    hide RoundSig, Pow, Tiny, LimitFormula, PremiumFormula, AfterDeductible, Product, RoundedProduct;
    RemainderNear(value, rate, d);
    RoundedPremiumNonNegative(80, value, rate, fee, d);
    SameFormula(value, rate, fee, d);
    LimitNonNegative(value, rate, d);
    PowTen(18);
    PowMonotone(10, 9, 18);
    RoundedNear(AfterDeductible(80, RoundedProduct(80, value, rate), d) + fee);
  }

  lemma LimitNonNegative(value: real, factor: real, d: real)
    requires value >= 0.0 && factor >= 0.0 && 0.0 <= d <= 1.0
    ensures LimitFormula(value, factor, d) >= 0.0 && KeptFormula(value, factor, d) >= 0.0
  {
    var base := Product(value, factor);
    NonNegativeProduct(value, factor);
    Remainder(value, factor, d);
    UnitFraction(base, d);
  }

  /** A successful quantised amount is within a cent of the formula it is close to. */
  lemma CheckedNear(x: real, y: real, amount: Decimal)
    requires x >= 0.0 && y >= 0.0 && Abs(x - y) <= 5.0 * Tiny()
    requires Checked(80, Units(HalfUp, 2, x), 0 - 2) == Success(amount)
    ensures Abs(Val(amount) - Quantised(HalfUp, 2, y)) <= 0.01
  {
    TinyIsTiny();
    UlpOf();
    hide Val, Shift, Units, Tiny, Ulp;
    SimulationLaws.CheckedValue(80, Units(HalfUp, 2, x), 2);
    QuantisedNear(HalfUp, 2, x, y);
  }

  lemma PremiumWithinCent(q: Quotation, rate: Decimal, premium: Decimal)
    requires Accepted(q) && Valid(DEFAULT_RULES) && 0.0 <= Val(rate) <= Pow(10, 7)
    requires Premium(80, rate, q.brokerFee.amount, q.deductible, DEFAULT_RULES, q.vehicle) == Success(premium)
    ensures Abs(Val(premium) - Quantised(HalfUp, 2, PremiumFormula(
              Val(q.vehicle.value.amount), Val(rate), Val(q.brokerFee.amount), Val(q.deductible)))) <= 0.01
  {
    hide Val, Premium, RoundedPremium, PremiumFormula, Units, Pow, Valid, Accepted, Tiny, Quantised, Checked;
    AcceptedRanges(q);
    var value, fee, d := Val(q.vehicle.value.amount), Val(q.brokerFee.amount), Val(q.deductible);
    PremiumMeaning(80, rate, q.brokerFee.amount, q.deductible, DEFAULT_RULES, q.vehicle);
    ProductAtMost(value, 11, Val(rate), 7);
    PremiumNear(value, Val(rate), fee, d);
    CheckedNear(RoundedPremium(80, value, Val(rate), fee, d), PremiumFormula(value, Val(rate), fee, d), premium);
  }

  lemma LimitsWithinCent(q: Quotation, limits: Limits)
    requires Accepted(q) && Valid(DEFAULT_RULES)
    requires PolicyLimit(80, q.deductible, DEFAULT_RULES, q.vehicle) == Success(limits)
    ensures var value, d := Val(q.vehicle.value.amount), Val(q.deductible);
      && Abs(Val(limits.deductibleValue) - Quantised(HalfUp, 2, KeptFormula(value, 1.0, d))) <= 0.01
      && Abs(Val(limits.policyLimit) - Quantised(HalfUp, 2, LimitFormula(value, 1.0, d))) <= 0.01
  {
    hide Val, PolicyLimit, RoundedProduct, AfterDeductible, KeptFormula, LimitFormula, Units, Pow, Valid, Accepted,
      Tiny, Quantised, Checked, Product;
    AcceptedRanges(q);
    DefaultValues();
    TinyIsTiny();
    var value, d := Val(q.vehicle.value.amount), Val(q.deductible);
    PolicyLimitMeaning(80, q.deductible, DEFAULT_RULES, q.vehicle);
    TimesOne(value);
    PowMonotone(10, 11, 18);
    RemainderNear(value, 1.0, d);
    LimitNonNegative(value, 1.0, d);
    var base := RoundedProduct(80, value, 1.0);
    CheckedNear(RoundedProduct(80, base, d), KeptFormula(value, 1.0, d), limits.deductibleValue);
    CheckedNear(AfterDeductible(80, base, d), LimitFormula(value, 1.0, d), limits.policyLimit);
  }

  lemma TimesOne(x: real)
    ensures Product(x, 1.0) == x
  {
  }

  /**
   Under the shipped rules, whatever the digits of the inputs: the rate is within one unit of its formula, and each
   amount within a cent of the quantised formula, the premium's being that of the rate applied.
   */
  lemma WithinOneUnit(q: Quotation)
    requires Accepted(q)
    ensures Valid(DEFAULT_RULES) && Simulate(80, DEFAULT_RULES, q).Success?
    ensures var f := Simulate(80, DEFAULT_RULES, q).value;
      var value, fee, d := Val(q.vehicle.value.amount), Val(q.brokerFee.amount), Val(q.deductible);
      && Abs(Val(f.appliedRate) - RateFormula(DEFAULT_RULES, q.calculationYear - q.vehicle.year, value,
                                              Val(q.adjustment))) <= 0.000001
      && Abs(Val(f.premium) - Quantised(HalfUp, 2, PremiumFormula(value, Val(f.appliedRate), fee, d))) <= 0.01
      && Abs(Val(f.limits.deductibleValue) - Quantised(HalfUp, 2, KeptFormula(value, 1.0, d))) <= 0.01
      && Abs(Val(f.limits.policyLimit) - Quantised(HalfUp, 2, LimitFormula(value, 1.0, d))) <= 0.01
  {
    hide Val, Simulate, Rate, Premium, PolicyLimit, RateFormula, PremiumFormula, KeptFormula, LimitFormula, Quantised,
      Valid, Accepted, Ulp, Pow, Guard;
    RateNear(q);
    UlpOf();
    DefaultNeverFails(q);
    SimulationLaws.SimulateParts(80, DEFAULT_RULES, q);
    var f := Simulate(80, DEFAULT_RULES, q).value;
    PremiumWithinCent(q, f.appliedRate, f.premium);
    LimitsWithinCent(q, f.limits);
  }

  /** The two ceilings in full. */
  lemma NineToEleven()
    ensures Val(MAX_BROKER_FEE) == 1000000000.0 && Val(MAX_VEHICLE_VALUE) == 100000000000.0
  {
    SmallPowers();
    ShiftAdd(10, 1.0, 7, 2);
    ShiftAdd(10, 1.0, 7, 4);
    ShiftTimesNat(Pow(10, 7), 2);
    ShiftTimesNat(Pow(10, 7), 4);
    PowIsNat(10, 2);
    PowIsNat(10, 4);
    hide Shift;
    assert Product(10000000.0, 100.0) == 1000000000.0 && Product(10000000.0, 10000.0) == 100000000000.0;
    assert Product(100.0, 10000000.0) == 1000000000.0 && Product(10000.0, 10000000.0) == 100000000000.0;
  }

  // ---------------------------------------------------------------- conservation with no digit budget

  /** A value in cents is its own base. */
  lemma ValueIsBase(value: real)
    requires 0.0 < value <= Pow(10, 11) && IsWhole(value, 2)
    ensures RoundedBaseLimit(80, DEFAULT_RULES, value) == value
  {
    DefaultValues();
    TimesOne(value);
    hide Val, Pow, Shift, IsWhole, RoundSig, Product;
    ShortIsExact(80, value, 2, 11);
    RoundedExact(80, value);
  }

  /** Two parts that nearly add up to whole cents, each rounded half up. */
  lemma PartsInCents(x: real, y: real, n: int)
    requires Abs(x + y - n as real) < 1.0
    ensures -1 <= Round(HalfUp, x) + Round(HalfUp, y) - n <= 1
  {
    hide Round;
    Conservation.SplitErrorBound(HalfUp, x, y);
  }

  lemma QuantisedParts(kept: real, rest: real, value: real)
    requires IsWhole(value, 2) && Abs(kept + rest - value) < 0.01
    ensures Abs(Quantised(HalfUp, 2, kept) + Quantised(HalfUp, 2, rest) - value) <= 0.01
  {
    InCents(kept);
    InCents(rest);
    InCents(value);
    var n := Shift(10, value, 2).Floor;
    PartsInCents(Shift(10, kept, 2), Shift(10, rest, 2), n);
    hide Shift, Round;
    OfCents(Round(HalfUp, Shift(10, kept, 2)));
    OfCents(Round(HalfUp, Shift(10, rest, 2)));
  }

  lemma InCents(x: real)
    ensures Shift(10, x, 2) == 100.0 * x
  {
    assert Shift(10, x, 2) == Shift(10, 10.0 * x, 1) == Shift(10, 100.0 * x, 0);
  }

  lemma OfCents(n: int)
    ensures Shift(10, n as real, 0 - 2) == 0.01 * n as real
  {
    var x := n as real;
    assert Shift(10, x, -2) == Shift(10, 0.1 * x, -1) == Shift(10, 0.01 * x, 0);
  }

  /**
   Under the shipped rules, for a vehicle value in cents and a deductible of any number of digits: the deductible
   amount and the policy limit together miss the value by a cent at most.
   */
  lemma ConservedWithinCent(q: Quotation)
    requires Accepted(q) && IsWhole(Val(q.vehicle.value.amount), 2)
    ensures Valid(DEFAULT_RULES) && Simulate(80, DEFAULT_RULES, q).Success?
    ensures var l := Simulate(80, DEFAULT_RULES, q).value.limits;
      Abs(Val(l.deductibleValue) + Val(l.policyLimit) - Val(q.vehicle.value.amount)) <= 0.01
  {
    hide Val, Simulate, Rate, Premium, PolicyLimit, Valid, Accepted, Guard, Pow, IsWhole, Check;
    DefaultRulesValid();
    DefaultNeverFails(q);
    SimulationLaws.SimulateParts(80, DEFAULT_RULES, q);
    LimitsConserved(q, Simulate(80, DEFAULT_RULES, q).value.limits);
  }

  lemma LimitsConserved(q: Quotation, l: Limits)
    requires Accepted(q) && Valid(DEFAULT_RULES) && IsWhole(Val(q.vehicle.value.amount), 2)
    requires PolicyLimit(80, q.deductible, DEFAULT_RULES, q.vehicle) == Success(l)
    ensures Abs(Val(l.deductibleValue) + Val(l.policyLimit) - Val(q.vehicle.value.amount)) <= 0.01
  {
    hide Val, PolicyLimit, RoundedProduct, RoundedDifference, RoundedBaseLimit, Units, Pow, Valid, Accepted, Tiny,
      Quantised, Checked, IsWhole;
    AcceptedRanges(q);
    TinyIsTiny();
    var value, d := Val(q.vehicle.value.amount), Val(q.deductible);
    PolicyLimitMeaning(80, q.deductible, DEFAULT_RULES, q.vehicle);
    ValueIsBase(value);
    var kept, rest := RoundedProduct(80, value, d), AfterDeductible(80, value, d);
    RestNear(value, d);
    CheckedIsQuantised(kept, l.deductibleValue);
    CheckedIsQuantised(rest, l.policyLimit);
    QuantisedParts(kept, rest, value);
  }

  lemma RestNear(value: real, d: real)
    requires 0.0 < value <= Pow(10, 11) && 0.0 <= d <= 1.0 && IsWhole(value, 2)
    ensures Abs(RoundedProduct(80, value, d) + AfterDeductible(80, value, d) - value) <= Tiny()
  {
    hide RoundSig, RoundedProduct, Tiny, IsWhole, Pow;
    ShortIsExact(80, value, 2, 11);
    DiscountWithinBase(80, value, d);
    PowMonotone(10, 11, 19);
    RoundedNear(value - RoundedProduct(80, value, d));
  }

  lemma CheckedIsQuantised(x: real, amount: Decimal)
    requires Checked(80, Units(HalfUp, 2, x), 0 - 2) == Success(amount)
    ensures Val(amount) == Quantised(HalfUp, 2, x)
  {
    hide Val, Shift, Units;
    SimulationLaws.CheckedValue(80, Units(HalfUp, 2, x), 2);
  }

  // ---------------------------------------------------------------- the adjustment with no digit budget

  /** The age and band terms are exact, so an adjustment of any length is rounded once, when it is added. */
  lemma RawWithAdjustment(age: int, bands: int, g: real)
    requires 0 <= age <= 9999 && 0 <= bands <= 10000000
    ensures var x := RawRateFormula(DEFAULT_RULES, age, bands, 0.0);
      RoundedRawRate(80, DEFAULT_RULES, age, bands, g) == Rounded(80, x + g)
  {
    hide Val, RoundSig, Exact, Product, IsWhole, Pow;
    DefaultValues();
    ZeroIsWhole(3);
    DefaultRateStepsExact(age, bands, 0.0, 3);
    var r := DEFAULT_RULES;
    var a, v := Product(age as real, Val(r.ageRateIncrement)), Product(bands as real, Val(r.valueRateIncrement));
    RoundedExact(80, a);
    RoundedExact(80, v);
    RoundedExact(80, a + v);
    RoundedExact(80, a + v + Val(r.baseRate));
  }

  /** The smallest number of units that covers the adjustment. */
  function UnitsAround(g: real): (m: int)
    ensures 0 <= m && (m as real - 1.0) * 0.000001 < Abs(g) <= m as real * 0.000001
  {
    0 - (-Abs(g) * 1000000.0).Floor
  }

  lemma WithinUnits(x: real, g: real)
    requires 0.0 <= x <= 60000.0 && IsWhole(x, 6) && -0.02 <= g <= 0.02
    ensures var m := UnitsAround(g) as real * 0.000001;
      && x - m <= Rounded(80, x + g) <= x + m
      && IsWhole(x - m, 6) && IsWhole(x + m, 6)
  {
    hide Shift, RoundSig, Representable, IsWhole;
    var k := UnitsAround(g);
    var m := k as real * 0.000001;
    MillionthsWhole(k);
    WholeSum(x, m, 6);
    SmallPowers();
    ShortIsExact(80, x + m, 6, 7);
    ShortIsExact(80, x - m, 6, 7);
    RoundSigCap(10, 80, x + g, x + m);
    RoundSigCap(10, 80, x + g, x - m);
  }

  lemma MillionthsWhole(k: int)
    ensures IsWhole(k as real * 0.000001, 6)
  {
    var x := k as real * 0.000001;
    assert Shift(10, x, 6) == Shift(10, 10.0 * x, 5) == Shift(10, 100.0 * x, 4) == Shift(10, 1000.0 * x, 3);
    assert Shift(10, 1000.0 * x, 3) == Shift(10, 10000.0 * x, 2) == Shift(10, 100000.0 * x, 1);
    assert Shift(10, 100000.0 * x, 1) == Shift(10, 1000000.0 * x, 0);
  }

  lemma QuantisedWithin(x: real, g: real)
    requires Valid(DEFAULT_RULES) && 0.0 <= x <= 60000.0 && IsWhole(x, 6) && -0.02 <= g <= 0.02
    ensures Quantised(HalfUp, 6, ClampReal(DEFAULT_RULES, Rounded(80, x))) == x
    ensures Abs(Quantised(HalfUp, 6, ClampReal(DEFAULT_RULES, Rounded(80, x + g))) - x) < Abs(g) + 0.000001
  {
    DefaultValues();
    hide Shift, RoundSig, Representable, IsWhole, Valid, Val, Quantised;
    SmallPowers();
    ShortIsExact(80, x, 6, 7);
    RoundedExact(80, x);
    QuantisedFixes(HalfUp, 6, x);
    WithinUnits(x, g);
    var m := UnitsAround(g) as real * 0.000001;
    var c := ClampReal(DEFAULT_RULES, Rounded(80, x + g));
    QuantisedCap(HalfUp, 6, c, x + m);
    QuantisedCap(HalfUp, 6, c, x - m);
  }

  /** The rate of an accepted quotation, with the one step that may be rounded. */
  lemma RateWithAdjustment(q: Quotation)
    requires Accepted(q)
    ensures Valid(DEFAULT_RULES) && Val(q.vehicle.value.amount) > 0.0 && Val(DEFAULT_RULES.valueBandAmount) > 0.0
    ensures var rate := Rate(80, q.calculationYear, q.adjustment, DEFAULT_RULES, q.vehicle);
      var bands := Bands(DEFAULT_RULES, Val(q.vehicle.value.amount));
      var x := RawRateFormula(DEFAULT_RULES, q.calculationYear - q.vehicle.year, bands, 0.0);
      && rate.Success? && 0.0 <= x <= 60000.0 && IsWhole(x, 6)
      && Val(rate.value) == Quantised(HalfUp, 6, ClampReal(DEFAULT_RULES, Rounded(80, x + Val(q.adjustment))))
  {
    hide Val, Rate, Accepted, Valid, RoundedRawRate, RawRateFormula, ClampReal, Quantised, ValidVehicle, Bands,
      RateCompletes, Check, Pow, IsWhole, Rounded;
    DefaultRateCompletes(q);
    AcceptedRanges(q);
    var age, value, g := q.calculationYear - q.vehicle.year, Val(q.vehicle.value.amount), Val(q.adjustment);
    RateMeaning(80, q.calculationYear, q.adjustment, DEFAULT_RULES, q.vehicle);
    BandsAtMost(value);
    RawWithAdjustment(age, Bands(DEFAULT_RULES, value), g);
    NeutralRaw(age, Bands(DEFAULT_RULES, value));
  }

  /**
   Under the shipped rules, with an adjustment of any number of digits: the rate differs from that of the same
   quotation without adjustment by less than the adjustment and one unit.
   */
  lemma AdjustmentWithinUnit(q: Quotation)
    requires Accepted(q)
    ensures Valid(DEFAULT_RULES)
    ensures var rate := Rate(80, q.calculationYear, q.adjustment, DEFAULT_RULES, q.vehicle);
      var neutral := Rate(80, q.calculationYear, ZERO, DEFAULT_RULES, q.vehicle);
      rate.Success? && neutral.Success? && Abs(Val(rate.value) - Val(neutral.value)) < Abs(Val(q.adjustment)) + 0.000001
  {
    hide *;
    Conservation.NoAdjustment();
    NeutralAccepted(q);
    RateWithAdjustment(q);
    RateWithAdjustment(q.(adjustment := ZERO));
    AcceptedAdjustment(q);
    var bands := Bands(DEFAULT_RULES, Val(q.vehicle.value.amount));
    var x := RawRateFormula(DEFAULT_RULES, q.calculationYear - q.vehicle.year, bands, 0.0);
    assert Val(ZERO) == 0.0 && x + Val(ZERO) == x;
    assert Rounded(80, x + Val(ZERO)) == Rounded(80, x);
    QuantisedWithin(x, Val(q.adjustment));
  }

  lemma AcceptedAdjustment(q: Quotation)
    requires Accepted(q)
    ensures -0.02 <= Val(q.adjustment) <= 0.02
  {
    hide Val, Accepted;
    AcceptedRanges(q);
  }

  /** A quotation is accepted without its adjustment too. */
  lemma NeutralAccepted(q: Quotation)
    requires Accepted(q)
    ensures Accepted(q.(adjustment := ZERO))
  {
    IntegerVal(0);
    hide Val, Valid;
    SimulationLaws.GuardMeaning(DEFAULT_RULES, q);
    SimulationLaws.GuardMeaning(DEFAULT_RULES, q.(adjustment := ZERO));
    hide Guard;
  }

  lemma NeutralRaw(age: int, bands: int)
    requires 0 <= age <= 9999 && 0 <= bands <= 10000000
    ensures var x := RawRateFormula(DEFAULT_RULES, age, bands, 0.0);
      0.0 <= x <= 60000.0 && IsWhole(x, 6) && x + 0.0 == x
  {
    DefaultValues();
    DefaultTerms(age, bands);
    hide Val, Shift, IsWhole, Product;
    WholeSum(Product(age as real, 0.005), Product(bands as real, 0.005), 3);
    WholeMore(Product(age as real, 0.005) + Product(bands as real, 0.005), 3, 6);
  }
}

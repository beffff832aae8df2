/**
 The shipped configuration: a quotation within its ceilings is never stopped by the arithmetic, whatever the
 number of digits, and is exact under an explicit digit budget.
 */
module DefaultRules {
  import opened Wrappers
  import opened Errors
  import opened Powers
  import opened Rounding
  import opened SignificantDigits
  import opened Decimals
  import opened RatingRules
  import opened Quantisation
  import opened Calculators
  import opened RateLaws
  import opened MoneyLaws
  import opened ExactArithmetic
  import SimulationLaws

  const DEFAULT_RULES := Rules(
    Dec(5, -3),        // age rate increment 0.005
    Dec(0, 0),         // base rate
    Dec(100, -2),      // coverage 1.00
    "USD",
    Dec(2, -2),        // greatest adjustment
    Dec(-2, -2),       // least adjustment
    Dec(10, -1),       // greatest deductible 1.0
    None,              // no rate ceiling
    1900,
    Dec(0, 0),         // least rate
    2, HalfUp,         // money scale and mode
    6, HalfUp,         // rate scale and mode
    "2026.08.0",
    Dec(10000, 0),     // band
    Dec(5, -3))        // band increment 0.005

  const MAX_VEHICLE_VALUE := Dec(1, 11)
  const MAX_BROKER_FEE := Dec(1, 9)

  /** The greatest calendar year a clock can report. */
  const MAX_YEAR := 9999

  lemma DefaultValues()
    ensures Val(DEFAULT_RULES.ageRateIncrement) == 0.005 == Val(DEFAULT_RULES.valueRateIncrement)
    ensures Val(DEFAULT_RULES.baseRate) == 0.0 == Val(DEFAULT_RULES.minimumAppliedRate)
    ensures Val(DEFAULT_RULES.coveragePercentage) == 1.0 == Val(DEFAULT_RULES.maxDeductiblePercentage)
    ensures Val(DEFAULT_RULES.gisMaxAdjustment) == 0.02 && Val(DEFAULT_RULES.gisMinAdjustment) == -0.02
    ensures Val(DEFAULT_RULES.valueBandAmount) == 10000.0
  {
    ThousandthsOf(5);
    HundredthsOf(100);
    HundredthsOf(2);
    HundredthsOf(-2);
    assert Shift(10, 10.0, -1) == 1.0;
  }

  lemma HundredthsOf(n: int)
    ensures Val(Dec(n, -2)) == 0.01 * n as real
  {
    var x := n as real;
    assert Shift(10, x, -2) == Shift(10, 0.1 * x, -1) == Shift(10, 0.01 * x, 0);
  }

  lemma ThousandthsOf(n: int)
    ensures Val(Dec(n, -3)) == 0.001 * n as real
  {
    var x := n as real;
    assert Shift(10, x, -3) == Shift(10, 0.1 * x, -2) == Shift(10, 0.01 * x, -1) == Shift(10, 0.001 * x, 0);
  }

  /** The shipped rules pass their own checks. */
  lemma DefaultRulesValid()
    ensures Valid(DEFAULT_RULES) && Check(DEFAULT_RULES).None?
  {
    DefaultValues();
    ZeroIsWhole(6);
    ShiftLinear(10, 0.0, 0.0, 6);
    CheckMeaning(DEFAULT_RULES);
  }

  /** A quotation the use case lets through to the calculators. */
  ghost predicate Accepted(q: Quotation) {
    && ValidVehicle(q.vehicle) && Guard(DEFAULT_RULES, q).None?
    && DEFAULT_RULES.minVehicleYear <= q.vehicle.year && q.calculationYear <= MAX_YEAR
    && Val(q.vehicle.value.amount) <= Val(MAX_VEHICLE_VALUE)
    && Val(q.brokerFee.amount) <= Val(MAX_BROKER_FEE)
  }

  /** The ranges of the inputs of an accepted quotation. */
  lemma AcceptedRanges(q: Quotation)
    requires Accepted(q)
    ensures ValidVehicle(q.vehicle)
    ensures 0.0 < Val(q.vehicle.value.amount) <= Pow(10, 11)
    ensures 0.0 <= Val(q.brokerFee.amount) <= Pow(10, 9)
    ensures 0.0 <= Val(q.deductible) <= 1.0
    ensures -0.02 <= Val(q.adjustment) <= 0.02
    ensures 0 <= q.calculationYear - q.vehicle.year <= 9999
  {
    DefaultValues();
    SimulationLaws.GuardMeaning(DEFAULT_RULES, q);
    hide Guard;
  }

  // ---------------------------------------------------------------- magnitudes

  lemma PowRepresentable(prec: nat, k: nat)
    requires prec >= 1
    ensures Representable(10, prec, Pow(10, k))
  {
    PowNatMonotone(1, prec);
    assert Writes(10, prec, Pow(10, k), 1, k);
  }

  lemma SmallPowers()
    ensures Pow(10, 0) == 1.0 && Pow(10, 1) == 10.0 && Pow(10, 2) == 100.0 && Pow(10, 3) == 1000.0
    ensures Pow(10, 4) == 10000.0 && Pow(10, 5) == 100000.0 && Pow(10, 6) == 1000000.0 && Pow(10, 7) == 10000000.0
  {
    forall k: nat | k < 7 ensures Pow(10, k + 1) == 10.0 * Pow(10, k) {
      ShiftStep(10, 1.0, k);
    }
    assert Pow(10, 0 + 1) == 10.0 && Pow(10, 1 + 1) == 100.0 && Pow(10, 2 + 1) == 1000.0 && Pow(10, 3 + 1) == 10000.0;
    assert Pow(10, 4 + 1) == 100000.0 && Pow(10, 5 + 1) == 1000000.0 && Pow(10, 6 + 1) == 10000000.0;
  }

  /** |x| below 10^k units fits a context of more than k digits. */
  lemma SmallUnitsFit(prec: nat, mode: Mode, places: nat, x: real, k: nat)
    requires 0.0 <= x <= Pow(10, k) && k + places < prec
    ensures Fits(10, prec, Units(mode, places, x))
  {
    ShiftOrder(10, x, Pow(10, k), places);
    ShiftSign(x, places);
    ShiftAdd(10, 1.0, k, places);
    PowIsNat(10, k + places);
    RoundBetween(mode, 0, Shift(10, x, places), PowNat(10, k + places));
    PowIsNat(10, prec);
    PowOrder(10, k + places, prec);
  }

  lemma RoundedAtMost(prec: nat, x: real, k: nat)
    requires prec >= 1 && x <= Pow(10, k)
    ensures Rounded(prec, x) <= Pow(10, k)
  {
    hide RoundSig;
    PowRepresentable(prec, k);
    RoundSigCap(10, prec, x, Pow(10, k));
  }

  lemma BandsAtMost(value: real)
    requires 0.0 < value <= Pow(10, 11)
    ensures Val(DEFAULT_RULES.valueBandAmount) > 0.0
    ensures 0 <= Bands(DEFAULT_RULES, value) <= 10000000
  {
    DefaultValues();
    SmallPowers();
    ShiftAdd(10, 1.0, 7, 4);
    ShiftTimesNat(Pow(10, 7), 4);
    PowIsNat(10, 4);
    hide Val, Shift, Pow;
    assert value <= 100000000000.0;
    assert 0.0 < value / 10000.0 <= 10000000.0;
  }

  /** The raw rate of an accepted quotation is below 10^7, roundings included. */
  lemma RawRateAtMost(prec: nat, age: int, bands: int, adjustment: real)
    requires prec >= 1 && 0 <= age <= 9999 && 0 <= bands <= 10000000 && -0.02 <= adjustment <= 0.02
    ensures RoundedRawRate(prec, DEFAULT_RULES, age, bands, adjustment) <= Pow(10, 7)
  {
    DefaultValues();
    SmallPowers();
    var r := DEFAULT_RULES;
    var a, v := Product(age as real, Val(r.ageRateIncrement)), Product(bands as real, Val(r.valueRateIncrement));
    hide Val, Pow, RoundSig;
    assert a <= 50.0 && v <= 50000.0;
    RoundedAtMost(prec, a, 2);
    RoundedAtMost(prec, v, 5);
    hide Rounded;
    RoundedAtMost(prec, Rounded(prec, a) + Rounded(prec, v), 6);
    var s := RoundedSum(prec, Rounded(prec, a), Rounded(prec, v));
    RoundedAtMost(prec, s + 0.0, 6);
    RoundedAtMost(prec, RoundedSum(prec, s, 0.0) + adjustment, 7);
  }

  lemma RateAtMost(prec: nat, age: int, value: real, adjustment: real)
    requires prec > 13 && 0 <= age <= 9999 && 0.0 < value <= Pow(10, 11) && -0.02 <= adjustment <= 0.02
    ensures Val(DEFAULT_RULES.valueBandAmount) > 0.0 && RateCompletes(prec, DEFAULT_RULES, age, value, adjustment)
    ensures 0.0 <= Quantised(HalfUp, 6, ClampedRate(prec, DEFAULT_RULES, age, value, adjustment)) <= Pow(10, 7)
  {
    DefaultRulesValid();
    DefaultValues();
    BandsAtMost(value);
    var r := DEFAULT_RULES;
    var bands := Bands(r, value);
    RawRateAtMost(prec, age, bands, adjustment);
    PowPositive(10, 7);
    var c := ClampedRate(prec, r, age, value, adjustment);
    hide Val, RoundedRawRate, Quantised, Units, Valid, Bands;
    assert 0.0 <= c <= Pow(10, 7);
    SmallUnitsFit(prec, HalfUp, 6, c, 7);
    FitsSmall(prec, bands);
    UnitsNonNegative(HalfUp, 6, c);
    PowWhole(7, 6);
    QuantisedCap(HalfUp, 6, c, Pow(10, 7));
  }

  lemma FitsSmall(prec: nat, n: int)
    requires prec > 7 && 0 <= n <= 10000000
    ensures Fits(10, prec, n)
  {
    SmallPowers();
    PowIsNat(10, 7);
    PowIsNat(10, prec);
    PowOrder(10, 7, prec);
  }

  lemma PowWhole(k: nat, places: nat)
    ensures IsWhole(Pow(10, k), places)
  {
    ShiftAdd(10, 1.0, k, places);
    PowIsNat(10, k + places);
  }

  lemma ProductAtMost(x: real, j: nat, y: real, k: nat)
    requires 0.0 <= x <= Pow(10, j) && 0.0 <= y <= Pow(10, k)
    ensures 0.0 <= Product(x, y) <= Pow(10, j + k)
  {
    ProductMonotone(x, x, y, Pow(10, k));
    ProductMonotone(x, Pow(10, j), Pow(10, k), Pow(10, k));
    ShiftProduct(10, 1.0, j, 1.0, k);
    assert Product(1.0, 1.0) == 1.0;
  }

  /** The base of an accepted quotation is below 10^18, and its remainder plus the fee below 10^19. */
  lemma PremiumAtMost(prec: nat, value: real, rate: real, fee: real, d: real)
    requires prec >= 1 && 0.0 < value <= Pow(10, 11) && 0.0 <= rate <= Pow(10, 7)
    requires 0.0 <= fee <= Pow(10, 9) && 0.0 <= d <= 1.0
    ensures 0.0 <= RoundedPremium(prec, value, rate, fee, d) <= Pow(10, 19)
  {
    hide RoundSig, Pow;
    var base := RoundedProduct(prec, value, rate);
    ProductAtMost(value, 11, rate, 7);
    RoundedAtMost(prec, Product(value, rate), 18);
    hide RoundedProduct, AfterDeductible, Rounded;
    ProductSign(prec, value, rate);
    ProductRepresentable(prec, value, rate);
    DiscountWithinBase(prec, base, d);
    PowTen(18);
    PowMonotone(10, 9, 18);
    RoundedAtMost(prec, AfterDeductible(prec, base, d) + fee, 19);
    RoundedPremiumNonNegative(prec, value, rate, fee, d);
  }

  lemma PowTen(k: nat)
    ensures Pow(10, k + 1) == 10.0 * Pow(10, k) && Pow(10, k) > 0.0
  {
    ShiftStep(10, 1.0, k);
    PowPositive(10, k);
  }

  lemma LimitAtMost(prec: nat, value: real, d: real)
    requires prec >= 1 && 0.0 < value <= Pow(10, 11) && 0.0 <= d <= 1.0
    ensures var base := RoundedBaseLimit(prec, DEFAULT_RULES, value);
      0.0 <= RoundedProduct(prec, base, d) <= Pow(10, 11) && 0.0 <= AfterDeductible(prec, base, d) <= Pow(10, 11)
  {
    DefaultValues();
    hide RoundSig, Pow, Val;
    var base := RoundedBaseLimit(prec, DEFAULT_RULES, value);
    assert Product(value, 1.0) == value;
    RoundedAtMost(prec, value, 11);
    ProductSign(prec, value, 1.0);
    ProductRepresentable(prec, value, 1.0);
    DiscountWithinBase(prec, base, d);
  }

  lemma DefaultRateCompletes(q: Quotation)
    requires Accepted(q)
    ensures Valid(DEFAULT_RULES)
    ensures var rate := Rate(CALCULATION_PRECISION, q.calculationYear, q.adjustment, DEFAULT_RULES, q.vehicle);
      rate.Success? && 0.0 <= Val(rate.value) <= Pow(10, 7)
  {
    hide Val, Rate, Quantised, ClampedRate, RateCompletes, Pow, Valid, Accepted, Fits, Check, Shift, ValidVehicle;
    hide PowNat;
    DefaultRulesValid();
    AcceptedRanges(q);
    RateMeaning(CALCULATION_PRECISION, q.calculationYear, q.adjustment, DEFAULT_RULES, q.vehicle);
    RateAtMost(CALCULATION_PRECISION, q.calculationYear - q.vehicle.year,
               Val(q.vehicle.value.amount), Val(q.adjustment));
  }

  lemma DefaultPremiumCompletes(q: Quotation, rate: Decimal)
    requires Accepted(q) && Valid(DEFAULT_RULES) && 0.0 <= Val(rate) <= Pow(10, 7)
    ensures Premium(CALCULATION_PRECISION, rate, q.brokerFee.amount, q.deductible, DEFAULT_RULES, q.vehicle).Success?
  {
    AcceptedRanges(q);
    hide Val, Premium, RoundedPremium, Units, Pow, Valid, Guard;
    var value, fee, d := Val(q.vehicle.value.amount), Val(q.brokerFee.amount), Val(q.deductible);
    PremiumMeaning(CALCULATION_PRECISION, rate, q.brokerFee.amount, q.deductible, DEFAULT_RULES, q.vehicle);
    PremiumAtMost(CALCULATION_PRECISION, value, Val(rate), fee, d);
    var rounded := RoundedPremium(CALCULATION_PRECISION, value, Val(rate), fee, d);
    SmallUnitsFit(CALCULATION_PRECISION, HalfUp, 2, rounded, 19);
  }

  lemma DefaultLimitsComplete(q: Quotation)
    requires Accepted(q) && Valid(DEFAULT_RULES)
    ensures PolicyLimit(CALCULATION_PRECISION, q.deductible, DEFAULT_RULES, q.vehicle).Success?
  {
    AcceptedRanges(q);
    hide Val, PolicyLimit, RoundedProduct, AfterDeductible, RoundedBaseLimit, Units, Pow, Valid, Guard;
    var value, d := Val(q.vehicle.value.amount), Val(q.deductible);
    var base := RoundedBaseLimit(CALCULATION_PRECISION, DEFAULT_RULES, value);
    PolicyLimitMeaning(CALCULATION_PRECISION, q.deductible, DEFAULT_RULES, q.vehicle);
    LimitAtMost(CALCULATION_PRECISION, value, d);
    SmallUnitsFit(CALCULATION_PRECISION, HalfUp, 2, RoundedProduct(CALCULATION_PRECISION, base, d), 11);
    SmallUnitsFit(CALCULATION_PRECISION, HalfUp, 2, AfterDeductible(CALCULATION_PRECISION, base, d), 11);
  }

  /**
   Under the shipped rules every accepted quotation gets its figures: with any number of digits in any input,
   no step of the 80-digit context fails.
   */
  lemma DefaultNeverFails(q: Quotation)
    requires Accepted(q)
    ensures Simulate(CALCULATION_PRECISION, DEFAULT_RULES, q).Success?
  {
    DefaultRateCompletes(q);
    hide Val, Rate, Premium, PolicyLimit, Guard, Valid, Pow;
    var rate := Rate(CALCULATION_PRECISION, q.calculationYear, q.adjustment, DEFAULT_RULES, q.vehicle).value;
    DefaultPremiumCompletes(q, rate);
    DefaultLimitsComplete(q);
  }

  // ---------------------------------------------------------------- the digit budget

  /** A number of at most k fractional digits and magnitude at most 10^m is exact when k + m is below prec. */
  lemma ShortIsExact(prec: nat, x: real, k: nat, m: nat)
    requires IsWhole(x, k) && Abs(x) <= Pow(10, m) && k + m < prec
    ensures Exact(prec, x)
  {
    var n := Shift(10, x, k).Floor;
    ShiftAdd(10, x, k, 0 - k);
    ShiftAbs(10, x, k);
    ShiftOrder(10, Abs(x), Pow(10, m), k);
    ShiftAdd(10, 1.0, m, k);
    PowOrder(10, m + k, prec);
    PowIsNat(10, prec);
    assert Writes(10, prec, x, n, 0 - k);
  }

  lemma WholeSum(x: real, y: real, k: nat)
    requires IsWhole(x, k) && IsWhole(y, k)
    ensures IsWhole(x + y, k) && IsWhole(x - y, k)
  {
    ShiftLinear(10, x, y, k);
    IntegralSum(Shift(10, x, k), Shift(10, y, k));
  }

  lemma IntegralSum(x: real, y: real)
    requires x.Floor as real == x && y.Floor as real == y
    ensures (x + y).Floor as real == x + y && (x - y).Floor as real == x - y
  {
    FloorOfInteger(x.Floor + y.Floor);
    FloorOfInteger(x.Floor - y.Floor);
  }

  lemma FloorOfInteger(n: int)
    ensures (n as real).Floor == n
  {
  }

  lemma WholeMore(x: real, j: nat, k: nat)
    requires IsWhole(x, j) && j <= k
    ensures IsWhole(x, k)
  {
    ShiftAdd(10, x, j, k - j);
    ShiftInteger(10, Shift(10, x, j).Floor, k - j);
  }

  lemma WholeProduct(x: real, j: nat, y: real, k: nat)
    requires IsWhole(x, j) && IsWhole(y, k)
    ensures IsWhole(Product(x, y), j + k)
  {
    var m, n := Shift(10, x, j).Floor, Shift(10, y, k).Floor;
    ShiftProduct(10, x, j, y, k);
    CastProduct(m, n);
  }

  lemma IntegerWhole(n: int)
    ensures IsWhole(n as real, 0)
  {
  }

  lemma DefaultWholes()
    ensures IsWhole(0.005, 3) && IsWhole(1.0, 0) && IsWhole(0.0, 3)
  {
    assert Shift(10, 0.005, 3) == Shift(10, 0.05, 2) == Shift(10, 0.5, 1) == Shift(10, 5.0, 0);
    ZeroIsWhole(3);
  }

  /** The age and band terms have three fractional digits and are small. */
  lemma DefaultTerms(age: int, bands: int)
    requires 0 <= age <= 9999 && 0 <= bands <= 10000000
    ensures 0.0 <= Product(age as real, 0.005) <= 50.0 && IsWhole(Product(age as real, 0.005), 3)
    ensures 0.0 <= Product(bands as real, 0.005) <= 50000.0 && IsWhole(Product(bands as real, 0.005), 3)
  {
    hide Shift, IsWhole;
    DefaultWholes();
    IntegerWhole(age);
    IntegerWhole(bands);
    WholeProduct(age as real, 0, 0.005, 3);
    WholeProduct(bands as real, 0, 0.005, 3);
  }

  /** The rate steps need three fractional digits for the terms and those of the adjustment. */
  lemma DefaultRateStepsExact(age: int, bands: int, adjustment: real, fg: nat)
    requires 0 <= age <= 9999 && 0 <= bands <= 10000000 && -0.02 <= adjustment <= 0.02
    requires IsWhole(adjustment, fg) && 3 <= fg <= 70
    ensures RateStepsExact(80, DEFAULT_RULES, age, bands, adjustment)
    ensures IsWhole(RawRateFormula(DEFAULT_RULES, age, bands, adjustment), fg)
    ensures Abs(RawRateFormula(DEFAULT_RULES, age, bands, adjustment)) <= Pow(10, 7)
  {
    hide Val, Pow, Shift, IsWhole, Exact, Product;
    DefaultValues();
    SmallPowers();
    ZeroIsWhole(3);
    DefaultTerms(age, bands);
    var a, v := Product(age as real, 0.005), Product(bands as real, 0.005);
    WholeSum(a, v, 3);
    WholeSum(a + v, 0.0, 3);
    WholeMore(a + v + 0.0, 3, fg);
    WholeSum(a + v + 0.0, adjustment, fg);
    ShortIsExact(80, a, 3, 7);
    ShortIsExact(80, v, 3, 7);
    ShortIsExact(80, a + v, 3, 7);
    ShortIsExact(80, a + v + 0.0, 3, 7);
    ShortIsExact(80, a + v + 0.0 + adjustment, fg, 7);
  }

  /** base, discount and difference are exact when their fractional digits fit beside the magnitude. */
  lemma DiscountStepsFit(value: real, fv: nat, factor: real, ff: nat, d: real, fd: nat, m: nat)
    requires IsWhole(value, fv) && IsWhole(factor, ff) && IsWhole(d, fd) && 0.0 <= d <= 1.0
    requires 0.0 <= Product(value, factor) <= Pow(10, m) && fv + ff + fd + m < 80
    ensures DiscountStepsExact(80, value, factor, d)
    ensures 0.0 <= KeptFormula(value, factor, d) <= Pow(10, m)
    ensures 0.0 <= LimitFormula(value, factor, d) <= Pow(10, m)
    ensures IsWhole(LimitFormula(value, factor, d), fv + ff + fd)
  {
    var base := Product(value, factor);
    Remainder(value, factor, d);
    WholeProduct(value, fv, factor, ff);
    WholeProduct(base, fv + ff, d, fd);
    UnitFraction(base, d);
    hide Val, Pow, Shift, IsWhole, Exact, Product, KeptFormula, LimitFormula;
    WholeMore(base, fv + ff, fv + ff + fd);
    WholeSum(base, Product(base, d), fv + ff + fd);
    ShortIsExact(80, base, fv + ff + fd, m);
    ShortIsExact(80, Product(base, d), fv + ff + fd, m);
    ShortIsExact(80, base - Product(base, d), fv + ff + fd, m);
  }

  lemma UnitFraction(base: real, d: real)
    requires base >= 0.0 && 0.0 <= d <= 1.0
    ensures 0.0 <= Product(base, d) <= base
  {
    ProductMonotone(base, base, 0.0, d);
    ProductMonotone(base, base, d, 1.0);
    assert Product(base, 0.0) == 0.0 && Product(base, 1.0) == base;
  }

  /** The digits of the inputs: value and deductible together, fee and adjustment each. */
  ghost predicate Digits50(q: Quotation, fv: nat, fd: nat) {
    && IsWhole(Val(q.vehicle.value.amount), fv) && IsWhole(Val(q.deductible), fd) && fv + fd <= 50
    && IsWhole(Val(q.brokerFee.amount), 50) && IsWhole(Val(q.adjustment), 50)
  }

  lemma DefaultPremiumStepsExact(value: real, fv: nat, rate: real, fee: real, d: real, fd: nat)
    requires 0.0 < value <= Pow(10, 11) && IsWhole(value, fv) && 0.0 <= d <= 1.0 && IsWhole(d, fd) && fv + fd <= 50
    requires 0.0 <= rate <= Pow(10, 7) && IsWhole(rate, 6) && 0.0 <= fee <= Pow(10, 9) && IsWhole(fee, 50)
    ensures PremiumStepsExact(80, value, rate, fee, d)
    ensures 0.0 <= PremiumFormula(value, rate, fee, d) <= Pow(10, 19)
  {
    hide Val, Pow, Shift, IsWhole, Exact, LimitFormula, PremiumFormula;
    ProductAtMost(value, 11, rate, 7);
    DiscountStepsFit(value, fv, rate, 6, d, fd, 18);
    Remainder(value, rate, d);
    var rest := LimitFormula(value, rate, d);
    SameFormula(value, rate, fee, d);
    hide Product;
    WholeMore(rest, fv + 6 + fd, 56);
    WholeMore(fee, 50, 56);
    WholeSum(rest, fee, 56);
    PowTen(18);
    PowMonotone(10, 9, 18);
    ShortIsExact(80, rest + fee, 56, 19);
  }

  lemma DefaultLimitStepsExact(value: real, fv: nat, d: real, fd: nat)
    requires 0.0 < value <= Pow(10, 11) && IsWhole(value, fv) && 0.0 <= d <= 1.0 && IsWhole(d, fd) && fv + fd <= 50
    ensures DiscountStepsExact(80, value, 1.0, d)
    ensures 0.0 <= KeptFormula(value, 1.0, d) <= Pow(10, 11)
    ensures 0.0 <= LimitFormula(value, 1.0, d) <= Pow(10, 11)
  {
    DefaultWholes();
    assert Product(value, 1.0) == value;
    hide Pow, Shift, IsWhole, Exact, Product, KeptFormula, LimitFormula;
    DiscountStepsFit(value, fv, 1.0, 0, d, fd, 11);
  }

  lemma DefaultRateFormula(age: int, value: real, adjustment: real)
    requires 0 <= age <= 9999 && 0.0 < value <= Pow(10, 11) && -0.02 <= adjustment <= 0.02 && IsWhole(adjustment, 50)
    requires Valid(DEFAULT_RULES)
    ensures RateStepsExact(80, DEFAULT_RULES, age, Bands(DEFAULT_RULES, value), adjustment)
    ensures Fits(10, 80, Bands(DEFAULT_RULES, value))
    ensures Fits(10, 80, Units(HalfUp, 6,
              ClampReal(DEFAULT_RULES, RawRateFormula(DEFAULT_RULES, age, Bands(DEFAULT_RULES, value), adjustment))))
    ensures 0.0 <= RateFormula(DEFAULT_RULES, age, value, adjustment) <= Pow(10, 7)
    ensures IsWhole(RateFormula(DEFAULT_RULES, age, value, adjustment), 6)
  {
    BandsAtMost(value);
    var r, bands := DEFAULT_RULES, Bands(DEFAULT_RULES, value);
    DefaultRateStepsExact(age, bands, adjustment, 50);
    FitsSmall(80, bands);
    var c := ClampReal(r, RawRateFormula(r, age, bands, adjustment));
    DefaultValues();
    PowPositive(10, 7);
    hide Val, Pow, Shift, IsWhole, RawRateFormula, RateStepsExact, Units, Valid, Bands;
    assert 0.0 <= c <= Pow(10, 7);
    SmallUnitsFit(80, HalfUp, 6, c, 7);
    UnitsNonNegative(HalfUp, 6, c);
    PowWhole(7, 6);
    QuantisedCap(HalfUp, 6, c, Pow(10, 7));
    QuantisedIdempotent(HalfUp, 6, c);
  }

  /** The rate of an accepted quotation is exact when its adjustment has at most 50 fractional digits. */
  lemma DefaultRateIsFormula(q: Quotation)
    requires Accepted(q) && IsWhole(Val(q.adjustment), 50)
    ensures Valid(DEFAULT_RULES)
    ensures var rate := Rate(CALCULATION_PRECISION, q.calculationYear, q.adjustment, DEFAULT_RULES, q.vehicle);
      rate.Success? && Val(rate.value) == RateFormula(DEFAULT_RULES, q.calculationYear - q.vehicle.year,
                                                      Val(q.vehicle.value.amount), Val(q.adjustment))
  {
    hide Val, Rate, Pow, Accepted, Valid, RoundedRawRate, RawRateFormula, ClampReal, Quantised, ValidVehicle, Bands,
      RateCompletes, Check, RateStepsExact, IsWhole, Units, Fits;
    DefaultRateCompletes(q);
    AcceptedRanges(q);
    var age, value, g := q.calculationYear - q.vehicle.year, Val(q.vehicle.value.amount), Val(q.adjustment);
    RateMeaning(CALCULATION_PRECISION, q.calculationYear, q.adjustment, DEFAULT_RULES, q.vehicle);
    BandsAtMost(value);
    DefaultRateFormula(age, value, g);
    RateStepsMeaning(CALCULATION_PRECISION, DEFAULT_RULES, age, Bands(DEFAULT_RULES, value), g);
  }

  /**
   The digit budget of the shipped rules: at most 50 fractional digits in value and deductible together, and
   at most 50 in the fee and in the adjustment, keep every step of the 80-digit pipeline exact.
   */
  lemma DefaultBudget(q: Quotation, fv: nat, fd: nat)
    requires Accepted(q) && Digits50(q, fv, fd)
    ensures Valid(DEFAULT_RULES) && WithinBudget(CALCULATION_PRECISION, DEFAULT_RULES, q)
  {
    hide Val, Pow, Shift, IsWhole, RateStepsExact, PremiumStepsExact, DiscountStepsExact, Units, Valid, Bands,
      RateFormula, PremiumFormula, KeptFormula, LimitFormula, RawRateFormula, Accepted, ClampReal, Product, Fits,
      Check, ValidVehicle, PowNat;
    DefaultRulesValid();
    AcceptedRanges(q);
    var value, fee, d, g := Val(q.vehicle.value.amount), Val(q.brokerFee.amount), Val(q.deductible), Val(q.adjustment);
    var age := q.calculationYear - q.vehicle.year;
    DefaultValues();
    DefaultRateFormula(age, value, g);
    var rate := RateFormula(DEFAULT_RULES, age, value, g);
    DefaultPremiumStepsExact(value, fv, rate, fee, d, fd);
    DefaultLimitStepsExact(value, fv, d, fd);
    SmallUnitsFit(80, HalfUp, 2, PremiumFormula(value, rate, fee, d), 19);
    SmallUnitsFit(80, HalfUp, 2, KeptFormula(value, 1.0, d), 11);
    SmallUnitsFit(80, HalfUp, 2, LimitFormula(value, 1.0, d), 11);
  }

  /** So the shipped service computes the real-number formulas on every quotation within that budget. */
  lemma DefaultIsExact(q: Quotation, fv: nat, fd: nat)
    requires Accepted(q) && Digits50(q, fv, fd)
    ensures Simulate(CALCULATION_PRECISION, DEFAULT_RULES, q).Success? && Valid(DEFAULT_RULES)
    ensures var f := Simulate(CALCULATION_PRECISION, DEFAULT_RULES, q).value;
      var value, fee, d := Val(q.vehicle.value.amount), Val(q.brokerFee.amount), Val(q.deductible);
      && Val(f.appliedRate) == RateFormula(DEFAULT_RULES, q.calculationYear - q.vehicle.year, value, Val(q.adjustment))
      && Val(f.premium) == Quantised(HalfUp, 2, PremiumFormula(value, Val(f.appliedRate), fee, d))
      && Val(f.limits.deductibleValue) == Quantised(HalfUp, 2, KeptFormula(value, 1.0, d))
      && Val(f.limits.policyLimit) == Quantised(HalfUp, 2, LimitFormula(value, 1.0, d))
  {
    DefaultBudget(q, fv, fd);
    DefaultValues();
    hide Val, WithinBudget, Simulate, Valid, Quantised, PremiumFormula, KeptFormula, LimitFormula, RateFormula, Guard;
    PipelineRefinesFormulas(CALCULATION_PRECISION, DEFAULT_RULES, q);
  }
}

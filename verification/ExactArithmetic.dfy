/**
 When the working precision is wide enough: the calculators compute the real-number formulas, and only the
 configured quantisation rounds. An intermediate is exact precisely when it can be written in prec digits.
 */
module ExactArithmetic {
  import opened Wrappers
  import opened Errors
  import opened Powers
  import opened Rounding
  import opened SignificantDigits
  import opened Decimals
  import opened RatingRules
  import opened Quantisation
  import opened Calculators
  import opened RateLaws
  import opened MoneyLaws
  import SimulationLaws

  /** x can be written in prec decimal digits. */
  ghost predicate Exact(prec: nat, x: real) {
    Representable(10, prec, x)
  }

  lemma RoundedExact(prec: nat, x: real)
    requires prec >= 1
    ensures Rounded(prec, x) == x <==> Exact(prec, x)
  {
    RoundSigExact(10, prec, x);
  }

  // ---------------------------------------------------------------- the formulas on real numbers

  function RawRateFormula(r: Rules, age: int, bands: int, adjustment: real): real {
    Product(age as real, Val(r.ageRateIncrement)) + Product(bands as real, Val(r.valueRateIncrement))
    + Val(r.baseRate) + adjustment
  }

  function RateFormula(r: Rules, age: int, value: real, adjustment: real): real
    requires Val(r.valueBandAmount) > 0.0 && r.rateDecimalPlaces >= 0
  {
    Quantised(r.rateRoundingMode, r.rateDecimalPlaces,
              ClampReal(r, RawRateFormula(r, age, Bands(r, value), adjustment)))
  }

  function PremiumFormula(value: real, rate: real, fee: real, deductible: real): real {
    value * rate * (1.0 - deductible) + fee
  }

  function KeptFormula(value: real, coverage: real, deductible: real): real {
    value * coverage * deductible
  }

  function LimitFormula(value: real, coverage: real, deductible: real): real {
    value * coverage * (1.0 - deductible)
  }

  // ---------------------------------------------------------------- exact intermediates

  ghost predicate RateStepsExact(prec: nat, r: Rules, age: int, bands: int, adjustment: real) {
    var a, v := Product(age as real, Val(r.ageRateIncrement)), Product(bands as real, Val(r.valueRateIncrement));
    && Exact(prec, a) && Exact(prec, v) && Exact(prec, a + v)
    && Exact(prec, a + v + Val(r.baseRate)) && Exact(prec, a + v + Val(r.baseRate) + adjustment)
  }

  /** base, base * deductible and their difference. */
  ghost predicate DiscountStepsExact(prec: nat, value: real, factor: real, deductible: real) {
    var base := Product(value, factor);
    && Exact(prec, base) && Exact(prec, Product(base, deductible))
    && Exact(prec, base - Product(base, deductible))
  }

  ghost predicate PremiumStepsExact(prec: nat, value: real, rate: real, fee: real, deductible: real) {
    var base := Product(value, rate);
    DiscountStepsExact(prec, value, rate, deductible) && Exact(prec, base - Product(base, deductible) + fee)
  }

  lemma RateStepsMeaning(prec: nat, r: Rules, age: int, bands: int, adjustment: real)
    requires prec >= 1 && RateStepsExact(prec, r, age, bands, adjustment)
    ensures RoundedRawRate(prec, r, age, bands, adjustment) == RawRateFormula(r, age, bands, adjustment)
  {
    hide Val, Exact, RoundSig, Product;
    var a, v := Product(age as real, Val(r.ageRateIncrement)), Product(bands as real, Val(r.valueRateIncrement));
    RoundedExact(prec, a);
    RoundedExact(prec, v);
    RoundedExact(prec, a + v);
    RoundedExact(prec, a + v + Val(r.baseRate));
    RoundedExact(prec, a + v + Val(r.baseRate) + adjustment);
  }

  lemma DiscountStepsMeaning(prec: nat, value: real, factor: real, deductible: real)
    requires prec >= 1 && DiscountStepsExact(prec, value, factor, deductible)
    ensures var base := Product(value, factor);
      && RoundedProduct(prec, value, factor) == base
      && RoundedProduct(prec, base, deductible) == Product(base, deductible)
      && AfterDeductible(prec, base, deductible) == base - Product(base, deductible)
  {
    hide Exact, RoundSig, Product;
    var base := Product(value, factor);
    RoundedExact(prec, base);
    RoundedExact(prec, Product(base, deductible));
    RoundedExact(prec, base - Product(base, deductible));
  }

  lemma PremiumStepsMeaning(prec: nat, value: real, rate: real, fee: real, deductible: real)
    requires prec >= 1 && PremiumStepsExact(prec, value, rate, fee, deductible)
    ensures RoundedPremium(prec, value, rate, fee, deductible) == PremiumFormula(value, rate, fee, deductible)
  {
    DiscountStepsMeaning(prec, value, rate, deductible);
    Remainder(value, rate, deductible);
    RoundedExact(prec, LimitFormula(value, rate, deductible) + fee);
    hide RoundSig, DiscountStepsExact, RoundedProduct, AfterDeductible, LimitFormula;
    assert LimitFormula(value, rate, deductible) + fee == PremiumFormula(value, rate, fee, deductible) by {
      SameFormula(value, rate, fee, deductible);
    }
  }

  lemma SameFormula(value: real, rate: real, fee: real, deductible: real)
    ensures LimitFormula(value, rate, deductible) + fee == PremiumFormula(value, rate, fee, deductible)
  {
  }

  lemma Remainder(value: real, factor: real, deductible: real)
    ensures var base := Product(value, factor);
      && Product(base, deductible) == KeptFormula(value, factor, deductible)
      && base - Product(base, deductible) == LimitFormula(value, factor, deductible)
  {
  }

  // ---------------------------------------------------------------- the whole pipeline

  /** Every step of the quotation is exact, and every quantised result has at most prec digits. */
  ghost predicate WithinBudget(prec: nat, r: Rules, q: Quotation)
    requires prec >= 1 && Valid(r)
  {
    var value, fee, d, g := Val(q.vehicle.value.amount), Val(q.brokerFee.amount), Val(q.deductible), Val(q.adjustment);
    var age := q.calculationYear - q.vehicle.year;
    var rate := RateFormula(r, age, value, g);
    var mode, places := r.moneyRoundingMode, r.moneyDecimalPlaces;
    var coverage := Val(r.coveragePercentage);
    && RateStepsExact(prec, r, age, Bands(r, value), g)
    && Fits(10, prec, Bands(r, value))
    && Fits(10, prec, Units(r.rateRoundingMode, r.rateDecimalPlaces,
                            ClampReal(r, RawRateFormula(r, age, Bands(r, value), g))))
    && PremiumStepsExact(prec, value, rate, fee, d)
    && Fits(10, prec, Units(mode, places, PremiumFormula(value, rate, fee, d)))
    && DiscountStepsExact(prec, value, coverage, d)
    && Fits(10, prec, Units(mode, places, KeptFormula(value, coverage, d)))
    && Fits(10, prec, Units(mode, places, LimitFormula(value, coverage, d)))
  }

  lemma RateIsFormula(prec: nat, r: Rules, q: Quotation)
    requires prec >= 1 && Valid(r) && ValidVehicle(q.vehicle) && WithinBudget(prec, r, q)
    ensures var rate := Rate(prec, q.calculationYear, q.adjustment, r, q.vehicle);
      rate.Success? && Val(rate.value)
        == RateFormula(r, q.calculationYear - q.vehicle.year, Val(q.vehicle.value.amount), Val(q.adjustment))
  {
    hide Val, RoundSig, PremiumStepsExact, DiscountStepsExact, RateStepsExact, ClampReal, Rate, RoundedRawRate,
      RawRateFormula, Units;
    var age, value := q.calculationYear - q.vehicle.year, Val(q.vehicle.value.amount);
    RateMeaning(prec, q.calculationYear, q.adjustment, r, q.vehicle);
    RateStepsMeaning(prec, r, age, Bands(r, value), Val(q.adjustment));
  }

  lemma PremiumIsFormula(prec: nat, rate: Decimal, fee: Decimal, d: Decimal, r: Rules, v: Vehicle)
    requires prec >= 1 && Valid(r)
    requires PremiumStepsExact(prec, Val(v.value.amount), Val(rate), Val(fee), Val(d))
    ensures Premium(prec, rate, fee, d, r, v)
         == Checked(prec, Units(r.moneyRoundingMode, r.moneyDecimalPlaces,
                                PremiumFormula(Val(v.value.amount), Val(rate), Val(fee), Val(d))),
                    0 - r.moneyDecimalPlaces)
  {
    hide Val, RoundSig, Premium, PremiumStepsExact, Units;
    PremiumMeaning(prec, rate, fee, d, r, v);
    PremiumStepsMeaning(prec, Val(v.value.amount), Val(rate), Val(fee), Val(d));
  }

  lemma LimitsAreFormulas(prec: nat, d: Decimal, r: Rules, v: Vehicle)
    requires prec >= 1 && Valid(r)
    requires DiscountStepsExact(prec, Val(v.value.amount), Val(r.coveragePercentage), Val(d))
    ensures var value, coverage := Val(v.value.amount), Val(r.coveragePercentage);
      var mode, places := r.moneyRoundingMode, r.moneyDecimalPlaces;
      var kept := Checked(prec, Units(mode, places, KeptFormula(value, coverage, Val(d))), 0 - places);
      var limit := Checked(prec, Units(mode, places, LimitFormula(value, coverage, Val(d))), 0 - places);
      PolicyLimit(prec, d, r, v)
        == if kept.Success? && limit.Success? then Success(Limits(kept.value, limit.value))
           else Failure(InvalidOperation)
  {
    hide Val, RoundSig, PolicyLimit, DiscountStepsExact, Units, KeptFormula, LimitFormula, RoundedProduct,
      AfterDeductible, Product;
    PolicyLimitMeaning(prec, d, r, v);
    DiscountStepsMeaning(prec, Val(v.value.amount), Val(r.coveragePercentage), Val(d));
    Remainder(Val(v.value.amount), Val(r.coveragePercentage), Val(d));
  }

  /**
   Within the budget no step rounds or fails, and the figures are the quantised real-number formulas, the
   quantised rate being the one used in the premium.
   */
  lemma PipelineRefinesFormulas(prec: nat, r: Rules, q: Quotation)
    requires prec >= 1 && Valid(r) && ValidVehicle(q.vehicle) && Guard(r, q).None? && WithinBudget(prec, r, q)
    ensures Simulate(prec, r, q).Success?
    ensures var f := Simulate(prec, r, q).value;
      var value, fee, d := Val(q.vehicle.value.amount), Val(q.brokerFee.amount), Val(q.deductible);
      var mode, places, coverage := r.moneyRoundingMode, r.moneyDecimalPlaces, Val(r.coveragePercentage);
      && Val(f.appliedRate) == RateFormula(r, q.calculationYear - q.vehicle.year, value, Val(q.adjustment))
      && Val(f.premium) == Quantised(mode, places, PremiumFormula(value, Val(f.appliedRate), fee, d))
      && Val(f.limits.deductibleValue) == Quantised(mode, places, KeptFormula(value, coverage, d))
      && Val(f.limits.policyLimit) == Quantised(mode, places, LimitFormula(value, coverage, d))
  {
    hide Val, RoundSig, Guard, Rate, Premium, PolicyLimit, RateStepsExact, PremiumStepsExact, DiscountStepsExact,
      PremiumFormula, KeptFormula, LimitFormula, ClampReal, RawRateFormula, RateFormula, Units;
    RateIsFormula(prec, r, q);
    var rate := Rate(prec, q.calculationYear, q.adjustment, r, q.vehicle).value;
    var value, fee, d := Val(q.vehicle.value.amount), Val(q.brokerFee.amount), Val(q.deductible);
    var mode, places, coverage := r.moneyRoundingMode, r.moneyDecimalPlaces, Val(r.coveragePercentage);
    PremiumIsFormula(prec, rate, q.brokerFee.amount, q.deductible, r, q.vehicle);
    LimitsAreFormulas(prec, q.deductible, r, q.vehicle);
    SimulationLaws.CheckedValue(prec, Units(mode, places, PremiumFormula(value, Val(rate), fee, d)), places);
    SimulationLaws.CheckedValue(prec, Units(mode, places, KeptFormula(value, coverage, d)), places);
    SimulationLaws.CheckedValue(prec, Units(mode, places, LimitFormula(value, coverage, d)), places);
  }

  // ---------------------------------------------------------------- when every operation is exact

  /** Every operation of the rate calculator returns its exact result. */
  ghost predicate RateOperationsExact(prec: nat, year: int, adjustment: Decimal, r: Rules, v: Vehicle)
    requires prec >= 1
  {
    var carAge, valueUnits := Dec(year - v.year, 0), IntegerDivide(prec, v.value.amount, r.valueBandAmount);
    valueUnits.Success? &&
    var ageRate, valueRate := Mul(prec, carAge, r.ageRateIncrement), Mul(prec, valueUnits.value, r.valueRateIncrement);
    var sum := Add(prec, ageRate, valueRate);
    var based := Add(prec, sum, r.baseRate);
    && Val(ageRate) == Product(Val(carAge), Val(r.ageRateIncrement))
    && Val(valueRate) == Product(Val(valueUnits.value), Val(r.valueRateIncrement))
    && Val(sum) == Val(ageRate) + Val(valueRate)
    && Val(based) == Val(sum) + Val(r.baseRate)
    && Val(Add(prec, based, adjustment)) == Val(based) + Val(adjustment)
  }

  /** A product, its discount and the difference, each returned exactly. */
  ghost predicate DiscountOperationsExact(prec: nat, value: Decimal, factor: Decimal, deductible: Decimal)
    requires prec >= 1
  {
    var base := Mul(prec, value, factor);
    var discount := Mul(prec, base, deductible);
    && Val(base) == Product(Val(value), Val(factor))
    && Val(discount) == Product(Val(base), Val(deductible))
    && Val(Sub(prec, base, discount)) == Val(base) - Val(discount)
  }

  ghost predicate PremiumOperationsExact(prec: nat, value: Decimal, rate: Decimal, fee: Decimal, deductible: Decimal)
    requires prec >= 1
  {
    var base := Mul(prec, value, rate);
    var rest := Sub(prec, base, Mul(prec, base, deductible));
    DiscountOperationsExact(prec, value, rate, deductible) && Val(Add(prec, rest, fee)) == Val(rest) + Val(fee)
  }

  lemma RateOperations(prec: nat, year: int, adjustment: Decimal, r: Rules, v: Vehicle)
    requires prec >= 1 && Valid(r) && ValidVehicle(v)
    ensures RateOperationsExact(prec, year, adjustment, r, v) <==>
      var bands := Bands(r, Val(v.value.amount));
      Fits(10, prec, bands) && RateStepsExact(prec, r, year - v.year, bands, Val(adjustment))
  {
    hide Val, Mul, Add, RoundSig, Product, Exact, IntegerDivide;
    var bands := Bands(r, Val(v.value.amount));
    BandsMeaning(prec, r, v);
    if Fits(10, prec, bands) {
      RateSums(prec, Dec(year - v.year, 0), Dec(bands, 0), adjustment, r);
      IntegerVal(year - v.year);
      IntegerVal(bands);
    }
  }

  lemma RateSums(prec: nat, age: Decimal, units: Decimal, adjustment: Decimal, r: Rules)
    requires prec >= 1
    ensures var ageRate, valueRate := Mul(prec, age, r.ageRateIncrement), Mul(prec, units, r.valueRateIncrement);
      var sum := Add(prec, ageRate, valueRate);
      var based := Add(prec, sum, r.baseRate);
      var a, v := Product(Val(age), Val(r.ageRateIncrement)), Product(Val(units), Val(r.valueRateIncrement));
      (&& Val(ageRate) == a && Val(valueRate) == v && Val(sum) == Val(ageRate) + Val(valueRate)
       && Val(based) == Val(sum) + Val(r.baseRate)
       && Val(Add(prec, based, adjustment)) == Val(based) + Val(adjustment))
      <==> (&& Exact(prec, a) && Exact(prec, v) && Exact(prec, a + v) && Exact(prec, a + v + Val(r.baseRate))
            && Exact(prec, a + v + Val(r.baseRate) + Val(adjustment)))
  {
    hide Val, Mul, Add, RoundSig, Exact, Product;
    var ageRate, valueRate := Mul(prec, age, r.ageRateIncrement), Mul(prec, units, r.valueRateIncrement);
    var sum := Add(prec, ageRate, valueRate);
    var based := Add(prec, sum, r.baseRate);
    var a, v := Product(Val(age), Val(r.ageRateIncrement)), Product(Val(units), Val(r.valueRateIncrement));
    MulRounds(prec, age, r.ageRateIncrement);
    MulRounds(prec, units, r.valueRateIncrement);
    AddRounds(prec, ageRate, valueRate);
    AddRounds(prec, sum, r.baseRate);
    AddRounds(prec, based, adjustment);
    RoundedExact(prec, a);
    RoundedExact(prec, v);
    RoundedExact(prec, a + v);
    RoundedExact(prec, a + v + Val(r.baseRate));
    RoundedExact(prec, a + v + Val(r.baseRate) + Val(adjustment));
  }

  lemma DiscountOperations(prec: nat, value: Decimal, factor: Decimal, deductible: Decimal)
    requires prec >= 1
    ensures DiscountOperationsExact(prec, value, factor, deductible)
       <==> DiscountStepsExact(prec, Val(value), Val(factor), Val(deductible))
  {
    hide Val, Mul, Sub, RoundSig, Exact, Product;
    var base := Mul(prec, value, factor);
    var x := Product(Val(value), Val(factor));
    MulRounds(prec, value, factor);
    MulRounds(prec, base, deductible);
    SubRounds(prec, base, Mul(prec, base, deductible));
    RoundedExact(prec, x);
    RoundedExact(prec, Product(x, Val(deductible)));
    RoundedExact(prec, x - Product(x, Val(deductible)));
  }

  lemma PremiumOperations(prec: nat, value: Decimal, rate: Decimal, fee: Decimal, deductible: Decimal)
    requires prec >= 1
    ensures PremiumOperationsExact(prec, value, rate, fee, deductible)
       <==> PremiumStepsExact(prec, Val(value), Val(rate), Val(fee), Val(deductible))
  {
    hide Val, Mul, Sub, Add, RoundSig, Exact, Product;
    DiscountOperations(prec, value, rate, deductible);
    var base := Mul(prec, value, rate);
    var rest := Sub(prec, base, Mul(prec, base, deductible));
    var x := Product(Val(value), Val(rate));
    AddRounds(prec, rest, fee);
    RoundedExact(prec, x - Product(x, Val(deductible)) + Val(fee));
  }

  /**
   For a quotation whose applied rate is given: every operation of the three calculators, in the order they are made,
   returns its exact result if and only if every step of the formulas can be written in prec digits. Then, and only
   then, is quantisation the only rounding.
   */
  lemma OnlyQuantisationRounds(prec: nat, r: Rules, q: Quotation, rate: Decimal)
    requires prec >= 1 && Valid(r) && ValidVehicle(q.vehicle)
    ensures var v, d := q.vehicle, q.deductible;
      var value, bands := Val(v.value.amount), Bands(r, Val(v.value.amount));
      (&& RateOperationsExact(prec, q.calculationYear, q.adjustment, r, v)
       && PremiumOperationsExact(prec, v.value.amount, rate, q.brokerFee.amount, d)
       && DiscountOperationsExact(prec, v.value.amount, r.coveragePercentage, d))
      <==>
      (&& Fits(10, prec, bands) && RateStepsExact(prec, r, q.calculationYear - v.year, bands, Val(q.adjustment))
       && PremiumStepsExact(prec, value, Val(rate), Val(q.brokerFee.amount), Val(d))
       && DiscountStepsExact(prec, value, Val(r.coveragePercentage), Val(d)))
  {
    hide Val, RateOperationsExact, PremiumOperationsExact, DiscountOperationsExact, RateStepsExact, PremiumStepsExact,
      DiscountStepsExact, Fits;
    RateOperations(prec, q.calculationYear, q.adjustment, r, q.vehicle);
    PremiumOperations(prec, q.vehicle.value.amount, rate, q.brokerFee.amount, q.deductible);
    DiscountOperations(prec, q.vehicle.value.amount, r.coveragePercentage, q.deductible);
  }
}

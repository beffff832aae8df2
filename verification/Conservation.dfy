/**
 How far the two separately quantised halves of the policy limit are from adding up to the base, and how far
 an adjustment can move the rate. Intermediates are exact throughout.
 */
module Conservation {
  import opened Wrappers
  import opened Errors
  import opened Powers
  import opened Rounding
  import opened SignificantDigits
  import opened Decimals
  import opened RatingRules
  import opened Quantisation
  import opened Calculators
  import opened RateLaws
  import opened MoneyLaws
  import opened ExactArithmetic
  import SimulationLaws

  /** The error, in units, of rounding x and n - x separately, for 0 <= x <= n. */
  function SplitError(mode: Mode, x: real, n: int): int {
    var frac := x - x.Floor as real;
    if frac == 0.0 then 0
    else
      match mode
      case Down => -1
      case Floor => -1
      case Up => 1
      case Ceiling => 1
      case HalfUp => if frac == 0.5 then 1 else 0
      case HalfDown => if frac == 0.5 then -1 else 0
      case HalfEven =>
        if frac != 0.5 || n % 2 == 0 then 0 else if x.Floor % 2 == 0 then -1 else 1
  }

  lemma SplitErrorExact(mode: Mode, x: real, n: int)
    requires 0.0 <= x <= n as real
    ensures Round(mode, x) + Round(mode, n as real - x) == n + SplitError(mode, x, n)
  {
    var m := x.Floor;
    if x == m as real {
      RoundInteger(mode, m);
      RoundInteger(mode, n - m);
    } else {
      SplitParts(mode, x, m);
      SplitParts(mode, n as real - x, n - m - 1);
    }
  }

  /** A non-integral x >= 0 rounds to its floor m or to m + 1, as the mode says. */
  lemma SplitParts(mode: Mode, x: real, m: int)
    requires 0.0 <= x && m as real < x < m as real + 1.0
    ensures x.Floor == m
    ensures Round(mode, x) == m + (if Increments(mode, false, m, x - m as real) then 1 else 0)
  {
  }

  /** For a base that is not a whole number of units, the halves still cannot drift apart by two units. */
  lemma SplitErrorBound(mode: Mode, x: real, y: real)
    ensures Abs((Round(mode, x) + Round(mode, y)) as real - (x + y)) < 2.0
    ensures IsHalf(mode) ==> Abs((Round(mode, x) + Round(mode, y)) as real - (x + y)) <= 1.0
  {
    RoundError(mode, x);
    RoundError(mode, y);
  }

  /** deductible_value and policy_limit in units, for exact intermediates. */
  lemma LimitUnits(prec: nat, d: Decimal, r: Rules, v: Vehicle)
    requires prec >= 1 && Valid(r) && PolicyLimit(prec, d, r, v).Success?
    requires DiscountStepsExact(prec, Val(v.value.amount), Val(r.coveragePercentage), Val(d))
    ensures var l, places := PolicyLimit(prec, d, r, v).value, r.moneyDecimalPlaces;
      var kept := KeptFormula(Val(v.value.amount), Val(r.coveragePercentage), Val(d));
      var limit := LimitFormula(Val(v.value.amount), Val(r.coveragePercentage), Val(d));
      && Val(l.deductibleValue) == Quantised(r.moneyRoundingMode, places, kept)
      && Val(l.policyLimit) == Quantised(r.moneyRoundingMode, places, limit)
  {
    hide Val, PolicyLimit, DiscountStepsExact, KeptFormula, LimitFormula, Units;
    var mode, places := r.moneyRoundingMode, r.moneyDecimalPlaces;
    LimitsAreFormulas(prec, d, r, v);
    SimulationLaws.CheckedValue(
      prec, Units(mode, places, KeptFormula(Val(v.value.amount), Val(r.coveragePercentage), Val(d))), places);
    SimulationLaws.CheckedValue(
      prec, Units(mode, places, LimitFormula(Val(v.value.amount), Val(r.coveragePercentage), Val(d))), places);
  }

  lemma SplitShift(places: nat, m: int, n: int, e: int)
    ensures Shift(10, m as real, 0 - places) + Shift(10, n as real, 0 - places)
         == Shift(10, (m + n - e) as real, 0 - places) + Product(e as real, Ulp(places))
  {
    var k := 0 - places;
    ShiftLinear(10, m as real, n as real, k);
    ShiftLinear(10, (m + n - e) as real, e as real, k);
    ShiftScale(10, e as real, 1.0, k);
    assert Product(e as real, 1.0) == e as real;
  }

  /** The kept part and its complement, in units. */
  lemma ComplementUnits(value: real, coverage: real, d: real, places: nat)
    requires value >= 0.0 && coverage >= 0.0 && 0.0 <= d <= 1.0
    ensures var base, kept := Product(value, coverage), KeptFormula(value, coverage, d);
      && Shift(10, LimitFormula(value, coverage, d), places) == Shift(10, base, places) - Shift(10, kept, places)
      && 0.0 <= Shift(10, kept, places) <= Shift(10, base, places)
  {
    var base, kept := Product(value, coverage), KeptFormula(value, coverage, d);
    Remainder(value, coverage, d);
    assert base >= 0.0;
    ProductMonotone(base, base, d, 1.0);
    ProductMonotone(base, base, 0.0, d);
    assert Product(base, 1.0) == base && Product(base, 0.0) == 0.0;
    ShiftParts(base, kept, places);
  }

  lemma ShiftParts(base: real, kept: real, places: nat)
    requires 0.0 <= kept <= base
    ensures Shift(10, base - kept, places) == Shift(10, base, places) - Shift(10, kept, places)
    ensures 0.0 <= Shift(10, kept, places) <= Shift(10, base, places)
  {
    ShiftLinear(10, base, kept, places);
    ShiftOrder(10, kept, base, places);
    ShiftSign(kept, places);
  }

  /**
   The exact conservation error: for a base limit that is a whole number of units, deductible_value plus
   policy_limit misses it by SplitError units of the deductible amount, no more and no less.
   */
  lemma ConservationError(prec: nat, d: Decimal, r: Rules, v: Vehicle)
    requires prec >= 1 && Valid(r) && ValidVehicle(v) && 0.0 <= Val(d) <= 1.0
    requires PolicyLimit(prec, d, r, v).Success?
    requires DiscountStepsExact(prec, Val(v.value.amount), Val(r.coveragePercentage), Val(d))
    requires IsWhole(Product(Val(v.value.amount), Val(r.coveragePercentage)), r.moneyDecimalPlaces)
    ensures var l, places := PolicyLimit(prec, d, r, v).value, r.moneyDecimalPlaces;
      var value, coverage := Val(v.value.amount), Val(r.coveragePercentage);
      var base := Product(value, coverage);
      var e := SplitError(r.moneyRoundingMode, Shift(10, KeptFormula(value, coverage, Val(d)), places),
                          Shift(10, base, places).Floor);
      Val(l.deductibleValue) + Val(l.policyLimit) - base == Product(e as real, Ulp(places))
  {
    hide Val, PolicyLimit, DiscountStepsExact, KeptFormula, LimitFormula, SplitError, Round, Product, Ulp;
    var value, coverage := Val(v.value.amount), Val(r.coveragePercentage);
    var base, kept := Product(value, coverage), KeptFormula(value, coverage, Val(d));
    var mode, places := r.moneyRoundingMode, r.moneyDecimalPlaces;
    LimitUnits(prec, d, r, v);
    ComplementUnits(value, coverage, Val(d), places);
    var x, n := Shift(10, kept, places), Shift(10, base, places).Floor;
    SplitErrorExact(mode, x, n);
    var e := SplitError(mode, x, n);
    SplitShift(places, Round(mode, x), Round(mode, n as real - x), e);
    ShiftAdd(10, base, places, 0 - places);
  }

  /** For any base at all the error is at most one unit in the HALF modes and below two in the others. */
  lemma ConservationBound(prec: nat, d: Decimal, r: Rules, v: Vehicle)
    requires prec >= 1 && Valid(r) && PolicyLimit(prec, d, r, v).Success?
    requires DiscountStepsExact(prec, Val(v.value.amount), Val(r.coveragePercentage), Val(d))
    ensures var l, ulp := PolicyLimit(prec, d, r, v).value, Ulp(r.moneyDecimalPlaces);
      var error := Abs(Val(l.deductibleValue) + Val(l.policyLimit)
                       - Product(Val(v.value.amount), Val(r.coveragePercentage)));
      error < 2.0 * ulp && (IsHalf(r.moneyRoundingMode) ==> error <= ulp)
  {
    hide Val, PolicyLimit, DiscountStepsExact, KeptFormula, LimitFormula, Product, Ulp, Quantised;
    var value, coverage := Val(v.value.amount), Val(r.coveragePercentage);
    LimitUnits(prec, d, r, v);
    Remainder(value, coverage, Val(d));
    QuantisedSum(r.moneyRoundingMode, r.moneyDecimalPlaces,
      KeptFormula(value, coverage, Val(d)), LimitFormula(value, coverage, Val(d)));
  }

  /** Two amounts quantised separately, against their sum. */
  lemma QuantisedSum(mode: Mode, places: nat, x: real, y: real)
    ensures var error := Abs(Quantised(mode, places, x) + Quantised(mode, places, y) - (x + y));
      error < 2.0 * Ulp(places) && (IsHalf(mode) ==> error <= Ulp(places))
  {
    hide Shift, Round;
    var k, s, t := 0 - places, Shift(10, x, places), Shift(10, y, places);
    var m, n := Round(mode, s), Round(mode, t);
    SplitErrorBound(mode, s, t);
    var e := (m + n) as real - (s + t);
    ShiftBack(10, x, places);
    ShiftBack(10, y, places);
    ShiftLinear(10, m as real, n as real, k);
    ShiftLinear(10, s, t, k);
    ShiftLinear(10, (m + n) as real, s + t, k);
    ShiftAbs(10, e, k);
    ShiftOrder(10, Abs(e), 2.0, k);
    ShiftOrder(10, Abs(e), 1.0, k);
    ShiftLinear(10, 1.0, 1.0, k);
  }

  // ---------------------------------------------------------------- bounded geographic influence

  lemma ClampLipschitz(r: Rules, x: real, y: real)
    requires Valid(r)
    ensures Abs(ClampReal(r, x) - ClampReal(r, y)) <= Abs(x - y)
  {
  }

  /** An adjustment moves the applied rate by at most its own size plus one unit of the rate scale. */
  lemma AdjustmentInfluence(r: Rules, age: int, value: real, adjustment: real)
    requires Valid(r) && value > 0.0
    ensures Abs(RateFormula(r, age, value, adjustment) - RateFormula(r, age, value, 0.0))
         <= Abs(adjustment) + Ulp(r.rateDecimalPlaces)
  {
    hide Val, Quantised, Product, Ulp;
    var bands := Bands(r, value);
    var x, y := RawRateFormula(r, age, bands, adjustment), RawRateFormula(r, age, bands, 0.0);
    ClampLipschitz(r, x, y);
    ClampWithin(r, x);
    ClampWithin(r, y);
    QuantisedDifference(r.rateRoundingMode, r.rateDecimalPlaces, ClampReal(r, x), ClampReal(r, y));
  }

  /** The same about the calculator itself, when the steps of the adjusted quotation are exact. */
  lemma AdjustmentInfluenceOnRate(prec: nat, year: int, adjustment: Decimal, r: Rules, v: Vehicle)
    requires prec >= 1 && Valid(r) && ValidVehicle(v)
    requires RateStepsExact(prec, r, year - v.year, Bands(r, Val(v.value.amount)), Val(adjustment))
    ensures var rate, neutral := Rate(prec, year, adjustment, r, v), Rate(prec, year, ZERO, r, v);
      rate.Success? && neutral.Success? ==>
        Abs(Val(rate.value) - Val(neutral.value)) <= Abs(Val(adjustment)) + Ulp(r.rateDecimalPlaces)
  {
    BandsMeaning(prec, r, v);
    assert Val(r.valueBandAmount) > 0.0;
    hide *;
    var age, value := year - v.year, Val(v.value.amount);
    NeutralStepsExact(prec, r, age, Bands(r, value), Val(adjustment));
    NoAdjustment();
    ExactRate(prec, year, adjustment, r, v);
    ExactRate(prec, year, ZERO, r, v);
    AdjustmentInfluence(r, age, value, Val(adjustment));
  }

  /** With exact steps a rate that comes out is that of the formula. */
  lemma ExactRate(prec: nat, year: int, adjustment: Decimal, r: Rules, v: Vehicle)
    requires prec >= 1 && Valid(r) && ValidVehicle(v)
    requires RateStepsExact(prec, r, year - v.year, Bands(r, Val(v.value.amount)), Val(adjustment))
    ensures var rate := Rate(prec, year, adjustment, r, v);
      rate.Success? ==> Val(rate.value) == RateFormula(r, year - v.year, Val(v.value.amount), Val(adjustment))
  {
    hide Val, RateStepsExact, Rate, RoundedRawRate, RawRateFormula, ClampReal, Quantised, Units, Bands, RateCompletes;
    RateMeaning(prec, year, adjustment, r, v);
    RateStepsMeaning(prec, r, year - v.year, Bands(r, Val(v.value.amount)), Val(adjustment));
  }

  lemma NoAdjustment()
    ensures Val(ZERO) == 0.0
  {
  }

  lemma NeutralStepsExact(prec: nat, r: Rules, age: int, bands: int, adjustment: real)
    requires RateStepsExact(prec, r, age, bands, adjustment)
    ensures RateStepsExact(prec, r, age, bands, 0.0)
  {
    hide Exact;
  }

  // ---------------------------------------------------------------- the premium follows the rate

  /** With exact intermediates a higher rate never lowers the premium. */
  lemma PremiumMonotoneInRate(prec: nat, rate: Decimal, rate': Decimal, fee: Decimal, d: Decimal, r: Rules, v: Vehicle)
    requires prec >= 1 && Valid(r) && ValidVehicle(v) && 0.0 <= Val(d) <= 1.0 && Val(rate) <= Val(rate')
    requires PremiumStepsExact(prec, Val(v.value.amount), Val(rate), Val(fee), Val(d))
    requires PremiumStepsExact(prec, Val(v.value.amount), Val(rate'), Val(fee), Val(d))
    ensures var p, p' := Premium(prec, rate, fee, d, r, v), Premium(prec, rate', fee, d, r, v);
      p.Success? && p'.Success? ==> Val(p.value) <= Val(p'.value)
  {
    hide Val, Premium, PremiumStepsExact, PremiumFormula, Units;
    PremiumIsFormula(prec, rate, fee, d, r, v);
    PremiumIsFormula(prec, rate', fee, d, r, v);
    FormulaMonotone(Val(v.value.amount), Val(rate), Val(rate'), Val(fee), Val(d));
    QuantisedOrder(prec, r.moneyRoundingMode, r.moneyDecimalPlaces,
      PremiumFormula(Val(v.value.amount), Val(rate), Val(fee), Val(d)),
      PremiumFormula(Val(v.value.amount), Val(rate'), Val(fee), Val(d)));
  }

  lemma FormulaMonotone(value: real, rate: real, rate': real, fee: real, d: real)
    requires value >= 0.0 && d <= 1.0 && rate <= rate'
    ensures PremiumFormula(value, rate, fee, d) <= PremiumFormula(value, rate', fee, d)
  {
    var a, b := value * rate, value * rate';
    ProductMonotone(value, value, rate, rate');
    assert a <= b;
    ProductMonotone(a, b, 1.0 - d, 1.0 - d);
    assert a * (1.0 - d) <= b * (1.0 - d);
  }
}

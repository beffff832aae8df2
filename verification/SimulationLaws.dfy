/** The promises of a whole quotation, for every accepted input and with no bound on the number of digits. */
module SimulationLaws {
  import opened Wrappers
  import opened Errors
  import opened Powers
  import opened Rounding
  import opened SignificantDigits
  import opened Decimals
  import opened RatingRules
  import opened Quantisation
  import opened Calculators
  import RateLaws
  import opened MoneyLaws

  /** What the guards let through. */
  lemma GuardMeaning(r: Rules, q: Quotation)
    ensures Guard(r, q).None? <==>
      && q.vehicle.year <= q.calculationYear
      && (Val(q.adjustment) == 0.0 || Val(r.gisMinAdjustment) <= Val(q.adjustment) <= Val(r.gisMaxAdjustment))
      && q.brokerFee.currency == r.currencyCode == q.vehicle.value.currency
      && Val(q.brokerFee.amount) >= 0.0
      && 0.0 <= Val(q.deductible) <= Val(r.maxDeductiblePercentage)
  {
  }

  /** What a guard objects to, in the order of the guards. */
  ghost predicate Refuses(e: Error, r: Rules, q: Quotation) {
    match e
    case VehicleYearError => q.vehicle.year > q.calculationYear
    case GeographicRateAdjustmentError =>
      Val(q.adjustment) != 0.0
      && (Val(q.adjustment) < Val(r.gisMinAdjustment) || Val(q.adjustment) > Val(r.gisMaxAdjustment))
    case CurrencyMismatchError => q.brokerFee.currency != r.currencyCode || q.vehicle.value.currency != r.currencyCode
    case BrokerFeeError => Val(q.brokerFee.amount) < 0.0
    case DeductibleOutOfRangeError => Val(q.deductible) < 0.0 || Val(q.deductible) > Val(r.maxDeductiblePercentage)
    case _ => false
  }

  function GuardRank(e: Error): nat {
    match e
    case VehicleYearError => 0
    case GeographicRateAdjustmentError => 1
    case CurrencyMismatchError => 2
    case BrokerFeeError => 3
    case _ => 4
  }

  /** The guards report the first of their objections, and nothing else. */
  lemma GuardReportsFirst(r: Rules, q: Quotation, e: Error)
    ensures Guard(r, q) == Some(e) <==>
      Refuses(e, r, q) && forall e' | GuardRank(e') < GuardRank(e) :: !Refuses(e', r, q)
  {
    hide Val;
    if Guard(r, q) != Some(e) && Refuses(e, r, q) {
      assert Guard(r, q).Some? && GuardRank(Guard(r, q).value) < GuardRank(e) && Refuses(Guard(r, q).value, r, q);
    }
  }

  /** The figures of a completed simulation are those of the three calculators. */
  lemma SimulateParts(prec: nat, r: Rules, q: Quotation)
    requires prec >= 1 && Valid(r) && Simulate(prec, r, q).Success?
    ensures var f := Simulate(prec, r, q).value;
      && Guard(r, q).None?
      && Rate(prec, q.calculationYear, q.adjustment, r, q.vehicle) == Success(f.appliedRate)
      && Premium(prec, f.appliedRate, q.brokerFee.amount, q.deductible, r, q.vehicle) == Success(f.premium)
      && PolicyLimit(prec, q.deductible, r, q.vehicle) == Success(f.limits)
  {
    hide Guard, Rate, Premium, PolicyLimit;
  }

  lemma CheckedValue(prec: nat, c: int, places: nat)
    ensures var d := Checked(prec, c, 0 - places);
      d.Success? ==> Val(d.value) == Shift(10, c as real, 0 - places) && d.value.exp == 0 - places
  {
  }

  /**
   No figure is ever negative, in any rounding mode: the rate stays inside its bounds, the premium is at least
   the quantised fee, and neither limit amount exceeds the quantised base.
   */
  lemma FiguresNonNegative(prec: nat, r: Rules, q: Quotation)
    requires prec >= 1 && Valid(r) && ValidVehicle(q.vehicle) && Simulate(prec, r, q).Success?
    ensures var f := Simulate(prec, r, q).value;
      var mode, places := r.moneyRoundingMode, r.moneyDecimalPlaces;
      var base := Quantised(mode, places, RoundedBaseLimit(prec, r, Val(q.vehicle.value.amount)));
      && 0.0 <= Val(r.minimumAppliedRate) <= Val(f.appliedRate)
      && (r.maximumAppliedRate.Some? ==> Val(f.appliedRate) <= Val(r.maximumAppliedRate.value))
      && 0.0 <= Quantised(mode, places, Rounded(prec, Val(q.brokerFee.amount))) <= Val(f.premium)
      && 0.0 <= Val(f.limits.deductibleValue) <= base
      && 0.0 <= Val(f.limits.policyLimit) <= base
  {
    hide Simulate, Rate, Premium, PolicyLimit, Val, Guard, RoundSig, Quantised;
    SimulateParts(prec, r, q);
    GuardMeaning(r, q);
    var f := Simulate(prec, r, q).value;
    RateLaws.RateWithinBounds(prec, q.calculationYear, q.adjustment, r, q.vehicle);
    PremiumAtLeastFee(prec, f.appliedRate, q.brokerFee.amount, q.deductible, r, q.vehicle);
    LimitsWithinBase(prec, q.deductible, r, q.vehicle);
  }

  lemma PremiumAtLeastFee(prec: nat, rate: Decimal, fee: Decimal, d: Decimal, r: Rules, v: Vehicle)
    requires prec >= 1 && Valid(r) && ValidVehicle(v)
    requires Val(rate) >= 0.0 && Val(fee) >= 0.0 && 0.0 <= Val(d) <= 1.0
    requires Premium(prec, rate, fee, d, r, v).Success?
    ensures 0.0 <= Quantised(r.moneyRoundingMode, r.moneyDecimalPlaces, Rounded(prec, Val(fee)))
         <= Val(Premium(prec, rate, fee, d, r, v).value)
  {
    hide RoundSig, RoundedPremium, Premium, Units;
    var mode, places := r.moneyRoundingMode, r.moneyDecimalPlaces;
    var x := RoundedPremium(prec, Val(v.value.amount), Val(rate), Val(fee), Val(d));
    PremiumMeaning(prec, rate, fee, d, r, v);
    CheckedValue(prec, Units(mode, places, x), places);
    RoundedPremiumNonNegative(prec, Val(v.value.amount), Val(rate), Val(fee), Val(d));
    RateLaws.UnitsNonNegative(mode, places, Rounded(prec, Val(fee)));
    QuantisedMonotone(mode, places, Rounded(prec, Val(fee)), x);
  }

  lemma LimitsWithinBase(prec: nat, d: Decimal, r: Rules, v: Vehicle)
    requires prec >= 1 && Valid(r) && ValidVehicle(v) && 0.0 <= Val(d) <= 1.0
    requires PolicyLimit(prec, d, r, v).Success?
    ensures var l := PolicyLimit(prec, d, r, v).value;
      var base := Quantised(r.moneyRoundingMode, r.moneyDecimalPlaces, RoundedBaseLimit(prec, r, Val(v.value.amount)));
      0.0 <= Val(l.deductibleValue) <= base && 0.0 <= Val(l.policyLimit) <= base
  {
    hide Val, Shift, RoundSig, RoundedProduct, AfterDeductible, RoundedBaseLimit, PolicyLimit, Units;
    var mode, places := r.moneyRoundingMode, r.moneyDecimalPlaces;
    var base := RoundedBaseLimit(prec, r, Val(v.value.amount));
    var kept, rest := RoundedProduct(prec, base, Val(d)), AfterDeductible(prec, base, Val(d));
    PolicyLimitMeaning(prec, d, r, v);
    BaseLimit(prec, r, v);
    DiscountWithinBase(prec, base, Val(d));
    CheckedValue(prec, Units(mode, places, kept), places);
    CheckedValue(prec, Units(mode, places, rest), places);
    RateLaws.UnitsNonNegative(mode, places, kept);
    RateLaws.UnitsNonNegative(mode, places, rest);
    QuantisedMonotone(mode, places, kept, base);
    QuantisedMonotone(mode, places, rest, base);
  }

  /**
   At a deductible of one the premium collapses to the fee, the policy limit to zero, and the deductible
   amount is the whole base. The fee is the fee rounded to the working precision, then quantised.
   */
  lemma FullDeductibleCollapses(prec: nat, r: Rules, q: Quotation)
    requires prec >= 1 && Valid(r) && ValidVehicle(q.vehicle) && Simulate(prec, r, q).Success?
    requires Val(q.deductible) == 1.0
    ensures var f := Simulate(prec, r, q).value;
      var mode, places := r.moneyRoundingMode, r.moneyDecimalPlaces;
      && Val(f.premium) == Quantised(mode, places, Rounded(prec, Val(q.brokerFee.amount)))
      && Val(f.limits.policyLimit) == 0.0
      && Val(f.limits.deductibleValue)
         == Quantised(mode, places, RoundedBaseLimit(prec, r, Val(q.vehicle.value.amount)))
  {
    hide Simulate, Rate, Premium, PolicyLimit, Val, Guard, RoundSig, RoundedProduct, AfterDeductible,
      RoundedBaseLimit, Units;
    SimulateParts(prec, r, q);
    var f := Simulate(prec, r, q).value;
    var value, rate, fee := Val(q.vehicle.value.amount), Val(f.appliedRate), Val(q.brokerFee.amount);
    var mode, places := r.moneyRoundingMode, r.moneyDecimalPlaces;
    PremiumMeaning(prec, f.appliedRate, q.brokerFee.amount, q.deductible, r, q.vehicle);
    PolicyLimitMeaning(prec, q.deductible, r, q.vehicle);
    ProductRepresentable(prec, value, rate);
    FullDeductible(prec, RoundedProduct(prec, value, rate));
    BaseLimit(prec, r, q.vehicle);
    FullDeductible(prec, RoundedBaseLimit(prec, r, value));
    CheckedValue(prec, Units(mode, places, RoundedPremium(prec, value, rate, fee, 1.0)), places);
    CheckedValue(prec, Units(mode, places, RoundedBaseLimit(prec, r, value)), places);
    CheckedValue(prec, Units(mode, places, 0.0), places);
    ZeroIsWhole(places);
    QuantisedFixes(mode, places, 0.0);
    assert 0.0 + fee == fee;
  }

  /** Only the guards and an over-long number can stop a simulation; the percentage is never refused. */
  lemma SimulateErrors(prec: nat, r: Rules, q: Quotation)
    requires prec >= 1 && Valid(r) && ValidVehicle(q.vehicle)
    ensures Simulate(prec, r, q).Failure? ==>
      Simulate(prec, r, q).error == if Guard(r, q).Some? then Guard(r, q).value else InvalidOperation
  {
    hide Guard, Rate, Premium, PolicyLimit, Val, RoundedPremium, RoundedBaseLimit, Units;
    RateLaws.RateMeaning(prec, q.calculationYear, q.adjustment, r, q.vehicle);
    var rate := Rate(prec, q.calculationYear, q.adjustment, r, q.vehicle);
    if rate.Success? {
      PremiumMeaning(prec, rate.value, q.brokerFee.amount, q.deductible, r, q.vehicle);
      PolicyLimitMeaning(prec, q.deductible, r, q.vehicle);
    }
  }
}

/** The JSON numbers of an actual answer of the shipped service. */
module Responses {
  import opened Wrappers
  import opened Powers
  import opened Rounding
  import opened Decimals
  import opened RatingRules
  import opened Quantisation
  import opened Calculators
  import opened MoneyLaws
  import opened Timestamps
  import opened Persistence
  import opened DefaultRules
  import opened Requests
  import opened RequestLaws
  import opened JsonNumber
  import opened JsonThreshold
  import RateLaws
  import SimulationLaws

  /** The figures of an accepted quotation as the response has them: whole numbers of their units, and in range. */
  lemma FiguresInRange(q: Quotation)
    requires Accepted(q)
    ensures Valid(DEFAULT_RULES) && Simulate(80, DEFAULT_RULES, q).Success?
    ensures var f := Simulate(80, DEFAULT_RULES, q).value;
      && 0.0 <= Val(f.appliedRate) <= Pow(10, 7) && IsWhole(Val(f.appliedRate), 6)
      && 0.0 <= Val(f.premium) && IsWhole(Val(f.premium), 2)
      && 0.0 <= Val(f.limits.deductibleValue) <= Pow(10, 11) && IsWhole(Val(f.limits.deductibleValue), 2)
      && 0.0 <= Val(f.limits.policyLimit) <= Pow(10, 11) && IsWhole(Val(f.limits.policyLimit), 2)
  {
    hide Val, Simulate, Rate, Accepted, Guard, ValidVehicle, RateLaws.ClampedRate, RoundedPremium, RoundedProduct,
      AfterDeductible, RoundedBaseLimit, Quantised, IsWhole, Pow, Check;
    DefaultNeverFails(q);
    DefaultRateCompletes(q);
    AcceptedRanges(q);
    var value, d := Val(q.vehicle.value.amount), Val(q.deductible);
    FiguresMeaning(80, DEFAULT_RULES, q);
    SimulationLaws.SimulateParts(80, DEFAULT_RULES, q);
    SimulationLaws.FiguresNonNegative(80, DEFAULT_RULES, q);
    QuantisedIdempotent(HalfUp, 6, RateLaws.ClampedRate(80, DEFAULT_RULES, q.calculationYear - q.vehicle.year, value,
                                                        Val(q.adjustment)));
    var f, base := Simulate(80, DEFAULT_RULES, q).value, RoundedBaseLimit(80, DEFAULT_RULES, value);
    QuantisedIdempotent(
      HalfUp, 2, RoundedPremium(80, value, Val(f.appliedRate), Val(q.brokerFee.amount), d));
    QuantisedIdempotent(HalfUp, 2, RoundedProduct(80, base, d));
    QuantisedIdempotent(HalfUp, 2, AfterDeductible(80, base, d));
    LimitAtMost(80, value, d);
    PowWhole(11, 2);
    QuantisedCap(HalfUp, 2, RoundedProduct(80, base, d), Pow(10, 11));
    QuantisedCap(HalfUp, 2, AfterDeductible(80, base, d), Pow(10, 11));
  }

  /**
   The numbers of an answer: rate, deductible amount and policy limit are always carried, whatever the request; the
   premium is up to 2^46, and the vehicle value when it has at most four decimals.
   */
  lemma AnswerCarried(request: Request, provider: Provider, id: Uuid, now: Timestamp)
    requires ShippedAccepts(request, provider, now)
    ensures var prepared := Prepare(80, DEFAULT_CEILINGS, DEFAULT_RULES, request, provider, id, now);
      && prepared.Success?
      && var o := OutputOf(prepared.value);
        && Carries(AsJsonNumber(o.appliedRate), o.appliedRate)
        && Carries(AsJsonNumber(o.deductibleValue), o.deductibleValue)
        && Carries(AsJsonNumber(o.policyLimit), o.policyLimit)
        && (Val(o.calculatedPremium) <= 70368744177664.0 ==>
            Carries(AsJsonNumber(o.calculatedPremium), o.calculatedPremium))
        && (IsWhole(Val(request.value), 4) ==> Carries(AsJsonNumber(o.car.value), request.value))
  {
    hide Val, Simulate, Prepare, OutputOf, Accepted, ShippedAccepts, IsWhole, Carries, AsJsonNumber, Pow;
    DefaultRulesValid();
    var q, f := ShippedFigures(request, provider, id, now);
    FiguresInRange(q);
    PlacesCarried(f.appliedRate, 6, 7);
    PlacesCarried(f.limits.deductibleValue, 2, 11);
    PlacesCarried(f.limits.policyLimit, 2, 11);
    CentsThreshold(70368744177664.0);
    VehicleValueDecimals(4);
    AcceptedRanges(q);
  }

  /** Nothing deducted is sent as the integer 0, and at a full deductible the limit is. */
  lemma ZeroFigures(request: Request, provider: Provider, id: Uuid, now: Timestamp)
    requires ShippedAccepts(request, provider, now)
    ensures var prepared := Prepare(80, DEFAULT_CEILINGS, DEFAULT_RULES, request, provider, id, now);
      && prepared.Success?
      && var o := OutputOf(prepared.value);
        && (Val(request.deductible) == 0.0 ==> AsJsonNumber(o.deductibleValue) == JsonInt(0))
        && (Val(request.deductible) == 1.0 ==> AsJsonNumber(o.policyLimit) == JsonInt(0))
  {
    hide Val, Simulate, Prepare, OutputOf, Accepted, ShippedAccepts, AsJsonNumber, Quantised, RoundedProduct,
      AfterDeductible, RoundedBaseLimit;
    DefaultRulesValid();
    var q, f := ShippedFigures(request, provider, id, now);
    AcceptedRanges(q);
    FiguresMeaning(80, DEFAULT_RULES, q);
    if Val(request.deductible) == 0.0 {
      NothingDeducted(RoundedBaseLimit(80, DEFAULT_RULES, Val(request.value)));
      IntegralCarried(f.limits.deductibleValue);
    }
    if Val(request.deductible) == 1.0 {
      SimulationLaws.FullDeductibleCollapses(80, DEFAULT_RULES, q);
      IntegralCarried(f.limits.policyLimit);
    }
  }

  lemma NothingDeducted(base: real)
    ensures Quantised(HalfUp, 2, RoundedProduct(80, base, 0.0)) == 0.0
  {
    assert Product(base, 0.0) == 0.0;
    ZeroIsWhole(2);
    hide Shift;
    QuantisedFixes(HalfUp, 2, 0.0);
  }
}

/** The rating parameters and the self-consistency checks made when they are loaded. */
module RatingRules {
  import opened Wrappers
  import opened Errors
  import opened Powers
  import opened Rounding
  import opened SignificantDigits
  import opened Decimals

  datatype Rules = Rules(
    ageRateIncrement: Decimal,
    baseRate: Decimal,
    coveragePercentage: Decimal,
    currencyCode: string,
    gisMaxAdjustment: Decimal,
    gisMinAdjustment: Decimal,
    maxDeductiblePercentage: Decimal,
    maximumAppliedRate: Option<Decimal>,
    minVehicleYear: int,
    minimumAppliedRate: Decimal,
    moneyDecimalPlaces: int,
    moneyRoundingMode: Mode,
    rateDecimalPlaces: int,
    rateRoundingMode: Mode,
    rulesVersion: string,
    valueBandAmount: Decimal,
    valueRateIncrement: Decimal)

  datatype RulesError =
    | AgeRateIncrementNegative
    | BaseRateNegative
    | ValueRateIncrementNegative
    | ValueBandNotPositive
    | GisBandReversed
    | CoverageNotPositive
    | MaxDeductibleOutOfRange
    | MinimumRateNegative
    | MoneyPlacesNegative
    | RatePlacesNegative
    | RateBoundsReversed
    | RulesVersionEmpty
    | MinimumRateNotRepresentable
    | MaximumRateNotRepresentable
    | AmbientInvalidOperation

  /** A bound must survive quantisation to the rate scale, done in the ambient context. */
  function CheckBound(places: nat, bound: Decimal, error: RulesError): Option<RulesError> {
    match Quantize(AMBIENT_PRECISION, HalfEven, places, bound)
    case Failure(_) => Some(AmbientInvalidOperation)
    case Success(q) => if Val(bound) != Val(q) then Some(error) else None
  }

  /** The checks in the order they are made; None when the rules are accepted. */
  function Check(r: Rules): Option<RulesError> {
    if Val(r.ageRateIncrement) < 0.0 then Some(AgeRateIncrementNegative)
    else if Val(r.baseRate) < 0.0 then Some(BaseRateNegative)
    else if Val(r.valueRateIncrement) < 0.0 then Some(ValueRateIncrementNegative)
    else if Val(r.valueBandAmount) <= 0.0 then Some(ValueBandNotPositive)
    else if Val(r.gisMinAdjustment) > Val(r.gisMaxAdjustment) then Some(GisBandReversed)
    else if Val(r.coveragePercentage) <= 0.0 then Some(CoverageNotPositive)
    else if !(0.0 <= Val(r.maxDeductiblePercentage) <= 1.0) then Some(MaxDeductibleOutOfRange)
    else if Val(r.minimumAppliedRate) < 0.0 then Some(MinimumRateNegative)
    else if r.moneyDecimalPlaces < 0 then Some(MoneyPlacesNegative)
    else if r.rateDecimalPlaces < 0 then Some(RatePlacesNegative)
    else if r.maximumAppliedRate.Some? && Val(r.maximumAppliedRate.value) < Val(r.minimumAppliedRate)
      then Some(RateBoundsReversed)
    else if r.rulesVersion == "" then Some(RulesVersionEmpty)
    else
      var minimum := CheckBound(r.rateDecimalPlaces, r.minimumAppliedRate, MinimumRateNotRepresentable);
      if minimum.Some? || r.maximumAppliedRate.None? then minimum
      else CheckBound(r.rateDecimalPlaces, r.maximumAppliedRate.value, MaximumRateNotRepresentable)
  }

  /** x is a whole number of units of 10^-places. */
  ghost predicate IsWhole(x: real, places: nat) {
    Shift(10, x, places).Floor as real == Shift(10, x, places)
  }

  /** The bound is a multiple of 10^-places that the ambient context can write. */
  ghost predicate BoundAccepted(places: nat, x: real) {
    IsWhole(x, places) && Fits(10, AMBIENT_PRECISION, Shift(10, x, places).Floor)
  }

  /** What accepted rules satisfy, said without the order of the checks. */
  ghost predicate Valid(r: Rules) {
    && Val(r.ageRateIncrement) >= 0.0 && Val(r.baseRate) >= 0.0 && Val(r.valueRateIncrement) >= 0.0
    && Val(r.valueBandAmount) > 0.0 && Val(r.coveragePercentage) > 0.0
    && Val(r.gisMinAdjustment) <= Val(r.gisMaxAdjustment)
    && 0.0 <= Val(r.maxDeductiblePercentage) <= 1.0
    && r.moneyDecimalPlaces >= 0 && r.rateDecimalPlaces >= 0 && r.rulesVersion != ""
    && Val(r.minimumAppliedRate) >= 0.0 && BoundAccepted(r.rateDecimalPlaces, Val(r.minimumAppliedRate))
    && (r.maximumAppliedRate.Some? ==>
          Val(r.minimumAppliedRate) <= Val(r.maximumAppliedRate.value)
          && BoundAccepted(r.rateDecimalPlaces, Val(r.maximumAppliedRate.value)))
  }

  /** Quantising keeps the value exactly when it is a whole number of units. */
  lemma UnitsKeepWhole(mode: Mode, places: nat, x: real)
    ensures Shift(10, Units(mode, places, x) as real, 0 - places) == x <==> IsWhole(x, places)
    ensures IsWhole(x, places) ==> Units(mode, places, x) == Shift(10, x, places).Floor
  {
    var s := Shift(10, x, places);
    ShiftAdd(10, x, places, 0 - places);
    RoundInteger(mode, s.Floor);
    if Shift(10, Units(mode, places, x) as real, 0 - places) == x {
      ShiftAdd(10, Units(mode, places, x) as real, 0 - places, places);
    }
  }

  lemma CheckBoundMeaning(places: nat, bound: Decimal, error: RulesError)
    ensures CheckBound(places, bound, error).None? ==> BoundAccepted(places, Val(bound))
    ensures BoundAccepted(places, Val(bound)) ==> CheckBound(places, bound, error).None?
  {
    hide Shift, Quantize, PowNat;
    QuantizeRounds(AMBIENT_PRECISION, HalfEven, places, bound);
    UnitsKeepWhole(HalfEven, places, Val(bound));
  }

  /** The checks accept exactly the valid rules. */
  lemma CheckMeaning(r: Rules)
    ensures Check(r).None? <==> Valid(r)
  {
    if r.rateDecimalPlaces >= 0 {
      CheckBoundMeaning(r.rateDecimalPlaces, r.minimumAppliedRate, MinimumRateNotRepresentable);
      if r.maximumAppliedRate.Some? {
        CheckBoundMeaning(r.rateDecimalPlaces, r.maximumAppliedRate.value, MaximumRateNotRepresentable);
      }
    }
  }

  /** What each error says of the rules. */
  ghost predicate Violates(e: RulesError, r: Rules) {
    match e
    case AgeRateIncrementNegative => Val(r.ageRateIncrement) < 0.0
    case BaseRateNegative => Val(r.baseRate) < 0.0
    case ValueRateIncrementNegative => Val(r.valueRateIncrement) < 0.0
    case ValueBandNotPositive => Val(r.valueBandAmount) <= 0.0
    case GisBandReversed => Val(r.gisMinAdjustment) > Val(r.gisMaxAdjustment)
    case CoverageNotPositive => Val(r.coveragePercentage) <= 0.0
    case MaxDeductibleOutOfRange => Val(r.maxDeductiblePercentage) < 0.0 || Val(r.maxDeductiblePercentage) > 1.0
    case MinimumRateNegative => Val(r.minimumAppliedRate) < 0.0
    case MoneyPlacesNegative => r.moneyDecimalPlaces < 0
    case RatePlacesNegative => r.rateDecimalPlaces < 0
    case RateBoundsReversed =>
      r.maximumAppliedRate.Some? && Val(r.maximumAppliedRate.value) < Val(r.minimumAppliedRate)
    case RulesVersionEmpty => r.rulesVersion == ""
    case _ => false
  }

  function RulesRank(e: RulesError): nat {
    match e
    case AgeRateIncrementNegative => 0
    case BaseRateNegative => 1
    case ValueRateIncrementNegative => 2
    case ValueBandNotPositive => 3
    case GisBandReversed => 4
    case CoverageNotPositive => 5
    case MaxDeductibleOutOfRange => 6
    case MinimumRateNegative => 7
    case MoneyPlacesNegative => 8
    case RatePlacesNegative => 9
    case RateBoundsReversed => 10
    case RulesVersionEmpty => 11
    case _ => 12
  }

  /** Rules with one of these faults are refused with the first of them. */
  lemma CheckReportsFirst(r: Rules, e: RulesError)
    requires RulesRank(e) < 12
    ensures Check(r) == Some(e) <==>
      Violates(e, r) && forall e' | RulesRank(e') < RulesRank(e) :: !Violates(e', r)
  {
    hide Val, CheckBound, AMBIENT_PRECISION;
    BoundErrors(r.rateDecimalPlaces, r.minimumAppliedRate, MinimumRateNotRepresentable);
    if r.maximumAppliedRate.Some? {
      BoundErrors(r.rateDecimalPlaces, r.maximumAppliedRate.value, MaximumRateNotRepresentable);
    }
    if Check(r) != Some(e) && Violates(e, r) {
      assert Check(r).Some? && RulesRank(Check(r).value) < RulesRank(e) && Violates(Check(r).value, r);
    }
  }

  lemma BoundErrors(places: int, bound: Decimal, error: RulesError)
    ensures places >= 0 ==> CheckBound(places, bound, error) in {None, Some(error), Some(AmbientInvalidOperation)}
  {
  }

  /**
   A bound is refused as not representable when it has more digits after the point than the rate scale, and stops the
   check itself when it needs more than the 28 digits of the ambient context at that scale.
   */
  lemma BoundReported(places: nat, bound: Decimal, error: RulesError)
    ensures CheckBound(places, bound, error) ==
      if !Fits(10, 28, Units(HalfEven, places, Val(bound))) then Some(AmbientInvalidOperation)
      else if !IsWhole(Val(bound), places) then Some(error) else None
  {
    QuantizeRounds(AMBIENT_PRECISION, HalfEven, places, bound);
    UnitsKeepWhole(HalfEven, places, Val(bound));
  }

  /** Round a monetary amount to the configured money scale. */
  function QuantizeMoney(prec: nat, r: Rules, amount: Decimal): Result<Decimal, Error>
    requires r.moneyDecimalPlaces >= 0
  {
    Quantize(prec, r.moneyRoundingMode, r.moneyDecimalPlaces, amount)
  }

  /** Round a rate to the configured rate scale. */
  function QuantizeRate(prec: nat, r: Rules, rate: Decimal): Result<Decimal, Error>
    requires r.rateDecimalPlaces >= 0
  {
    Quantize(prec, r.rateRoundingMode, r.rateDecimalPlaces, rate)
  }
}

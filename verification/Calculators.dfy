/** The three calculators, run at a given working precision. */
module Calculators {
  import opened Wrappers
  import opened Errors
  import opened Rounding
  import opened Decimals
  import opened RatingRules

  datatype Money = Money(amount: Decimal, currency: string)

  datatype Vehicle = Vehicle(make: string, model: string, value: Money, year: int)

  /** A vehicle snapshot is only built with a positive value. */
  ghost predicate ValidVehicle(v: Vehicle) {
    Val(v.value.amount) > 0.0
  }

  /** A percentage is any non-negative decimal. */
  function Percentage(d: Decimal): Result<Decimal, Error> {
    if Val(d) < 0.0 then Failure(PercentageError) else Success(d)
  }

  function MaxOf(a: Decimal, b: Decimal): Decimal {
    if Val(b) > Val(a) then b else a
  }

  function MinOf(a: Decimal, b: Decimal): Decimal {
    if Val(b) < Val(a) then b else a
  }

  /** The sum of the age, band, base and geographic terms, before it is clamped. */
  function RawRate(prec: nat, calculationYear: int, adjustment: Decimal, r: Rules, v: Vehicle): Result<Decimal, Error>
    requires prec >= 1
  {
    var carAge := Dec(calculationYear - v.year, 0);
    var ageRate := Mul(prec, carAge, r.ageRateIncrement);
    var valueUnits :- IntegerDivide(prec, v.value.amount, r.valueBandAmount);
    var valueRate := Mul(prec, valueUnits, r.valueRateIncrement);
    Success(Add(prec, Add(prec, Add(prec, ageRate, valueRate), r.baseRate), adjustment))
  }

  /** The configured floor, then the ceiling if there is one. */
  function Clamp(r: Rules, rawRate: Decimal): Decimal {
    var floored := MaxOf(rawRate, r.minimumAppliedRate);
    if r.maximumAppliedRate.Some? then MinOf(floored, r.maximumAppliedRate.value) else floored
  }

  /** The applied rate. */
  function Rate(prec: nat, calculationYear: int, adjustment: Decimal, r: Rules, v: Vehicle): Result<Decimal, Error>
    requires prec >= 1 && r.rateDecimalPlaces >= 0
  {
    var rawRate :- RawRate(prec, calculationYear, adjustment, r, v);
    var quantised :- QuantizeRate(prec, r, Clamp(r, rawRate));
    Percentage(quantised)
  }

  /** The premium before quantisation. */
  function RawPremium(prec: nat, appliedRate: Decimal, brokerFee: Decimal, deductible: Decimal, v: Vehicle): Decimal
    requires prec >= 1
  {
    var basePremium := Mul(prec, v.value.amount, appliedRate);
    var discount := Mul(prec, basePremium, deductible);
    Add(prec, Sub(prec, basePremium, discount), brokerFee)
  }

  /** The calculated premium. */
  function Premium(prec: nat, appliedRate: Decimal, brokerFee: Decimal, deductible: Decimal, r: Rules, v: Vehicle)
    : Result<Decimal, Error>
    requires prec >= 1 && r.moneyDecimalPlaces >= 0
  {
    QuantizeMoney(prec, r, RawPremium(prec, appliedRate, brokerFee, deductible, v))
  }

  datatype Limits = Limits(deductibleValue: Decimal, policyLimit: Decimal)

  /** The deductible amount and the policy limit, each quantised on its own. */
  function PolicyLimit(prec: nat, deductible: Decimal, r: Rules, v: Vehicle): Result<Limits, Error>
    requires prec >= 1 && r.moneyDecimalPlaces >= 0
  {
    var basePolicyLimit := Mul(prec, v.value.amount, r.coveragePercentage);
    var deductibleAmount := Mul(prec, basePolicyLimit, deductible);
    var deductibleValue :- QuantizeMoney(prec, r, deductibleAmount);
    var policyLimit :- QuantizeMoney(prec, r, Sub(prec, basePolicyLimit, deductibleAmount));
    Success(Limits(deductibleValue, policyLimit))
  }

  datatype Figures = Figures(appliedRate: Decimal, premium: Decimal, limits: Limits)

  /** What is quoted: the vehicle, the fee, the deductible and the geographic adjustment. */
  datatype Quotation = Quotation(
    vehicle: Vehicle, brokerFee: Money, deductible: Decimal, adjustment: Decimal, calculationYear: int)

  /** The aggregate's guards, in order; None when it goes on to calculate. */
  function Guard(r: Rules, q: Quotation): Option<Error> {
    if q.vehicle.year > q.calculationYear then Some(VehicleYearError)
    else if Val(q.adjustment) != 0.0
         && !(Val(r.gisMinAdjustment) <= Val(q.adjustment) <= Val(r.gisMaxAdjustment))
      then Some(GeographicRateAdjustmentError)
    else if q.brokerFee.currency != r.currencyCode then Some(CurrencyMismatchError)
    else if q.vehicle.value.currency != r.currencyCode then Some(CurrencyMismatchError)
    else if Val(q.brokerFee.amount) < 0.0 then Some(BrokerFeeError)
    else if Val(q.deductible) < 0.0 || Val(q.deductible) > Val(r.maxDeductiblePercentage)
      then Some(DeductibleOutOfRangeError)
    else None
  }

  /** The guards, then the three services in canonical order; the quantised rate is fed to the premium. */
  function Simulate(prec: nat, r: Rules, q: Quotation): Result<Figures, Error>
    requires prec >= 1 && r.moneyDecimalPlaces >= 0 && r.rateDecimalPlaces >= 0
  {
    if Guard(r, q).Some? then Failure(Guard(r, q).value)
    else
      var appliedRate :- Rate(prec, q.calculationYear, q.adjustment, r, q.vehicle);
      var premium :- Premium(prec, appliedRate, q.brokerFee.amount, q.deductible, r, q.vehicle);
      var limits :- PolicyLimit(prec, q.deductible, r, q.vehicle);
      Success(Figures(appliedRate, premium, limits))
  }
}

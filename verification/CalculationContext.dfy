/** The decimal context of the thread, raised to the working precision for the length of a calculation. */
module CalculationContext {
  import opened Wrappers
  import opened Errors
  import opened Decimals
  import opened RatingRules
  import opened Calculators

  class DecimalContext {
    var precision: nat

    constructor ()
      ensures precision == AMBIENT_PRECISION
    {
      precision := AMBIENT_PRECISION;
    }

    /** Entering the block; the caller keeps the precision to go back to. */
    method EnterHighPrecision() returns (outer: nat)
      modifies this
      ensures outer == old(precision) && precision == CALCULATION_PRECISION
    {
      outer := precision;
      precision := CALCULATION_PRECISION;
    }

    /** Leaving the block, normally or by an exception. */
    method Leave(outer: nat)
      modifies this
      ensures precision == outer
    {
      precision := outer;
    }
  }

  method CalculateRate(ctx: DecimalContext, calculationYear: int, adjustment: Decimal, r: Rules, v: Vehicle)
    returns (rate: Result<Decimal, Error>)
    requires r.rateDecimalPlaces >= 0
    modifies ctx
    ensures ctx.precision == old(ctx.precision)
    ensures rate == Rate(CALCULATION_PRECISION, calculationYear, adjustment, r, v)
  {
    hide Mul, Add, IntegerDivide, QuantizeRate, MaxOf, MinOf, Percentage;
    var outer := ctx.EnterHighPrecision();
    var prec := ctx.precision;
    var carAge := Dec(calculationYear - v.year, 0);
    var ageRate := Mul(prec, carAge, r.ageRateIncrement);
    var valueUnits := IntegerDivide(prec, v.value.amount, r.valueBandAmount);
    if valueUnits.Failure? {
      ctx.Leave(outer);
      return Failure(valueUnits.error);
    }
    var valueRate := Mul(prec, valueUnits.value, r.valueRateIncrement);
    var rawRate := Add(prec, Add(prec, Add(prec, ageRate, valueRate), r.baseRate), adjustment);
    var clampedRate := MaxOf(rawRate, r.minimumAppliedRate);
    if r.maximumAppliedRate.Some? {
      clampedRate := MinOf(clampedRate, r.maximumAppliedRate.value);
    }
    var quantised := QuantizeRate(prec, r, clampedRate);
    rate := if quantised.Failure? then Failure(quantised.error) else Percentage(quantised.value);
    ctx.Leave(outer);
  }

  method CalculatePremium(
    ctx: DecimalContext, appliedRate: Decimal, brokerFee: Decimal, deductible: Decimal, r: Rules, v: Vehicle)
    returns (premium: Result<Decimal, Error>)
    requires r.moneyDecimalPlaces >= 0
    modifies ctx
    ensures ctx.precision == old(ctx.precision)
    ensures premium == Premium(CALCULATION_PRECISION, appliedRate, brokerFee, deductible, r, v)
  {
    var outer := ctx.EnterHighPrecision();
    premium := QuantizeMoney(ctx.precision, r, RawPremium(ctx.precision, appliedRate, brokerFee, deductible, v));
    ctx.Leave(outer);
  }

  method CalculatePolicyLimit(ctx: DecimalContext, deductible: Decimal, r: Rules, v: Vehicle)
    returns (limits: Result<Limits, Error>)
    requires r.moneyDecimalPlaces >= 0
    modifies ctx
    ensures ctx.precision == old(ctx.precision)
    ensures limits == PolicyLimit(CALCULATION_PRECISION, deductible, r, v)
  {
    var outer := ctx.EnterHighPrecision();
    limits := PolicyLimit(ctx.precision, deductible, r, v);
    ctx.Leave(outer);
  }

  /** The three services in canonical order, each in a block of its own: the precision found is left behind. */
  method CalculateFigures(ctx: DecimalContext, r: Rules, q: Quotation) returns (figures: Result<Figures, Error>)
    requires r.moneyDecimalPlaces >= 0 && r.rateDecimalPlaces >= 0
    modifies ctx
    ensures ctx.precision == old(ctx.precision)
    ensures figures == Simulate(CALCULATION_PRECISION, r, q)
  {
    hide Rate, Premium, PolicyLimit, Guard;
    var refused := Guard(r, q);
    if refused.Some? {
      return Failure(refused.value);
    }
    var appliedRate := CalculateRate(ctx, q.calculationYear, q.adjustment, r, q.vehicle);
    if appliedRate.Failure? {
      return Failure(appliedRate.error);
    }
    var premium := CalculatePremium(ctx, appliedRate.value, q.brokerFee.amount, q.deductible, r, q.vehicle);
    if premium.Failure? {
      return Failure(premium.error);
    }
    var limits := CalculatePolicyLimit(ctx, q.deductible, r, q.vehicle);
    if limits.Failure? {
      return Failure(limits.error);
    }
    figures := Success(Figures(appliedRate.value, premium.value, limits.value));
  }
}

/** What the rate calculator promises with its rounding at every step taken into account. */
module RateLaws {
  import opened Wrappers
  import opened Errors
  import opened Powers
  import opened Rounding
  import opened SignificantDigits
  import opened Decimals
  import opened RatingRules
  import opened Quantisation
  import opened Calculators

  /** floor(value / band). */
  function Bands(r: Rules, value: real): int
    requires Val(r.valueBandAmount) > 0.0
  {
    (value / Val(r.valueBandAmount)).Floor
  }

  /** The raw rate as a real number, with one rounding to prec digits after every operation. */
  function RoundedRawRate(prec: nat, r: Rules, age: int, bands: int, adjustment: real): real
    requires prec >= 1
  {
    var ageRate := RoundedProduct(prec, age as real, Val(r.ageRateIncrement));
    var valueRate := RoundedProduct(prec, bands as real, Val(r.valueRateIncrement));
    RoundedSum(prec, RoundedSum(prec, RoundedSum(prec, ageRate, valueRate), Val(r.baseRate)), adjustment)
  }

  function ClampReal(r: Rules, x: real): real {
    var floored := if Val(r.minimumAppliedRate) > x then Val(r.minimumAppliedRate) else x;
    if r.maximumAppliedRate.Some? && Val(r.maximumAppliedRate.value) < floored
    then Val(r.maximumAppliedRate.value) else floored
  }

  lemma IntegerVal(n: int)
    ensures Val(Dec(n, 0)) == n as real
  {
  }

  lemma BandsMeaning(prec: nat, r: Rules, v: Vehicle)
    requires Valid(r) && ValidVehicle(v)
    ensures Bands(r, Val(v.value.amount)) >= 0
    ensures IntegerDivide(prec, v.value.amount, r.valueBandAmount)
         == Checked(prec, Bands(r, Val(v.value.amount)), 0)
  {
    IntegerDivideFloors(prec, v.value.amount, r.valueBandAmount);
  }

  lemma RawRateMeaning(prec: nat, calculationYear: int, adjustment: Decimal, r: Rules, v: Vehicle)
    requires prec >= 1 && Valid(r) && ValidVehicle(v)
    ensures var raw := RawRate(prec, calculationYear, adjustment, r, v);
      var bands := Bands(r, Val(v.value.amount));
      if Fits(10, prec, bands)
      then raw.Success? && Val(raw.value)
        == RoundedRawRate(prec, r, calculationYear - v.year, bands, Val(adjustment))
      else raw == Failure(InvalidOperation)
  {
    hide Val, Mul, Add, RoundedProduct, RoundedSum;
    BandsMeaning(prec, r, v);
    var bands := Bands(r, Val(v.value.amount));
    var age, units := Dec(calculationYear - v.year, 0), Dec(bands, 0);
    IntegerVal(age.coef);
    IntegerVal(bands);
    MulRounds(prec, age, r.ageRateIncrement);
    MulRounds(prec, units, r.valueRateIncrement);
    var ageRate, valueRate := Mul(prec, age, r.ageRateIncrement), Mul(prec, units, r.valueRateIncrement);
    AddRounds(prec, ageRate, valueRate);
    var sum := Add(prec, ageRate, valueRate);
    AddRounds(prec, sum, r.baseRate);
    AddRounds(prec, Add(prec, sum, r.baseRate), adjustment);
  }

  lemma ClampMeaning(r: Rules, d: Decimal)
    ensures Val(Clamp(r, d)) == ClampReal(r, Val(d))
  {
  }

  lemma ClampWithin(r: Rules, x: real)
    requires Valid(r)
    ensures 0.0 <= Val(r.minimumAppliedRate) <= ClampReal(r, x)
    ensures r.maximumAppliedRate.Some? ==> ClampReal(r, x) <= Val(r.maximumAppliedRate.value)
  {
  }

  lemma QuantisedClampWithin(r: Rules, x: real)
    requires Valid(r)
    ensures 0.0 <= Val(r.minimumAppliedRate)
         <= Quantised(r.rateRoundingMode, r.rateDecimalPlaces, ClampReal(r, x))
    ensures r.maximumAppliedRate.Some? ==>
      Quantised(r.rateRoundingMode, r.rateDecimalPlaces, ClampReal(r, x)) <= Val(r.maximumAppliedRate.value)
  {
    var c := ClampReal(r, x);
    ClampWithin(r, x);
    QuantisedCap(r.rateRoundingMode, r.rateDecimalPlaces, c, Val(r.minimumAppliedRate));
    if r.maximumAppliedRate.Some? {
      QuantisedCap(r.rateRoundingMode, r.rateDecimalPlaces, c, Val(r.maximumAppliedRate.value));
    }
  }

  /** The clamped raw rate of a quotation. */
  function ClampedRate(prec: nat, r: Rules, age: int, value: real, adjustment: real): real
    requires prec >= 1 && Val(r.valueBandAmount) > 0.0
  {
    ClampReal(r, RoundedRawRate(prec, r, age, Bands(r, value), adjustment))
  }

  /** The two numbers whose length decides whether a rate comes out. */
  predicate RateCompletes(prec: nat, r: Rules, age: int, value: real, adjustment: real)
    requires prec >= 1 && Val(r.valueBandAmount) > 0.0 && r.rateDecimalPlaces >= 0
  {
    && Fits(10, prec, Bands(r, value))
    && Fits(10, prec, Units(r.rateRoundingMode, r.rateDecimalPlaces, ClampedRate(prec, r, age, value, adjustment)))
  }

  /**
   The rate calculator either returns the clamped sum quantised to the rate scale or, exactly when a number is
   too long for the context, an arithmetic error. Building the percentage never fails.
   */
  lemma RateMeaning(prec: nat, calculationYear: int, adjustment: Decimal, r: Rules, v: Vehicle)
    requires prec >= 1 && Valid(r) && ValidVehicle(v)
    ensures var rate := Rate(prec, calculationYear, adjustment, r, v);
      var age, value, adj := calculationYear - v.year, Val(v.value.amount), Val(adjustment);
      if RateCompletes(prec, r, age, value, adj)
      then rate.Success? && rate.value.exp == 0 - r.rateDecimalPlaces && Val(rate.value)
        == Quantised(r.rateRoundingMode, r.rateDecimalPlaces, ClampedRate(prec, r, age, value, adj))
      else rate == Failure(InvalidOperation)
  {
    hide RawRate, RoundedRawRate, Clamp, ClampReal, Units, Shift, Quantize, Bands;
    RawRateMeaning(prec, calculationYear, adjustment, r, v);
    var raw := RawRate(prec, calculationYear, adjustment, r, v);
    if raw.Success? {
      ClampMeaning(r, raw.value);
      QuantizeRounds(prec, r.rateRoundingMode, r.rateDecimalPlaces, Clamp(r, raw.value));
      QuantisedClampWithin(r, Val(raw.value));
    }
  }

  /** After quantisation, in every mode, the applied rate is inside the configured bounds. */
  lemma RateWithinBounds(prec: nat, calculationYear: int, adjustment: Decimal, r: Rules, v: Vehicle)
    requires prec >= 1 && Valid(r) && ValidVehicle(v)
    ensures var rate := Rate(prec, calculationYear, adjustment, r, v);
      rate.Success? ==>
        && 0.0 <= Val(r.minimumAppliedRate) <= Val(rate.value)
        && (r.maximumAppliedRate.Some? ==> Val(rate.value) <= Val(r.maximumAppliedRate.value))
    ensures Rate(prec, calculationYear, adjustment, r, v) != Failure(PercentageError)
  {
    RateMeaning(prec, calculationYear, adjustment, r, v);
    var bands := Bands(r, Val(v.value.amount));
    QuantisedClampWithin(r, RoundedRawRate(prec, r, calculationYear - v.year, bands, Val(adjustment)));
  }

  // ---------------------------------------------------------------- monotonicity

  lemma RoundedProductMonotone(prec: nat, x: real, x': real, y: real, y': real)
    requires prec >= 1 && x <= x' && y <= y' && ((x == x' && x >= 0.0) || (y == y' && y >= 0.0))
    ensures RoundedProduct(prec, x, y) <= RoundedProduct(prec, x', y')
  {
    hide RoundSig;
    ProductMonotone(x, x', y, y');
    RoundSigMonotone(10, prec, Product(x, y), Product(x', y'));
  }

  lemma ProductMonotone(x: real, x': real, y: real, y': real)
    requires x <= x' && y <= y' && ((x == x' && x >= 0.0) || (y == y' && y >= 0.0))
    ensures Product(x, y) <= Product(x', y')
  {
    if x == x' {
      assert x * (y' - y) >= 0.0;
    } else {
      assert (x' - x) * y >= 0.0;
    }
  }

  lemma RoundedSumMonotone(prec: nat, x: real, x': real, y: real, y': real)
    requires prec >= 1 && x <= x' && y <= y'
    ensures RoundedSum(prec, x, y) <= RoundedSum(prec, x', y')
  {
    hide RoundSig;
    RoundSigMonotone(10, prec, x + y, x' + y');
  }

  lemma RoundedRawRateMonotone(
    prec: nat, r: Rules, age: int, age': int, bands: int, bands': int, adjustment: real, adjustment': real)
    requires prec >= 1 && Valid(r)
    requires age <= age' && bands <= bands' && adjustment <= adjustment'
    ensures RoundedRawRate(prec, r, age, bands, adjustment) <= RoundedRawRate(prec, r, age', bands', adjustment')
  {
    hide Val, RoundedProduct, RoundedSum;
    var a, v, b := Val(r.ageRateIncrement), Val(r.valueRateIncrement), Val(r.baseRate);
    RoundedProductMonotone(prec, age as real, age' as real, a, a);
    RoundedProductMonotone(prec, bands as real, bands' as real, v, v);
    var p, p' := RoundedProduct(prec, age as real, a), RoundedProduct(prec, age' as real, a);
    var q, q' := RoundedProduct(prec, bands as real, v), RoundedProduct(prec, bands' as real, v);
    RoundedSumMonotone(prec, p, p', q, q');
    var s, s' := RoundedSum(prec, p, q), RoundedSum(prec, p', q');
    RoundedSumMonotone(prec, s, s', b, b);
    RoundedSumMonotone(prec, RoundedSum(prec, s, b), RoundedSum(prec, s', b), adjustment, adjustment');
  }

  lemma FloorMonotone(x: real, y: real, d: real)
    requires x <= y && d > 0.0
    ensures (x / d).Floor <= (y / d).Floor
  {
    assert (y - x) / d >= 0.0;
    assert (y - x) / d == y / d - x / d;
  }

  lemma ClampedRateMonotone(
    prec: nat, r: Rules, age: int, age': int, value: real, value': real, adjustment: real, adjustment': real)
    requires prec >= 1 && Valid(r)
    requires age <= age' && 0.0 < value <= value' && adjustment <= adjustment'
    ensures Bands(r, value) <= Bands(r, value')
    ensures 0.0 <= ClampedRate(prec, r, age, value, adjustment) <= ClampedRate(prec, r, age', value', adjustment')
  {
    FloorMonotone(value, value', Val(r.valueBandAmount));
    RoundedRawRateMonotone(
      prec, r, age, age', Bands(r, value), Bands(r, value'), adjustment, adjustment');
  }

  /**
   An older vehicle, a more valuable one or a larger adjustment never has a lower rate, through the floor
   division, the context rounding of every step, the clamp and every rounding mode. If the larger quotation
   gets a rate at all, so does the smaller one.
   */
  lemma RateMonotone(
    prec: nat, r: Rules, year: int, adjustment: Decimal, v: Vehicle, year': int, adjustment': Decimal, v': Vehicle)
    requires prec >= 1 && Valid(r) && ValidVehicle(v) && ValidVehicle(v')
    requires year - v.year <= year' - v'.year
    requires Val(v.value.amount) <= Val(v'.value.amount) && Val(adjustment) <= Val(adjustment')
    ensures var rate, rate' := Rate(prec, year, adjustment, r, v), Rate(prec, year', adjustment', r, v');
      rate'.Success? ==> rate.Success? && Val(rate.value) <= Val(rate'.value)
  {
    hide Val, Rate, RoundedRawRate, ClampReal, Quantised;
    RateMeaning(prec, year, adjustment, r, v);
    RateMeaning(prec, year', adjustment', r, v');
    var age, age' := year - v.year, year' - v'.year;
    var x, x' := Val(v.value.amount), Val(v'.value.amount);
    var g, g' := Val(adjustment), Val(adjustment');
    ClampedRateMonotone(prec, r, age, age', x, x', g, g');
    BandsMeaning(prec, r, v);
    var c, c' := ClampedRate(prec, r, age, x, g), ClampedRate(prec, r, age', x', g');
    QuantisedMonotone(r.rateRoundingMode, r.rateDecimalPlaces, c, c');
    UnitsNonNegative(r.rateRoundingMode, r.rateDecimalPlaces, c);
  }

  lemma UnitsNonNegative(mode: Mode, places: nat, x: real)
    requires x >= 0.0
    ensures Units(mode, places, x) >= 0
    ensures Quantised(mode, places, x) >= 0.0
  {
    ShiftSign(x, places);
    RoundInteger(mode, 0);
    RoundMonotone(mode, 0.0, Shift(10, x, places));
    ShiftSign(Units(mode, places, x) as real, 0 - places);
  }
}

/**
 When a higher rate, or a more valuable vehicle, never has a lower premium. No digits are counted: all roundings of
 the context are included. The condition is on the deductible alone, and it is exact.
 */
module PremiumOrder {
  import opened Wrappers
  import opened Powers
  import opened Rounding
  import opened SignificantDigits
  import opened Decimals
  import opened RatingRules
  import opened Quantisation
  import opened Calculators
  import opened MoneyLaws
  import opened DeductibleThreshold
  import RateLaws
  import SimulationLaws
  import DefaultRules

  ghost predicate Ordered(
    prec: nat, r: Rules, d: Decimal,
    v: Vehicle, rate: Decimal, fee: Decimal, v': Vehicle, rate': Decimal, fee': Decimal)
    requires prec >= 1 && Valid(r)
  {
    var p, p' := Premium(prec, rate, fee, d, r, v), Premium(prec, rate', fee', d, r, v');
    p.Success? && p'.Success? ==> Val(p.value) <= Val(p'.value)
  }

  /** The premiums are ordered when what remains after the deductible is. */
  lemma OrderedFromRemainder(
    prec: nat, r: Rules, d: Decimal,
    v: Vehicle, rate: Decimal, fee: Decimal, v': Vehicle, rate': Decimal, fee': Decimal)
    requires prec >= 1 && Valid(r) && Val(fee) <= Val(fee')
    requires AfterDeductible(prec, RoundedProduct(prec, Val(v.value.amount), Val(rate)), Val(d))
          <= AfterDeductible(prec, RoundedProduct(prec, Val(v'.value.amount), Val(rate')), Val(d))
    ensures Ordered(prec, r, d, v, rate, fee, v', rate', fee')
  {
    hide RoundSig, RoundedProduct, RoundedSum, AfterDeductible, Premium, Val, Checked, Units;
    PremiumMeaning(prec, rate, fee, d, r, v);
    PremiumMeaning(prec, rate', fee', d, r, v');
    var left := AfterDeductible(prec, RoundedProduct(prec, Val(v.value.amount), Val(rate)), Val(d));
    var left' := AfterDeductible(prec, RoundedProduct(prec, Val(v'.value.amount), Val(rate')), Val(d));
    RateLaws.RoundedSumMonotone(prec, left, left', Val(fee), Val(fee'));
    QuantisedOrder(prec, r.moneyRoundingMode, r.moneyDecimalPlaces,
      RoundedPremium(prec, Val(v.value.amount), Val(rate), Val(fee), Val(d)),
      RoundedPremium(prec, Val(v'.value.amount), Val(rate'), Val(fee'), Val(d)));
  }

  /** A larger value or factor has a larger base, and both are numbers of the context. */
  lemma BasesOrdered(prec: nat, value: real, factor: real, value': real, factor': real)
    requires prec >= 1 && 0.0 <= value <= value' && 0.0 <= factor <= factor'
    ensures 0.0 <= RoundedProduct(prec, value, factor) <= RoundedProduct(prec, value', factor')
    ensures Representable(10, prec, RoundedProduct(prec, value, factor))
    ensures Representable(10, prec, RoundedProduct(prec, value', factor'))
  {
    hide RoundSig, RoundedProduct, Representable;
    ProductSign(prec, value, factor);
    RateLaws.RoundedProductMonotone(prec, value, value', factor, factor);
    RateLaws.RoundedProductMonotone(prec, value', value', factor, factor');
    ProductRepresentable(prec, value, factor);
    ProductRepresentable(prec, value', factor');
  }

  /** Up to the threshold a higher rate, value or fee never lowers the premium. */
  lemma PremiumFollowsRate(
    prec: nat, r: Rules, d: Decimal,
    v: Vehicle, rate: Decimal, fee: Decimal, v': Vehicle, rate': Decimal, fee': Decimal)
    requires prec >= 2 && Valid(r) && ValidVehicle(v) && Val(v.value.amount) <= Val(v'.value.amount)
    requires 0.0 <= Val(rate) <= Val(rate') && Val(fee) <= Val(fee') && 0.0 <= Val(d) <= Threshold(prec)
    ensures Ordered(prec, r, d, v, rate, fee, v', rate', fee')
  {
    hide RoundSig, RoundedProduct, Representable, AfterDeductible, Val, Threshold, Ordered;
    BasesOrdered(prec, Val(v.value.amount), Val(rate), Val(v'.value.amount), Val(rate'));
    OrderKept(prec, RoundedProduct(prec, Val(v.value.amount), Val(rate)),
              RoundedProduct(prec, Val(v'.value.amount), Val(rate')), Val(d));
    OrderedFromRemainder(prec, r, d, v, rate, fee, v', rate', fee');
  }

  /** In particular without a deductible, at any precision at all. */
  lemma PremiumFollowsRateWithoutDeductible(
    prec: nat, r: Rules, d: Decimal, v: Vehicle, rate: Decimal, rate': Decimal, fee: Decimal)
    requires prec >= 1 && Valid(r) && ValidVehicle(v) && 0.0 <= Val(rate) <= Val(rate') && Val(d) == 0.0
    ensures Ordered(prec, r, d, v, rate, fee, v, rate', fee)
  {
    hide RoundSig, RoundedProduct, Representable, Val, Ordered;
    var value := Val(v.value.amount);
    BasesOrdered(prec, value, Val(rate), value, Val(rate'));
    var b, b' := RoundedProduct(prec, value, Val(rate)), RoundedProduct(prec, value, Val(rate'));
    NoDiscount(prec, b, b', 0.0);
    RoundSigMonotone(10, prec, b - RoundedProduct(prec, b, 0.0), b' - RoundedProduct(prec, b', 0.0));
    OrderedFromRemainder(prec, r, d, v, rate, fee, v, rate', fee);
  }

  /** A premium depends on the rules only through the money scale and mode. */
  lemma PremiumOfRules(prec: nat, r: Rules, r': Rules, rate: Decimal, fee: Decimal, d: Decimal, v: Vehicle)
    requires prec >= 1 && r.moneyDecimalPlaces >= 0
    requires r.moneyDecimalPlaces == r'.moneyDecimalPlaces && r.moneyRoundingMode == r'.moneyRoundingMode
    ensures Premium(prec, rate, fee, d, r, v) == Premium(prec, rate, fee, d, r', v)
  {
    hide RawPremium, Quantize;
  }

  /** Without a deductible, rules that give a quotation a higher rate never give it a lower premium. */
  lemma SteeperRulesNeverCheaper(prec: nat, r: Rules, r': Rules, q: Quotation)
    requires prec >= 1 && Valid(r) && Valid(r') && ValidVehicle(q.vehicle) && Val(q.deductible) == 0.0
    requires r.moneyDecimalPlaces == r'.moneyDecimalPlaces && r.moneyRoundingMode == r'.moneyRoundingMode
    requires Simulate(prec, r, q).Success? && Simulate(prec, r', q).Success?
    requires Val(Simulate(prec, r, q).value.appliedRate) <= Val(Simulate(prec, r', q).value.appliedRate)
    ensures Val(Simulate(prec, r, q).value.premium) <= Val(Simulate(prec, r', q).value.premium)
  {
    hide Val, Simulate, Rate, Premium, PolicyLimit, Guard;
    SimulationLaws.SimulateParts(prec, r, q);
    SimulationLaws.SimulateParts(prec, r', q);
    var f, f' := Simulate(prec, r, q).value, Simulate(prec, r', q).value;
    PremiumOfRules(prec, r, r', f'.appliedRate, q.brokerFee.amount, q.deductible, q.vehicle);
    NonNegativeRate(prec, r, q);
    PremiumFollowsRateWithoutDeductible(
      prec, r, q.deductible, q.vehicle, f.appliedRate, f'.appliedRate, q.brokerFee.amount);
  }

  // ---------------------------------------------------------------- above the threshold

  /** The first neighbouring bases for which the order is lost, in units of 10^-p. */
  lemma LastBadDrops(p: nat, d: real) returns (c: int)
    requires p >= 2 && Threshold(p) < d && Product(LastBad(p) as real, d) < PowNat(10, p - 1) as real - 0.05
    ensures var n, power := LastBad(p), PowNat(10, p - 1);
      && AfterDeductible(p, Shift(10, n as real, 1 - p), d) == Shift(10, c as real, 0 - p)
      && AfterDeductible(p, Shift(10, (n + 1) as real, 1 - p), d) == Shift(10, (10 * (n - power)) as real, 0 - p)
      && 0 <= 10 * (n - power) < c < PowNat(10, p)
  {
    hide Shift, PowNat, Threshold, RoundedProduct, Round;
    BigEnough(p);
    ThresholdMeaning(p);
    var n, power := LastBad(p), PowNat(10, p - 1);
    DiscountRange(p, d);
    var low := LowDiscount(p, d);
    HighDiscount(p, d);
    c := 10 * n - low;
    Difference(p, n, low);
    Difference(p, n + 1, 10 * (power + 1));
  }

  /** The two discounts, in units of the larger: below N - 0.05 and above N + 0.5, for a deductible below one. */
  lemma DiscountRange(p: nat, d: real)
    requires p >= 2 && Threshold(p) < d && Product(LastBad(p) as real, d) < PowNat(10, p - 1) as real - 0.05
    ensures var n, power := LastBad(p), PowNat(10, p - 1) as real;
      && 0.55 < d < 1.0
      && power - 0.5 < Product(n as real, d) < power - 0.05
      && power + 0.5 < Product((n + 1) as real, d) < power + 1.0
  {
    hide PowNat, Threshold;
    BigEnough(p);
    ThresholdMeaning(p);
    var n, power := LastBad(p) as real, PowNat(10, p - 1) as real;
    NextProduct(n, d);
    StrictlyMore(n + 1.0, Threshold(p), d);
    BelowOne(n, d, power);
  }

  lemma StrictlyMore(x: real, a: real, b: real)
    requires x > 0.0 && a < b
    ensures Product(x, a) < Product(x, b)
  {
    assert x * (b - a) > 0.0;
  }

  lemma BelowOne(n: real, d: real, power: real)
    requires n >= power > 0.0 && Product(n, d) < power
    ensures d < 1.0
  {
    NonNegative(n, d - 1.0);
    assert n * (d - 1.0) == Product(n, d) - n;
  }

  lemma NonNegative(x: real, y: real)
    ensures x >= 0.0 && y >= 0.0 ==> x * y >= 0.0
  {
  }

  /** The lower discount, rounded to units of 10^-p. */
  lemma LowDiscount(p: nat, d: real) returns (low: int)
    requires p >= 2 && 0.0 < d
    requires var power := PowNat(10, p - 1) as real; power - 0.5 < Product(LastBad(p) as real, d) < power - 0.05
    ensures RoundedProduct(p, Shift(10, LastBad(p) as real, 1 - p), d) == Shift(10, low as real, 0 - p)
    ensures 10 * PowNat(10, p - 1) - 6 < low < 10 * PowNat(10, p - 1)
  {
    hide Shift, PowNat, Scale, Round;
    BigEnough(p);
    var b := Shift(10, LastBad(p) as real, 1 - p);
    var x := Product(b, d);
    ShiftBack(10, LastBad(p) as real, 1 - p);
    InScale(b, d, -(1 - p));
    TenTimes(x, 1 - p);
    assert -(1 - p - 1) == p && 1 - p - 1 == 0 - p && 0 - (0 - p) == p;
    PositiveBack(x, p);
    JustBelow(p, x, 1 - p);
    low := Round(HalfEven, Shift(10, x, p));
    RoundError(HalfEven, Shift(10, x, p));
  }

  lemma PositiveBack(x: real, k: int)
    requires Shift(10, x, k) > 0.0
    ensures x > 0.0
  {
    ShiftSign(x, k);
  }

  /** The higher discount, rounded to units of 10^(1-p). */
  lemma HighDiscount(p: nat, d: real)
    requires p >= 2 && 0.0 < d
    requires var power := PowNat(10, p - 1) as real; power + 0.5 < Product((LastBad(p) + 1) as real, d) < power + 1.0
    ensures RoundedProduct(p, Shift(10, (LastBad(p) + 1) as real, 1 - p), d)
         == Shift(10, (10 * (PowNat(10, p - 1) + 1)) as real, 0 - p)
  {
    hide Shift, PowNat, Scale, Round;
    BigEnough(p);
    var b, power := Shift(10, (LastBad(p) + 1) as real, 1 - p), PowNat(10, p - 1);
    var x := Product(b, d);
    ShiftBack(10, (LastBad(p) + 1) as real, 1 - p);
    InScale(b, d, -(1 - p));
    assert -(2 - p - 1) == -(1 - p) && 2 - p - 1 == 1 - p;
    PositiveBack(x, -(1 - p));
    JustBelow(p, x, 2 - p);
    RoundsToEven(power, Shift(10, x, -(1 - p)));
    TenUnits(power + 1, p);
  }

  lemma TenUnits(n: int, p: nat)
    ensures Shift(10, n as real, 1 - p) == Shift(10, (10 * n) as real, 0 - p)
  {
    ShiftStep(10, n as real, 0 - p);
    assert 0 - p + 1 == 1 - p && Times(10, n as real) == (10 * n) as real;
  }

  /** What remains of n units of 10^(1-p) after low units of 10^-p is a number of the context. */
  lemma Difference(p: nat, n: int, low: int)
    requires p >= 2 && 0 <= 10 * n - low < PowNat(10, p)
    ensures RoundedDifference(p, Shift(10, n as real, 1 - p), Shift(10, low as real, 0 - p))
         == Shift(10, (10 * n - low) as real, 0 - p)
  {
    hide Shift, PowNat, RoundSig;
    TenUnits(n, p);
    ShiftLinear(10, (10 * n) as real, low as real, 0 - p);
    assert (10 * n - low) as real == (10 * n) as real - low as real;
    assert Writes(10, p, Shift(10, (10 * n - low) as real, 0 - p), 10 * n - low, 0 - p);
    RoundSigFixes(10, p, Shift(10, (10 * n - low) as real, 0 - p));
  }

  // ---------------------------------------------------------------- the exact condition

  /** In every premium with a deductible up to a limit, a higher rate is never cheaper. */
  ghost predicate PremiumsFollowRates(prec: nat, limit: real)
    requires prec >= 1
  {
    forall r: Rules, d: Decimal, v: Vehicle, rate: Decimal, rate': Decimal, fee: Decimal |
      Valid(r) && ValidVehicle(v) && 0.0 <= Val(rate) <= Val(rate') && 0.0 <= Val(d) <= limit ::
      Ordered(prec, r, d, v, rate, fee, v, rate', fee)
  }

  /** There is a decimal between any two numbers. */
  lemma DecimalBetween(x: real, y: real) returns (d: Decimal)
    requires x < y
    ensures x < Val(d) < y
  {
    hide Shift;
    var k: nat := if (1.0 / (y - x)).Floor < 0 then 0 else (1.0 / (y - x)).Floor + 1;
    PowAboveExponent(k);
    PowIsNat(10, k);
    Steep(y - x, k);
    ShiftLinear(10, y, x, k);
    ShiftScale(10, y - x, 1.0, k);
    assert Product(y - x, 1.0) == y - x;
    var c := Shift(10, x, k).Floor + 1;
    d := Dec(c, 0 - k);
    ShiftBack(10, x, k);
    ShiftBack(10, y, k);
    ShiftOrder(10, Shift(10, x, k), c as real, 0 - k);
    ShiftOrder(10, c as real, Shift(10, y, k), 0 - k);
  }

  lemma Steep(gap: real, k: nat)
    requires gap > 0.0 && k as real >= (1.0 / gap) && PowNat(10, k) > k && Pow(10, k) == PowNat(10, k) as real
    ensures Product(gap, Pow(10, k)) > 1.0
  {
    hide Product, Pow, PowNat;
    Quotient(1.0, gap);
    StrictlyMore(gap, 1.0 / gap, Pow(10, k));
  }

  lemma {:induction false} PowAboveExponent(k: nat)
    ensures PowNat(10, k) > k
  {
    if k > 0 {
      PowAboveExponent(k - 1);
    }
  }

  const ONE_DOLLAR := Vehicle("Make", "Model", Money(Dec(1, 0), "USD"), 2026)

  /** The shipped rules with p decimal places of money. */
  function FineRules(p: nat): (r: Rules)
    ensures Valid(r) && r.moneyDecimalPlaces == p
  {
    DefaultRules.DefaultRulesValid();
    DefaultRules.DEFAULT_RULES.(moneyDecimalPlaces := p)
  }

  /** A vehicle worth one, no fee, and money quantised to p places: the premium is what remains. */
  lemma PremiumIsRemainder(p: nat, n: int, d: Decimal, c: int)
    requires p >= 2 && 0 <= n < PowNat(10, p) && 0 <= c < PowNat(10, p)
    requires AfterDeductible(p, Shift(10, n as real, 1 - p), Val(d)) == Shift(10, c as real, 0 - p)
    ensures Premium(p, Dec(n, 1 - p), ZERO, d, FineRules(p), ONE_DOLLAR) == Success(Dec(c, 0 - p))
  {
    hide Shift, PowNat, RoundSig, Premium, Round, FineRules, AfterDeductible, Valid;
    var r, b, left := FineRules(p), Shift(10, n as real, 1 - p), Shift(10, c as real, 0 - p);
    PremiumMeaning(p, Dec(n, 1 - p), ZERO, d, r, ONE_DOLLAR);
    RateLaws.IntegerVal(1);
    RateLaws.IntegerVal(0);
    assert Product(1.0, b) == b;
    assert Writes(10, p, b, n, 1 - p);
    RoundSigFixes(10, p, b);
    assert Writes(10, p, left, c, 0 - p);
    RoundSigFixes(10, p, left);
    assert left + 0.0 == left;
    ShiftBack(10, c as real, 0 - p);
    assert 0 - (0 - p) == p;
    RoundInteger(r.moneyRoundingMode, c);
  }

  /** Just above the threshold two rates are in the wrong order, whatever the limit on the deductible. */
  lemma OrderLost(p: nat, limit: real)
    requires p >= 2 && limit > Threshold(p)
    ensures !PremiumsFollowRates(p, limit)
  {
    hide Shift, PowNat, RoundSig, Premium, FineRules, AfterDeductible, Valid, Threshold;
    BigEnough(p);
    ThresholdMeaning(p);
    var n, power := LastBad(p), PowNat(10, p - 1);
    var cap := (power as real - 0.05) / n as real;
    Quotient(power as real - 0.05, n as real);
    AboveQuotient(n as real, Threshold(p), cap);
    var d := DecimalBetween(Threshold(p), if cap < limit then cap else limit);
    StrictlyMore(n as real, Val(d), cap);
    var c := LastBadDrops(p, Val(d));
    PremiumIsRemainder(p, n, d, c);
    PremiumIsRemainder(p, n + 1, d, 10 * (n - power));
    RatesAndPremiums(p, n, c, 10 * (n - power));
    DollarVehicle();
    assert !Ordered(p, FineRules(p), d, ONE_DOLLAR, Dec(n, 1 - p), ZERO, ONE_DOLLAR, Dec(n + 1, 1 - p), ZERO);
  }

  lemma AboveQuotient(n: real, t: real, cap: real)
    requires n > 0.0 && Product(n, t) < Product(n, cap)
    ensures t < cap
  {
    NonNegative(n, t - cap);
    assert n * (t - cap) == Product(n, t) - Product(n, cap);
  }

  lemma DollarVehicle()
    ensures ValidVehicle(ONE_DOLLAR)
  {
  }

  lemma RatesAndPremiums(p: nat, n: int, c: int, c': int)
    requires 0 <= n && c' < c
    ensures 0.0 <= Val(Dec(n, 1 - p)) <= Val(Dec(n + 1, 1 - p)) && Val(Dec(c', 0 - p)) < Val(Dec(c, 0 - p))
  {
    ShiftSign(n as real, 1 - p);
    ShiftOrder(10, n as real, (n + 1) as real, 1 - p);
    ShiftOrder(10, c' as real, c as real, 0 - p);
  }

  /**
   A higher rate is never cheaper, in all premiums with a deductible up to a limit, exactly when the limit is within
   the threshold.
   */
  lemma PremiumThreshold(p: nat, limit: real)
    requires p >= 2
    ensures PremiumsFollowRates(p, limit) <==> limit <= Threshold(p)
  {
    hide Val, Threshold, Ordered, Valid, ValidVehicle;
    if limit > Threshold(p) {
      OrderLost(p, limit);
    } else {
      forall r: Rules, d: Decimal, v: Vehicle, rate: Decimal, rate': Decimal, fee: Decimal |
        Valid(r) && ValidVehicle(v) && 0.0 <= Val(rate) <= Val(rate') && 0.0 <= Val(d) <= limit
        ensures Ordered(p, r, d, v, rate, fee, v, rate', fee)
      {
        PremiumFollowsRate(p, r, d, v, rate, fee, v, rate', fee);
      }
    }
  }

  // ---------------------------------------------------------------- the whole quotation

  /** Both limit amounts follow the vehicle value, the second one up to the threshold. */
  lemma LimitsFollowValue(prec: nat, r: Rules, d: Decimal, v: Vehicle, v': Vehicle)
    requires prec >= 2 && Valid(r) && ValidVehicle(v) && Val(v.value.amount) <= Val(v'.value.amount)
    requires 0.0 <= Val(d) <= Threshold(prec)
    ensures var l, l' := PolicyLimit(prec, d, r, v), PolicyLimit(prec, d, r, v');
      l.Success? && l'.Success? ==>
        && Val(l.value.deductibleValue) <= Val(l'.value.deductibleValue)
        && Val(l.value.policyLimit) <= Val(l'.value.policyLimit)
  {
    hide RoundSig, RoundedProduct, Representable, AfterDeductible, Val, Threshold, PolicyLimit, Checked, Units;
    var b, b' := RoundedBaseLimit(prec, r, Val(v.value.amount)), RoundedBaseLimit(prec, r, Val(v'.value.amount));
    PolicyLimitMeaning(prec, d, r, v);
    PolicyLimitMeaning(prec, d, r, v');
    BasesOrdered(prec, Val(v.value.amount), Val(r.coveragePercentage),
                 Val(v'.value.amount), Val(r.coveragePercentage));
    OrderKept(prec, b, b', Val(d));
    RateLaws.RoundedProductMonotone(prec, b, b', Val(d), Val(d));
    QuantisedOrder(prec, r.moneyRoundingMode, r.moneyDecimalPlaces,
      RoundedProduct(prec, b, Val(d)), RoundedProduct(prec, b', Val(d)));
    QuantisedOrder(prec, r.moneyRoundingMode, r.moneyDecimalPlaces,
      AfterDeductible(prec, b, Val(d)), AfterDeductible(prec, b', Val(d)));
  }

  /** The second quotation differs from the first by an older or more valuable vehicle, or more fee or adjustment. */
  ghost predicate NoLess(q: Quotation, q': Quotation) {
    && q.calculationYear - q.vehicle.year <= q'.calculationYear - q'.vehicle.year
    && Val(q.vehicle.value.amount) <= Val(q'.vehicle.value.amount)
    && Val(q.brokerFee.amount) <= Val(q'.brokerFee.amount) && Val(q.adjustment) <= Val(q'.adjustment)
    && q.deductible == q'.deductible
  }

  /**
   Up to the threshold the whole quotation is monotone: rate, premium, deductible amount and policy limit, through
   the quantised rate that is fed into the premium.
   */
  lemma QuotationMonotone(prec: nat, r: Rules, q: Quotation, q': Quotation)
    requires prec >= 2 && Valid(r) && ValidVehicle(q.vehicle) && ValidVehicle(q'.vehicle) && NoLess(q, q')
    requires Val(q.deductible) <= Threshold(prec)
    requires Simulate(prec, r, q).Success? && Simulate(prec, r, q').Success?
    ensures var f, f' := Simulate(prec, r, q).value, Simulate(prec, r, q').value;
      && Val(f.appliedRate) <= Val(f'.appliedRate) && Val(f.premium) <= Val(f'.premium)
      && Val(f.limits.deductibleValue) <= Val(f'.limits.deductibleValue)
      && Val(f.limits.policyLimit) <= Val(f'.limits.policyLimit)
  {
    hide Val, Threshold, Simulate, Rate, Premium, PolicyLimit, Guard;
    SimulationLaws.SimulateParts(prec, r, q);
    SimulationLaws.SimulateParts(prec, r, q');
    SimulationLaws.GuardMeaning(r, q);
    var f, f' := Simulate(prec, r, q).value, Simulate(prec, r, q').value;
    RateLaws.RateMonotone(prec, r, q.calculationYear, q.adjustment, q.vehicle,
                          q'.calculationYear, q'.adjustment, q'.vehicle);
    NonNegativeRate(prec, r, q);
    PremiumFollowsRate(prec, r, q.deductible, q.vehicle, f.appliedRate, q.brokerFee.amount,
                       q'.vehicle, f'.appliedRate, q'.brokerFee.amount);
    LimitsFollowValue(prec, r, q.deductible, q.vehicle, q'.vehicle);
  }

  lemma NonNegativeRate(prec: nat, r: Rules, q: Quotation)
    requires prec >= 1 && Valid(r) && ValidVehicle(q.vehicle)
    ensures var rate := Rate(prec, q.calculationYear, q.adjustment, r, q.vehicle);
      rate.Success? ==> Val(rate.value) >= 0.0
  {
    hide Val, Rate;
    RateLaws.RateWithinBounds(prec, q.calculationYear, q.adjustment, r, q.vehicle);
  }
}

/** What the premium and the policy limit promise with the rounding of every step taken into account. */
module MoneyLaws {
  import opened Wrappers
  import opened Errors
  import opened Powers
  import opened Rounding
  import opened SignificantDigits
  import opened Decimals
  import opened RatingRules
  import opened Quantisation
  import opened Calculators
  import RateLaws

  /** base - base * deductible, with one rounding after each operation. */
  function AfterDeductible(prec: nat, base: real, deductible: real): real
    requires prec >= 1
  {
    RoundedDifference(prec, base, RoundedProduct(prec, base, deductible))
  }

  function RoundedPremium(prec: nat, value: real, rate: real, fee: real, deductible: real): real
    requires prec >= 1
  {
    RoundedSum(prec, AfterDeductible(prec, RoundedProduct(prec, value, rate), deductible), fee)
  }

  lemma RawPremiumMeaning(prec: nat, rate: Decimal, fee: Decimal, deductible: Decimal, v: Vehicle)
    requires prec >= 1
    ensures Val(RawPremium(prec, rate, fee, deductible, v))
         == RoundedPremium(prec, Val(v.value.amount), Val(rate), Val(fee), Val(deductible))
  {
    hide Val, Mul, Sub, Add, RoundedProduct, RoundedSum, RoundedDifference;
    MulRounds(prec, v.value.amount, rate);
    var base := Mul(prec, v.value.amount, rate);
    MulRounds(prec, base, deductible);
    var discount := Mul(prec, base, deductible);
    SubRounds(prec, base, discount);
    AddRounds(prec, Sub(prec, base, discount), fee);
  }

  lemma ProductRepresentable(prec: nat, x: real, y: real)
    requires prec >= 1
    ensures Representable(10, prec, RoundedProduct(prec, x, y))
  {
    RoundSigRepresentable(10, prec, Product(x, y));
  }

  lemma ZeroRepresentable(prec: nat)
    ensures Representable(10, prec, 0.0)
  {
    assert Writes(10, prec, 0.0, 0, 0);
  }

  lemma ProductSign(prec: nat, x: real, y: real)
    requires prec >= 1 && x >= 0.0 && y >= 0.0
    ensures RoundedProduct(prec, x, y) >= 0.0
  {
    RoundSigSign(10, prec, Product(x, y));
    hide RoundSig;
  }

  /**
   The discount of a representable base never exceeds the base, even after rounding, because the base itself
   is one of the numbers the discount can be rounded to. So what remains is between zero and the base.
   */
  lemma DiscountWithinBase(prec: nat, base: real, deductible: real)
    requires prec >= 1 && Representable(10, prec, base) && base >= 0.0 && 0.0 <= deductible <= 1.0
    ensures 0.0 <= RoundedProduct(prec, base, deductible) <= base
    ensures 0.0 <= AfterDeductible(prec, base, deductible) <= base
  {
    hide RoundSig, RoundedProduct, RoundedDifference;
    ProductSign(prec, base, deductible);
    CappedProduct(prec, base, deductible);
    var discount := RoundedProduct(prec, base, deductible);
    CappedDifference(prec, base, discount);
  }

  lemma CappedProduct(prec: nat, base: real, deductible: real)
    requires prec >= 1 && Representable(10, prec, base) && base >= 0.0 && deductible <= 1.0
    ensures RoundedProduct(prec, base, deductible) <= base
  {
    hide RoundSig;
    RateLaws.ProductMonotone(base, base, deductible, 1.0);
    RoundSigCap(10, prec, Product(base, deductible), base);
  }

  lemma CappedDifference(prec: nat, base: real, discount: real)
    requires prec >= 1 && Representable(10, prec, base) && 0.0 <= discount <= base
    ensures 0.0 <= RoundedDifference(prec, base, discount) <= base
  {
    hide RoundSig;
    RoundSigCap(10, prec, base - discount, base);
    RoundSigSign(10, prec, base - discount);
  }

  /** A larger deductible never leaves more. */
  lemma AfterDeductibleAntitone(prec: nat, base: real, d: real, d': real)
    requires prec >= 1 && base >= 0.0 && d <= d'
    ensures RoundedProduct(prec, base, d) <= RoundedProduct(prec, base, d')
    ensures AfterDeductible(prec, base, d) >= AfterDeductible(prec, base, d')
  {
    hide RoundSig, RoundedProduct;
    RateLaws.RoundedProductMonotone(prec, base, base, d, d');
    RoundSigMonotone(10, prec, base - RoundedProduct(prec, base, d'), base - RoundedProduct(prec, base, d));
  }

  /** At a deductible of one the discount is the whole base, and nothing remains. */
  lemma FullDeductible(prec: nat, base: real)
    requires prec >= 1 && Representable(10, prec, base)
    ensures RoundedProduct(prec, base, 1.0) == base
    ensures AfterDeductible(prec, base, 1.0) == 0.0
  {
    RoundSigFixes(10, prec, base);
    assert Product(base, 1.0) == base;
    assert RoundSig(10, prec, 0.0) == 0.0;
  }

  // ---------------------------------------------------------------- the premium

  /** The premium is the rounded formula, quantised, unless its coefficient is too long for the context. */
  lemma PremiumMeaning(prec: nat, rate: Decimal, fee: Decimal, deductible: Decimal, r: Rules, v: Vehicle)
    requires prec >= 1 && Valid(r)
    ensures var x := RoundedPremium(prec, Val(v.value.amount), Val(rate), Val(fee), Val(deductible));
      Premium(prec, rate, fee, deductible, r, v)
        == Checked(prec, Units(r.moneyRoundingMode, r.moneyDecimalPlaces, x), 0 - r.moneyDecimalPlaces)
  {
    RawPremiumMeaning(prec, rate, fee, deductible, v);
    QuantizeRounds(prec, r.moneyRoundingMode, r.moneyDecimalPlaces, RawPremium(prec, rate, fee, deductible, v));
  }

  lemma RoundedPremiumNonNegative(prec: nat, value: real, rate: real, fee: real, deductible: real)
    requires prec >= 1 && value >= 0.0 && rate >= 0.0 && fee >= 0.0 && 0.0 <= deductible <= 1.0
    ensures RoundedPremium(prec, value, rate, fee, deductible) >= Rounded(prec, fee) >= 0.0
  {
    hide RoundSig, RoundedProduct, AfterDeductible;
    var base := RoundedProduct(prec, value, rate);
    ProductSign(prec, value, rate);
    ProductRepresentable(prec, value, rate);
    DiscountWithinBase(prec, base, deductible);
    RoundSigMonotone(10, prec, fee, AfterDeductible(prec, base, deductible) + fee);
    RoundSigSign(10, prec, fee);
  }

  lemma QuantisedOrder(prec: nat, mode: Mode, places: nat, x: real, y: real)
    requires x <= y
    ensures
      var a := Checked(prec, Units(mode, places, x), 0 - places);
      var b := Checked(prec, Units(mode, places, y), 0 - places);
      a.Success? && b.Success? ==> Val(a.value) <= Val(b.value)
  {
    hide Units;
    QuantisedMonotone(mode, places, x, y);
  }

  /**
   A higher fee never lowers the premium and a higher deductible never raises it, with every intermediate
   rounding included and no bound on the number of digits.
   */
  lemma PremiumMonotone(
    prec: nat, rate: Decimal, fee: Decimal, fee': Decimal, d: Decimal, d': Decimal, r: Rules, v: Vehicle)
    requires prec >= 1 && Valid(r) && ValidVehicle(v) && Val(rate) >= 0.0
    requires Val(fee) <= Val(fee') && Val(d) >= Val(d')
    ensures var p, p' := Premium(prec, rate, fee, d, r, v), Premium(prec, rate, fee', d', r, v);
      p.Success? && p'.Success? ==> Val(p.value) <= Val(p'.value)
  {
    hide RoundSig, RoundedProduct, RoundedSum, AfterDeductible, Premium, Val, Checked;
    PremiumMeaning(prec, rate, fee, d, r, v);
    PremiumMeaning(prec, rate, fee', d', r, v);
    var value := Val(v.value.amount);
    var base := RoundedProduct(prec, value, Val(rate));
    ProductSign(prec, value, Val(rate));
    AfterDeductibleAntitone(prec, base, Val(d'), Val(d));
    RateLaws.RoundedSumMonotone(
      prec, AfterDeductible(prec, base, Val(d)), AfterDeductible(prec, base, Val(d')), Val(fee), Val(fee'));
    QuantisedOrder(prec, r.moneyRoundingMode, r.moneyDecimalPlaces,
      RoundedPremium(prec, value, Val(rate), Val(fee), Val(d)),
      RoundedPremium(prec, value, Val(rate), Val(fee'), Val(d')));
  }

  // ---------------------------------------------------------------- the policy limit

  function RoundedBaseLimit(prec: nat, r: Rules, value: real): real
    requires prec >= 1
  {
    RoundedProduct(prec, value, Val(r.coveragePercentage))
  }

  /** Both amounts are the rounded formulas quantised separately; either being too long refuses both. */
  lemma PolicyLimitMeaning(prec: nat, deductible: Decimal, r: Rules, v: Vehicle)
    requires prec >= 1 && Valid(r)
    ensures var base, d := RoundedBaseLimit(prec, r, Val(v.value.amount)), Val(deductible);
      var mode, places := r.moneyRoundingMode, r.moneyDecimalPlaces;
      var kept := Checked(prec, Units(mode, places, RoundedProduct(prec, base, d)), 0 - places);
      var limit := Checked(prec, Units(mode, places, AfterDeductible(prec, base, d)), 0 - places);
      PolicyLimit(prec, deductible, r, v)
        == if kept.Success? && limit.Success? then Success(Limits(kept.value, limit.value))
           else Failure(InvalidOperation)
  {
    hide Val, Mul, Sub, RoundedProduct, RoundedDifference, Units, Quantize;
    MulRounds(prec, v.value.amount, r.coveragePercentage);
    var base := Mul(prec, v.value.amount, r.coveragePercentage);
    MulRounds(prec, base, deductible);
    var amount := Mul(prec, base, deductible);
    SubRounds(prec, base, amount);
    QuantizeRounds(prec, r.moneyRoundingMode, r.moneyDecimalPlaces, amount);
    QuantizeRounds(prec, r.moneyRoundingMode, r.moneyDecimalPlaces, Sub(prec, base, amount));
  }

  lemma BaseLimit(prec: nat, r: Rules, v: Vehicle)
    requires prec >= 1 && Valid(r) && ValidVehicle(v)
    ensures RoundedBaseLimit(prec, r, Val(v.value.amount)) >= 0.0
    ensures Representable(10, prec, RoundedBaseLimit(prec, r, Val(v.value.amount)))
  {
    hide RoundSig, RoundedProduct;
    ProductSign(prec, Val(v.value.amount), Val(r.coveragePercentage));
    ProductRepresentable(prec, Val(v.value.amount), Val(r.coveragePercentage));
  }

  /** A higher deductible never lowers the deductible amount and never raises the policy limit. */
  lemma PolicyLimitMonotone(prec: nat, d: Decimal, d': Decimal, r: Rules, v: Vehicle)
    requires prec >= 1 && Valid(r) && ValidVehicle(v) && Val(d) <= Val(d')
    ensures var l, l' := PolicyLimit(prec, d, r, v), PolicyLimit(prec, d', r, v);
      l.Success? && l'.Success? ==>
        Val(l.value.deductibleValue) <= Val(l'.value.deductibleValue)
        && Val(l.value.policyLimit) >= Val(l'.value.policyLimit)
  {
    hide RoundSig, RoundedProduct, AfterDeductible, PolicyLimit, Val, Units, RoundedBaseLimit;
    var base := RoundedBaseLimit(prec, r, Val(v.value.amount));
    PolicyLimitMeaning(prec, d, r, v);
    PolicyLimitMeaning(prec, d', r, v);
    BaseLimit(prec, r, v);
    AfterDeductibleAntitone(prec, base, Val(d), Val(d'));
    QuantisedOrder(prec, r.moneyRoundingMode, r.moneyDecimalPlaces,
      RoundedProduct(prec, base, Val(d)), RoundedProduct(prec, base, Val(d')));
    QuantisedOrder(prec, r.moneyRoundingMode, r.moneyDecimalPlaces,
      AfterDeductible(prec, base, Val(d')), AfterDeductible(prec, base, Val(d)));
  }
}

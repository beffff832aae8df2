/**
 From a request to its answer, to the row and the outbox record stored for it, and to what is read back later: what
 they say, field by field, in terms of the request, the provider's word and the rules.
 */
module RequestLaws {
  import opened Wrappers
  import opened Errors
  import opened Powers
  import opened Rounding
  import opened SignificantDigits
  import opened Decimals
  import opened DecimalText
  import opened RatingRules
  import opened Quantisation
  import opened Calculators
  import opened RateLaws
  import opened MoneyLaws
  import opened ExactArithmetic
  import opened Timestamps
  import opened Persistence
  import opened DefaultRules
  import opened Requests
  import opened Saving
  import opened UseCases
  import OutboxProtocol
  import SimulationLaws
  import ErrorBounds

  // ---------------------------------------------------------------- the answer

  /** The four figures of a request, each rounded as the calculators round and quantised at its own scale. */
  ghost predicate FiguresOf(prec: nat, r: Rules, request: Request, adjustment: real, age: int, o: Output)
    requires prec >= 1 && Valid(r)
  {
    var value, fee, d := Val(request.value), Val(request.brokerFee), Val(request.deductible);
    var mode, places := r.moneyRoundingMode, r.moneyDecimalPlaces;
    && Val(o.appliedRate)
       == Quantised(r.rateRoundingMode, r.rateDecimalPlaces, ClampedRate(prec, r, age, value, adjustment))
    && Val(o.calculatedPremium)
       == Quantised(mode, places, RoundedPremium(prec, value, Val(o.appliedRate), fee, d))
    && Val(o.deductibleValue)
       == Quantised(mode, places, RoundedProduct(prec, RoundedBaseLimit(prec, r, value), d))
    && Val(o.policyLimit)
       == Quantised(mode, places, AfterDeductible(prec, RoundedBaseLimit(prec, r, value), d))
    && o.appliedRate.exp == 0 - r.rateDecimalPlaces
    && o.calculatedPremium.exp == o.deductibleValue.exp == o.policyLimit.exp == 0 - places
  }

  /** Everything else in the answer is the request's, the clock's or the rules'. */
  ghost predicate Identifies(r: Rules, request: Request, id: Uuid, now: Timestamp, o: Output) {
    && o.simulationId == id && o.createdAt == now && o.rulesVersion == r.rulesVersion
    && o.car.make == request.make && o.car.model == request.model
    && o.car.value == request.value && o.car.year == request.year
  }

  /** The row stored beside an answer. */
  ghost predicate RowBeside(r: Rules, request: Request, o: Output, row: Row) {
    && row.id == o.simulationId && row.createdAt == o.createdAt && row.rulesVersion == o.rulesVersion
    && row.appliedRate == o.appliedRate && row.calculatedPremium == o.calculatedPremium
    && row.deductibleValue == o.deductibleValue && row.policyLimit == o.policyLimit
    && row.currencyCode == r.currencyCode && row.locationCountry == request.country
    && row.vehicleMake == request.make && row.vehicleModel == request.model
    && row.vehicleValue == request.value && row.vehicleYear == request.year
  }

  /** The outbox record stored beside an answer; its figures are texts that read as those of the answer. */
  ghost predicate RecordBeside(request: Request, o: Output, record: OutboxRecord) {
    && record.eventType == "PremiumSimulationCalculated"
    && record.simulationId == o.simulationId && record.occurredAt == o.createdAt
    && ReadDecimal(record.payload.appliedRate) == Some(o.appliedRate)
    && ReadDecimal(record.payload.calculatedPremium) == Some(o.calculatedPremium)
    && ReadDecimal(record.payload.deductibleValue) == Some(o.deductibleValue)
    && ReadDecimal(record.payload.policyLimit) == Some(o.policyLimit)
    && record.payload.locationCountry == request.country && record.payload.rulesVersion == o.rulesVersion
    && record.payload.vehicleMake == request.make && record.payload.vehicleModel == request.model
    && record.payload.vehicleYear == request.year
  }

  /** What a prepared simulation is made of. */
  lemma PreparedParts(
    prec: nat, c: Ceilings, r: Rules, request: Request, provider: Provider, id: Uuid, now: Timestamp)
    requires prec >= 1 && Valid(r)
    ensures var prepared := Prepare(prec, c, r, request, provider, id, now);
      var quote := Quote(c, r, request, now.year, provider);
      && (quote.Failure? ==> prepared == Failure(quote.error))
      && (quote.Success? && Simulate(prec, r, quote.value).Failure? ==>
          prepared == Failure(Simulate(prec, r, quote.value).error))
      && (quote.Success? && Simulate(prec, r, quote.value).Success? ==>
          prepared == Success(Assemble(r, quote.value, Simulate(prec, r, quote.value).value, id, now, request.country)))
  {
    hide Quote, Simulate, Assemble;
  }

  /** The figures of a quotation, through the real-number meaning of each calculator. */
  lemma FiguresMeaning(prec: nat, r: Rules, q: Quotation)
    requires prec >= 1 && Valid(r) && ValidVehicle(q.vehicle) && Simulate(prec, r, q).Success?
    ensures var f := Simulate(prec, r, q).value;
      var value, fee, d := Val(q.vehicle.value.amount), Val(q.brokerFee.amount), Val(q.deductible);
      var mode, places := r.moneyRoundingMode, r.moneyDecimalPlaces;
      && Val(f.appliedRate) == Quantised(r.rateRoundingMode, r.rateDecimalPlaces,
           ClampedRate(prec, r, q.calculationYear - q.vehicle.year, value, Val(q.adjustment)))
      && Val(f.premium) == Quantised(mode, places, RoundedPremium(prec, value, Val(f.appliedRate), fee, d))
      && Val(f.limits.deductibleValue)
         == Quantised(mode, places, RoundedProduct(prec, RoundedBaseLimit(prec, r, value), d))
      && Val(f.limits.policyLimit)
         == Quantised(mode, places, AfterDeductible(prec, RoundedBaseLimit(prec, r, value), d))
      && f.appliedRate.exp == 0 - r.rateDecimalPlaces
      && f.premium.exp == f.limits.deductibleValue.exp == f.limits.policyLimit.exp == 0 - places
  {
    hide Val, Simulate, Rate, Premium, PolicyLimit, Guard, ClampedRate, RateCompletes, RoundedPremium, RoundedProduct,
      AfterDeductible, RoundedBaseLimit, Units, Shift;
    SimulationLaws.SimulateParts(prec, r, q);
    var f := Simulate(prec, r, q).value;
    var value, fee, d := Val(q.vehicle.value.amount), Val(q.brokerFee.amount), Val(q.deductible);
    var mode, places := r.moneyRoundingMode, r.moneyDecimalPlaces;
    RateMeaning(prec, q.calculationYear, q.adjustment, r, q.vehicle);
    PremiumMeaning(prec, f.appliedRate, q.brokerFee.amount, q.deductible, r, q.vehicle);
    PolicyLimitMeaning(prec, q.deductible, r, q.vehicle);
    var base := RoundedBaseLimit(prec, r, value);
    SimulationLaws.CheckedValue(
      prec, Units(mode, places, RoundedPremium(prec, value, Val(f.appliedRate), fee, d)), places);
    SimulationLaws.CheckedValue(prec, Units(mode, places, RoundedProduct(prec, base, d)), places);
    SimulationLaws.CheckedValue(prec, Units(mode, places, AfterDeductible(prec, base, d)), places);
  }

  /** A prepared simulation answers the request, and its row and its record stand beside that answer. */
  lemma PreparedAnswers(
    prec: nat, c: Ceilings, r: Rules, request: Request, provider: Provider, id: Uuid, now: Timestamp)
    requires prec >= 1 && Valid(r) && Prepare(prec, c, r, request, provider, id, now).Success?
    ensures var s := Prepare(prec, c, r, request, provider, id, now).value;
      && (request.country.Some? ==> provider.Adjusts?)
      && FiguresOf(prec, r, request, AdjustmentOf(request, provider), now.year - request.year, OutputOf(s))
      && Identifies(r, request, id, now, OutputOf(s))
      && RowBeside(r, request, OutputOf(s), RowOf(s)) && RecordBeside(request, OutputOf(s), RecordOf(EventOf(s)))
  {
    hide Val, Simulate, Quote, Prepare, Str, ReadDecimal, ClampedRate, RoundedPremium, RoundedProduct, AfterDeductible,
      RoundedBaseLimit, Quantised;
    PreparedParts(prec, c, r, request, provider, id, now);
    QuoteMeaning(c, r, request, now.year, provider);
    var q := Quote(c, r, request, now.year, provider).value;
    FiguresMeaning(prec, r, q);
    var s := Prepare(prec, c, r, request, provider, id, now).value;
    FourTexts(s);
  }

  lemma FourTexts(s: Simulation)
    ensures ReadDecimal(Str(s.appliedRate)) == Some(s.appliedRate)
    ensures ReadDecimal(Str(s.calculatedPremium.amount)) == Some(s.calculatedPremium.amount)
    ensures ReadDecimal(Str(s.deductibleValue.amount)) == Some(s.deductibleValue.amount)
    ensures ReadDecimal(Str(s.policyLimit.amount)) == Some(s.policyLimit.amount)
  {
    DecimalRoundTrip(s.appliedRate);
    DecimalRoundTrip(s.calculatedPremium.amount);
    DecimalRoundTrip(s.deductibleValue.amount);
    DecimalRoundTrip(s.policyLimit.amount);
  }

  /** The use case never reports a currency mismatch: both amounts are in the rules' currency. */
  lemma NoCurrencyMismatch(
    prec: nat, c: Ceilings, r: Rules, request: Request, provider: Provider, id: Uuid, now: Timestamp)
    requires prec >= 1 && Valid(r)
    ensures Prepare(prec, c, r, request, provider, id, now) != Failure(CurrencyMismatchError)
  {
    hide Val, Simulate, Prepare, Guard;
    PreparedParts(prec, c, r, request, provider, id, now);
    var quote := Quote(c, r, request, now.year, provider);
    if quote.Success? {
      QuoteMeaning(c, r, request, now.year, provider);
      SimulationLaws.SimulateErrors(prec, r, quote.value);
      SimulationLaws.GuardReportsFirst(r, quote.value, CurrencyMismatchError);
    }
  }

  // ---------------------------------------------------------------- what is stored

  /** The row and the record of an answered request, both new. */
  ghost predicate StoredBeside(r: Rules, request: Request, o: Output, before: Database, after: Database) {
    && o.simulationId !in before.rows
    && after.rows.Keys == before.rows.Keys + {o.simulationId}
    && (forall k | k in before.rows :: after.rows[k] == before.rows[k])
    && RowBeside(r, request, o, after.rows[o.simulationId])
    && |after.outbox| == |before.outbox| + 1 && before.outbox <= after.outbox
    && RecordBeside(request, o, after.outbox[|before.outbox|])
  }

  /**
   A request served with a fresh unit of work. If it is answered, the answer is that of the request. Whatever is stored
   is the row and the record beside that answer, and reading the identifier gives the answer back; under fail-closed an
   answer means that they are stored.
   */
  lemma ServedRequest(
    mode: OutboxProtocol.Mode, db: Database, prec: nat, c: Ceilings, r: Rules, request: Request, provider: Provider,
    id: Uuid, now: Timestamp, faults: Faults)
    requires prec >= 1 && Valid(r)
    ensures var prepared := Prepare(prec, c, r, request, provider, id, now);
      var served := Serve(mode, db, NOTHING, prepared, faults);
      && (prepared.Failure? ==> served.db == db && served.answer == Refused(prepared.error))
      && (prepared.Success? ==>
          var o := OutputOf(prepared.value);
          && (request.country.Some? ==> provider.Adjusts?)
          && FiguresOf(prec, r, request, AdjustmentOf(request, provider), now.year - request.year, o)
          && Identifies(r, request, id, now, o)
          && (served.answer.Answered? ==> served.answer.output == o)
          && (served.db == db
              || (StoredBeside(r, request, o, db, served.db) && OutboxProtocol.Get(served.db, id) == Some(o)))
          && (served.db != db <==> faults.open.None? && faults.flush.None? && id !in db.rows
                                   && (faults.commit.None? || faults.commitTookEffect))
          && (served.answer.Answered? && mode.FailClosed? ==> served.db != db))
  {
    hide Prepare, Serve, FiguresOf, RowBeside, RecordBeside, OutputOf, RowOf, EventOf, RecordOf, TakesEffect,
      ReachesDrain, FirstError, Val;
    var prepared := Prepare(prec, c, r, request, provider, id, now);
    RequestOutcome(mode, db, prepared, faults);
    if prepared.Success? {
      PreparedAnswers(prec, c, r, request, provider, id, now);
      PairIsBeside(mode, db, r, request, prepared.value, faults);
      EffectMeaning(db, prepared.value, faults);
    }
  }

  /** With a fresh buffer only the identifier and the faults decide. */
  lemma EffectMeaning(db: Database, s: Simulation, faults: Faults)
    ensures TakesEffect(db, [EventOf(s)], s, faults) <==>
      faults.open.None? && faults.flush.None? && s.id !in db.rows && (faults.commit.None? || faults.commitTookEffect)
    ensures OutputOf(s).simulationId == s.id
  {
    hide EventOf;
    OwnEventIsNoOrphan(db, s);
  }

  lemma PairIsBeside(
    mode: OutboxProtocol.Mode, db: Database, r: Rules, request: Request, s: Simulation, faults: Faults)
    requires RowBeside(r, request, OutputOf(s), RowOf(s)) && RecordBeside(request, OutputOf(s), RecordOf(EventOf(s)))
    ensures var both := Database(db.rows[s.id := RowOf(s)], db.outbox + [RecordOf(EventOf(s))]);
      && (TakesEffect(db, [EventOf(s)], s, faults) ==>
          StoredBeside(r, request, OutputOf(s), db, both) && OutboxProtocol.Get(both, s.id) == Some(OutputOf(s)))
      && both != db && OutputOf(s).simulationId == s.id
  {
    hide RowBeside, RecordBeside, EventOf, RecordOf, RowOf;
    OneStory(s);
    var both := Database(db.rows[s.id := RowOf(s)], db.outbox + [RecordOf(EventOf(s))]);
    assert |both.outbox| == |db.outbox| + 1;
    assert both.rows.Keys == db.rows.Keys + {s.id};
    assert OutboxProtocol.Get(both, s.id) == Some(ToOutput(RowOf(s)));
  }

  // ---------------------------------------------------------------- the shipped configuration

  /** Which requests the shipped service answers, in numbers. */
  ghost predicate ShippedAccepts(request: Request, provider: Provider, now: Timestamp) {
    && 0.0 < Val(request.value) <= 100000000000.0
    && 0.0 <= Val(request.brokerFee) <= 1000000000.0
    && 0.0 <= Val(request.deductible) <= 1.0
    && 1900 <= request.year <= now.year
    && (request.country.Some? ==> provider.Adjusts? && -0.02 <= Val(provider.adjustment) <= 0.02)
  }

  lemma ShippedCeilings()
    ensures Val(DEFAULT_CEILINGS.vehicleValue) == 100000000000.0 && Val(DEFAULT_CEILINGS.brokerFee) == 1000000000.0
  {
    ErrorBounds.NineToEleven();
  }

  /** A quotation the shipped service makes of a request is accepted exactly when the request is. */
  lemma ShippedQuotation(request: Request, provider: Provider, now: Timestamp)
    ensures var quote := Quote(DEFAULT_CEILINGS, DEFAULT_RULES, request, now.year, provider);
      && (ShippedAccepts(request, provider, now) <==> quote.Success? && Guard(DEFAULT_RULES, quote.value).None?)
      && (ShippedAccepts(request, provider, now) ==>
          Accepted(quote.value) && QuotesRequest(DEFAULT_RULES, request, now.year, provider, quote.value))
  {
    ShippedCeilings();
    DefaultValues();
    hide Val, Quote, Guard;
    QuoteMeaning(DEFAULT_CEILINGS, DEFAULT_RULES, request, now.year, provider);
    var quote := Quote(DEFAULT_CEILINGS, DEFAULT_RULES, request, now.year, provider);
    if quote.Success? {
      SimulationLaws.GuardMeaning(DEFAULT_RULES, quote.value);
    }
  }

  /** The shipped service makes a simulation of a request if and only if these conditions hold. */
  lemma ShippedAdmits(request: Request, provider: Provider, id: Uuid, now: Timestamp)
    ensures Prepare(80, DEFAULT_CEILINGS, DEFAULT_RULES, request, provider, id, now).Success?
       <==> ShippedAccepts(request, provider, now)
  {
    DefaultRulesValid();
    hide Val, Simulate, Quote, Guard, Prepare, Accepted, ShippedAccepts, Valid, Check, Assemble;
    PreparedParts(80, DEFAULT_CEILINGS, DEFAULT_RULES, request, provider, id, now);
    ShippedQuotation(request, provider, now);
    var quote := Quote(DEFAULT_CEILINGS, DEFAULT_RULES, request, now.year, provider);
    if quote.Success? {
      RefusedByGuard(80, DEFAULT_RULES, quote.value);
      if Guard(DEFAULT_RULES, quote.value).None? {
        DefaultNeverFails(quote.value);
      }
    }
  }

  lemma RefusedByGuard(prec: nat, r: Rules, q: Quotation)
    requires prec >= 1 && r.moneyDecimalPlaces >= 0 && r.rateDecimalPlaces >= 0
    ensures Guard(r, q).Some? ==> Simulate(prec, r, q).Failure?
  {
    hide Guard, Rate, Premium, PolicyLimit;
  }

  /** 0.005 a year, 0.005 for every ten thousand of value, and the adjustment; not below zero, half up to six places. */
  ghost function ShippedRate(value: real, age: int, adjustment: real): real {
    var raw := 0.005 * age as real + 0.005 * (value / 10000.0).Floor as real + adjustment;
    Quantised(HalfUp, 6, if raw < 0.0 then 0.0 else raw)
  }

  lemma ShippedRateIsFormula(value: real, age: int, adjustment: real)
    ensures Valid(DEFAULT_RULES)
    ensures RateFormula(DEFAULT_RULES, age, value, adjustment) == ShippedRate(value, age, adjustment)
  {
    DefaultRulesValid();
    DefaultValues();
    hide Val, Quantised, Valid, Check;
    assert Product(age as real, 0.005) == 0.005 * age as real;
    var bands := (value / 10000.0).Floor as real;
    assert Product(bands, 0.005) == 0.005 * bands;
  }

  /** The quotation and the figures behind an answer of the shipped service. */
  lemma ShippedFigures(request: Request, provider: Provider, id: Uuid, now: Timestamp)
    returns (q: Quotation, f: Figures)
    requires ShippedAccepts(request, provider, now)
    ensures Accepted(q) && QuotesRequest(DEFAULT_RULES, request, now.year, provider, q)
    ensures Simulate(80, DEFAULT_RULES, q) == Success(f)
    ensures var prepared := Prepare(80, DEFAULT_CEILINGS, DEFAULT_RULES, request, provider, id, now);
      && prepared.Success? && RowOf(prepared.value).currencyCode == "USD"
      && OutputOf(prepared.value)
         == Output(f.appliedRate, f.premium, Car(request.make, request.model, request.value, request.year), now,
                   f.limits.deductibleValue, f.limits.policyLimit, "2026.08.0", id)
  {
    hide Val, Simulate, Quote, Prepare, Accepted, ShippedAccepts;
    ShippedAdmits(request, provider, id, now);
    ShippedQuotation(request, provider, now);
    DefaultRulesValid();
    PreparedParts(80, DEFAULT_CEILINGS, DEFAULT_RULES, request, provider, id, now);
    q := Quote(DEFAULT_CEILINGS, DEFAULT_RULES, request, now.year, provider).value;
    DefaultNeverFails(q);
    f := Simulate(80, DEFAULT_RULES, q).value;
  }

  /**
   What the shipped service answers to a request of any number of digits: the rate within one unit of the formula, and
   each amount within a cent of its formula at the rate applied, in the places the response gives them.
   */
  lemma ShippedAnswer(request: Request, provider: Provider, id: Uuid, now: Timestamp)
    requires ShippedAccepts(request, provider, now)
    ensures var prepared := Prepare(80, DEFAULT_CEILINGS, DEFAULT_RULES, request, provider, id, now);
      && prepared.Success?
      && var o := OutputOf(prepared.value);
        var value, fee, d := Val(request.value), Val(request.brokerFee), Val(request.deductible);
        && Abs(Val(o.appliedRate) - ShippedRate(value, now.year - request.year, AdjustmentOf(request, provider)))
           <= 0.000001
        && Abs(Val(o.calculatedPremium) - Quantised(HalfUp, 2, PremiumFormula(value, Val(o.appliedRate), fee, d)))
           <= 0.01
        && Abs(Val(o.deductibleValue) - Quantised(HalfUp, 2, KeptFormula(value, 1.0, d))) <= 0.01
        && Abs(Val(o.policyLimit) - Quantised(HalfUp, 2, LimitFormula(value, 1.0, d))) <= 0.01
        && o.rulesVersion == "2026.08.0" && RowOf(prepared.value).currencyCode == "USD"
  {
    hide Val, Simulate, Prepare, Quantised, Accepted, ShippedAccepts, ShippedRate, RateFormula, PremiumFormula,
      KeptFormula, LimitFormula, OutputOf, RowOf;
    var q, f := ShippedFigures(request, provider, id, now);
    DefaultRulesValid();
    ErrorBounds.WithinOneUnit(q);
    ShippedRateIsFormula(Val(request.value), now.year - request.year, Val(q.adjustment));
  }

  /** With at most 50 fractional digits in value and deductible, in the fee and in the adjustment: exactly. */
  lemma ShippedAnswerIsExact(request: Request, provider: Provider, id: Uuid, now: Timestamp, fv: nat, fd: nat)
    requires ShippedAccepts(request, provider, now)
    requires IsWhole(Val(request.value), fv) && IsWhole(Val(request.deductible), fd) && fv + fd <= 50
    requires IsWhole(Val(request.brokerFee), 50) && IsWhole(AdjustmentOf(request, provider), 50)
    ensures var prepared := Prepare(80, DEFAULT_CEILINGS, DEFAULT_RULES, request, provider, id, now);
      && prepared.Success?
      && var o := OutputOf(prepared.value);
        var value, fee, d := Val(request.value), Val(request.brokerFee), Val(request.deductible);
        && Val(o.appliedRate) == ShippedRate(value, now.year - request.year, AdjustmentOf(request, provider))
        && Val(o.calculatedPremium) == Quantised(HalfUp, 2, PremiumFormula(value, Val(o.appliedRate), fee, d))
        && Val(o.deductibleValue) == Quantised(HalfUp, 2, KeptFormula(value, 1.0, d))
        && Val(o.policyLimit) == Quantised(HalfUp, 2, LimitFormula(value, 1.0, d))
  {
    hide Val, Simulate, Prepare, Quantised, Accepted, ShippedAccepts, ShippedRate, IsWhole, RateFormula,
      PremiumFormula, KeptFormula, LimitFormula, OutputOf;
    var q, f := ShippedFigures(request, provider, id, now);
    DefaultIsExact(q, fv, fd);
    ShippedRateIsFormula(Val(request.value), now.year - request.year, Val(q.adjustment));
  }
}

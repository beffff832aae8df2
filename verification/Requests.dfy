/** What the use case does with a request before anything is published. */
module Requests {
  import opened Wrappers
  import opened Errors
  import opened Powers
  import opened Decimals
  import opened RatingRules
  import opened Calculators
  import opened Timestamps
  import opened Persistence
  import opened DefaultRules
  import SimulationLaws

  datatype Request = Request(
    make: string, model: string, value: Decimal, year: int, brokerFee: Decimal, deductible: Decimal,
    country: Option<string>)

  /** The ceilings of the two amounts. */
  datatype Ceilings = Ceilings(vehicleValue: Decimal, brokerFee: Decimal)

  /** The geographic provider is consulted only for a request with a location. */
  datatype Provider = Adjusts(adjustment: Decimal) | Unavailable

  function VehicleYear(minimum: int, year: int): Result<int, Error> {
    if year < minimum || year < 1 then Failure(VehicleYearError) else Success(year)
  }

  function VehicleSnapshot(make: string, model: string, value: Money, year: int): Result<Vehicle, Error> {
    if Val(value.amount) <= 0.0 then Failure(VehicleSnapshotError) else Success(Vehicle(make, model, value, year))
  }

  /** The checks of the use case in order, and the provider's answer; what goes on to the aggregate. */
  function Quote(c: Ceilings, r: Rules, request: Request, currentYear: int, provider: Provider)
    : Result<Quotation, Error>
  {
    if Val(request.value) > Val(c.vehicleValue) then Failure(VehicleValueTooHigh)
    else if Val(request.brokerFee) > Val(c.brokerFee) then Failure(BrokerFeeTooHigh)
    else
      var year :- VehicleYear(r.minVehicleYear, request.year);
      var vehicle :- VehicleSnapshot(request.make, request.model, Money(request.value, r.currencyCode), year);
      if year > currentYear then Failure(VehicleYearError)
      else
        var deductible :- Percentage(request.deductible);
        if request.country.Some? && provider.Unavailable? then Failure(GeographicProviderError)
        else
          var adjustment := if request.country.Some? then provider.adjustment else ZERO;
          Success(Quotation(vehicle, Money(request.brokerFee, r.currencyCode), deductible, adjustment, currentYear))
  }

  /** The simulation built from the figures; its event and its row are made from the same values. */
  function Assemble(r: Rules, q: Quotation, f: Figures, id: Uuid, now: Timestamp, country: Option<string>): Simulation {
    Simulation(f.appliedRate, Money(f.premium, r.currencyCode), Money(f.limits.deductibleValue, r.currencyCode),
               Money(f.limits.policyLimit, r.currencyCode), id, now, country, r.rulesVersion, q.vehicle)
  }

  /** Everything before publishing: a simulation, or the error the request ends with. */
  function Prepare(
    prec: nat, c: Ceilings, r: Rules, request: Request, provider: Provider, id: Uuid, now: Timestamp)
    : Result<Simulation, Error>
    requires prec >= 1 && r.moneyDecimalPlaces >= 0 && r.rateDecimalPlaces >= 0
  {
    var q :- Quote(c, r, request, now.year, provider);
    var f :- Simulate(prec, r, q);
    Success(Assemble(r, q, f, id, now, request.country))
  }

  /** What the provider says about a request: nothing to add without a location. */
  function AdjustmentOf(request: Request, provider: Provider): real
    requires request.country.Some? ==> provider.Adjusts?
  {
    if request.country.Some? then Val(provider.adjustment) else 0.0
  }

  /** The quotation is the request: its vehicle, fee and deductible, the provider's word, and the rules' currency. */
  ghost predicate QuotesRequest(r: Rules, request: Request, currentYear: int, provider: Provider, q: Quotation) {
    && q.vehicle.make == request.make && q.vehicle.model == request.model
    && q.vehicle.value == Money(request.value, r.currencyCode) && q.vehicle.year == request.year
    && q.brokerFee == Money(request.brokerFee, r.currencyCode) && q.deductible == request.deductible
    && (request.country.Some? ==> provider == Adjusts(q.adjustment))
    && (request.country.None? ==> Val(q.adjustment) == 0.0)
    && q.calculationYear == currentYear
  }

  /** Which requests are let through, and that nothing of them is lost. */
  lemma QuoteMeaning(c: Ceilings, r: Rules, request: Request, currentYear: int, provider: Provider)
    ensures var quote := Quote(c, r, request, currentYear, provider);
      && (quote.Success? <==>
          && 0.0 < Val(request.value) <= Val(c.vehicleValue) && Val(request.brokerFee) <= Val(c.brokerFee)
          && r.minVehicleYear <= request.year <= currentYear && 1 <= request.year && Val(request.deductible) >= 0.0
          && (request.country.Some? ==> provider.Adjusts?))
      && (quote.Failure? ==> !IsArithmetic(quote.error))
      && (quote.Success? ==>
          ValidVehicle(quote.value.vehicle) && QuotesRequest(r, request, currentYear, provider, quote.value))
  {
  }

  /** What is wrong with a request, in the order in which it is looked for. */
  datatype Objection =
    ValueCeiling | FeeCeiling | YearMinimum | ValueNotPositive | YearInFuture | DeductibleNegative | NoProvider

  ghost predicate Objects(
    o: Objection, c: Ceilings, r: Rules, request: Request, currentYear: int, provider: Provider)
  {
    match o
    case ValueCeiling => Val(request.value) > Val(c.vehicleValue)
    case FeeCeiling => Val(request.brokerFee) > Val(c.brokerFee)
    case YearMinimum => request.year < r.minVehicleYear || request.year < 1
    case ValueNotPositive => Val(request.value) <= 0.0
    case YearInFuture => request.year > currentYear
    case DeductibleNegative => Val(request.deductible) < 0.0
    case NoProvider => request.country.Some? && provider.Unavailable?
  }

  function Rank(o: Objection): nat {
    match o
    case ValueCeiling => 0
    case FeeCeiling => 1
    case YearMinimum => 2
    case ValueNotPositive => 3
    case YearInFuture => 4
    case DeductibleNegative => 5
    case NoProvider => 6
  }

  function Reported(o: Objection): Error {
    match o
    case ValueCeiling => VehicleValueTooHigh
    case FeeCeiling => BrokerFeeTooHigh
    case YearMinimum => VehicleYearError
    case ValueNotPositive => VehicleSnapshotError
    case YearInFuture => VehicleYearError
    case DeductibleNegative => PercentageError
    case NoProvider => GeographicProviderError
  }

  /** A request is refused with the error of its first objection, and of no other. */
  lemma QuoteReportsFirst(
    o: Objection, c: Ceilings, r: Rules, request: Request, currentYear: int, provider: Provider)
    requires Objects(o, c, r, request, currentYear, provider)
    requires forall o' | Rank(o') < Rank(o) :: !Objects(o', c, r, request, currentYear, provider)
    ensures Quote(c, r, request, currentYear, provider) == Failure(Reported(o))
  {
    assert forall o' :: Rank(o') < Rank(o) ==> !Objects(o', c, r, request, currentYear, provider);
    assert Rank(ValueCeiling) == 0 && Rank(FeeCeiling) == 1 && Rank(YearMinimum) == 2 && Rank(ValueNotPositive) == 3;
    assert Rank(YearInFuture) == 4 && Rank(DeductibleNegative) == 5;
  }

  const DEFAULT_CEILINGS := Ceilings(MAX_VEHICLE_VALUE, MAX_BROKER_FEE)

  /**
   Under the shipped configuration no request ends in an arithmetic failure: whatever the digits of its
   numbers, it is either refused by a check or gets a simulation.
   */
  lemma DefaultNeverInternalError(request: Request, provider: Provider, id: Uuid, now: Timestamp)
    ensures var s := Prepare(CALCULATION_PRECISION, DEFAULT_CEILINGS, DEFAULT_RULES, request, provider, id, now);
      s.Failure? ==> !IsArithmetic(s.error)
  {
    hide Val, Simulate, Guard, Valid, Check, Quote;
    QuoteMeaning(DEFAULT_CEILINGS, DEFAULT_RULES, request, now.year, provider);
    var quote := Quote(DEFAULT_CEILINGS, DEFAULT_RULES, request, now.year, provider);
    if quote.Success? {
      DefaultRulesValid();
      SimulationLaws.SimulateErrors(CALCULATION_PRECISION, DEFAULT_RULES, quote.value);
      if Guard(DEFAULT_RULES, quote.value).None? {
        DefaultNeverFails(quote.value);
      } else {
        GuardIsDomainError(DEFAULT_RULES, quote.value);
      }
    }
  }

  lemma GuardIsDomainError(r: Rules, q: Quotation)
    ensures Guard(r, q).Some? ==> !IsArithmetic(Guard(r, q).value)
  {
  }
}

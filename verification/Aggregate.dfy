/** The aggregate: a simulation that keeps the events it has recorded until they are pulled. */
module Aggregate {
  import opened Wrappers
  import opened Errors
  import opened RatingRules
  import opened Calculators
  import opened Decimals
  import opened Timestamps
  import opened Persistence
  import opened Requests
  import opened CalculationContext

  class PremiumSimulation {
    const simulation: Simulation
    var events: seq<Event>

    constructor (simulation: Simulation)
      ensures this.simulation == simulation && events == []
    {
      this.simulation := simulation;
      events := [];
    }

    method Record(event: Event)
      modifies this
      ensures events == old(events) + [event]
    {
      events := events + [event];
    }

    /** Hand the recorded events over, once. */
    method PullEvents() returns (pulled: seq<Event>)
      modifies this
      ensures pulled == old(events) && events == []
    {
      pulled := events;
      events := [];
    }
  }

  /** A simulation with exactly its own event recorded, or the error of the first failing guard or service. */
  method Calculate(
    ctx: DecimalContext, r: Rules, q: Quotation, id: Uuid, now: Timestamp, country: Option<string>)
    returns (result: Result<PremiumSimulation, Error>)
    requires r.moneyDecimalPlaces >= 0 && r.rateDecimalPlaces >= 0
    modifies ctx
    ensures ctx.precision == old(ctx.precision)
    ensures var figures := Simulate(CALCULATION_PRECISION, r, q);
      && (figures.Failure? ==> result == Failure(figures.error))
      && (figures.Success? ==>
          && result.Success? && fresh(result.value)
          && result.value.simulation == Assemble(r, q, figures.value, id, now, country)
          && result.value.events == [EventOf(result.value.simulation)])
  {
    hide Simulate;
    var figures := CalculateFigures(ctx, r, q);
    if figures.Failure? {
      return Failure(figures.error);
    }
    var aggregate := new PremiumSimulation(Assemble(r, q, figures.value, id, now, country));
    aggregate.Record(
      Event(figures.value.appliedRate, figures.value.premium, figures.value.limits.deductibleValue,
            figures.value.limits.policyLimit, country, now, r.rulesVersion, id,
            q.vehicle.make, q.vehicle.model, q.vehicle.year));
    result := Success(aggregate);
  }
}

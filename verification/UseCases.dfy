/** The use case: validate, consult the provider, calculate, publish, save, and answer. */
module UseCases {
  import opened Wrappers
  import opened Errors
  import opened Decimals
  import opened RatingRules
  import opened Calculators
  import opened Timestamps
  import opened Persistence
  import opened OutboxProtocol
  import opened Saving
  import opened Requests
  import opened CalculationContext
  import opened Aggregate
  import opened UnitsOfWork
  import opened SimulationRepository

  /** What the caller of the use case gets. */
  datatype Answer = Answered(output: Output) | Refused(error: Error) | NotSaved(fault: Fault)

  /** Everything a request leaves behind, given what came of its preparation. */
  datatype Served = Served(db: Database, pending: seq<Event>, answer: Answer)

  function Serve(
    mode: OutboxProtocol.Mode, db: Database, pending: seq<Event>, prepared: Result<Simulation, Error>, faults: Faults)
    : Served
  {
    match prepared
    case Failure(error) => Served(db, pending, Refused(error))
    case Success(s) =>
      var saved := Save(db, pending + [EventOf(s)], s, faults);
      var answer :=
        if saved.error.None? || (saved.error.value.Sql? && mode.FailOpen?) then Answered(OutputOf(s))
        else NotSaved(saved.error.value);
      Served(saved.db, saved.pending, answer)
  }

  /** The phase of the protocol an answer stands for. */
  function Ended(prepared: Result<Simulation, Error>, answer: Answer): Phase {
    Finished(
      if answer.Refused? || prepared.Failure? then Rejected
      else if answer.NotSaved? then Raised(answer.fault)
      else Returned(prepared.value))
  }

  /** The protocol steps of a whole request. */
  function RequestSteps(
    db: Database, pending: seq<Event>, prepared: Result<Simulation, Error>, faults: Faults): seq<Step>
  {
    match prepared
    case Failure(_) => [Reject]
    case Success(s) => [Publish(s, true)] + StepsOf(db, pending + [EventOf(s)], s, faults)
  }

  /** A request served without interruption is a run of the protocol. */
  lemma ServeIsARun(
    mode: OutboxProtocol.Mode, db: Database, pending: seq<Event>, prepared: Result<Simulation, Error>, faults: Faults)
    ensures var served := Serve(mode, db, pending, prepared, faults);
      Play(mode, db, Worker(pending, Idle), RequestSteps(db, pending, prepared, faults))
        == Some((served.db, Worker(served.pending, Ended(prepared, served.answer))))
  {
    hide Save, StepsOf, EventOf, OutputOf, Play;
    match prepared
    case Failure(_) => PlayLast(mode, db, Worker(pending, Idle), Reject);
    case Success(s) =>
      var w := Worker(pending, Idle);
      var staged := pending + [EventOf(s)];
      assert Next(mode, db, w, Publish(s, true)) == Some((db, Worker(staged, Staged(s))));
      PlayMore(mode, db, w, Publish(s, true), StepsOf(db, staged, s, faults));
      SaveIsARun(mode, db, staged, s, faults);
  }

  /** A fresh unit of work. */
  const NOTHING: seq<Event> := []

  /**
   How requests end, each with a fresh unit of work. Refused: nothing changed. Otherwise the row and its one record
   are committed together or not at all, the caller is told of an error unless it is a database error under fail-open,
   and an answer under fail-closed means they are committed.
   */
  lemma RequestOutcome(
    mode: OutboxProtocol.Mode, db: Database, prepared: Result<Simulation, Error>, faults: Faults)
    ensures var served := Serve(mode, db, NOTHING, prepared, faults);
      && (prepared.Failure? ==> served == Served(db, NOTHING, Refused(prepared.error)))
      && (prepared.Success? ==>
          var s := prepared.value;
          var both := Database(db.rows[s.id := RowOf(s)], db.outbox + [RecordOf(EventOf(s))]);
          var error := FirstError(db, [EventOf(s)], s, faults);
          && served.db == (if TakesEffect(db, [EventOf(s)], s, faults) then both else db)
          && served.pending == (if ReachesDrain(db, s, faults) then [] else [EventOf(s)])
          && served.answer == (if error.None? || (error == Some(Sql) && mode == FailOpen) then Answered(OutputOf(s))
                               else NotSaved(error.value))
          && (served.answer.Answered? && mode == FailClosed ==> served.db == both))
  {
    hide Save, RowOf, RecordsOf, RecordOf, EventOf, OutputOf, TakesEffect, ReachesDrain, FirstError;
    if prepared.Success? {
      var s := prepared.value;
      assert NOTHING + [EventOf(s)] == [EventOf(s)];
      SaveOutcome(db, [EventOf(s)], s, faults);
      OneRecord(s);
    }
  }

  /** With a fresh buffer only a taken identifier is refused by the keys. */
  lemma OwnEventIsNoOrphan(db: Database, s: Simulation)
    ensures NoOrphans(db, s.id, [EventOf(s)])
  {
    hide EventOf;
    RowKey(s);
  }

  class CalculatePremium {
    const ceilings: Ceilings
    const context: DecimalContext
    const eventPublisher: OutboxEventPublisher
    const mode: OutboxProtocol.Mode
    const repository: SqlSimulationRepository
    const rules: Rules

    constructor (
      ceilings: Ceilings, context: DecimalContext, eventPublisher: OutboxEventPublisher, mode: OutboxProtocol.Mode,
      repository: SqlSimulationRepository, rules: Rules)
      ensures this.ceilings == ceilings && this.context == context && this.eventPublisher == eventPublisher
      ensures this.mode == mode && this.repository == repository && this.rules == rules
    {
      this.ceilings := ceilings;
      this.context := context;
      this.eventPublisher := eventPublisher;
      this.mode := mode;
      this.repository := repository;
      this.rules := rules;
    }

    /**
     Serve one request. Publishing comes before saving; the publisher and the repository share a unit of work.
     Whatever happens, the decimal context is put back and every session is closed.
     */
    method Execute(request: Request, provider: Provider, id: Uuid, now: Timestamp, faults: Faults)
      returns (answer: Answer)
      requires rules.moneyDecimalPlaces >= 0 && rules.rateDecimalPlaces >= 0
      requires eventPublisher.unitOfWork == repository.unitOfWork
      modifies context, repository.unitOfWork, repository.unitOfWork.sessionFactory
      ensures var prepared := Prepare(CALCULATION_PRECISION, ceilings, rules, request, provider, id, now);
        var served := Serve(mode, old(repository.unitOfWork.sessionFactory.db), old(repository.unitOfWork.pending),
                            prepared, faults);
        && answer == served.answer
        && repository.unitOfWork.sessionFactory.db == served.db
        && repository.unitOfWork.pending == served.pending
      ensures context.precision == old(context.precision)
      ensures repository.unitOfWork.sessionFactory.openSessions
           == old(repository.unitOfWork.sessionFactory.openSessions)
    {
      hide Quote, Simulate, Save, EventOf, OutputOf, Assemble;
      var quote := Quote(ceilings, rules, request, now.year, provider);
      if quote.Failure? {
        return Refused(quote.error);
      }
      var calculated := Calculate(context, rules, quote.value, id, now, request.country);
      if calculated.Failure? {
        return Refused(calculated.error);
      }
      var simulation := calculated.value.simulation;
      var events := calculated.value.PullEvents();
      eventPublisher.Publish(events);
      var error := repository.SaveSimulation(simulation, faults);
      if error.Some? && !(error.value.Sql? && mode.FailOpen?) {
        return NotSaved(error.value);
      }
      answer := Answered(OutputOf(simulation));
    }
  }
}

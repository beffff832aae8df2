/**
 Many requests saving at once. Each worker has a unit of work and, while saving, a session of its own; all
 share one committed database. A save is a protocol of steps, any of which may fail, and a worker may crash
 between any two. The steps of different workers interleave freely.
 */
module OutboxProtocol {
  import opened Wrappers
  import opened Persistence

  /** A database error is translated and may be tolerated; any other error always propagates. */
  datatype Fault = Sql | Other

  datatype Outcome = Rejected | Returned(simulation: Simulation) | Raised(fault: Fault) | Crashed

  /** Where a worker is in its request. */
  datatype Phase =
    | Idle
    | Staged(simulation: Simulation)
    | Opened(simulation: Simulation, session: Session)
    | Flushed(simulation: Simulation, session: Session)
    | Drained(simulation: Simulation, events: seq<Event>, session: Session)
    | Finished(outcome: Outcome)

  /** pending is the buffer of the worker's unit of work. */
  datatype Worker = Worker(pending: seq<Event>, phase: Phase)

  type WorkerId = nat

  /** issued holds every identifier a simulation was ever given. */
  datatype System = System(db: Database, workers: map<WorkerId, Worker>, ghost issued: set<Uuid>)

  datatype Mode = FailOpen | FailClosed

  datatype Step =
    | Reject                                    // a guard or the geographic provider refuses the request
    | Publish(simulation: Simulation, reuse: bool)
    | Open
    | FlushRow
    | Drain
    | CommitAll
    | Fail(fault: Fault)                        // the current database call raises, and the session rolls back
    | LoseAck(fault: Fault)                     // the commit takes effect but its call raises
    | Crash

  predicate Quiet(p: Phase) {
    p.Idle? || p.Finished?
  }

  /** How execute ends when save raises. */
  function AfterFault(mode: Mode, s: Simulation, fault: Fault): Phase {
    Finished(if fault.Sql? && mode.FailOpen? then Returned(s) else Raised(fault))
  }

  /** One step of one worker: the new database and the new worker; None when the step cannot be taken. */
  function Next(mode: Mode, db: Database, w: Worker, step: Step): Option<(Database, Worker)> {
    match (step, w.phase)
    case (Reject, p) => if Quiet(p) then Some((db, w.(phase := Finished(Rejected)))) else None
    case (Publish(s, reuse), p) =>
      if Quiet(p) then Some((db, Worker((if reuse then w.pending else []) + [EventOf(s)], Staged(s)))) else None
    case (Open, Staged(s)) => Some((db, w.(phase := Opened(s, EMPTY_SESSION))))
    case (FlushRow, Opened(s, session)) =>
      var flushed := Flush(db, AddRow(session, RowOf(s)));
      if flushed.Success? then Some((db, w.(phase := Flushed(s, flushed.value)))) else None
    case (Drain, Flushed(s, session)) =>
      Some((db, Worker([], Drained(s, w.pending, AddRecords(session, RecordsOf(w.pending))))))
    case (CommitAll, Drained(s, _, session)) =>
      var db' := Commit(db, session);
      if db'.Success? then Some((db'.value, w.(phase := Finished(Returned(s))))) else None
    case (Fail(fault), Staged(s)) => Some((db, w.(phase := AfterFault(mode, s, fault))))
    case (Fail(fault), Opened(s, _)) => Some((db, w.(phase := AfterFault(mode, s, fault))))
    case (Fail(fault), Flushed(s, _)) => Some((db, w.(phase := AfterFault(mode, s, fault))))
    case (Fail(fault), Drained(s, _, _)) => Some((db, w.(phase := AfterFault(mode, s, fault))))
    case (LoseAck(fault), Drained(s, _, session)) =>
      var db' := Commit(db, session);
      if db'.Success? then Some((db'.value, w.(phase := AfterFault(mode, s, fault)))) else None
    case (Crash, _) => Some((db, Worker([], Finished(Crashed))))
    case _ => None
  }

  /** A step of worker id in the system. */
  ghost predicate Steps(mode: Mode, x: System, id: WorkerId, step: Step, y: System) {
    && id in x.workers
    && var next := Next(mode, x.db, x.workers[id], step);
      && next.Some?
      && y.db == next.value.0 && y.workers == x.workers[id := next.value.1]
      && y.issued == x.issued + (if step.Publish? then {step.simulation.id} else {})
  }

  /** The system starts with no rows, no records, and every worker idle with an empty buffer. */
  ghost predicate Initial(x: System) {
    && x.db == Database(map[], []) && x.issued == {}
    && forall id | id in x.workers :: x.workers[id] == Worker([], Idle)
  }

  /** A step whose unit of work is fresh, as request-scoped wiring makes it. */
  predicate IsFresh(step: Step) {
    step.Publish? ==> !step.reuse
  }

  datatype Label = Label(worker: WorkerId, step: Step)

  /** A run: consecutive states joined by labelled steps. */
  ghost predicate Run(mode: Mode, states: seq<System>, labels: seq<Label>) {
    && |states| == |labels| + 1
    && forall k | 0 <= k < |labels| ::
         Steps(mode, states[k], labels[k].worker, labels[k].step, states[k + 1])
  }

  ghost predicate FreshRun(mode: Mode, states: seq<System>, labels: seq<Label>) {
    && Run(mode, states, labels) && Initial(states[0])
    && forall k | 0 <= k < |labels| :: IsFresh(labels[k].step)
  }

  // ---------------------------------------------------------------- what every step does to the database

  /** Rows and records are only ever added: a stored row is never changed or removed. */
  ghost predicate Grows(db: Database, db': Database) {
    && db.outbox <= db'.outbox
    && forall id | id in db.rows :: id in db'.rows && db'.rows[id] == db.rows[id]
  }

  /** The shape of the buffer and of the session in each phase. */
  ghost predicate WellFormed(w: Worker) {
    match w.phase
    case Opened(_, session) => session == EMPTY_SESSION
    case Flushed(s, session) => session == Session([], [], map[s.id := RowOf(s)], [])
    case Drained(s, events, session) => w.pending == [] && session == SavedSession(s, events)
    case _ => true
  }

  lemma FlushMeaning(db: Database, s: Simulation)
    ensures Flush(db, AddRow(EMPTY_SESSION, RowOf(s))) ==
      if s.id in db.rows then Failure(IntegrityError)
      else Success(Session([], [], map[s.id := RowOf(s)], []))
  {
    var r := RowOf(s);
    assert [] + [r] == [r] && [r][1..] == [];
    assert InsertRows(db, map[], [r]) ==
      if s.id in db.rows then Failure(IntegrityError) else InsertRows(db, map[][s.id := r], []);
    assert ForeignKeyHolds(db, map[s.id := r], []);
    var none: seq<OutboxRecord> := [];
    assert none + none == none;
  }

  lemma DrainMeaning(s: Simulation, events: seq<Event>)
    ensures AddRecords(Session([], [], map[s.id := RowOf(s)], []), RecordsOf(events)) == SavedSession(s, events)
  {
    assert [] + RecordsOf(events) == RecordsOf(events);
  }

  /** Only the two steps that commit touch the database, and they add to it exactly one save's worth. */
  lemma StepEffect(mode: Mode, db: Database, w: Worker, step: Step)
    requires WellFormed(w) && Next(mode, db, w, step).Some?
    ensures var (db', w') := Next(mode, db, w, step).value;
      && WellFormed(w')
      && (if step.CommitAll? || step.LoseAck?
          then w.phase.Drained? && var s := w.phase.simulation;
            && s.id !in db.rows && NoOrphans(db, s.id, w.phase.events)
            && db' == Database(db.rows[s.id := RowOf(s)], db.outbox + RecordsOf(w.phase.events))
          else db' == db)
  {
    match w.phase
    case Opened(s, session) => FlushMeaning(db, s);
    case Flushed(s, session) => DrainMeaning(s, w.pending);
    case Drained(s, events, session) => CommitMeaning(db, s, events);
    case _ =>
  }

  lemma StepGrows(mode: Mode, db: Database, w: Worker, step: Step)
    requires WellFormed(w) && Next(mode, db, w, step).Some?
    ensures Grows(db, Next(mode, db, w, step).value.0)
  {
    hide Next, RowOf, RecordsOf, NoOrphans;
    StepEffect(mode, db, w, step);
  }

  // ---------------------------------------------------------------- a fresh unit of work for every request

  /** With a fresh buffer nothing but the simulation's own event is ever pending or drained. */
  ghost predicate FreshWorker(w: Worker) {
    && WellFormed(w)
    && match w.phase
       case Staged(s) => w.pending == [EventOf(s)]
       case Opened(s, _) => w.pending == [EventOf(s)]
       case Flushed(s, _) => w.pending == [EventOf(s)]
       case Drained(s, events, _) => events == [EventOf(s)]
       case _ => true
  }

  /** A fail-closed request that returned has its row stored. */
  ghost predicate ReturnIsStored(mode: Mode, db: Database, w: Worker) {
    mode.FailClosed? && w.phase.Finished? && w.phase.outcome.Returned? ==>
      var s := w.phase.outcome.simulation;
      s.id in db.rows && db.rows[s.id] == RowOf(s)
  }

  ghost predicate FreshInv(mode: Mode, x: System) {
    && Consistent(x.db)
    && forall id | id in x.workers :: FreshWorker(x.workers[id]) && ReturnIsStored(mode, x.db, x.workers[id])
  }

  lemma FreshStepWorker(mode: Mode, db: Database, w: Worker, step: Step)
    requires FreshWorker(w) && IsFresh(step) && Next(mode, db, w, step).Some?
    ensures FreshWorker(Next(mode, db, w, step).value.1)
    ensures ReturnIsStored(mode, db, w) ==>
      ReturnIsStored(mode, Next(mode, db, w, step).value.0, Next(mode, db, w, step).value.1)
  {
    StepEffect(mode, db, w, step);
    hide Flush, Commit, NoOrphans, RowOf, RecordsOf, EventOf;
  }

  lemma FreshStepConsistent(mode: Mode, db: Database, w: Worker, step: Step)
    requires Consistent(db) && FreshWorker(w) && Next(mode, db, w, step).Some?
    ensures Consistent(Next(mode, db, w, step).value.0)
  {
    hide Next, RowOf, RecordsOf, NoOrphans, Consistent, EventOf;
    StepEffect(mode, db, w, step);
    if step.CommitAll? || step.LoseAck? {
      var s := w.phase.simulation;
      OneRecord(s);
      RowKey(s);
      OneStory(s);
      ConsistentAfterPair(db, RowOf(s), RecordOf(EventOf(s)));
    }
  }

  lemma OneRecord(s: Simulation)
    ensures RecordsOf([EventOf(s)]) == [RecordOf(EventOf(s))]
  {
  }

  lemma RowKey(s: Simulation)
    ensures RowOf(s).id == s.id && EventOf(s).simulationId == s.id
  {
  }

  /** The invariant is kept by every step of every worker, whatever the others are doing. */
  lemma FreshStep(mode: Mode, x: System, id: WorkerId, step: Step, y: System)
    requires FreshInv(mode, x) && Steps(mode, x, id, step, y) && IsFresh(step)
    ensures FreshInv(mode, y) && Grows(x.db, y.db)
  {
    hide Next, FreshWorker, Consistent, RowOf;
    var w := x.workers[id];
    assert WellFormed(w) by { FreshIsWellFormed(w); }
    FreshStepWorker(mode, x.db, w, step);
    FreshStepConsistent(mode, x.db, w, step);
    StepGrows(mode, x.db, w, step);
  }

  lemma FreshIsWellFormed(w: Worker)
    requires FreshWorker(w)
    ensures WellFormed(w)
  {
  }

  lemma FreshInitially(mode: Mode, x: System)
    requires Initial(x)
    ensures FreshInv(mode, x)
  {
  }

  lemma {:induction false} FreshRunInv(mode: Mode, states: seq<System>, labels: seq<Label>, k: nat)
    requires FreshRun(mode, states, labels) && k <= |labels|
    ensures FreshInv(mode, states[k])
  {
    hide FreshInv, Steps, Initial;
    if k == 0 {
      FreshInitially(mode, states[0]);
    } else {
      FreshRunInv(mode, states, labels, k - 1);
      FreshStep(mode, states[k - 1], labels[k - 1].worker, labels[k - 1].step, states[k]);
    }
  }

  /**
   The outbox is transactional: in every reachable state, for any number of concurrent requests and any
   pattern of failures, lost acknowledgements and crashes, every stored row has exactly one outbox record,
   the record agrees with it, and there is no record without a row. Nothing is assumed about identifiers.
   */
  lemma OneEventPerRow(mode: Mode, states: seq<System>, labels: seq<Label>, k: nat)
    requires FreshRun(mode, states, labels) && k <= |labels|
    ensures Consistent(states[k].db)
  {
    FreshRunInv(mode, states, labels, k);
  }

  /** Row and record come together or not at all, for every identifier and in particular after a fail-open return. */
  lemma BothOrNeither(mode: Mode, states: seq<System>, labels: seq<Label>, k: nat, id: Uuid)
    requires FreshRun(mode, states, labels) && k <= |labels|
    ensures id in states[k].db.rows <==> exists o :: o in states[k].db.outbox && o.simulationId == id
  {
    OneEventPerRow(mode, states, labels, k);
    var outbox := states[k].db.outbox;
    if id in states[k].db.rows {
      if forall o | o in outbox :: o.simulationId != id {
        EventsForAbsent(outbox, id);
      }
    }
  }

  lemma GrowsTransitive(a: Database, b: Database, c: Database)
    requires Grows(a, b) && Grows(b, c)
    ensures Grows(a, c)
  {
    assert a.outbox <= c.outbox by {
      assert c.outbox[..|a.outbox|] == b.outbox[..|a.outbox|] == a.outbox;
    }
  }

  lemma GrowsItself(db: Database)
    ensures Grows(db, db)
  {
  }

  lemma {:induction false} FreshRunGrows(mode: Mode, states: seq<System>, labels: seq<Label>, j: nat, k: nat)
    requires FreshRun(mode, states, labels) && j <= k <= |labels|
    ensures Grows(states[j].db, states[k].db)
    decreases k - j
  {
    hide FreshInv, Initial, Steps;
    if j == k {
      GrowsItself(states[j].db);
    } else {
      hide Grows;
      FreshRunGrows(mode, states, labels, j, k - 1);
      FreshRunInv(mode, states, labels, k - 1);
      FreshStep(mode, states[k - 1], labels[k - 1].worker, labels[k - 1].step, states[k]);
      GrowsTransitive(states[j].db, states[k - 1].db, states[k].db);
    }
  }

  /** get: the stored row, read back. */
  function Get(db: Database, id: Uuid): Option<Output> {
    if id in db.rows then Some(ToOutput(db.rows[id])) else None
  }

  /**
   Read-back: once the row of a simulation is stored, get returns field for field what execute returned, now
   and after any later steps of any requests.
   */
  lemma ReadBack(mode: Mode, states: seq<System>, labels: seq<Label>, j: nat, k: nat, s: Simulation)
    requires FreshRun(mode, states, labels) && j <= k <= |labels|
    requires s.id in states[j].db.rows && states[j].db.rows[s.id] == RowOf(s)
    ensures Get(states[k].db, s.id) == Some(OutputOf(s))
  {
    FreshRunGrows(mode, states, labels, j, k);
    OneStory(s);
  }

  /** Under fail-closed, returning at all means the row and its record are stored and stay readable. */
  lemma ReturnedIsReadable(
    mode: Mode, states: seq<System>, labels: seq<Label>, j: nat, k: nat, id: WorkerId, s: Simulation)
    requires FreshRun(mode, states, labels) && j <= k <= |labels| && mode.FailClosed?
    requires id in states[j].workers && states[j].workers[id].phase == Finished(Returned(s))
    ensures Get(states[k].db, s.id) == Some(OutputOf(s))
    ensures exists o :: o in states[k].db.outbox && Agrees(o, RowOf(s))
  {
    FreshRunInv(mode, states, labels, j);
    ReadBack(mode, states, labels, j, k, s);
    FreshRunGrows(mode, states, labels, j, k);
    OneEventPerRow(mode, states, labels, k);
    var outbox := states[k].db.outbox;
    EventsForIn(outbox, s.id);
    assert Agrees(EventsFor(outbox, s.id)[0], RowOf(s));
  }

  lemma {:induction false} EventsForIn(outbox: seq<OutboxRecord>, id: Uuid)
    ensures forall o | o in EventsFor(outbox, id) :: o in outbox
  {
    if outbox != [] {
      EventsForIn(outbox[1..], id);
    }
  }

  /** With a fresh unit of work the foreign key never refuses a commit: only a taken identifier does. */
  lemma FreshCommitRefusedOnlyByKey(mode: Mode, x: System, id: WorkerId)
    requires FreshInv(mode, x) && id in x.workers && x.workers[id].phase.Drained?
    ensures Commit(x.db, x.workers[id].phase.session).Success? <==> x.workers[id].phase.simulation.id !in x.db.rows
  {
    var w := x.workers[id];
    hide Commit, RowOf, RecordsOf;
    CommitMeaning(x.db, w.phase.simulation, w.phase.events);
    assert NoOrphans(x.db, w.phase.simulation.id, w.phase.events);
  }
}

/**
 One unit of work serving one request after another. A save that fails before its drain leaves its event in the
 buffer; the foreign key then refuses the next save that drains it, as a whole. The invariant needs identifiers to be
 fresh, which a unit of work per request does not.
 */
module UnitOfWorkReuse {
  import opened Wrappers
  import opened Persistence
  import opened OutboxProtocol

  /** The simulation a worker is in the middle of saving. */
  ghost predicate IsSaving(w: Worker, id: Uuid) {
    (w.phase.Staged? || w.phase.Opened? || w.phase.Flushed? || w.phase.Drained?) && w.phase.simulation.id == id
  }

  /** An identifier whose save has failed: issued, not stored, and nobody is saving it. */
  ghost predicate Dead(x: System, id: Uuid) {
    && id in x.issued && id !in x.db.rows
    && forall k | k in x.workers :: !IsSaving(x.workers[k], id)
  }

  ghost predicate AllDead(x: System, events: seq<Event>) {
    forall e | e in events :: Dead(x, e.simulationId)
  }

  /** A buffer ends with the event of the simulation being saved; everything before it is stale. */
  ghost predicate EndsWith(x: System, events: seq<Event>, s: Simulation) {
    |events| > 0 && events[|events| - 1] == EventOf(s) && AllDead(x, events[..|events| - 1])
  }

  ghost predicate ReuseWorker(x: System, w: Worker) {
    && WellFormed(w)
    && match w.phase
       case Idle => AllDead(x, w.pending)
       case Finished(_) => AllDead(x, w.pending)
       case Drained(s, events, _) => EndsWith(x, events, s)
       case _ => EndsWith(x, w.pending, w.phase.simulation)
  }

  /** What a worker is saving has been issued, is not stored, and is saved by no other worker. */
  ghost predicate SavingIsUnique(x: System) {
    forall k, id {:trigger IsSaving(x.workers[k], id)} | k in x.workers && IsSaving(x.workers[k], id) ::
      id in x.issued && id !in x.db.rows
      && forall j | j in x.workers && j != k :: !IsSaving(x.workers[j], id)
  }

  ghost predicate ReuseInv(x: System) {
    && Consistent(x.db) && SavingIsUnique(x)
    && (forall id | id in x.db.rows :: id in x.issued)
    && forall k | k in x.workers :: ReuseWorker(x, x.workers[k])
  }

  /** Identifiers are new when they are issued. */
  ghost predicate IssuesFresh(x: System, step: Step) {
    step.Publish? ==> step.simulation.id !in x.issued
  }

  /** A drained buffer with a stale event in it cannot be committed. */
  lemma StaleIsRefused(x: System, k: WorkerId)
    requires ReuseInv(x) && k in x.workers && x.workers[k].phase.Drained? && |x.workers[k].phase.events| > 1
    ensures Commit(x.db, x.workers[k].phase.session) == Failure(IntegrityError)
    ensures x.workers[k].pending == []
  {
    var w := x.workers[k];
    var s, events := w.phase.simulation, w.phase.events;
    hide Commit, RowOf, RecordsOf, Consistent, SavingIsUnique;
    CommitMeaning(x.db, s, events);
    assert ReuseWorker(x, w);
    var e := events[..|events| - 1][0];
    assert e == events[0] && e in events[..|events| - 1];
    assert Dead(x, e.simulationId);
    assert IsSaving(w, s.id);
    assert e in events && e.simulationId !in x.db.rows && e.simulationId != s.id;
  }

  /** So what is committed is exactly the row and its own event. */
  lemma CommittedIsOwn(x: System, k: WorkerId)
    requires ReuseInv(x) && k in x.workers && x.workers[k].phase.Drained?
    requires Commit(x.db, x.workers[k].phase.session).Success?
    ensures x.workers[k].phase.events == [EventOf(x.workers[k].phase.simulation)]
  {
    hide Commit, RowOf, RecordsOf, Consistent, SavingIsUnique, EventOf;
    var w := x.workers[k];
    assert ReuseWorker(x, w);
    if |w.phase.events| > 1 {
      StaleIsRefused(x, k);
    }
  }

  // ---------------------------------------------------------------- the invariant

  /** The database after a step: unchanged, or one new row with its own event. */
  lemma ReuseDatabase(mode: Mode, x: System, k: WorkerId, step: Step, y: System)
    requires ReuseInv(x) && Steps(mode, x, k, step, y)
    ensures Consistent(y.db) && Grows(x.db, y.db)
    ensures if step.CommitAll? || step.LoseAck?
      then x.workers[k].phase.Drained? && y.db.rows.Keys == x.db.rows.Keys + {x.workers[k].phase.simulation.id}
      else y.db == x.db
  {
    var w := x.workers[k];
    hide Dead, RowOf, RecordsOf, NoOrphans, Consistent, EventOf, SavingIsUnique, AllDead, EndsWith;
    assert ReuseWorker(x, w);
    StepEffect(mode, x.db, w, step);
    StepGrows(mode, x.db, w, step);
    if step.CommitAll? || step.LoseAck? {
      CommitMustSucceed(mode, x.db, w, step);
      CommittedIsOwn(x, k);
      var s := w.phase.simulation;
      OneRecord(s);
      RowKey(s);
      OneStory(s);
      ConsistentAfterPair(x.db, RowOf(s), RecordOf(EventOf(s)));
    }
  }

  lemma CommitMustSucceed(mode: Mode, db: Database, w: Worker, step: Step)
    requires Next(mode, db, w, step).Some? && (step.CommitAll? || step.LoseAck?)
    ensures w.phase.Drained? && Commit(db, w.phase.session).Success?
  {
    hide Commit;
  }

  /** A step changes what only its own worker is saving: to a new simulation, or to nothing once it ends. */
  lemma ReuseSaving(mode: Mode, x: System, k: WorkerId, step: Step, y: System, id: Uuid)
    requires Steps(mode, x, k, step, y)
    ensures forall j | j in x.workers && j != k :: y.workers[j] == x.workers[j]
    ensures IsSaving(y.workers[k], id) ==>
      if step.Publish? then id == step.simulation.id else IsSaving(x.workers[k], id)
    ensures step.CommitAll? || step.LoseAck? ==> !IsSaving(y.workers[k], id)
  {
    hide Flush, Commit, EventOf, RowOf, RecordsOf;
  }

  /** Once dead, an identifier stays dead. */
  lemma DeadStays(mode: Mode, x: System, k: WorkerId, step: Step, y: System, id: Uuid)
    requires ReuseInv(x) && Steps(mode, x, k, step, y) && IssuesFresh(x, step) && Dead(x, id)
    ensures Dead(y, id)
  {
    hide Next, Consistent, ReuseWorker, SavingIsUnique, Grows;
    ReuseDatabase(mode, x, k, step, y);
    ReuseSaving(mode, x, k, step, y, id);
    if step.CommitAll? || step.LoseAck? {
      assert IsSaving(x.workers[k], x.workers[k].phase.simulation.id);
    }
  }

  lemma AllDeadStays(mode: Mode, x: System, k: WorkerId, step: Step, y: System, events: seq<Event>)
    requires ReuseInv(x) && Steps(mode, x, k, step, y) && IssuesFresh(x, step) && AllDead(x, events)
    ensures AllDead(y, events)
  {
    hide Steps, ReuseInv, Dead;
    forall e | e in events ensures Dead(y, e.simulationId) {
      DeadStays(mode, x, k, step, y, e.simulationId);
    }
  }

  lemma SavingStaysUnique(mode: Mode, x: System, k: WorkerId, step: Step, y: System)
    requires ReuseInv(x) && Steps(mode, x, k, step, y) && IssuesFresh(x, step)
    ensures SavingIsUnique(y)
  {
    hide Next, Consistent, ReuseWorker, Grows;
    ReuseDatabase(mode, x, k, step, y);
    forall j, id | j in y.workers && IsSaving(y.workers[j], id)
      ensures id in y.issued && id !in y.db.rows
      ensures forall i | i in y.workers && i != j :: !IsSaving(y.workers[i], id)
    {
      ReuseSaving(mode, x, k, step, y, id);
      if step.CommitAll? || step.LoseAck? {
        assert IsSaving(x.workers[k], x.workers[k].phase.simulation.id);
      }
    }
  }

  /** A worker other than the one that moved keeps its part of the invariant. */
  lemma OtherWorker(mode: Mode, x: System, k: WorkerId, step: Step, y: System, j: WorkerId)
    requires ReuseInv(x) && Steps(mode, x, k, step, y) && IssuesFresh(x, step) && j in x.workers && j != k
    ensures ReuseWorker(y, y.workers[j])
  {
    hide Next, Consistent, SavingIsUnique, AllDead;
    var w := x.workers[j];
    assert y.workers[j] == w && ReuseWorker(x, w);
    match w.phase
    case Idle => AllDeadStays(mode, x, k, step, y, w.pending);
    case Finished(_) => AllDeadStays(mode, x, k, step, y, w.pending);
    case Drained(s, events, _) => AllDeadStays(mode, x, k, step, y, events[..|events| - 1]);
    case _ => AllDeadStays(mode, x, k, step, y, w.pending[..|w.pending| - 1]);
  }

  /** When a save ends without a commit its identifier dies with it. */
  lemma EndedIsDead(mode: Mode, x: System, k: WorkerId, step: Step, y: System, s: Simulation)
    requires ReuseInv(x) && Steps(mode, x, k, step, y) && IsSaving(x.workers[k], s.id)
    requires !step.Publish? && y.db == x.db && !IsSaving(y.workers[k], s.id)
    ensures Dead(y, s.id)
  {
    hide Next, Consistent, ReuseWorker;
    forall j | j in y.workers ensures !IsSaving(y.workers[j], s.id) {
      ReuseSaving(mode, x, k, step, y, s.id);
    }
  }

  /** The worker that moved keeps its part too. */
  lemma MovedWorker(mode: Mode, x: System, k: WorkerId, step: Step, y: System)
    requires ReuseInv(x) && Steps(mode, x, k, step, y) && IssuesFresh(x, step)
    ensures ReuseWorker(y, y.workers[k])
  {
    hide Next, Consistent, SavingIsUnique, AllDead, ReuseWorker;
    var w := x.workers[k];
    match w.phase
    case Idle => MovedQuiet(mode, x, k, step, y);
    case Finished(_) => MovedQuiet(mode, x, k, step, y);
    case Drained(s, events, _) => MovedDrained(mode, x, k, step, y);
    case _ => MovedSaving(mode, x, k, step, y);
  }

  /** From the drain on the buffer is empty. */
  lemma MovedDrained(mode: Mode, x: System, k: WorkerId, step: Step, y: System)
    requires ReuseInv(x) && Steps(mode, x, k, step, y) && x.workers[k].phase.Drained?
    ensures ReuseWorker(y, y.workers[k])
  {
    hide Dead, Commit, Flush, Consistent, SavingIsUnique, AllDead, EventOf, RowOf, RecordsOf;
    assert ReuseWorker(x, x.workers[k]);
    NothingDead(y);
  }

  /** Before the drain the buffer is kept, and its last event dies when the save does. */
  lemma MovedSaving(mode: Mode, x: System, k: WorkerId, step: Step, y: System)
    requires ReuseInv(x) && Steps(mode, x, k, step, y) && IssuesFresh(x, step)
    requires !Quiet(x.workers[k].phase) && !x.workers[k].phase.Drained?
    ensures ReuseWorker(y, y.workers[k])
  {
    hide Commit, Flush, Consistent, SavingIsUnique, AllDead, EventOf, RowOf, RecordsOf, NoOrphans, Dead;
    var w := x.workers[k];
    var s, stale := w.phase.simulation, w.pending[..|w.pending| - 1];
    assert ReuseWorker(x, w);
    AllDeadStays(mode, x, k, step, y, stale);
    StepEffect(mode, x.db, w, step);
    if step.Fail? {
      EndedIsDead(mode, x, k, step, y, s);
      AllDeadAppend(y, w.pending, s);
    } else if step.Crash? {
      NothingDead(y);
    }
  }

  lemma NothingDead(y: System)
    ensures AllDead(y, [])
  {
  }

  lemma AllDeadAppend(y: System, events: seq<Event>, s: Simulation)
    requires |events| > 0 && events[|events| - 1] == EventOf(s) && Dead(y, s.id)
    requires AllDead(y, events[..|events| - 1])
    ensures AllDead(y, events)
  {
    RowKey(s);
    forall e | e in events ensures Dead(y, e.simulationId) {
      var i :| 0 <= i < |events| && events[i] == e;
      if i < |events| - 1 {
        assert events[..|events| - 1][i] == e;
      }
    }
  }

  lemma MovedQuiet(mode: Mode, x: System, k: WorkerId, step: Step, y: System)
    requires ReuseInv(x) && Steps(mode, x, k, step, y) && IssuesFresh(x, step) && Quiet(x.workers[k].phase)
    ensures ReuseWorker(y, y.workers[k])
  {
    hide Commit, Flush, Consistent, SavingIsUnique, AllDead, EventOf, RowOf, RecordsOf, Dead;
    var w := x.workers[k];
    assert ReuseWorker(x, w);
    if step.Publish? {
      MovedPublish(mode, x, k, step, y);
    } else if step.Reject? {
      AllDeadStays(mode, x, k, step, y, w.pending);
    } else {
      NothingDead(y);
    }
  }

  /** Publishing puts the new event behind what is stale already. */
  lemma MovedPublish(mode: Mode, x: System, k: WorkerId, step: Step, y: System)
    requires ReuseInv(x) && Steps(mode, x, k, step, y) && IssuesFresh(x, step) && step.Publish?
    requires Quiet(x.workers[k].phase) && AllDead(x, x.workers[k].pending)
    ensures ReuseWorker(y, y.workers[k])
  {
    hide ReuseInv, AllDead, EventOf, ReuseWorker, Next;
    var before := if step.reuse then x.workers[k].pending else [];
    NothingDead(x);
    AllDeadStays(mode, x, k, step, y, before);
    Published(mode, x.db, x.workers[k], step);
    StagedBehind(y, before, step.simulation);
  }

  lemma Published(mode: Mode, db: Database, w: Worker, step: Step)
    requires step.Publish? && Quiet(w.phase)
    ensures var before, s := if step.reuse then w.pending else [], step.simulation;
      Next(mode, db, w, step) == Some((db, Worker(before + [EventOf(s)], Staged(s))))
  {
    hide Commit, Flush, EventOf;
  }

  lemma StagedBehind(y: System, before: seq<Event>, s: Simulation)
    requires AllDead(y, before)
    ensures ReuseWorker(y, Worker(before + [EventOf(s)], Staged(s)))
  {
    hide AllDead, EventOf;
    assert (before + [EventOf(s)])[..|before|] == before;
  }

  /** The invariant of reused units of work is kept by every step. */
  lemma ReuseStep(mode: Mode, x: System, k: WorkerId, step: Step, y: System)
    requires ReuseInv(x) && Steps(mode, x, k, step, y) && IssuesFresh(x, step)
    ensures ReuseInv(y) && Grows(x.db, y.db)
  {
    hide Next, Consistent, ReuseWorker, SavingIsUnique, Grows;
    ReuseDatabase(mode, x, k, step, y);
    SavingStaysUnique(mode, x, k, step, y);
    MovedWorker(mode, x, k, step, y);
    forall j | j in y.workers ensures ReuseWorker(y, y.workers[j]) {
      if j != k {
        OtherWorker(mode, x, k, step, y, j);
      }
    }
    if step.CommitAll? || step.LoseAck? {
      StoredWasIssued(x, k);
    }
  }

  lemma StoredWasIssued(x: System, k: WorkerId)
    requires ReuseInv(x) && k in x.workers && x.workers[k].phase.Drained?
    ensures x.workers[k].phase.simulation.id in x.issued
  {
    hide Consistent, ReuseWorker;
    assert IsSaving(x.workers[k], x.workers[k].phase.simulation.id);
  }

  /** A run in which units of work may be reused and identifiers are fresh. */
  ghost predicate ReuseRun(mode: Mode, states: seq<System>, labels: seq<Label>) {
    && Run(mode, states, labels) && Initial(states[0])
    && forall k | 0 <= k < |labels| :: IssuesFresh(states[k], labels[k].step)
  }

  lemma ReuseInitially(x: System)
    requires Initial(x)
    ensures ReuseInv(x)
  {
  }

  lemma {:induction false} ReuseRunInv(mode: Mode, states: seq<System>, labels: seq<Label>, k: nat)
    requires ReuseRun(mode, states, labels) && k <= |labels|
    ensures ReuseInv(states[k])
  {
    hide ReuseInv, Steps, Initial;
    if k == 0 {
      ReuseInitially(states[0]);
    } else {
      ReuseRunInv(mode, states, labels, k - 1);
      ReuseStep(mode, states[k - 1], labels[k - 1].worker, labels[k - 1].step, states[k]);
    }
  }

  /** No reachable state stores an orphan event, however often a unit of work is reused by one request after another. */
  lemma NoOrphanEver(mode: Mode, states: seq<System>, labels: seq<Label>, k: nat)
    requires ReuseRun(mode, states, labels) && k <= |labels|
    ensures Consistent(states[k].db)
  {
    ReuseRunInv(mode, states, labels, k);
  }

  /** A save that fails before the drain keeps its event pending. */
  lemma FailureKeepsEvent(mode: Mode, x: System, k: WorkerId, fault: Fault, y: System)
    requires Steps(mode, x, k, Fail(fault), y) && !x.workers[k].phase.Drained?
    ensures y.workers[k].pending == x.workers[k].pending && y.db == x.db
  {
  }

  // ---------------------------------------------------------------- from a failed save to the next drain

  /** Between two moments of a run, worker k neither drains nor crashes, and keeps its unit of work. */
  ghost predicate KeepsBuffer(labels: seq<Label>, i: nat, j: nat, k: WorkerId) {
    j <= |labels| && forall n | i <= n < j && labels[n].worker == k ::
      !labels[n].step.Drain? && !labels[n].step.Crash? && (labels[n].step.Publish? ==> labels[n].step.reuse)
  }

  /** Worker k takes no step between two moments. */
  ghost predicate Rests(labels: seq<Label>, i: nat, j: nat, k: WorkerId) {
    j <= |labels| && forall n | i <= n < j :: labels[n].worker != k
  }

  /** Something stale is pending: an event before that of the simulation being saved, if there is one. */
  ghost predicate HoldsStale(w: Worker) {
    match w.phase
    case Idle => |w.pending| > 0
    case Finished(_) => |w.pending| > 0
    case Drained(_, _, _) => false
    case _ => |w.pending| > 1
  }

  /** A save that fails before the drain leaves something stale behind. */
  lemma FailureLeavesStale(mode: Mode, x: System, k: WorkerId, fault: Fault, y: System)
    requires ReuseInv(x) && Steps(mode, x, k, Fail(fault), y) && !x.workers[k].phase.Drained?
    ensures k in y.workers && HoldsStale(y.workers[k])
  {
    hide Consistent, SavingIsUnique, AllDead, EventOf, Commit, Flush;
    assert ReuseWorker(x, x.workers[k]);
    FailureKeepsEvent(mode, x, k, fault, y);
  }

  /** It stays, whatever the worker does short of draining. */
  lemma StaleStays(mode: Mode, x: System, k: WorkerId, l: Label, y: System)
    requires Steps(mode, x, l.worker, l.step, y) && k in x.workers && HoldsStale(x.workers[k])
    requires l.worker == k ==>
      !l.step.Drain? && !l.step.Crash? && (l.step.Publish? ==> l.step.reuse)
    ensures k in y.workers && HoldsStale(y.workers[k])
  {
    hide Commit, Flush, EventOf, RowOf, RecordsOf;
  }

  lemma {:induction false} StaleUntil(mode: Mode, states: seq<System>, labels: seq<Label>, i: nat, j: nat, k: WorkerId)
    requires Run(mode, states, labels) && i <= j && KeepsBuffer(labels, i, j, k)
    requires k in states[i].workers && HoldsStale(states[i].workers[k])
    ensures k in states[j].workers && HoldsStale(states[j].workers[k])
    decreases j - i
  {
    hide Steps, HoldsStale;
    if i < j {
      StaleUntil(mode, states, labels, i, j - 1, k);
      StaleStays(mode, states[j - 1], k, labels[j - 1], states[j]);
    }
  }

  lemma {:induction false} RestingStays(
    mode: Mode, states: seq<System>, labels: seq<Label>, i: nat, j: nat, k: WorkerId)
    requires Run(mode, states, labels) && i <= j && Rests(labels, i, j, k) && k in states[i].workers
    ensures k in states[j].workers && states[j].workers[k] == states[i].workers[k]
    decreases j - i
  {
    hide Next;
    if i < j {
      RestingStays(mode, states, labels, i, j - 1, k);
      assert Steps(mode, states[j - 1], labels[j - 1].worker, labels[j - 1].step, states[j]);
    }
  }

  /** Draining with something stale pending empties the buffer and takes more than one event along. */
  lemma DrainTakesStale(mode: Mode, x: System, k: WorkerId, y: System)
    requires Steps(mode, x, k, Drain, y) && |x.workers[k].pending| > 1
    ensures k in y.workers && y.workers[k].pending == []
    ensures y.workers[k].phase.Drained? && |y.workers[k].phase.events| > 1
  {
    hide Commit, Flush, RecordsOf, EventOf, RowOf;
  }

  /** A worker that has drained something stale cannot commit: its next step fails or crashes, and stores nothing. */
  lemma DrainedStaleIsStuck(mode: Mode, x: System, k: WorkerId, step: Step, y: System)
    requires ReuseInv(x) && Steps(mode, x, k, step, y)
    requires x.workers[k].phase.Drained? && |x.workers[k].phase.events| > 1
    ensures (step.Fail? || step.Crash?) && y.db == x.db && y.workers[k].pending == []
    ensures y.workers[k].phase.Finished?
  {
    hide Commit, Flush, ReuseInv, RecordsOf, EventOf, RowOf;
    StaleIsRefused(x, k);
  }

  /** However much later and whatever the others have done meanwhile. */
  lemma StaleDrainFailsWhole(mode: Mode, states: seq<System>, labels: seq<Label>, j: nat, n: nat, k: WorkerId)
    requires ReuseRun(mode, states, labels) && j < n <= |labels|
    requires labels[j] == Label(k, Drain) && Rests(labels, j + 1, n, k)
    requires k in states[j].workers && |states[j].workers[k].pending| > 1
    ensures k in states[n].workers && states[n].workers[k].phase.Drained? && states[n].workers[k].pending == []
    ensures Commit(states[n].db, states[n].workers[k].phase.session) == Failure(IntegrityError)
    ensures n < |labels| && labels[n].worker == k ==>
      && (labels[n].step.Fail? || labels[n].step.Crash?)
      && states[n + 1].db == states[n].db && states[n + 1].workers[k].pending == []
      && states[n + 1].workers[k].phase.Finished?
  {
    hide ReuseInv, Initial, IssuesFresh, Steps, Commit;
    assert Steps(mode, states[j], labels[j].worker, labels[j].step, states[j + 1]);
    DrainTakesStale(mode, states[j], k, states[j + 1]);
    RestingStays(mode, states, labels, j + 1, n, k);
    ReuseRunInv(mode, states, labels, n);
    StaleIsRefused(states[n], k);
    if n < |labels| && labels[n].worker == k {
      assert Steps(mode, states[n], labels[n].worker, labels[n].step, states[n + 1]);
      DrainedStaleIsStuck(mode, states[n], k, labels[n].step, states[n + 1]);
    }
  }

  /**
   A save of worker k fails before its drain at step i; the same unit of work is drained next at step j. Then the
   buffer is empty, and until the request ends no commit is possible in any state: the step that ends it, whenever
   it comes and whatever other workers do before it, is a failure or a crash and stores nothing.
   */
  lemma NextSaveFailsWhole(
    mode: Mode, states: seq<System>, labels: seq<Label>, i: nat, j: nat, n: nat, k: WorkerId, fault: Fault)
    requires ReuseRun(mode, states, labels) && i < j < n <= |labels|
    requires labels[i] == Label(k, Fail(fault)) && k in states[i].workers && !states[i].workers[k].phase.Drained?
    requires KeepsBuffer(labels, i + 1, j, k) && labels[j] == Label(k, Drain) && Rests(labels, j + 1, n, k)
    ensures k in states[n].workers && states[n].workers[k].phase.Drained? && states[n].workers[k].pending == []
    ensures Commit(states[n].db, states[n].workers[k].phase.session) == Failure(IntegrityError)
    ensures n < |labels| && labels[n].worker == k ==>
      && (labels[n].step.Fail? || labels[n].step.Crash?)
      && states[n + 1].db == states[n].db && states[n + 1].workers[k].pending == []
      && states[n + 1].workers[k].phase.Finished?
  {
    hide ReuseInv, Initial, IssuesFresh, Steps, Commit, HoldsStale;
    ReuseRunInv(mode, states, labels, i);
    assert Steps(mode, states[i], labels[i].worker, labels[i].step, states[i + 1]);
    FailureLeavesStale(mode, states[i], k, fault, states[i + 1]);
    StaleUntil(mode, states, labels, i + 1, j, k);
    assert Steps(mode, states[j], labels[j].worker, labels[j].step, states[j + 1]);
    FlushedHoldsTwo(mode, states[j], k, states[j + 1]);
    StaleDrainFailsWhole(mode, states, labels, j, n, k);
  }

  lemma FlushedHoldsTwo(mode: Mode, x: System, k: WorkerId, y: System)
    requires Steps(mode, x, k, Drain, y) && HoldsStale(x.workers[k])
    ensures |x.workers[k].pending| > 1
  {
  }
}

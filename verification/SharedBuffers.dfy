/**
 Units of work with several requests each. A buffer that serves one request at a time, with identifiers that are never
 issued twice, keeps the tables consistent; two requests in flight on one buffer, or one identifier issued twice, do
 not.
 */
module SharedBuffers {
  import opened Wrappers
  import opened Persistence
  import opened OutboxProtocol
  import opened Saving
  import opened UnitOfWorkReuse

  type BufferId = nat

  /** A request and the buffer of its unit of work. */
  datatype Request = Request(buffer: BufferId, phase: Phase)

  datatype SharedSystem = SharedSystem(
    db: Database, buffers: map<BufferId, seq<Event>>, requests: map<WorkerId, Request>, ghost issued: set<Uuid>)

  /** The protocol's worker, with the buffer as it is now. */
  function WorkerOf(x: SharedSystem, id: WorkerId): Worker
    requires id in x.requests && x.requests[id].buffer in x.buffers
  {
    Worker(x.buffers[x.requests[id].buffer], x.requests[id].phase)
  }

  function Issued(step: Step): set<Uuid> {
    if step.Publish? then {step.simulation.id} else {}
  }

  /** The state after request id, its database and its buffer have moved. */
  ghost function Moved(x: SharedSystem, id: WorkerId, db: Database, w: Worker, ids: set<Uuid>): SharedSystem
    requires id in x.requests
  {
    var b := x.requests[id].buffer;
    SharedSystem(db, x.buffers[b := w.pending], x.requests[id := Request(b, w.phase)], x.issued + ids)
  }

  /** A step of one request; publishing keeps what is already staged. */
  ghost predicate SharedStep(mode: Mode, x: SharedSystem, l: Label, y: SharedSystem) {
    && l.worker in x.requests && x.requests[l.worker].buffer in x.buffers
    && (l.step.Publish? ==> l.step.reuse)
    && var next := Next(mode, x.db, WorkerOf(x, l.worker), l.step);
      next.Some? && y == Moved(x, l.worker, next.value.0, next.value.1, Issued(l.step))
  }

  ghost predicate SharedInitial(x: SharedSystem) {
    && x.db == Database(map[], []) && x.issued == {}
    && (forall b | b in x.buffers :: x.buffers[b] == [])
    && forall id | id in x.requests :: x.requests[id].phase == Idle && x.requests[id].buffer in x.buffers
  }

  ghost predicate SharedRun(mode: Mode, states: seq<SharedSystem>, labels: seq<Label>) {
    && |states| == |labels| + 1
    && forall n | 0 <= n < |labels| :: SharedStep(mode, states[n], labels[n], states[n + 1])
  }

  /** No other request is in flight on the buffer of id. */
  ghost predicate Alone(x: SharedSystem, id: WorkerId)
    requires id in x.requests
  {
    forall j | j in x.requests && j != id && x.requests[j].buffer == x.requests[id].buffer :: Quiet(x.requests[j].phase)
  }

  /** A buffer serves one request at a time, and a crash, which loses the buffer, is not survived on it. */
  ghost predicate SerialStep(x: SharedSystem, l: Label) {
    l.worker in x.requests && (l.step.Publish? || l.step.Crash? ==> Alone(x, l.worker))
  }

  ghost predicate FreshStepIn(x: SharedSystem, l: Label) {
    l.step.Publish? ==> l.step.simulation.id !in x.issued
  }

  ghost predicate AllSerial(states: seq<SharedSystem>, labels: seq<Label>) {
    |labels| <= |states| && forall n | 0 <= n < |labels| :: SerialStep(states[n], labels[n])
  }

  ghost predicate AllFresh(states: seq<SharedSystem>, labels: seq<Label>) {
    |labels| <= |states| && forall n | 0 <= n < |labels| :: FreshStepIn(states[n], labels[n])
  }

  // ---------------------------------------------------------------- one request at a time: reused units of work

  ghost predicate InFlight(x: SharedSystem, id: WorkerId, b: BufferId) {
    id in x.requests && x.requests[id].buffer == b && !Quiet(x.requests[id].phase)
  }

  /** Each buffer is a worker of the protocol: in the phase of its request in flight, or quiet. */
  ghost predicate Represents(x: SharedSystem, w: System) {
    && w.db == x.db && w.issued == x.issued && w.workers.Keys == x.buffers.Keys
    && (forall b | b in x.buffers :: w.workers[b].pending == x.buffers[b])
    && (forall id | id in x.requests :: x.requests[id].buffer in x.buffers)
    && (forall id, b | b in x.buffers && InFlight(x, id, b) :: w.workers[b].phase == x.requests[id].phase)
    && (forall b | b in x.buffers && !Quiet(w.workers[b].phase) :: exists id :: InFlight(x, id, b))
    && (forall i, j, b | InFlight(x, i, b) && InFlight(x, j, b) :: i == j)
  }

  /** A serial step is a step of the buffer's worker, or changes nothing there. */
  lemma Simulates(mode: Mode, x: SharedSystem, w: System, l: Label, y: SharedSystem) returns (w': System)
    requires Represents(x, w) && SharedStep(mode, x, l, y) && SerialStep(x, l)
    ensures Represents(y, w')
    ensures w' == w || Steps(mode, w, x.requests[l.worker].buffer, l.step, w')
  {
    hide Commit, Flush, EventOf, RowOf, RecordsOf;
    var b := x.requests[l.worker].buffer;
    if l.step.Reject? {
      w' := w;
      RejectStutters(mode, x, w, l, y);
    } else {
      SameWorker(mode, x, w, l);
      w' := System(y.db, w.workers[b := Worker(y.buffers[b], y.requests[l.worker].phase)], w.issued + Issued(l.step));
      StepRepresents(mode, x, w, l, y, w');
    }
  }

  lemma RejectStutters(mode: Mode, x: SharedSystem, w: System, l: Label, y: SharedSystem)
    requires Represents(x, w) && SharedStep(mode, x, l, y) && l.step.Reject?
    ensures Represents(y, w)
  {
    var b := x.requests[l.worker].buffer;
    assert y.buffers == x.buffers;
    forall c | c in y.buffers && !Quiet(w.workers[c].phase) ensures exists id :: InFlight(y, id, c) {
      var id :| InFlight(x, id, c);
      assert InFlight(y, id, c);
    }
    forall id, c | InFlight(y, id, c) ensures InFlight(x, id, c) {
    }
  }

  /** The buffer's worker can take the same step with the same result. */
  lemma SameWorker(mode: Mode, x: SharedSystem, w: System, l: Label)
    requires Represents(x, w) && SerialStep(x, l) && !l.step.Reject?
    requires l.step.Publish? ==> l.step.reuse
    requires Next(mode, x.db, WorkerOf(x, l.worker), l.step).Some?
    ensures Next(mode, w.db, w.workers[x.requests[l.worker].buffer], l.step)
         == Next(mode, x.db, WorkerOf(x, l.worker), l.step)
  {
    hide Commit, Flush, EventOf, RowOf, RecordsOf, AddRow, AddRecords;
    var b := x.requests[l.worker].buffer;
    if Quiet(x.requests[l.worker].phase) {
      assert forall id :: !InFlight(x, id, b);
    } else {
      assert InFlight(x, l.worker, b);
    }
  }

  lemma StepRepresents(mode: Mode, x: SharedSystem, w: System, l: Label, y: SharedSystem, w': System)
    requires Represents(x, w) && SharedStep(mode, x, l, y) && SerialStep(x, l) && !l.step.Reject?
    requires var b := x.requests[l.worker].buffer;
      w' == System(y.db, w.workers[b := Worker(y.buffers[b], y.requests[l.worker].phase)], w.issued + Issued(l.step))
    ensures Represents(y, w')
  {
    hide Next;
    var me, b := l.worker, x.requests[l.worker].buffer;
    OthersQuiet(mode, x, w, l);
    forall id, c | InFlight(y, id, c) ensures (id == me && c == b) || (InFlight(x, id, c) && c != b) {
    }
    forall c | c in y.buffers && !Quiet(w'.workers[c].phase) ensures exists id :: InFlight(y, id, c) {
      if c == b {
        assert InFlight(y, me, b);
      } else {
        var id :| InFlight(x, id, c);
        assert InFlight(y, id, c);
      }
    }
  }

  /** Whoever moves on a buffer, other than by a rejection, is the only one there. */
  lemma OthersQuiet(mode: Mode, x: SharedSystem, w: System, l: Label)
    requires Represents(x, w) && SerialStep(x, l) && !l.step.Reject?
    requires Next(mode, x.db, WorkerOf(x, l.worker), l.step).Some?
    ensures forall id | id in x.requests && id != l.worker && x.requests[id].buffer == x.requests[l.worker].buffer ::
      Quiet(x.requests[id].phase)
  {
    hide Commit, Flush, EventOf, RowOf, RecordsOf, AddRow, AddRecords;
    var b := x.requests[l.worker].buffer;
    if !Quiet(x.requests[l.worker].phase) {
      assert InFlight(x, l.worker, b);
      forall id | id in x.requests && id != l.worker && x.requests[id].buffer == b ensures Quiet(x.requests[id].phase) {
        assert !InFlight(x, id, b);
      }
    }
  }

  ghost predicate SharedInv(x: SharedSystem) {
    exists w :: Represents(x, w) && ReuseInv(w)
  }

  lemma SharedInvStep(mode: Mode, x: SharedSystem, l: Label, y: SharedSystem)
    requires SharedInv(x) && SharedStep(mode, x, l, y) && SerialStep(x, l) && FreshStepIn(x, l)
    ensures SharedInv(y)
  {
    hide ReuseInv, Steps, SharedStep;
    var w :| Represents(x, w) && ReuseInv(w);
    var w' := Simulates(mode, x, w, l, y);
    if w' != w {
      ReuseStep(mode, w, x.requests[l.worker].buffer, l.step, w');
    }
  }

  lemma SharedInitially(x: SharedSystem)
    requires SharedInitial(x)
    ensures SharedInv(x)
  {
    var w := System(x.db, map b | b in x.buffers :: Worker([], Idle), {});
    ReuseInitially(w);
    hide ReuseInv;
    assert Represents(x, w);
  }

  /**
   However many requests have a unit of work, at the same time or not: while each buffer serves one at a time and no
   identifier is issued twice, every reachable state has one agreeing record per row and none without a row.
   */
  lemma {:induction false} SerialSharingConsistent(
    mode: Mode, states: seq<SharedSystem>, labels: seq<Label>, n: nat)
    requires SharedRun(mode, states, labels) && SharedInitial(states[0]) && n <= |labels|
    requires AllSerial(states, labels) && AllFresh(states, labels)
    ensures SharedInv(states[n]) && Consistent(states[n].db)
  {
    hide SharedInitial, SharedStep, Consistent, Represents, SerialStep, FreshStepIn;
    if n == 0 {
      SharedInitially(states[0]);
    } else {
      SerialSharingConsistent(mode, states, labels, n - 1);
      SharedInvStep(mode, states[n - 1], labels[n - 1], states[n]);
    }
    SharedInvConsistent(states[n]);
  }

  lemma SharedInvConsistent(x: SharedSystem)
    requires SharedInv(x)
    ensures Consistent(x.db)
  {
    hide Consistent;
  }

  // ---------------------------------------------------------------- building runs

  /** A run grows by a step that can be taken. */
  lemma Extend(mode: Mode, states: seq<SharedSystem>, labels: seq<Label>, l: Label)
    returns (states': seq<SharedSystem>, labels': seq<Label>)
    requires SharedRun(mode, states, labels)
    requires var x := states[|labels|];
      && l.worker in x.requests && x.requests[l.worker].buffer in x.buffers && (l.step.Publish? ==> l.step.reuse)
      && Next(mode, x.db, WorkerOf(x, l.worker), l.step).Some?
    ensures SharedRun(mode, states', labels') && states <= states' && labels' == labels + [l]
    ensures var x := states[|labels|];
      var (db, w) := Next(mode, x.db, WorkerOf(x, l.worker), l.step).value;
      states'[|labels'|] == Moved(x, l.worker, db, w, Issued(l.step))
    ensures AllFresh(states, labels) && FreshStepIn(states[|labels|], l) ==> AllFresh(states', labels')
  {
    hide Next, Moved;
    var x := states[|labels|];
    var (db, w) := Next(mode, x.db, WorkerOf(x, l.worker), l.step).value;
    states' := states + [Moved(x, l.worker, db, w, Issued(l.step))];
    labels' := labels + [l];
  }

  /** And by whatever one request plays on its own, publishing aside. */
  lemma {:induction false} ExtendByPlay(
    mode: Mode, states: seq<SharedSystem>, labels: seq<Label>, id: WorkerId, steps: seq<Step>)
    returns (states': seq<SharedSystem>, labels': seq<Label>)
    requires SharedRun(mode, states, labels)
    requires var x := states[|labels|]; id in x.requests && x.requests[id].buffer in x.buffers
    requires var x := states[|labels|]; Play(mode, x.db, WorkerOf(x, id), steps).Some?
    requires forall step | step in steps :: !step.Publish?
    ensures SharedRun(mode, states', labels') && states <= states'
    ensures var x := states[|labels|];
      var (db, w) := Play(mode, x.db, WorkerOf(x, id), steps).value;
      states'[|labels'|] == Moved(x, id, db, w, {})
    ensures AllFresh(states, labels) ==> AllFresh(states', labels')
    decreases |steps|
  {
    hide Next, SharedStep, Moved, WorkerOf;
    var x := states[|labels|];
    if steps == [] {
      states', labels' := states, labels;
      StandsStill(x, id);
    } else {
      var (db, w) := Next(mode, x.db, WorkerOf(x, id), steps[0]).value;
      var states1, labels1 := Extend(mode, states, labels, Label(id, steps[0]));
      var (db', w') := Play(mode, db, w, steps[1..]).value;
      MovedTwice(x, id, db, w, db', w');
      states', labels' := ExtendByPlay(mode, states1, labels1, id, steps[1..]);
    }
  }

  lemma StandsStill(x: SharedSystem, id: WorkerId)
    requires id in x.requests && x.requests[id].buffer in x.buffers
    ensures Moved(x, id, x.db, WorkerOf(x, id), {}) == x
  {
    assert x.issued + {} == x.issued;
    assert x.buffers[x.requests[id].buffer := x.buffers[x.requests[id].buffer]] == x.buffers;
    assert x.requests[id := x.requests[id]] == x.requests;
  }

  lemma MovedTwice(x: SharedSystem, id: WorkerId, db: Database, w: Worker, db': Database, w': Worker)
    requires id in x.requests
    ensures Moved(Moved(x, id, db, w, {}), id, db', w', {}) == Moved(x, id, db', w', {})
    ensures var y := Moved(x, id, db, w, {});
      y.db == db && id in y.requests && y.requests[id].buffer in y.buffers && WorkerOf(y, id) == w
  {
    var b := x.requests[id].buffer;
    assert x.buffers[b := w.pending][b := w'.pending] == x.buffers[b := w'.pending];
    assert x.requests[id := Request(b, w.phase)][id := Request(b, w'.phase)] == x.requests[id := Request(b, w'.phase)];
    assert x.issued + {} + {} == x.issued + {};
  }

  lemma NoPublishing(db: Database, pending: seq<Event>, s: Simulation, faults: Faults)
    ensures forall step | step in StepsOf(db, pending, s, faults) :: !step.Publish?
  {
    hide Flush, Commit, RowOf, RecordsOf, AddRow, AddRecords;
  }

  /** Publishing a simulation on a quiet request. */
  lemma PublishOn(mode: Mode, states: seq<SharedSystem>, labels: seq<Label>, id: WorkerId, s: Simulation)
    returns (states': seq<SharedSystem>, labels': seq<Label>)
    requires SharedRun(mode, states, labels)
    requires var x := states[|labels|];
      id in x.requests && x.requests[id].buffer in x.buffers && Quiet(x.requests[id].phase)
    ensures SharedRun(mode, states', labels') && states <= states' && labels' == labels + [Label(id, Publish(s, true))]
    ensures var x := states[|labels|];
      var pending := x.buffers[x.requests[id].buffer] + [EventOf(s)];
      states'[|labels'|] == Moved(x, id, x.db, Worker(pending, Staged(s)), {s.id})
    ensures AllFresh(states, labels) && s.id !in states[|labels|].issued ==> AllFresh(states', labels')
  {
    hide SharedStep, EventOf, Moved;
    states', labels' := Extend(mode, states, labels, Label(id, Publish(s, true)));
  }

  /** Saving what was published, from beginning to end and without interruption. */
  lemma SaveOn(mode: Mode, states: seq<SharedSystem>, labels: seq<Label>, id: WorkerId, s: Simulation, faults: Faults)
    returns (states': seq<SharedSystem>, labels': seq<Label>)
    requires SharedRun(mode, states, labels)
    requires var x := states[|labels|];
      id in x.requests && x.requests[id].buffer in x.buffers && x.requests[id].phase == Staged(s)
    ensures SharedRun(mode, states', labels') && states <= states'
    ensures var x := states[|labels|];
      var saved := Save(x.db, x.buffers[x.requests[id].buffer], s, faults);
      states'[|labels'|] == Moved(x, id, saved.db, Worker(saved.pending, Ending(mode, s, saved.error)), {})
    ensures AllFresh(states, labels) ==> AllFresh(states', labels')
  {
    hide SharedStep, FreshStepIn, Play, StepsOf, Save, Moved, Ending;
    var x := states[|labels|];
    var pending := x.buffers[x.requests[id].buffer];
    SaveIsARun(mode, x.db, pending, s, faults);
    NoPublishing(x.db, pending, s, faults);
    states', labels' := ExtendByPlay(mode, states, labels, id, StepsOf(x.db, pending, s, faults));
  }

  // ---------------------------------------------------------------- two requests in flight on one buffer

  /** The tables are not consistent when a row has no record, or more than one. */
  lemma NotConsistent(db: Database, id: Uuid)
    requires id in db.rows && |EventsFor(db.outbox, id)| != 1
    ensures !Consistent(db)
  {
  }

  /**
   Two requests in flight on one buffer, nothing failing from outside: both publish, the first to save drains both
   events and is refused by the foreign key, and the second commits its row without a record.
   */
  lemma SharingLosesEvent(mode: Mode, x: SharedSystem, i: WorkerId, j: WorkerId, s: Simulation, t: Simulation)
    returns (states: seq<SharedSystem>, labels: seq<Label>)
    requires SharedInitial(x) && i in x.requests && j in x.requests && i != j
    requires x.requests[i].buffer == x.requests[j].buffer && s.id != t.id
    ensures SharedRun(mode, states, labels) && states[0] == x && AllFresh(states, labels)
    ensures !Consistent(states[|labels|].db)
  {
    hide SharedStep, FreshStepIn, Save, EventOf, RowOf, RecordsOf, Consistent, EventsFor, Ending;
    var b := x.requests[i].buffer;
    states, labels := [x], [];
    states, labels := PublishOn(mode, states, labels, i, s);
    states, labels := PublishOn(mode, states, labels, j, t);
    states, labels := SaveOn(mode, states, labels, i, s, NO_FAULTS);
    BothDrained(s, t);
    assert [] + [EventOf(s)] + [EventOf(t)] == [EventOf(s), EventOf(t)];
    states, labels := SaveOn(mode, states, labels, j, t, NO_FAULTS);
    NothingDrained(t);
    NotConsistent(states[|labels|].db, t.id);
  }

  /** The first save: refused, with the buffer emptied. */
  lemma BothDrained(s: Simulation, t: Simulation)
    requires s.id != t.id
    ensures var saved := Save(Database(map[], []), [EventOf(s), EventOf(t)], s, NO_FAULTS);
      saved.db == Database(map[], []) && saved.pending == []
  {
    var db: Database := Database(map[], []);
    var pending := [EventOf(s), EventOf(t)];
    assert !NoOrphans(db, s.id, pending) by { assert pending[1] in pending; }
    hide Save, RecordsOf, RowOf, EventOf, NoOrphans;
    SaveOutcome(db, pending, s, NO_FAULTS);
    RefusedCommitDrains(db, pending, s);
    OneMore(db, RowOf(s), s.id, pending);
  }

  lemma OneMore(db: Database, r: Row, id: Uuid, pending: seq<Event>)
    requires id !in db.rows
    ensures db != Database(db.rows[id := r], db.outbox + RecordsOf(pending))
  {
    assert id in db.rows[id := r];
  }

  /** Without faults from outside, a save of a new identifier gets as far as the drain. */
  lemma RefusedCommitDrains(db: Database, pending: seq<Event>, s: Simulation)
    requires s.id !in db.rows
    ensures Save(db, pending, s, NO_FAULTS).pending == []
    ensures Save(db, pending, s, NO_FAULTS).error.Some? ==> Save(db, pending, s, NO_FAULTS).db == db
  {
    hide Flush, Commit, RecordsOf, RowOf;
    FlushMeaning(db, s);
  }

  /** The second save: nothing is left to record. */
  lemma NothingDrained(t: Simulation)
    ensures var db := Save(Database(map[], []), [], t, NO_FAULTS).db;
      t.id in db.rows && EventsFor(db.outbox, t.id) == []
  {
    hide Save, RowOf;
    SaveOutcome(Database(map[], []), [], t, NO_FAULTS);
  }

  // ---------------------------------------------------------------- one identifier issued twice

  ghost predicate OwnBuffers(x: SharedSystem) {
    forall i, j | i in x.requests && j in x.requests && x.requests[i].buffer == x.requests[j].buffer :: i == j
  }

  /** With a buffer for every request all steps are serial. */
  lemma OwnBuffersSerial(mode: Mode, states: seq<SharedSystem>, labels: seq<Label>)
    requires SharedRun(mode, states, labels) && OwnBuffers(states[0])
    ensures AllSerial(states, labels)
  {
    hide OwnBuffers, Next;
    forall n | 0 <= n < |labels| ensures SerialStep(states[n], labels[n]) {
      OwnBuffersStay(mode, states, labels, n);
      assert SharedStep(mode, states[n], labels[n], states[n + 1]);
      OwnIsAlone(states[n], labels[n].worker);
    }
  }

  lemma OwnIsAlone(x: SharedSystem, id: WorkerId)
    requires OwnBuffers(x) && id in x.requests
    ensures Alone(x, id)
  {
  }

  lemma {:induction false} OwnBuffersStay(mode: Mode, states: seq<SharedSystem>, labels: seq<Label>, n: nat)
    requires SharedRun(mode, states, labels) && OwnBuffers(states[0]) && n <= |labels|
    ensures OwnBuffers(states[n])
  {
    hide Next;
    if n > 0 {
      OwnBuffersStay(mode, states, labels, n - 1);
      assert SharedStep(mode, states[n - 1], labels[n - 1], states[n]);
    }
  }

  /**
   Two requests with buffers of their own, one identifier issued twice: the first save fails before its drain, the
   second stores the identifier, and the next request on the first buffer commits the stale event beside its own.
   Every run that leaves the two requests quiet with empty buffers can be continued like this, the empty run of an
   initial state among them.
   */
  lemma CollisionDuplicatesEvent(
    mode: Mode, states: seq<SharedSystem>, labels: seq<Label>, i: WorkerId, j: WorkerId,
    s: Simulation, t: Simulation, u: Simulation)
    returns (states': seq<SharedSystem>, labels': seq<Label>)
    requires SharedRun(mode, states, labels)
    requires var x := states[|labels|];
      && i in x.requests && j in x.requests && x.requests[i].buffer != x.requests[j].buffer
      && (forall k | k in {i, j} :: Quiet(x.requests[k].phase) && x.requests[k].buffer in x.buffers
                                    && x.buffers[x.requests[k].buffer] == [])
      && t.id == s.id != u.id && s.id !in x.db.rows && u.id !in x.db.rows
    ensures SharedRun(mode, states', labels') && states <= states'
    ensures OwnBuffers(states[0]) ==> AllSerial(states', labels')
    ensures !Consistent(states'[|labels'|].db)
  {
    hide SharedStep, FreshStepIn, AllFresh, AllSerial, OwnBuffers, Save, EventOf, RowOf, RecordsOf, Consistent,
      EventsFor, Ending;
    var db := states[|labels|].db;
    states', labels' := PublishOn(mode, states, labels, i, s);
    states', labels' := SaveOn(mode, states', labels', i, s, Faults(Some(Sql), None, None, false));
    OpeningFails(db, [EventOf(s)], s);
    EndingIsQuiet(mode, s, Some(Sql));
    assert [] + [EventOf(s)] == [EventOf(s)] && [] + [EventOf(t)] == [EventOf(t)];
    states', labels' := PublishOn(mode, states', labels', j, t);
    states', labels' := SaveOn(mode, states', labels', j, t, NO_FAULTS);
    var db' := OwnEventCommits(db, t);
    assert [EventOf(s)] + [EventOf(u)] == [EventOf(s), EventOf(u)];
    states', labels' := PublishOn(mode, states', labels', i, u);
    states', labels' := SaveOn(mode, states', labels', i, u, NO_FAULTS);
    StaleEventCommits(db, db', s, t, u);
    NotConsistent(states'[|labels'|].db, t.id);
    if OwnBuffers(states[0]) {
      OwnBuffersSerial(mode, states', labels');
    }
  }

  lemma OpeningFails(db: Database, pending: seq<Event>, s: Simulation)
    ensures Save(db, pending, s, Faults(Some(Sql), None, None, false)) == Saved(db, pending, Some(Sql))
  {
  }

  lemma EndingIsQuiet(mode: Mode, s: Simulation, error: Option<Fault>)
    ensures Quiet(Ending(mode, s, error))
  {
  }

  lemma OwnEventCommits(db: Database, t: Simulation) returns (db': Database)
    requires t.id !in db.rows
    ensures db' == Database(db.rows[t.id := RowOf(t)], db.outbox + RecordsOf([EventOf(t)]))
    ensures Save(db, [EventOf(t)], t, NO_FAULTS).db == db'
  {
    hide Save, RowOf, RecordsOf, EventOf;
    RowKey(t);
    assert NoOrphans(db, t.id, [EventOf(t)]);
    SaveOutcome(db, [EventOf(t)], t, NO_FAULTS);
    db' := Database(db.rows[t.id := RowOf(t)], db.outbox + RecordsOf([EventOf(t)]));
  }

  /** The foreign key accepts the stale event, whose identifier is stored by now. */
  lemma StaleEventCommits(db: Database, db': Database, s: Simulation, t: Simulation, u: Simulation)
    requires t.id == s.id != u.id && u.id !in db.rows
    requires db' == Database(db.rows[t.id := RowOf(t)], db.outbox + RecordsOf([EventOf(t)]))
    ensures var stored := Save(db', [EventOf(s), EventOf(u)], u, NO_FAULTS).db;
      t.id in stored.rows && |EventsFor(stored.outbox, t.id)| >= 2
  {
    hide Save, RowOf, RecordsOf, EventOf, EventsFor;
    RowKey(s);
    RowKey(u);
    var pending := [EventOf(s), EventOf(u)];
    assert NoOrphans(db', u.id, pending);
    SaveOutcome(db', pending, u, NO_FAULTS);
    EventsForAppend(db.outbox, RecordsOf([EventOf(t)]), t.id);
    EventsForAppend(db'.outbox, RecordsOf(pending), t.id);
    FirstIsFound([EventOf(t)], t.id, t);
    FirstIsFound(pending, t.id, s);
  }

  lemma FirstIsFound(pending: seq<Event>, id: Uuid, s: Simulation)
    requires |pending| > 0 && pending[0] == EventOf(s) && s.id == id
    ensures |EventsFor(RecordsOf(pending), id)| >= 1
  {
    var records := RecordsOf(pending);
    assert records[0].simulationId == id;
  }
}

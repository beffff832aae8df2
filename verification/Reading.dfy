/** What reading an identifier answers over whole runs: nothing that was not published, and nothing that failed. */
module Reading {
  import opened Wrappers
  import opened Persistence
  import opened OutboxProtocol

  /** Some request published s in the first k steps. */
  ghost predicate PublishedBefore(labels: seq<Label>, k: nat, s: Simulation) {
    exists n: nat :: n < k && n < |labels| && labels[n].step.Publish? && labels[n].step.simulation == s
  }

  predicate Saving(p: Phase) {
    p.Staged? || p.Opened? || p.Flushed? || p.Drained?
  }

  ghost predicate WorkersPublished(x: System, labels: seq<Label>, k: nat) {
    forall id | id in x.workers && Saving(x.workers[id].phase) ::
      PublishedBefore(labels, k, x.workers[id].phase.simulation)
  }

  ghost predicate IsRowOfPublished(labels: seq<Label>, k: nat, id: Uuid, row: Row) {
    exists s :: PublishedBefore(labels, k, s) && s.id == id && row == RowOf(s)
  }

  ghost predicate RowsPublished(x: System, labels: seq<Label>, k: nat) {
    forall id | id in x.db.rows :: IsRowOfPublished(labels, k, id, x.db.rows[id])
  }

  lemma PublishedLater(labels: seq<Label>, j: nat, k: nat, s: Simulation)
    requires PublishedBefore(labels, j, s) && j <= k
    ensures PublishedBefore(labels, k, s)
  {
  }

  /** A step takes a worker to what it was saving before, or to what it publishes. */
  lemma SavesWhatItDid(mode: Mode, db: Database, w: Worker, step: Step)
    requires Next(mode, db, w, step).Some?
    ensures var w' := Next(mode, db, w, step).value.1;
      Saving(w'.phase) ==>
        if step.Publish? then w'.phase.simulation == step.simulation
        else Saving(w.phase) && w'.phase.simulation == w.phase.simulation
    ensures step.CommitAll? || step.LoseAck? || step.Fail? ==>
      Saving(w.phase) && !Saving(Next(mode, db, w, step).value.1.phase)
    ensures step.Crash? || step.Reject? ==> !Saving(Next(mode, db, w, step).value.1.phase)
  {
    hide Flush, Commit, EventOf, RowOf, RecordsOf, AddRow, AddRecords;
  }

  lemma WorkersStep(mode: Mode, states: seq<System>, labels: seq<Label>, k: nat)
    requires Run(mode, states, labels) && k < |labels| && WorkersPublished(states[k], labels, k)
    ensures WorkersPublished(states[k + 1], labels, k + 1)
  {
    hide Next;
    var x, y, l := states[k], states[k + 1], labels[k];
    assert Steps(mode, x, l.worker, l.step, y);
    SavesWhatItDid(mode, x.db, x.workers[l.worker], l.step);
    forall id | id in y.workers && Saving(y.workers[id].phase)
      ensures PublishedBefore(labels, k + 1, y.workers[id].phase.simulation)
    {
      if id != l.worker || !l.step.Publish? {
        PublishedLater(labels, k, k + 1, x.workers[id].phase.simulation);
      }
    }
  }

  /** What a step does to the table, in a fresh run. */
  lemma TableStep(mode: Mode, states: seq<System>, labels: seq<Label>, k: nat)
    requires FreshRun(mode, states, labels) && k < |labels|
    ensures var x, y, l := states[k], states[k + 1], labels[k];
      && l.worker in x.workers
      && if l.step.CommitAll? || l.step.LoseAck?
         then x.workers[l.worker].phase.Drained?
           && var s := x.workers[l.worker].phase.simulation; y.db.rows == x.db.rows[s.id := RowOf(s)]
         else y.db == x.db
  {
    FreshRunInv(mode, states, labels, k);
    var x, l := states[k], labels[k];
    assert Steps(mode, x, l.worker, l.step, states[k + 1]);
    hide Next, Consistent, RowOf, RecordsOf, NoOrphans, Initial, FreshWorker;
    FreshIsWellFormed(x.workers[l.worker]);
    StepEffect(mode, x.db, x.workers[l.worker], l.step);
  }

  lemma {:induction false} AllPublished(mode: Mode, states: seq<System>, labels: seq<Label>, k: nat)
    requires FreshRun(mode, states, labels) && k <= |labels|
    ensures WorkersPublished(states[k], labels, k) && RowsPublished(states[k], labels, k)
  {
    hide Steps, RowOf;
    if k > 0 {
      AllPublished(mode, states, labels, k - 1);
      WorkersStep(mode, states, labels, k - 1);
      TableStep(mode, states, labels, k - 1);
      RowsStep(states[k - 1], states[k], labels, k - 1);
    }
  }

  lemma RowsStep(x: System, y: System, labels: seq<Label>, k: nat)
    requires k < |labels| && labels[k].worker in x.workers
    requires WorkersPublished(x, labels, k) && RowsPublished(x, labels, k)
    requires var l := labels[k];
      if l.step.CommitAll? || l.step.LoseAck?
      then x.workers[l.worker].phase.Drained?
        && var s := x.workers[l.worker].phase.simulation; y.db.rows == x.db.rows[s.id := RowOf(s)]
      else y.db == x.db
    ensures RowsPublished(y, labels, k + 1)
  {
    hide RowOf;
    var l := labels[k];
    forall id | id in y.db.rows ensures IsRowOfPublished(labels, k + 1, id, y.db.rows[id]) {
      if (l.step.CommitAll? || l.step.LoseAck?) && id == x.workers[l.worker].phase.simulation.id {
        PublishedLater(labels, k, k + 1, x.workers[l.worker].phase.simulation);
      } else {
        var s :| PublishedBefore(labels, k, s) && s.id == id && x.db.rows[id] == RowOf(s);
        PublishedLater(labels, k, k + 1, s);
      }
    }
  }

  /**
   In every reachable state an identifier is found if and only if there is an outbox record for it; and what is found
   is the output of a simulation that some request published under it.
   */
  lemma FoundIsPublished(mode: Mode, states: seq<System>, labels: seq<Label>, k: nat, id: Uuid)
    requires FreshRun(mode, states, labels) && k <= |labels|
    ensures Get(states[k].db, id) != None <==> exists o :: o in states[k].db.outbox && o.simulationId == id
    ensures Get(states[k].db, id) != None ==>
      exists s :: PublishedBefore(labels, k, s) && s.id == id && Get(states[k].db, id) == Some(OutputOf(s))
  {
    hide Steps, Initial, ToOutput, OutputOf, RowOf;
    BothOrNeither(mode, states, labels, k, id);
    AllPublished(mode, states, labels, k);
    if Get(states[k].db, id) != None {
      var s :| PublishedBefore(labels, k, s) && s.id == id && states[k].db.rows[id] == RowOf(s);
      OneStory(s);
    }
  }

  /** An identifier that no request published, such as that of a rejected request, is not found. */
  lemma UnpublishedIsNotFound(mode: Mode, states: seq<System>, labels: seq<Label>, k: nat, id: Uuid)
    requires FreshRun(mode, states, labels) && k <= |labels|
    requires forall n | 0 <= n < k && labels[n].step.Publish? :: labels[n].step.simulation.id != id
    ensures Get(states[k].db, id) == None
  {
    hide FreshRun, Get;
    FoundIsPublished(mode, states, labels, k, id);
  }

  // ---------------------------------------------------------------- a save that failed without effect

  /** Worker w publishes s at step n, its save ends at step e by a failure or a crash, and no other takes the id. */
  ghost predicate FailsWithoutEffect(labels: seq<Label>, n: nat, e: nat, w: WorkerId, s: Simulation) {
    && n < e < |labels| && labels[n].worker == labels[e].worker == w
    && labels[n].step.Publish? && labels[n].step.simulation == s
    && (labels[e].step.Fail? || labels[e].step.Crash?)
    && (forall m | n < m < e && labels[m].worker == w ::
          !labels[m].step.Publish? && !labels[m].step.CommitAll? && !labels[m].step.LoseAck?)
    && (forall m | 0 <= m < |labels| && m != n && labels[m].step.Publish? :: labels[m].step.simulation.id != s.id)
  }

  /** Nobody but worker w, between its publishing and the end of its save, is saving the identifier. */
  ghost predicate OnlySavedBy(x: System, id: Uuid, w: WorkerId, during: bool) {
    forall j | j in x.workers && Saving(x.workers[j].phase) && x.workers[j].phase.simulation.id == id ::
      j == w && during
  }

  lemma {:induction false} FailedSave(
    mode: Mode, states: seq<System>, labels: seq<Label>, n: nat, e: nat, w: WorkerId, s: Simulation, k: nat)
    requires FreshRun(mode, states, labels) && k <= |labels| && FailsWithoutEffect(labels, n, e, w, s)
    ensures OnlySavedBy(states[k], s.id, w, n < k <= e) && s.id !in states[k].db.rows
  {
    hide Next, RowOf;
    if k > 0 {
      FailedSave(mode, states, labels, n, e, w, s, k - 1);
      TableStep(mode, states, labels, k - 1);
      var x, l := states[k - 1], labels[k - 1];
      assert Steps(mode, x, l.worker, l.step, states[k]);
      SavesWhatItDid(mode, x.db, x.workers[l.worker], l.step);
    }
  }

  /** A save that failed without effect under an identifier of its own leaves nothing to be found, then or later. */
  lemma FailedIsNotFound(
    mode: Mode, states: seq<System>, labels: seq<Label>, n: nat, e: nat, w: WorkerId, s: Simulation, k: nat)
    requires FreshRun(mode, states, labels) && k <= |labels| && FailsWithoutEffect(labels, n, e, w, s)
    ensures Get(states[k].db, s.id) == None
    ensures forall o | o in states[k].db.outbox :: o.simulationId != s.id
  {
    hide FreshRun, FailsWithoutEffect, ToOutput;
    FailedSave(mode, states, labels, n, e, w, s, k);
    BothOrNeither(mode, states, labels, k, s.id);
    FoundIsPublished(mode, states, labels, k, s.id);
    NotStoredNotFound(mode, states, labels, k, s.id);
  }

  lemma NotStoredNotFound(mode: Mode, states: seq<System>, labels: seq<Label>, k: nat, id: Uuid)
    requires FreshRun(mode, states, labels) && k <= |labels| && id !in states[k].db.rows
    ensures Get(states[k].db, id) == None
  {
    hide Get;
    BothOrNeither(mode, states, labels, k, id);
    FoundIsPublished(mode, states, labels, k, id);
  }
}

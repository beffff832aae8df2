/** One save from beginning to end, with the faults it meets, as a function; and as a run of the protocol. */
module Saving {
  import opened Wrappers
  import opened Persistence
  import opened OutboxProtocol

  /** What goes wrong outside the constraints: opening, flushing, or committing, the last with or without effect. */
  datatype Faults = Faults(
    open: Option<Fault>, flush: Option<Fault>, commit: Option<Fault>, commitTookEffect: bool)

  const NO_FAULTS := Faults(None, None, None, false)

  /** The database, the buffer and the error after save. */
  datatype Saved = Saved(db: Database, pending: seq<Event>, error: Option<Fault>)

  function Save(db: Database, pending: seq<Event>, s: Simulation, faults: Faults): Saved {
    if faults.open.Some? then Saved(db, pending, faults.open)
    else if faults.flush.Some? then Saved(db, pending, faults.flush)
    else
      var flushed := Flush(db, AddRow(EMPTY_SESSION, RowOf(s)));
      if flushed.Failure? then Saved(db, pending, Some(Sql))
      else SaveCommit(db, AddRecords(flushed.value, RecordsOf(pending)), faults)
  }

  /** From the drain on the buffer is empty whatever happens. */
  function SaveCommit(db: Database, session: Session, faults: Faults): Saved {
    var committed := Commit(db, session);
    if faults.commit.Some? then
      Saved(if faults.commitTookEffect && committed.Success? then committed.value else db, [], faults.commit)
    else if committed.Failure? then Saved(db, [], Some(Sql))
    else Saved(committed.value, [], None)
  }

  /** The protocol steps of that save. */
  function StepsOf(db: Database, pending: seq<Event>, s: Simulation, faults: Faults): seq<Step> {
    if faults.open.Some? then [Fail(faults.open.value)]
    else if faults.flush.Some? then [Open, Fail(faults.flush.value)]
    else
      var flushed := Flush(db, AddRow(EMPTY_SESSION, RowOf(s)));
      if flushed.Failure? then [Open, Fail(Sql)]
      else
        var committed := Commit(db, AddRecords(flushed.value, RecordsOf(pending)));
        [Open, FlushRow, Drain,
         if faults.commit.Some? then
           (if faults.commitTookEffect && committed.Success? then LoseAck(faults.commit.value)
            else Fail(faults.commit.value))
         else if committed.Failure? then Fail(Sql) else CommitAll]
  }

  /** Taking steps one after another. */
  function Play(mode: Mode, db: Database, w: Worker, steps: seq<Step>): Option<(Database, Worker)>
    decreases |steps|
  {
    if steps == [] then Some((db, w))
    else
      var next := Next(mode, db, w, steps[0]);
      if next.None? then None else Play(mode, next.value.0, next.value.1, steps[1..])
  }

  /** How the request ends, given how its save did. */
  function Ending(mode: Mode, s: Simulation, error: Option<Fault>): Phase {
    if error.None? then Finished(Returned(s)) else AfterFault(mode, s, error.value)
  }

  lemma {:induction false} PlayMore(mode: Mode, db: Database, w: Worker, step: Step, rest: seq<Step>)
    requires Next(mode, db, w, step).Some?
    ensures var (db', w') := Next(mode, db, w, step).value;
      Play(mode, db, w, [step] + rest) == Play(mode, db', w', rest)
  {
    assert ([step] + rest)[1..] == rest;
  }

  lemma {:induction false} PlayLast(mode: Mode, db: Database, w: Worker, step: Step)
    requires Next(mode, db, w, step).Some?
    ensures Play(mode, db, w, [step]) == Next(mode, db, w, step)
  {
    assert [step][1..] == [];
  }

  /** An uninterrupted save is the run of those steps: same database, same buffer, same ending. */
  lemma {:induction false} SaveIsARun(mode: Mode, db: Database, pending: seq<Event>, s: Simulation, faults: Faults)
    ensures var saved := Save(db, pending, s, faults);
      Play(mode, db, Worker(pending, Staged(s)), StepsOf(db, pending, s, faults))
        == Some((saved.db, Worker(saved.pending, Ending(mode, s, saved.error))))
  {
    hide Flush, Commit, RowOf, RecordsOf, AddRow, AddRecords, Play;
    var w := Worker(pending, Staged(s));
    if faults.open.Some? {
      PlayLast(mode, db, w, Fail(faults.open.value));
    } else {
      var begun := w.(phase := Opened(s, EMPTY_SESSION));
      var flushed := Flush(db, AddRow(EMPTY_SESSION, RowOf(s)));
      if faults.flush.Some? || flushed.Failure? {
        var fault := if faults.flush.Some? then faults.flush.value else Sql;
        PlayMore(mode, db, w, Open, [Fail(fault)]);
        PlayLast(mode, db, begun, Fail(fault));
        assert [Open] + [Fail(fault)] == [Open, Fail(fault)];
      } else {
        CommitIsARun(mode, db, pending, s, faults);
      }
    }
  }

  lemma {:induction false} CommitIsARun(mode: Mode, db: Database, pending: seq<Event>, s: Simulation, faults: Faults)
    requires faults.open.None? && faults.flush.None? && Flush(db, AddRow(EMPTY_SESSION, RowOf(s))).Success?
    ensures var saved := Save(db, pending, s, faults);
      Play(mode, db, Worker(pending, Staged(s)), StepsOf(db, pending, s, faults))
        == Some((saved.db, Worker(saved.pending, Ending(mode, s, saved.error))))
  {
    hide Flush, Commit, RowOf, RecordsOf, AddRow, AddRecords, Play;
    var w := Worker(pending, Staged(s));
    var begun := w.(phase := Opened(s, EMPTY_SESSION));
    var session := Flush(db, AddRow(EMPTY_SESSION, RowOf(s))).value;
    var flushed := w.(phase := Flushed(s, session));
    var drained := Worker([], Drained(s, pending, AddRecords(session, RecordsOf(pending))));
    var steps := StepsOf(db, pending, s, faults);
    var last := steps[3];
    PlayMore(mode, db, w, Open, [FlushRow, Drain, last]);
    PlayMore(mode, db, begun, FlushRow, [Drain, last]);
    PlayMore(mode, db, flushed, Drain, [last]);
    PlayLast(mode, db, drained, last);
    assert [Open] + [FlushRow, Drain, last] == steps;
    assert [FlushRow] + [Drain, last] == [FlushRow, Drain, last];
    assert [Drain] + [last] == [Drain, last];
  }

  /** The first thing that goes wrong in a save, outside faults and refusals by the keys in the order they are met. */
  ghost function FirstError(db: Database, pending: seq<Event>, s: Simulation, faults: Faults): Option<Fault> {
    if faults.open.Some? then faults.open
    else if faults.flush.Some? then faults.flush
    else if s.id in db.rows then Some(Sql)
    else if faults.commit.Some? then faults.commit
    else if !NoOrphans(db, s.id, pending) then Some(Sql)
    else None
  }

  /** A save gets as far as its drain when the session opens and the row is flushed. */
  ghost predicate ReachesDrain(db: Database, s: Simulation, faults: Faults) {
    faults.open.None? && faults.flush.None? && s.id !in db.rows
  }

  /** Its commit takes effect when the foreign key accepts it and nothing stops it before it does. */
  ghost predicate TakesEffect(db: Database, pending: seq<Event>, s: Simulation, faults: Faults) {
    ReachesDrain(db, s, faults) && NoOrphans(db, s.id, pending) && (faults.commit.None? || faults.commitTookEffect)
  }

  /** A save stores the row with all the buffered events or nothing; it empties the buffer or leaves it alone. */
  lemma SaveOutcome(db: Database, pending: seq<Event>, s: Simulation, faults: Faults)
    ensures var saved := Save(db, pending, s, faults);
      && saved.db == (if TakesEffect(db, pending, s, faults)
                      then Database(db.rows[s.id := RowOf(s)], db.outbox + RecordsOf(pending)) else db)
      && saved.pending == (if ReachesDrain(db, s, faults) then [] else pending)
      && saved.error == FirstError(db, pending, s, faults)
      && (saved.error.None? ==> TakesEffect(db, pending, s, faults))
  {
    hide Flush, Commit, RowOf, RecordsOf, NoOrphans, SavedSession;
    FlushMeaning(db, s);
    DrainMeaning(s, pending);
    CommitMeaning(db, s, pending);
  }
}

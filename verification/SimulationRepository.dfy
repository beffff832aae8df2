/** The repository: the row and its outbox records in one transaction, reads, and pages of the history. */
module SimulationRepository {
  import opened Wrappers
  import opened Persistence
  import opened OutboxProtocol
  import opened Saving
  import opened Sessions
  import opened UnitsOfWork
  import opened Cursor
  import opened History

  datatype ReadError = InvalidCursor(error: CursorError) | Unavailable(fault: Fault)

  lemma RecordsOfPrefix(events: seq<Event>, k: nat)
    requires k < |events|
    ensures RecordsOf(events[..k + 1]) == RecordsOf(events[..k]) + [RecordOf(events[k])]
  {
    hide RecordOf;
  }

  lemma AddOneMore(s: Session, records: seq<OutboxRecord>, o: OutboxRecord)
    ensures AddRecords(AddRecords(s, records), [o]) == AddRecords(s, records + [o])
  {
    assert s.newRecords + records + [o] == s.newRecords + (records + [o]);
  }

  lemma AddNothing(s: Session)
    ensures AddRecords(s, RecordsOf([])) == s
  {
    assert s.newRecords + [] == s.newRecords;
  }

  /** The body of the transaction: the row, a flush, then a record for every staged event. */
  method WriteAll(session: SqlSession, unitOfWork: UnitOfWork, s: Simulation, fault: Option<Fault>)
    returns (error: Option<Fault>)
    requires session.isOpen && session.work == EMPTY_SESSION
    modifies session, unitOfWork
    ensures session.isOpen
    ensures var flushed := Flush(session.store.db, AddRow(EMPTY_SESSION, RowOf(s)));
      && error == (if fault.Some? then fault else if flushed.Failure? then Some(Sql) else None)
      && (error.Some? ==> unitOfWork.pending == old(unitOfWork.pending))
      && (error.None? ==>
          && unitOfWork.pending == []
          && session.work == AddRecords(flushed.value, RecordsOf(old(unitOfWork.pending))))
  {
    hide Flush, RowOf, RecordOf, RecordsOf, AddRow, AddRecords;
    session.Add(RowOf(s));
    error := session.FlushWork(fault);
    if error.None? {
      ghost var flushed := session.work;
      AddNothing(flushed);
      var events := unitOfWork.DrainEvents();
      var k := 0;
      assert events[..0] == [];
      while k < |events|
        invariant 0 <= k <= |events| && session.isOpen
        invariant unitOfWork.pending == []
        invariant session.work == AddRecords(flushed, RecordsOf(events[..k]))
      {
        session.AddRecord(RecordOf(events[k]));
        AddOneMore(flushed, RecordsOf(events[..k]), RecordOf(events[k]));
        RecordsOfPrefix(events, k);
        k := k + 1;
      }
      assert events[..k] == events;
    }
  }

  class SqlSimulationRepository {
    const sessionFactory: Store
    const unitOfWork: UnitOfWork

    constructor (unitOfWork: UnitOfWork)
      ensures this.unitOfWork == unitOfWork && sessionFactory == unitOfWork.sessionFactory
    {
      this.unitOfWork := unitOfWork;
      sessionFactory := unitOfWork.sessionFactory;
    }

    /** One save: the state it leaves behind is that of the protocol's save, and no session stays open. */
    method SaveSimulation(s: Simulation, faults: Faults) returns (error: Option<Fault>)
      modifies unitOfWork, unitOfWork.sessionFactory
      ensures var saved := Save(old(unitOfWork.sessionFactory.db), old(unitOfWork.pending), s, faults);
        && error == saved.error
        && unitOfWork.sessionFactory.db == saved.db && unitOfWork.pending == saved.pending
      ensures unitOfWork.sessionFactory.openSessions == old(unitOfWork.sessionFactory.openSessions)
    {
      hide Flush, Commit, RowOf, RecordsOf, AddRow, AddRecords;
      var session := unitOfWork.Begin(faults.open);
      if session.Failure? {
        return Some(session.error);
      }
      var bodyError := WriteAll(session.value, unitOfWork, s, faults.flush);
      error := unitOfWork.End(session.value, bodyError, faults.commit, faults.commitTookEffect);
    }

    /** The stored row under an identifier, read back. */
    method GetSimulation(id: Uuid, fault: Option<Fault>) returns (result: Result<Option<Output>, ReadError>)
      modifies sessionFactory
      ensures result == if fault.Some? then Failure(Unavailable(fault.value)) else Success(Get(sessionFactory.db, id))
      ensures sessionFactory.db == old(sessionFactory.db)
      ensures sessionFactory.openSessions == old(sessionFactory.openSessions)
    {
      hide ToOutput;
      var session := sessionFactory.OpenSession();
      result := if fault.Some? then Failure(Unavailable(fault.value)) else Success(Get(session.store.db, id));
      session.Close();
    }

    /** A page of the history; a cursor that does not decode is refused before the query is sent. */
    method ListPage(cursor: Option<string>, limit: nat, fault: Option<Fault>)
      returns (result: Result<SimulationPage, ReadError>)
      requires forall id | id in sessionFactory.db.rows :: sessionFactory.db.rows[id].id == id
      modifies sessionFactory
      ensures sessionFactory.db == old(sessionFactory.db)
      ensures sessionFactory.openSessions == old(sessionFactory.openSessions)
      ensures var page := List(sessionFactory.db.rows, cursor, limit);
        result == if StartOf(cursor).Failure? then Failure(InvalidCursor(StartOf(cursor).error))
                  else if fault.Some? then Failure(Unavailable(fault.value))
                  else Success(page.value)
    {
      hide StartOf;
      var session := sessionFactory.OpenSession();
      var before := StartOf(cursor);
      if before.Failure? {
        result := Failure(InvalidCursor(before.error));
      } else if fault.Some? {
        result := Failure(Unavailable(fault.value));
      } else {
        result := Success(List(session.store.db.rows, cursor, limit).value);
      }
      session.Close();
    }
  }
}

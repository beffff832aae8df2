/** The database behind a session factory, and one session on it. */
module Sessions {
  import opened Wrappers
  import opened Persistence
  import opened OutboxProtocol

  /** The committed database and the number of sessions that are open. */
  class Store {
    var db: Database
    var openSessions: nat

    constructor ()
      ensures db == Database(map[], []) && openSessions == 0
    {
      db := Database(map[], []);
      openSessions := 0;
    }

    method OpenSession() returns (session: SqlSession)
      modifies this
      ensures fresh(session) && session.store == this && session.work == EMPTY_SESSION && session.isOpen
      ensures db == old(db) && openSessions == old(openSessions) + 1
    {
      session := new SqlSession(this);
      openSessions := openSessions + 1;
    }
  }

  /** What a session has added and inserted is lost unless it is committed. */
  class SqlSession {
    const store: Store
    var work: Session
    var isOpen: bool

    constructor (store: Store)
      ensures this.store == store && work == EMPTY_SESSION && isOpen
    {
      this.store := store;
      work := EMPTY_SESSION;
      isOpen := true;
    }

    method Add(r: Row)
      requires isOpen
      modifies this
      ensures work == AddRow(old(work), r) && isOpen
    {
      work := work.(newRows := work.newRows + [r]);
    }

    method AddRecord(o: OutboxRecord)
      requires isOpen
      modifies this
      ensures work == AddRecords(old(work), [o]) && isOpen
    {
      work := work.(newRecords := work.newRecords + [o]);
    }

    /** Send what was added; refused by a constraint or by a fault outside it, the work stays as it was. */
    method FlushWork(fault: Option<Fault>) returns (error: Option<Fault>)
      requires isOpen
      modifies this
      ensures isOpen
      ensures var flushed := Flush(store.db, old(work));
        && error == (if fault.Some? then fault else if flushed.Failure? then Some(Sql) else None)
        && work == if error.None? then flushed.value else old(work)
    {
      var flushed := Flush(store.db, work);
      error := if fault.Some? then fault else if flushed.Failure? then Some(Sql) else None;
      if error.None? {
        work := flushed.value;
      }
    }

    /** Commit all of the work or none of it. The call may also fail although the commit took effect. */
    method CommitWork(fault: Option<Fault>, tookEffect: bool) returns (error: Option<Fault>)
      requires isOpen
      modifies this, store
      ensures isOpen && store.openSessions == old(store.openSessions)
      ensures var committed := Commit(old(store.db), old(work));
        && error == (if fault.Some? then fault else if committed.Failure? then Some(Sql) else None)
        && store.db == if committed.Success? && (fault.None? || tookEffect) then committed.value else old(store.db)
    {
      var committed := Commit(store.db, work);
      error := if fault.Some? then fault else if committed.Failure? then Some(Sql) else None;
      if committed.Success? && (fault.None? || tookEffect) {
        store.db := committed.value;
      }
      work := EMPTY_SESSION;
    }

    /** Forget everything not committed. */
    method Rollback()
      requires isOpen
      modifies this
      ensures work == EMPTY_SESSION && isOpen
    {
      work := EMPTY_SESSION;
    }

    method Close()
      requires isOpen && store.openSessions > 0
      modifies this, store
      ensures !isOpen && store.openSessions == old(store.openSessions) - 1 && store.db == old(store.db)
    {
      isOpen := false;
      store.openSessions := store.openSessions - 1;
    }
  }
}

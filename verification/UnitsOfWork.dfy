/** The unit of work: events staged by the publisher, drained by the repository inside its transaction. */
module UnitsOfWork {
  import opened Wrappers
  import opened Persistence
  import opened OutboxProtocol
  import opened Sessions

  class UnitOfWork {
    const sessionFactory: Store
    var pending: seq<Event>

    constructor (sessionFactory: Store)
      ensures this.sessionFactory == sessionFactory && pending == []
    {
      this.sessionFactory := sessionFactory;
      pending := [];
    }

    /** Append to what is already staged. */
    method StageEvents(events: seq<Event>)
      modifies this
      ensures pending == old(pending) + events
    {
      pending := pending + events;
    }

    /** Hand over everything staged and forget it, whatever becomes of the transaction. */
    method DrainEvents() returns (events: seq<Event>)
      modifies this
      ensures events == old(pending) && pending == []
    {
      events := pending;
      pending := [];
    }

    /** Entering the transaction: a new session, unless opening it fails. */
    method Begin(fault: Option<Fault>) returns (session: Result<SqlSession, Fault>)
      modifies sessionFactory
      ensures sessionFactory.db == old(sessionFactory.db)
      ensures fault.Some? ==>
        session == Failure(fault.value) && sessionFactory.openSessions == old(sessionFactory.openSessions)
      ensures fault.None? ==>
        && session.Success? && fresh(session.value) && session.value.store == sessionFactory
        && session.value.isOpen && session.value.work == EMPTY_SESSION
        && sessionFactory.openSessions == old(sessionFactory.openSessions) + 1
    {
      if fault.Some? {
        return Failure(fault.value);
      }
      var opening := sessionFactory.OpenSession();
      session := Success(opening);
    }

    /** Leaving it: commit if the body succeeded, roll back if it or the commit failed, close in any case. */
    method End(session: SqlSession, bodyError: Option<Fault>, fault: Option<Fault>, tookEffect: bool)
      returns (error: Option<Fault>)
      requires session.isOpen && session.store == sessionFactory && sessionFactory.openSessions > 0
      modifies session, sessionFactory
      ensures !session.isOpen && sessionFactory.openSessions == old(sessionFactory.openSessions) - 1
      ensures bodyError.Some? ==> error == bodyError && sessionFactory.db == old(sessionFactory.db)
      ensures bodyError.None? ==>
        var committed := Commit(old(sessionFactory.db), old(session.work));
        && error == (if fault.Some? then fault else if committed.Failure? then Some(Sql) else None)
        && sessionFactory.db ==
           if committed.Success? && (fault.None? || tookEffect) then committed.value else old(sessionFactory.db)
    {
      error := bodyError;
      if error.None? {
        error := session.CommitWork(fault, tookEffect);
      }
      if error.Some? {
        session.Rollback();
      }
      session.Close();
    }
  }

  /** The publisher stages events for the save that follows. */
  class OutboxEventPublisher {
    const unitOfWork: UnitOfWork

    constructor (unitOfWork: UnitOfWork)
      ensures this.unitOfWork == unitOfWork
    {
      this.unitOfWork := unitOfWork;
    }

    method Publish(events: seq<Event>)
      modifies unitOfWork
      ensures unitOfWork.pending == old(unitOfWork.pending) + events
    {
      unitOfWork.StageEvents(events);
    }
  }
}

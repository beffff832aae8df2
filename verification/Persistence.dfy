/** The records of a simulation, the two tables they are written to, and what a database transaction does. */
module Persistence {
  import opened Wrappers
  import opened Decimals
  import opened Calculators
  import opened Timestamps
  import opened DecimalText

  /** A 128-bit identifier, ordered as a number. */
  type Uuid = n: nat | n < 0x1_0000_0000_0000_0000_0000_0000_0000_0000

  /** A completed simulation. */
  datatype Simulation = Simulation(
    appliedRate: Decimal, calculatedPremium: Money, deductibleValue: Money, policyLimit: Money,
    id: Uuid, occurredAt: Timestamp, registrationCountry: Option<string>, rulesVersion: string, vehicle: Vehicle)

  /** The event recorded by a simulation: no address, no fee, no deductible fraction. */
  datatype Event = Event(
    appliedRate: Decimal, calculatedPremium: Decimal, deductibleValue: Decimal, policyLimit: Decimal,
    locationCountry: Option<string>, occurredAt: Timestamp, rulesVersion: string, simulationId: Uuid,
    vehicleMake: string, vehicleModel: string, vehicleYear: int)

  datatype Row = Row(
    id: Uuid, appliedRate: Decimal, calculatedPremium: Decimal, createdAt: Timestamp, currencyCode: string,
    deductibleValue: Decimal, locationCountry: Option<string>, policyLimit: Decimal, rulesVersion: string,
    vehicleMake: string, vehicleModel: string, vehicleValue: Decimal, vehicleYear: int)

  /** Decimals travel in the payload as their text. */
  datatype Payload = Payload(
    appliedRate: string, calculatedPremium: string, deductibleValue: string, policyLimit: string,
    locationCountry: Option<string>, rulesVersion: string, vehicleMake: string, vehicleModel: string,
    vehicleYear: int)

  datatype OutboxRecord = OutboxRecord(eventType: string, occurredAt: Timestamp, payload: Payload, simulationId: Uuid)

  datatype Car = Car(make: string, model: string, value: Decimal, year: int)

  datatype Output = Output(
    appliedRate: Decimal, calculatedPremium: Decimal, car: Car, createdAt: Timestamp, deductibleValue: Decimal,
    policyLimit: Decimal, rulesVersion: string, simulationId: Uuid)

  /** The event the aggregate records about itself. */
  function EventOf(s: Simulation): Event {
    Event(s.appliedRate, s.calculatedPremium.amount, s.deductibleValue.amount, s.policyLimit.amount,
          s.registrationCountry, s.occurredAt, s.rulesVersion, s.id, s.vehicle.make, s.vehicle.model, s.vehicle.year)
  }

  /** The row the repository writes. */
  function RowOf(s: Simulation): Row {
    Row(s.id, s.appliedRate, s.calculatedPremium.amount, s.occurredAt, s.calculatedPremium.currency,
        s.deductibleValue.amount, s.registrationCountry, s.policyLimit.amount, s.rulesVersion,
        s.vehicle.make, s.vehicle.model, s.vehicle.value.amount, s.vehicle.year)
  }

  /** The outbox row written for a drained event. */
  function RecordOf(e: Event): OutboxRecord {
    OutboxRecord("PremiumSimulationCalculated", e.occurredAt,
      Payload(Str(e.appliedRate), Str(e.calculatedPremium), Str(e.deductibleValue), Str(e.policyLimit),
              e.locationCountry, e.rulesVersion, e.vehicleMake, e.vehicleModel, e.vehicleYear),
      e.simulationId)
  }

  function RecordsOf(events: seq<Event>): (records: seq<OutboxRecord>)
    ensures |records| == |events|
    ensures forall k :: 0 <= k < |events| ==> records[k] == RecordOf(events[k])
  {
    if events == [] then [] else [RecordOf(events[0])] + RecordsOf(events[1..])
  }

  /** What execute returns. */
  function OutputOf(s: Simulation): Output {
    Output(s.appliedRate, s.calculatedPremium.amount,
           Car(s.vehicle.make, s.vehicle.model, s.vehicle.value.amount, s.vehicle.year),
           s.occurredAt, s.deductibleValue.amount, s.policyLimit.amount, s.rulesVersion, s.id)
  }

  /** What a stored row is read back as. */
  function ToOutput(r: Row): Output {
    Output(r.appliedRate, r.calculatedPremium, Car(r.vehicleMake, r.vehicleModel, r.vehicleValue, r.vehicleYear),
           r.createdAt, r.deductibleValue, r.policyLimit, r.rulesVersion, r.id)
  }

  /** An outbox record tells the same story as a row. */
  ghost predicate Agrees(o: OutboxRecord, r: Row) {
    && o.eventType == "PremiumSimulationCalculated" && o.simulationId == r.id && o.occurredAt == r.createdAt
    && o.payload.appliedRate == Str(r.appliedRate) && o.payload.calculatedPremium == Str(r.calculatedPremium)
    && o.payload.deductibleValue == Str(r.deductibleValue) && o.payload.policyLimit == Str(r.policyLimit)
    && o.payload.locationCountry == r.locationCountry && o.payload.rulesVersion == r.rulesVersion
    && o.payload.vehicleMake == r.vehicleMake && o.payload.vehicleModel == r.vehicleModel
    && o.payload.vehicleYear == r.vehicleYear
  }

  /** Row, event and returned output of one simulation tell the same story. */
  lemma OneStory(s: Simulation)
    ensures Agrees(RecordOf(EventOf(s)), RowOf(s))
    ensures ToOutput(RowOf(s)) == OutputOf(s)
  {
  }

  /** A consumer of the record reads the row's figures back exactly, coefficient and exponent. */
  lemma AgreementIsExact(o: OutboxRecord, r: Row)
    requires Agrees(o, r)
    ensures ReadDecimal(o.payload.appliedRate) == Some(r.appliedRate)
    ensures ReadDecimal(o.payload.calculatedPremium) == Some(r.calculatedPremium)
    ensures ReadDecimal(o.payload.deductibleValue) == Some(r.deductibleValue)
    ensures ReadDecimal(o.payload.policyLimit) == Some(r.policyLimit)
  {
    hide Str, ReadDecimal;
    DecimalRoundTrip(r.appliedRate);
    DecimalRoundTrip(r.calculatedPremium);
    DecimalRoundTrip(r.deductibleValue);
    DecimalRoundTrip(r.policyLimit);
  }

  // ---------------------------------------------------------------- the database

  datatype Database = Database(rows: map<Uuid, Row>, outbox: seq<OutboxRecord>)

  /** A session: what has been added but not sent, and what its transaction has inserted. */
  datatype Session = Session(
    newRows: seq<Row>, newRecords: seq<OutboxRecord>, inserted: map<Uuid, Row>, insertedRecords: seq<OutboxRecord>)

  const EMPTY_SESSION := Session([], [], map[], [])

  datatype SqlError = IntegrityError | OperationalError

  /** Insert rows one by one; the primary key refuses an identifier seen in the database or the transaction. */
  function InsertRows(db: Database, inserted: map<Uuid, Row>, rows: seq<Row>): Result<map<Uuid, Row>, SqlError>
    decreases |rows|
  {
    if rows == [] then Success(inserted)
    else if rows[0].id in db.rows || rows[0].id in inserted then Failure(IntegrityError)
    else InsertRows(db, inserted[rows[0].id := rows[0]], rows[1..])
  }

  /** The foreign key: every record names a row of the database or of the transaction. */
  predicate ForeignKeyHolds(db: Database, inserted: map<Uuid, Row>, records: seq<OutboxRecord>) {
    forall o | o in records :: o.simulationId in db.rows || o.simulationId in inserted
  }

  /** Send what was added: rows first, then the records that refer to them. */
  function Flush(db: Database, s: Session): Result<Session, SqlError> {
    var inserted :- InsertRows(db, s.inserted, s.newRows);
    if !ForeignKeyHolds(db, inserted, s.newRecords) then Failure(IntegrityError)
    else Success(Session([], [], inserted, s.insertedRecords + s.newRecords))
  }

  /** Flush, then apply the transaction as a whole; an identifier committed meanwhile refuses all of it. */
  function Commit(db: Database, s: Session): Result<Database, SqlError> {
    var flushed :- Flush(db, s);
    if db.rows.Keys * flushed.inserted.Keys != {} then Failure(IntegrityError)
    else Success(Database(db.rows + flushed.inserted, db.outbox + flushed.insertedRecords))
  }

  function AddRow(s: Session, r: Row): Session {
    s.(newRows := s.newRows + [r])
  }

  function AddRecords(s: Session, records: seq<OutboxRecord>): Session {
    s.(newRecords := s.newRecords + records)
  }

  // ---------------------------------------------------------------- consistency

  function EventsFor(outbox: seq<OutboxRecord>, id: Uuid): seq<OutboxRecord> {
    if outbox == [] then []
    else if outbox[0].simulationId == id then [outbox[0]] + EventsFor(outbox[1..], id)
    else EventsFor(outbox[1..], id)
  }

  /** Every row has exactly one outbox record, which agrees with it, and no record is without a row. */
  ghost predicate Consistent(db: Database) {
    && (forall id | id in db.rows ::
          db.rows[id].id == id && |EventsFor(db.outbox, id)| == 1 && Agrees(EventsFor(db.outbox, id)[0], db.rows[id]))
    && (forall o | o in db.outbox :: o.simulationId in db.rows)
  }

  lemma {:induction false} EventsForAppend(outbox: seq<OutboxRecord>, more: seq<OutboxRecord>, id: Uuid)
    ensures EventsFor(outbox + more, id) == EventsFor(outbox, id) + EventsFor(more, id)
  {
    if outbox == [] {
      assert outbox + more == more;
    } else {
      EventsForAppend(outbox[1..], more, id);
      assert (outbox + more)[1..] == outbox[1..] + more;
      var rest, added := EventsFor(outbox[1..], id), EventsFor(more, id);
      assert [outbox[0]] + (rest + added) == [outbox[0]] + rest + added;
    }
  }

  lemma {:induction false} EventsForAbsent(outbox: seq<OutboxRecord>, id: Uuid)
    requires forall o | o in outbox :: o.simulationId != id
    ensures EventsFor(outbox, id) == []
  {
    if outbox != [] {
      EventsForAbsent(outbox[1..], id);
    }
  }

  lemma EventsForOne(o: OutboxRecord, id: Uuid)
    ensures EventsFor([o], id) == if o.simulationId == id then [o] else []
  {
    assert [o][1..] == [];
  }

  /** Adding a new row together with its one record keeps the tables consistent. */
  lemma ConsistentAfterPair(db: Database, r: Row, o: OutboxRecord)
    requires Consistent(db) && r.id !in db.rows && Agrees(o, r)
    ensures Consistent(Database(db.rows[r.id := r], db.outbox + [o]))
  {
    var db' := Database(db.rows[r.id := r], db.outbox + [o]);
    forall id | id in db'.rows
      ensures db'.rows[id].id == id && |EventsFor(db'.outbox, id)| == 1
      ensures Agrees(EventsFor(db'.outbox, id)[0], db'.rows[id])
    {
      EventsForAppend(db.outbox, [o], id);
      EventsForOne(o, id);
      if id == r.id {
        EventsForAbsent(db.outbox, id);
      }
    }
  }

  /** A session holding one new row and its record, exactly as save builds it. */
  function SavedSession(s: Simulation, events: seq<Event>): Session {
    Session([], RecordsOf(events), map[s.id := RowOf(s)], [])
  }

  /** Every event is about the given simulation or about one already stored. */
  ghost predicate NoOrphans(db: Database, id: Uuid, events: seq<Event>) {
    forall e | e in events :: e.simulationId in db.rows || e.simulationId == id
  }

  /** Committing the session of one save adds its row and all its records, or is refused as a whole. */
  lemma CommitMeaning(db: Database, s: Simulation, events: seq<Event>)
    ensures Commit(db, SavedSession(s, events)) ==
      if s.id in db.rows || !NoOrphans(db, s.id, events) then Failure(IntegrityError)
      else Success(Database(db.rows[s.id := RowOf(s)], db.outbox + RecordsOf(events)))
  {
    hide NoOrphans, Flush, RecordsOf, RowOf;
    FlushSaved(db, s, events);
    MergeOne(db.rows, s.id, RowOf(s));
  }

  lemma FlushSaved(db: Database, s: Simulation, events: seq<Event>)
    ensures Flush(db, SavedSession(s, events)) ==
      if !NoOrphans(db, s.id, events) then Failure(IntegrityError)
      else Success(Session([], [], map[s.id := RowOf(s)], RecordsOf(events)))
  {
    hide RowOf, RecordsOf, NoOrphans, ForeignKeyHolds;
    KeyHoldsForSaved(db, s, events);
    assert [] + RecordsOf(events) == RecordsOf(events);
  }

  /** The foreign key accepts the records of a save exactly when no event is an orphan. */
  lemma KeyHoldsForSaved(db: Database, s: Simulation, events: seq<Event>)
    ensures ForeignKeyHolds(db, map[s.id := RowOf(s)], RecordsOf(events)) <==> NoOrphans(db, s.id, events)
  {
    hide RowOf, RecordsOf;
    RecordsReferTo(db, s.id, events);
  }

  lemma MergeOne(rows: map<Uuid, Row>, id: Uuid, r: Row)
    ensures rows.Keys * map[id := r].Keys != {} <==> id in rows
    ensures rows + map[id := r] == rows[id := r]
  {
    if id in rows {
      assert id in rows.Keys * map[id := r].Keys;
    }
  }

  lemma RecordKey(e: Event)
    ensures RecordOf(e).simulationId == e.simulationId
  {
  }

  lemma RecordsReferTo(db: Database, id: Uuid, events: seq<Event>)
    ensures (forall o | o in RecordsOf(events) :: o.simulationId in db.rows || o.simulationId == id)
       <==> (forall e | e in events :: e.simulationId in db.rows || e.simulationId == id)
  {
    hide RecordOf, RecordsOf;
    var records := RecordsOf(events);
    if forall o | o in records :: o.simulationId in db.rows || o.simulationId == id {
      forall e | e in events ensures e.simulationId in db.rows || e.simulationId == id {
        var k :| 0 <= k < |events| && events[k] == e;
        RecordKey(e);
        assert records[k] in records;
      }
    }
    if forall e | e in events :: e.simulationId in db.rows || e.simulationId == id {
      forall o | o in records ensures o.simulationId in db.rows || o.simulationId == id {
        var k :| 0 <= k < |records| && records[k] == o;
        RecordKey(events[k]);
        assert events[k] in events;
      }
    }
  }
}

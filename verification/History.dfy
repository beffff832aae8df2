/** The history of simulations, page by page: rows and cursors on top of keyset pagination. */
module History {
  import opened Wrappers
  import opened Timestamps
  import opened Persistence
  import opened OutboxProtocol
  import opened Keyset
  import opened PageWalk
  import opened Cursor

  /** The committed rows, under their primary key. */
  type Table = t: map<Uuid, Row> | forall id | id in t :: t[id].id == id witness map[]

  datatype SimulationPage = SimulationPage(items: seq<Output>, nextCursor: Option<string>)

  function KeyOf(r: Row): Key {
    Key(Instant(r.createdAt), r.id)
  }

  function KeysOf(t: Table): set<Key> {
    set id | id in t :: KeyOf(t[id])
  }

  /** Creation times are compared as points in time, whatever their offset. */
  function KeyAt(p: Position): Key {
    Key(Instant(p.createdAt), p.id)
  }

  /** Where the query starts: no cursor is the top of the table. */
  function StartOf(cursor: Option<string>): Result<Option<Key>, CursorError> {
    if cursor.None? then Success(None)
    else
      var p :- Decode(cursor.value);
      Success(Some(KeyAt(p)))
  }

  ghost predicate AllStored(t: Table, keys: seq<Key>) {
    forall i | 0 <= i < |keys| :: keys[i].id in t && KeyOf(t[keys[i].id]) == keys[i]
  }

  lemma QueryIsStored(t: Table, before: Option<Key>, n: nat)
    ensures AllStored(t, Query(KeysOf(t), before, n))
  {
    hide Query;
    QueryMeaning(KeysOf(t), before, n);
    var q := Query(KeysOf(t), before, n);
    forall i | 0 <= i < |q| ensures q[i].id in t && KeyOf(t[q[i].id]) == q[i] {
      assert q[i] in q;
    }
  }

  function RowsAt(t: Table, keys: seq<Key>): (rows: seq<Row>)
    requires forall i | 0 <= i < |keys| :: keys[i].id in t
    ensures |rows| == |keys| && forall i | 0 <= i < |keys| :: rows[i] == t[keys[i].id]
  {
    seq(|keys|, i requires 0 <= i < |keys| => t[keys[i].id])
  }

  function OutputsOf(rows: seq<Row>): (outputs: seq<Output>)
    ensures |outputs| == |rows| && forall i | 0 <= i < |rows| :: outputs[i] == ToOutput(rows[i])
  {
    seq(|rows|, i requires 0 <= i < |rows| => ToOutput(rows[i]))
  }

  /** One page of the repository. */
  function List(t: Table, cursor: Option<string>, limit: nat): Result<SimulationPage, CursorError> {
    var before :- StartOf(cursor);
    QueryIsStored(t, before, limit + 1);
    var records := RowsAt(t, Query(KeysOf(t), before, limit + 1));
    var hasMore := |records| > limit;
    var page := if hasMore then records[..limit] else records;
    var nextCursor :=
      if hasMore && page != [] then
        var last := page[|page| - 1];
        Some(Encode(Position(last.createdAt, last.id)))
      else None;
    Success(SimulationPage(OutputsOf(page), nextCursor))
  }

  const MAX_LIMIT := 100

  function Gap(a: int, b: int): nat {
    if a < b then b - a else a - b
  }

  /** The allowed page size nearest to the one asked for. */
  function Clamp(limit: int): (r: Limit)
    ensures r <= 100 && forall n | 1 <= n <= 100 :: Gap(limit, r) <= Gap(limit, n)
    ensures (1 <= limit <= 100 ==> r == limit) && (limit > 100 ==> r == 100) && (limit < 1 ==> r == 1)
  {
    if limit < 1 then 1 else if limit > MAX_LIMIT then MAX_LIMIT else limit
  }

  /** The use case. */
  function ListSimulations(t: Table, cursor: Option<string>, limit: int): Result<SimulationPage, CursorError> {
    List(t, cursor, Clamp(limit))
  }

  // ---------------------------------------------------------------- a page of rows is a page of keys

  function OutputKey(o: Output): Key {
    Key(Instant(o.createdAt), o.simulationId)
  }

  function OutputKeys(outputs: seq<Output>): (keys: seq<Key>)
    ensures |keys| == |outputs| && forall i | 0 <= i < |keys| :: keys[i] == OutputKey(outputs[i])
  {
    seq(|outputs|, i requires 0 <= i < |outputs| => OutputKey(outputs[i]))
  }

  /** Every item is the stored row of its identifier, read back. */
  ghost predicate ReadFrom(t: Table, outputs: seq<Output>) {
    forall i | 0 <= i < |outputs| ::
      outputs[i].simulationId in t && outputs[i] == ToOutput(t[outputs[i].simulationId])
  }

  /** The cursor of the next page stands for the key the next page starts below. */
  ghost predicate StandsFor(cursor: Option<string>, before: Option<Key>) {
    StartOf(cursor) == Success(before)
  }

  /** A page fetched with a cursor is the page of the key the cursor stands for, and so is its next cursor. */
  lemma ListMeaning(t: Table, cursor: Option<string>, before: Option<Key>, limit: nat)
    requires StandsFor(cursor, before)
    ensures var page := List(t, cursor, limit);
      var keys := PageOf(KeysOf(t), before, limit);
      && page.Success? && OutputKeys(page.value.items) == keys.items && ReadFrom(t, page.value.items)
      && StandsFor(page.value.nextCursor, keys.next)
      && (page.value.nextCursor.Some? <==> keys.next.Some?)
  {
    hide Query, Encode, Decode, ToOutput, Instant, OutputKeys, ReadFrom, KeysOf, StartOf, RowsAt, OutputsOf;
    QueryIsStored(t, before, limit + 1);
    var q := Query(KeysOf(t), before, limit + 1);
    var page := List(t, cursor, limit).value;
    var rows := RowsAt(t, q);
    ReadBackKeys(t, Take(q, limit), if |rows| > limit then rows[..limit] else rows);
    if page.nextCursor.Some? {
      var last := rows[..limit][limit - 1];
      EncodedStandsFor(last);
    } else {
      NoCursorStandsForTop();
    }
  }

  lemma EncodedStandsFor(r: Row)
    ensures StandsFor(Some(Encode(Position(r.createdAt, r.id))), Some(KeyOf(r)))
  {
    hide Encode, Decode, Instant;
    RoundTrip(Position(r.createdAt, r.id));
  }

  lemma NoCursorStandsForTop()
    ensures StandsFor(None, None)
  {
  }

  lemma ReadBackKeys(t: Table, keys: seq<Key>, rows: seq<Row>)
    requires AllStored(t, keys) && |rows| == |keys| && forall i | 0 <= i < |keys| :: rows[i] == t[keys[i].id]
    ensures OutputKeys(OutputsOf(rows)) == keys && ReadFrom(t, OutputsOf(rows))
  {
    hide Instant;
  }

  /**
   A listing is refused exactly for the texts that spell no position, and then by naming the text: every base64url of a
   timestamp, a bar and an identifier is served, whoever wrote it and whether or not such a row exists.
   */
  lemma InvalidCursorRefused(t: Table, cursor: string, limit: int)
    ensures ListSimulations(t, Some(cursor), limit).Success? <==>
      IsAscii(cursor) && exists a, b, p :: Spells(cursor, a, b, p)
    ensures ListSimulations(t, Some(cursor), limit).Failure? ==>
      ListSimulations(t, Some(cursor), limit) == Failure(InvalidCursorError(cursor))
  {
    hide Query, Encode, Decode, Spells;
    if Decode(cursor).Success? {
      DecodeMeaning(cursor, Decode(cursor).value);
    }
    if a, b, p :| IsAscii(cursor) && Spells(cursor, a, b, p) {
      DecodeMeaning(cursor, p);
    }
    if Decode(cursor).Failure? {
      FailureNamesCursor(cursor);
    }
  }

  lemma FailureNamesCursor(cursor: string)
    requires Decode(cursor).Failure?
    ensures Decode(cursor) == Failure(InvalidCursorError(cursor))
  {
    hide Read;
  }

  // ---------------------------------------------------------------- the walk of a client

  function KeyPages(pages: seq<SimulationPage>): (keys: seq<seq<Key>>)
    ensures |keys| == |pages| && forall i | 0 <= i < |pages| :: keys[i] == OutputKeys(pages[i].items)
  {
    seq(|pages|, i requires 0 <= i < |pages| => OutputKeys(pages[i].items))
  }

  function KeyTables(tables: nat -> Table): nat -> set<Key> {
    (i: nat) => KeysOf(tables(i))
  }

  function Clamps(limits: nat -> int): nat -> Limit {
    (i: nat) => Clamp(limits(i))
  }

  /** Page i was read from the table request i found. */
  ghost predicate AllRead(tables: nat -> Table, pages: seq<SimulationPage>) {
    forall i | 0 <= i < |pages| :: ReadFrom(tables(i), pages[i].items)
  }

  /** The pages are those of the walk on keys, and their items are the rows each request saw. */
  ghost predicate IsWalk(tables: nat -> Table, limits: nat -> int, pages: seq<SimulationPage>) {
    && KeyPages(pages) == Walk(KeyTables(tables), Clamps(limits), 0, None)
    && AllRead(tables, pages)
  }

  /** What the walk does next, on keys. */
  lemma WalkStep(tables: nat -> Table, limits: nat -> int, i: nat, before: Option<Key>)
    ensures var p := PageOf(KeysOf(tables(i)), before, Clamp(limits(i)));
      && (p.next.Some? ==> IsUnder(p.next.value, before))
      && Walk(KeyTables(tables), Clamps(limits), i, before)
        == [p.items] + (if p.next.None? then [] else Walk(KeyTables(tables), Clamps(limits), i + 1, p.next))
  {
    hide PageOf, KeysOf;
    PageMeaning(KeysOf(tables(i)), before, Clamp(limits(i)));
    var p := PageOf(KeysOf(tables(i)), before, Clamp(limits(i)));
    assert p.next.Some? ==> p.next.value in p.items;
    assert [p.items] + [] == [p.items];
  }

  lemma KeyPagesAppend(pages: seq<SimulationPage>, page: SimulationPage)
    ensures KeyPages(pages + [page]) == KeyPages(pages) + [OutputKeys(page.items)]
  {
  }

  lemma AllReadAppend(tables: nat -> Table, pages: seq<SimulationPage>, page: SimulationPage)
    requires AllRead(tables, pages) && ReadFrom(tables(|pages|), page.items)
    ensures AllRead(tables, pages + [page])
  {
    hide ReadFrom;
  }

  /** After some pages of a walk: those still to come, on keys, are the walk below the current cursor. */
  ghost predicate Underway(
    tables: nat -> Table, limits: nat -> int, pages: seq<SimulationPage>, cursor: Option<string>, before: Option<Key>)
  {
    && StandsFor(cursor, before) && AllRead(tables, pages)
    && KeyPages(pages) + Walk(KeyTables(tables), Clamps(limits), |pages|, before)
       == Walk(KeyTables(tables), Clamps(limits), 0, None)
  }

  /** The next request of a walk that is under way. */
  lemma NextRequest(
    tables: nat -> Table, limits: nat -> int, pages: seq<SimulationPage>, cursor: Option<string>, before: Option<Key>)
    requires Underway(tables, limits, pages, cursor, before)
    ensures var i := |pages|;
      var response := ListSimulations(tables(i), cursor, limits(i));
      && response.Success?
      && var page := response.value;
        var next := PageOf(KeysOf(tables(i)), before, Clamp(limits(i))).next;
        && (page.nextCursor.None? ==> IsWalk(tables, limits, pages + [page]))
        && (page.nextCursor.Some? ==>
            next.Some? && IsUnder(next.value, before)
            && Underway(tables, limits, pages + [page], page.nextCursor, next))
  {
    hide KeysOf, PageOf, List, Walk, KeyPages, KeyTables, Clamps, OutputKeys, ReadFrom, StartOf, AllRead, Clamp;
    var i := |pages|;
    ListMeaning(tables(i), cursor, before, Clamp(limits(i)));
    WalkStep(tables, limits, i, before);
    var page := ListSimulations(tables(i), cursor, limits(i)).value;
    KeyPagesAppend(pages, page);
    AllReadAppend(tables, pages, page);
    var next := PageOf(KeysOf(tables(i)), before, Clamp(limits(i))).next;
    if page.nextCursor.Some? {
      var rest := Walk(KeyTables(tables), Clamps(limits), i + 1, next);
      assert KeyPages(pages) + ([OutputKeys(page.items)] + rest) == KeyPages(pages + [page]) + rest;
    }
  }

  /**
   Following the next cursor until there is none. Request i finds the table tables(i). No cursor is ever
   refused, and the walk ends.
   */
  method FollowCursors(tables: nat -> Table, limits: nat -> int) returns (pages: seq<SimulationPage>)
    ensures IsWalk(tables, limits, pages)
    ensures |pages| > 0 && pages[|pages| - 1].nextCursor == None
  {
    hide Underway, IsWalk, ListSimulations, KeysOf, PageOf, Clamp;
    ghost var before: Option<Key> := None;
    var cursor: Option<string> := None;
    var more := true;
    pages := [];
    StartsAtTop(tables, limits);
    while more
      invariant if more then Underway(tables, limits, pages, cursor, before) else IsWalk(tables, limits, pages)
      invariant !more ==> |pages| > 0 && pages[|pages| - 1].nextCursor == None
      decreases if more then 1 else 0, if before.None? then 1 else 0,
        if before.None? then 0 else before.value.instant,
        if before.None? then 0 else before.value.id
    {
      var i := |pages|;
      NextRequest(tables, limits, pages, cursor, before);
      var page := ListSimulations(tables(i), cursor, limits(i)).value;
      before := PageOf(KeysOf(tables(i)), before, Clamp(limits(i))).next;
      pages := pages + [page];
      cursor := page.nextCursor;
      more := cursor.Some?;
    }
  }

  lemma StartsAtTop(tables: nat -> Table, limits: nat -> int)
    ensures Underway(tables, limits, [], None, None)
  {
    hide Walk;
    var all := Walk(KeyTables(tables), Clamps(limits), 0, None);
    assert [] + all == all;
  }
}

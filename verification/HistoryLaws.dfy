/** What a client sees of the history: every row once, in order, whatever is saved meanwhile. */
module HistoryLaws {
  import opened Wrappers
  import opened Persistence
  import opened OutboxProtocol
  import opened Keyset
  import opened PageWalk
  import opened History

  /** Everything a client received, in order. */
  function AllItems(pages: seq<SimulationPage>): seq<Output> {
    if pages == [] then [] else pages[0].items + AllItems(pages[1..])
  }

  lemma {:induction false} AllItemsKeys(pages: seq<SimulationPage>)
    ensures OutputKeys(AllItems(pages)) == Flat(KeyPages(pages))
  {
    hide OutputKey;
    if pages != [] {
      AllItemsKeys(pages[1..]);
      var rest := AllItems(pages[1..]);
      assert KeyPages(pages)[1..] == KeyPages(pages[1..]);
      assert OutputKeys(pages[0].items + rest) == OutputKeys(pages[0].items) + OutputKeys(rest);
    }
  }

  /** An output is the row request i found under its identifier, read back. */
  ghost predicate CameFrom(tables: nat -> Table, i: nat, o: Output) {
    o.simulationId in tables(i) && o == ToOutput(tables(i)[o.simulationId])
  }

  /** The tables of the requests from number i on. */
  function From(tables: nat -> Table, i: nat): nat -> Table {
    (j: nat) => tables(i + j)
  }

  lemma AllReadTail(tables: nat -> Table, pages: seq<SimulationPage>)
    requires AllRead(tables, pages) && pages != []
    ensures AllRead(From(tables, 1), pages[1..])
  {
    hide ReadFrom;
    forall i | 0 <= i < |pages[1..]| ensures ReadFrom(From(tables, 1)(i), pages[1..][i].items) {
      assert ReadFrom(tables(i + 1), pages[i + 1].items);
    }
  }

  lemma {:induction false} AllItemsRead(tables: nat -> Table, pages: seq<SimulationPage>, n: nat)
    requires AllRead(tables, pages) && n < |AllItems(pages)|
    ensures exists i: nat :: CameFrom(tables, i, AllItems(pages)[n])
    decreases |pages|
  {
    hide ToOutput;
    var first := |pages[0].items|;
    if n < first {
      assert ReadFrom(tables(0), pages[0].items);
      assert CameFrom(tables, 0, AllItems(pages)[n]);
    } else {
      hide AllRead;
      AllReadTail(tables, pages);
      AllItemsRead(From(tables, 1), pages[1..], n - first);
      var i: nat :| CameFrom(From(tables, 1), i, AllItems(pages)[n]);
      assert CameFrom(tables, i + 1, AllItems(pages)[n]);
    }
  }

  /** Rows are added between requests but never changed or removed. */
  ghost predicate Growing(tables: nat -> Table) {
    forall i: nat, j: nat, id | i <= j && id in tables(i) :: id in tables(j) && tables(j)[id] == tables(i)[id]
  }

  /** The keys received strictly descend in (creation time, identifier). */
  lemma HistoryDescends(tables: nat -> Table, limits: nat -> int, pages: seq<SimulationPage>)
    requires IsWalk(tables, limits, pages)
    ensures StrictlyDescending(OutputKeys(AllItems(pages)))
  {
    hide Walk, Flat, KeyPages, OutputKeys;
    AllItemsKeys(pages);
    WalkDescends(KeyTables(tables), Clamps(limits), 0, None);
  }

  lemma RowKeyed(t: Table, id: Uuid)
    requires id in t
    ensures KeyOf(t[id]) in KeysOf(t) && OutputKey(ToOutput(t[id])) == KeyOf(t[id])
    ensures ToOutput(t[id]).simulationId == id
  {
  }

  /** No simulation is returned twice. */
  lemma NoRowTwice(tables: nat -> Table, limits: nat -> int, pages: seq<SimulationPage>, m: nat, n: nat)
    requires IsWalk(tables, limits, pages) && Growing(tables)
    requires m < |AllItems(pages)| && n < |AllItems(pages)|
    requires AllItems(pages)[m].simulationId == AllItems(pages)[n].simulationId
    ensures m == n
  {
    hide Walk, Flat, KeyPages, ToOutput, OutputKeys, AllItems, AllRead;
    AllItemsKeys(pages);
    AllItemsRead(tables, pages, m);
    AllItemsRead(tables, pages, n);
    var all := AllItems(pages);
    var i: nat :| CameFrom(tables, i, all[m]);
    var j: nat :| CameFrom(tables, j, all[n]);
    assert all[m] == all[n];
    var keys := Flat(Walk(KeyTables(tables), Clamps(limits), 0, None));
    assert OutputKeys(all) == keys;
    NoKeyTwice(KeyTables(tables), Clamps(limits), 0, None, m, n);
  }

  /** An identifier occurs in at most one place. */
  ghost predicate AtMostOnce(items: seq<Output>, id: Uuid) {
    forall m, n | 0 <= m < |items| && 0 <= n < |items| ::
      items[m].simulationId == id == items[n].simulationId ==> m == n
  }

  /**
   Every row that was there when the walk started is returned exactly once, as it was stored, however many rows
   are saved between the requests and whatever page sizes are asked for.
   */
  lemma EveryRowOnce(tables: nat -> Table, limits: nat -> int, pages: seq<SimulationPage>, id: Uuid)
    requires IsWalk(tables, limits, pages) && Growing(tables) && id in tables(0)
    ensures ToOutput(tables(0)[id]) in AllItems(pages)
    ensures AtMostOnce(AllItems(pages), id)
  {
    hide Walk, Flat, KeyPages, ToOutput, KeysOf, AllItems, KeyOf, OutputKey, AllRead;
    var k := KeyOf(tables(0)[id]);
    forall j: nat ensures k in KeyTables(tables)(j) {
      assert tables(j)[id] == tables(0)[id];
      RowKeyed(tables(j), id);
    }
    WalkCovers(KeyTables(tables), Clamps(limits), 0, None, k);
    AllItemsKeys(pages);
    var all := AllItems(pages);
    var n :| 0 <= n < |all| && OutputKeys(all)[n] == k;
    FoundByKey(tables, pages, n, id);
    forall m, n | 0 <= m < |all| && 0 <= n < |all| && all[m].simulationId == id && all[n].simulationId == id
      ensures m == n
    {
      NoRowTwice(tables, limits, pages, m, n);
    }
  }

  lemma FoundByKey(tables: nat -> Table, pages: seq<SimulationPage>, n: nat, id: Uuid)
    requires AllRead(tables, pages) && Growing(tables) && n < |AllItems(pages)|
    requires id in tables(0) && OutputKey(AllItems(pages)[n]) == KeyOf(tables(0)[id])
    ensures AllItems(pages)[n] == ToOutput(tables(0)[id])
  {
    hide AllItems, AllRead, KeyOf;
    AllItemsRead(tables, pages, n);
    var i: nat :| CameFrom(tables, i, AllItems(pages)[n]);
    KeyNamesRow(tables(0));
  }

  // ---------------------------------------------------------------- nobody writes

  lemma {:induction false} OneKeyPerRow(t: Table)
    ensures |KeysOf(t)| == |t|
    decreases |t|
  {
    hide KeyOf, KeysOf;
    if t == map[] {
      NoKeys();
    } else {
      var id :| id in t;
      KeysWithout(t, id);
      OneKeyPerRow(t - {id});
    }
  }

  lemma NoKeys()
    ensures KeysOf(map[]) == {}
  {
  }

  lemma KeysWithout(t: Table, id: Uuid)
    requires id in t
    ensures KeysOf(t) == KeysOf(t - {id}) + {KeyOf(t[id])} && KeyOf(t[id]) !in KeysOf(t - {id})
  {
    KeyNamesRow(t);
    hide KeyOf;
    assert KeysOf(t) <= KeysOf(t - {id}) + {KeyOf(t[id])} by {
      forall j | j in t ensures KeyOf(t[j]) in KeysOf(t - {id}) + {KeyOf(t[id])} {
        if j != id {
          assert j in t - {id} && (t - {id})[j] == t[j];
        }
      }
    }
  }

  lemma KeyNamesRow(t: Table)
    ensures forall id | id in t :: KeyOf(t[id]).id == id
  {
  }

  /** On a fixed table the pages put together are the table sorted by key, in max(1, ceil(rows / limit)) pages. */
  lemma FixedHistory(t: Table, limit: int, tables: nat -> Table, limits: nat -> int, pages: seq<SimulationPage>)
    requires IsWalk(tables, limits, pages) && forall j :: tables(j) == t && limits(j) == limit
    ensures OutputKeys(AllItems(pages)) == Descending(KeysOf(t))
    ensures |pages| == PagesFor(|t|, Clamp(limit))
  {
    hide Walk, Flat, Descending, OutputKeys, KeysOf, AllItems, PagesFor;
    AllItemsKeys(pages);
    FixedTable(KeysOf(t), KeyTables(tables), Clamps(limits), None);
    PageCount(KeysOf(t), KeyTables(tables), Clamps(limits), Clamp(limit), 0, None);
    OneKeyPerRow(t);
  }

  // ---------------------------------------------------------------- while requests are being served

  /** Request i of a walk finds the rows committed at some moment of a run, moments in order. */
  ghost predicate SeenDuring(states: seq<System>, moments: nat -> nat, tables: nat -> Table) {
    && (forall i: nat :: moments(i) < |states| && tables(i) == states[moments(i)].db.rows)
    && forall i: nat, j: nat | i <= j :: moments(i) <= moments(j)
  }

  lemma RunOnlyGrows(
    mode: Mode, states: seq<System>, labels: seq<Label>, moments: nat -> nat, tables: nat -> Table)
    requires FreshRun(mode, states, labels) && SeenDuring(states, moments, tables)
    ensures Growing(tables)
  {
    hide FreshRun;
    forall i: nat, j: nat, id | i <= j && id in tables(i)
      ensures id in tables(j) && tables(j)[id] == tables(i)[id]
    {
      RunLength(mode, states, labels);
      assert moments(i) < |states| && moments(j) < |states| && moments(i) <= moments(j);
      FreshRunGrows(mode, states, labels, moments(i), moments(j));
    }
  }

  lemma RunLength(mode: Mode, states: seq<System>, labels: seq<Label>)
    requires FreshRun(mode, states, labels)
    ensures |states| == |labels| + 1
  {
  }

  /**
   A client that pages through the history while requests are being served gets every simulation that was
   stored when it began, once, exactly as execute returned it.
   */
  lemma HistoryDuringRun(
    mode: Mode, states: seq<System>, labels: seq<Label>, moments: nat -> nat,
    tables: nat -> Table, limits: nat -> int, pages: seq<SimulationPage>, s: Simulation)
    requires FreshRun(mode, states, labels) && SeenDuring(states, moments, tables) && IsWalk(tables, limits, pages)
    requires s.id in tables(0) && tables(0)[s.id] == RowOf(s)
    ensures StrictlyDescending(OutputKeys(AllItems(pages)))
    ensures OutputOf(s) in AllItems(pages) && AtMostOnce(AllItems(pages), s.id)
  {
    hide FreshRun, SeenDuring, IsWalk, AllItems, OutputKeys, StrictlyDescending, Growing, ToOutput, RowOf, OutputOf;
    RunOnlyGrows(mode, states, labels, moments, tables);
    HistoryDescends(tables, limits, pages);
    EveryRowOnce(tables, limits, pages, s.id);
    OneStory(s);
  }
}

/** A client following next-page keys until there is none, while the table changes under it. */
module PageWalk {
  import opened Wrappers
  import opened Persistence
  import opened Keyset

  type Limit = n: nat | n >= 1 witness 1

  /**
   The pages of a walk that starts below a key. Request i sees tables(i) and asks for limits(i) rows. Saves may
   happen between any two requests; the walk still ends, since every page starts below the one before it.
   */
  function Walk(tables: nat -> set<Key>, limits: nat -> Limit, i: nat, before: Option<Key>): seq<seq<Key>>
    decreases if before.None? then 1 else 0,
      if before.None? then 0 else before.value.instant,
      if before.None? then 0 else before.value.id
  {
    var p := PageOf(tables(i), before, limits(i));
    PageMeaning(tables(i), before, limits(i));
    if p.next.None? then [p.items] else
      assert p.next.value in p.items;
      [p.items] + Walk(tables, limits, i + 1, p.next)
  }

  /** All the rows of some pages, in the order they were received. */
  function Flat(pages: seq<seq<Key>>): seq<Key> {
    if pages == [] then [] else pages[0] + Flat(pages[1..])
  }

  lemma {:induction false} FlatCons(page: seq<Key>, pages: seq<seq<Key>>)
    ensures Flat([page] + pages) == page + Flat(pages)
  {
    assert ([page] + pages)[1..] == pages;
  }

  lemma {:induction false} FlatOne(page: seq<Key>)
    ensures Flat([page]) == page
  {
    assert [page][1..] == [];
    assert page + [] == page;
  }

  ghost predicate AllUnder(s: seq<Key>, before: Option<Key>) {
    forall k | k in s :: IsUnder(k, before)
  }

  lemma JoinPages(items: seq<Key>, rest: seq<Key>, before: Option<Key>)
    requires items != [] && StrictlyDescending(items) && AllUnder(items, before)
    requires StrictlyDescending(rest) && AllUnder(rest, Some(items[|items| - 1]))
    ensures StrictlyDescending(items + rest) && AllUnder(items + rest, before)
  {
    var last := items[|items| - 1];
    assert last in items;
    forall i, j | 0 <= i < j < |items + rest| ensures Below((items + rest)[j], (items + rest)[i]) {
      if i < |items| <= j {
        assert (items + rest)[j] == rest[j - |items|] && rest[j - |items|] in rest;
      }
    }
  }

  /** The keys of a walk strictly descend, whatever is saved, or even deleted, meanwhile. */
  lemma {:induction false} WalkDescends(tables: nat -> set<Key>, limits: nat -> Limit, i: nat, before: Option<Key>)
    ensures var all := Flat(Walk(tables, limits, i, before));
      StrictlyDescending(all) && AllUnder(all, before)
    decreases if before.None? then 1 else 0,
      if before.None? then 0 else before.value.instant,
      if before.None? then 0 else before.value.id
  {
    hide PageOf, StrictlyDescending;
    var p := PageOf(tables(i), before, limits(i));
    PageMeaning(tables(i), before, limits(i));
    if p.next.None? {
      FlatOne(p.items);
    } else {
      assert p.next.value in p.items;
      WalkDescends(tables, limits, i + 1, p.next);
      var rest := Walk(tables, limits, i + 1, p.next);
      FlatCons(p.items, rest);
      JoinPages(p.items, Flat(rest), before);
    }
  }

  /** So no row is returned twice. */
  lemma NoKeyTwice(tables: nat -> set<Key>, limits: nat -> Limit, i: nat, before: Option<Key>, m: nat, n: nat)
    requires m < |Flat(Walk(tables, limits, i, before))| && n < |Flat(Walk(tables, limits, i, before))|
    requires Flat(Walk(tables, limits, i, before))[m] == Flat(Walk(tables, limits, i, before))[n]
    ensures m == n
  {
    hide Walk, Flat;
    WalkDescends(tables, limits, i, before);
  }

  /** A row that stays in the table from the start of the walk on is returned. */
  lemma {:induction false} WalkCovers(
    tables: nat -> set<Key>, limits: nat -> Limit, i: nat, before: Option<Key>, k: Key)
    requires (forall j | j >= i :: k in tables(j)) && IsUnder(k, before)
    ensures k in Flat(Walk(tables, limits, i, before))
    decreases if before.None? then 1 else 0,
      if before.None? then 0 else before.value.instant,
      if before.None? then 0 else before.value.id
  {
    hide PageOf, StrictlyDescending;
    var p := PageOf(tables(i), before, limits(i));
    PageMeaning(tables(i), before, limits(i));
    if p.next.None? {
      FlatOne(p.items);
    } else {
      assert p.next.value in p.items;
      FlatCons(p.items, Walk(tables, limits, i + 1, p.next));
      if k !in p.items {
        WalkCovers(tables, limits, i + 1, p.next, k);
      }
    }
  }

  /** A walk returns nothing but rows that some request saw. */
  lemma {:induction false} WalkSound(
    tables: nat -> set<Key>, limits: nat -> Limit, i: nat, before: Option<Key>, k: Key)
    requires k in Flat(Walk(tables, limits, i, before))
    ensures exists j :: j >= i && k in tables(j)
    decreases if before.None? then 1 else 0,
      if before.None? then 0 else before.value.instant,
      if before.None? then 0 else before.value.id
  {
    hide PageOf, StrictlyDescending;
    var p := PageOf(tables(i), before, limits(i));
    PageMeaning(tables(i), before, limits(i));
    if p.next.None? {
      FlatOne(p.items);
    } else {
      assert p.next.value in p.items;
      FlatCons(p.items, Walk(tables, limits, i + 1, p.next));
      if k !in p.items {
        WalkSound(tables, limits, i + 1, p.next, k);
      }
    }
  }

  // ---------------------------------------------------------------- a table nobody writes to

  /** On a fixed table the pages put together are the sorted table. */
  lemma FixedTable(keys: set<Key>, tables: nat -> set<Key>, limits: nat -> Limit, before: Option<Key>)
    requires forall j :: tables(j) == keys
    ensures Flat(Walk(tables, limits, 0, before)) == Descending(Under(keys, before))
  {
    hide Walk, Flat, Descending;
    var all, sorted := Flat(Walk(tables, limits, 0, before)), Descending(Under(keys, before));
    WalkDescends(tables, limits, 0, before);
    DescendingMeaning(Under(keys, before));
    forall k ensures k in all <==> k in sorted {
      if k in all {
        WalkSound(tables, limits, 0, before, k);
      }
      if k in sorted {
        WalkCovers(tables, limits, 0, before, k);
      }
    }
    DescendingUnique(all, sorted);
  }

  /** max(1, ceil(n / limit)). */
  function PagesFor(n: nat, limit: Limit): nat {
    if n == 0 then 1 else (n + limit - 1) / limit
  }

  lemma PagesForStep(n: nat, limit: Limit)
    requires n > limit
    ensures PagesFor(n, limit) == 1 + PagesFor(n - limit, limit)
  {
    var x := n - 1;
    var q, e := x / limit, (x + limit) / limit;
    assert x == q * limit + x % limit && x + limit == e * limit + (x + limit) % limit;
    assert (q + 1) * limit == q * limit + limit;
    SameQuotient(x + limit, limit, q + 1, e);
  }

  lemma SameQuotient(x: nat, d: Limit, q: nat, e: nat)
    requires q * d <= x < q * d + d && e * d <= x < e * d + d
    ensures q == e
  {
    if q < e {
      TimesAbove(q, e, d);
    } else if e < q {
      TimesAbove(e, q, d);
    }
  }

  lemma {:induction false} TimesAbove(q: nat, e: nat, d: nat)
    requires q < e
    ensures e * d >= q * d + d
    decreases e
  {
    assert e * d == (e - 1) * d + d;
    if q < e - 1 {
      TimesAbove(q, e - 1, d);
    }
  }

  lemma PagesForOne(n: nat, limit: Limit)
    requires n <= limit
    ensures PagesFor(n, limit) == 1
  {
    if n > 0 {
      assert (n - 1) / limit == 0;
    }
  }

  lemma {:induction false} Distinct(s: seq<Key>)
    requires StrictlyDescending(s)
    ensures |set k | k in s| == |s|
  {
    if s != [] {
      DescendingTail(s);
      Distinct(s[1..]);
      assert s[0] !in s[1..];
      assert (set k | k in s) == {s[0]} + (set k | k in s[1..]);
    }
  }

  lemma UnderNext(keys: set<Key>, before: Option<Key>, limit: Limit)
    requires |Under(keys, before)| > limit
    ensures var p := PageOf(keys, before, limit);
      p.next.Some? && |Under(keys, p.next)| == |Under(keys, before)| - limit
  {
    hide PageOf;
    var p := PageOf(keys, before, limit);
    PageMeaning(keys, before, limit);
    Distinct(p.items);
    var page := set k | k in p.items;
    assert p.next.value in p.items;
    forall k | k in p.items ensures !Below(k, p.next.value) {
      var i :| 0 <= i < |p.items| && p.items[i] == k;
    }
    assert page <= Under(keys, before);
    assert Under(keys, p.next) == Under(keys, before) - page;
  }

  /** A fixed table of n rows takes exactly max(1, ceil(n / limit)) pages. */
  lemma {:induction false} PageCount(
    keys: set<Key>, tables: nat -> set<Key>, limits: nat -> Limit, limit: Limit, i: nat, before: Option<Key>)
    requires forall j :: tables(j) == keys && limits(j) == limit
    ensures |Walk(tables, limits, i, before)| == PagesFor(|Under(keys, before)|, limit)
    decreases if before.None? then 1 else 0,
      if before.None? then 0 else before.value.instant,
      if before.None? then 0 else before.value.id
  {
    hide PageOf, StrictlyDescending, Under;
    var n := |Under(keys, before)|;
    var p := PageOf(keys, before, limit);
    assert tables(i) == keys && limits(i) == limit;
    PageMeaning(keys, before, limit);
    if n <= limit {
      PagesForOne(n, limit);
    } else {
      assert p.next.value in p.items;
      UnderNext(keys, before, limit);
      PagesForStep(n, limit);
      PageCount(keys, tables, limits, limit, i + 1, p.next);
    }
  }
}

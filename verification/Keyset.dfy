/** Keyset pagination on keys alone: the order of the history, a page of it, and a walk through pages. */
module Keyset {
  import opened Wrappers
  import opened Timestamps
  import opened Persistence

  datatype Key = Key(instant: nat, id: Uuid)

  /** Older, or as old with a smaller identifier. */
  predicate Below(a: Key, b: Key) {
    a.instant < b.instant || (a.instant == b.instant && a.id < b.id)
  }

  predicate IsTop(k: Key, keys: set<Key>) {
    k in keys && forall j | j in keys :: j == k || Below(j, k)
  }

  lemma {:induction false} TopExists(keys: set<Key>)
    requires keys != {}
    ensures exists k :: IsTop(k, keys)
    decreases |keys|
  {
    var one :| one in keys;
    var others := keys - {one};
    if others == {} {
      assert keys == {one};
      assert IsTop(one, keys);
    } else {
      TopExists(others);
      var k :| IsTop(k, others);
      assert keys == others + {one};
      assert IsTop(if Below(k, one) then one else k, keys);
    }
  }

  /** The keys from the greatest to the least: what the ordering clause of the query asks for. */
  function Descending(keys: set<Key>): seq<Key>
    decreases |keys|
  {
    if keys == {} then []
    else
      TopExists(keys);
      var k :| k in keys && IsTop(k, keys);
      [k] + Descending(keys - {k})
  }

  ghost predicate StrictlyDescending(s: seq<Key>) {
    forall i, j | 0 <= i < j < |s| :: Below(s[j], s[i])
  }

  ghost predicate SameElements(s: seq<Key>, keys: set<Key>) {
    forall k :: k in s <==> k in keys
  }

  lemma {:induction false} DescendingMeaning(keys: set<Key>)
    ensures StrictlyDescending(Descending(keys)) && SameElements(Descending(keys), keys)
    ensures |Descending(keys)| == |keys|
    decreases |keys|
  {
    hide StrictlyDescending, SameElements, IsTop;
    if keys == {} {
      NothingDescends();
    } else {
      TopExists(keys);
      var k := Descending(keys)[0];
      assert k in keys && IsTop(k, keys) && Descending(keys) == [k] + Descending(keys - {k});
      DescendingMeaning(keys - {k});
      TopFirst(k, Descending(keys - {k}), keys);
    }
  }

  lemma NothingDescends()
    ensures StrictlyDescending([]) && SameElements([], {})
  {
  }

  lemma TopFirst(k: Key, rest: seq<Key>, keys: set<Key>)
    requires IsTop(k, keys) && StrictlyDescending(rest) && SameElements(rest, keys - {k})
    ensures StrictlyDescending([k] + rest) && SameElements([k] + rest, keys)
  {
    forall i, j | 0 <= i < j < |[k] + rest| ensures Below(([k] + rest)[j], ([k] + rest)[i]) {
      assert ([k] + rest)[j] == rest[j - 1] && rest[j - 1] in rest;
    }
  }

  /** A strictly descending sequence is determined by its elements. */
  lemma {:induction false} DescendingUnique(s: seq<Key>, t: seq<Key>)
    requires StrictlyDescending(s) && StrictlyDescending(t) && forall k :: k in s <==> k in t
    ensures s == t
  {
    assert s != [] ==> s[0] in t;
    assert t != [] ==> t[0] in s;
    if s != [] {
      assert s[0] == t[0];
      DescendingTail(s);
      DescendingTail(t);
      DescendingUnique(s[1..], t[1..]);
      assert s == [s[0]] + s[1..] && t == [t[0]] + t[1..];
    }
  }

  lemma DescendingTail(s: seq<Key>)
    requires StrictlyDescending(s) && s != []
    ensures StrictlyDescending(s[1..])
    ensures forall k :: k in s[1..] <==> k in s && k != s[0]
  {
    forall k | k in s && k != s[0] ensures k in s[1..] {
      var i :| 0 <= i < |s| && s[i] == k;
      assert s[1..][i - 1] == k;
    }
  }

  // ---------------------------------------------------------------- one page

  /** A page: its keys and the key the next page starts below, if there is a next page. */
  datatype KeyPage = KeyPage(items: seq<Key>, next: Option<Key>)

  /** The keys the filter of the query keeps. */
  function Under(keys: set<Key>, before: Option<Key>): set<Key> {
    if before.None? then keys else set k | k in keys && Below(k, before.value)
  }

  function Take(s: seq<Key>, n: nat): seq<Key> {
    if |s| <= n then s else s[..n]
  }

  /** The filtered, ordered and limited query. */
  function Query(keys: set<Key>, before: Option<Key>, n: nat): seq<Key> {
    Take(Descending(Under(keys, before)), n)
  }

  /** One key more than the page is asked for, to see whether there is a next page. */
  function PageOf(keys: set<Key>, before: Option<Key>, limit: nat): KeyPage {
    var records := Query(keys, before, limit + 1);
    var items := Take(records, limit);
    KeyPage(items, if |records| > limit && items != [] then Some(items[|items| - 1]) else None)
  }

  predicate IsUnder(k: Key, before: Option<Key>) {
    before.None? || Below(k, before.value)
  }

  /** What the query returns, without its order: n keys, or all of them, and nothing greater is left out. */
  lemma QueryMeaning(keys: set<Key>, before: Option<Key>, n: nat)
    ensures var q := Query(keys, before, n);
      && StrictlyDescending(q)
      && |q| == (if |Under(keys, before)| < n then |Under(keys, before)| else n)
      && (forall k | k in q :: k in keys && IsUnder(k, before))
      && (forall k, j | k in keys && IsUnder(k, before) && k !in q && j in q :: Below(k, j))
      && (|q| < n ==> forall k | k in keys && IsUnder(k, before) :: k in q)
  {
    hide Descending;
    var all := Descending(Under(keys, before));
    DescendingMeaning(Under(keys, before));
    var q := Query(keys, before, n);
    forall k | k in q ensures k in keys && IsUnder(k, before) {
      assert k in all;
    }
    forall k, j | k in keys && IsUnder(k, before) && k !in q && j in q ensures Below(k, j) {
      assert k in all;
      var i :| 0 <= i < |all| && all[i] == k;
      var m :| 0 <= m < |q| && q[m] == j;
      assert all[m] == j;
      assert i >= |q|;
    }
  }

  /** A page is the top of what is left; there is a next page exactly when something is left after it. */
  lemma PageMeaning(keys: set<Key>, before: Option<Key>, limit: nat)
    requires limit >= 1
    ensures var p := PageOf(keys, before, limit);
      && StrictlyDescending(p.items)
      && (forall k | k in p.items :: k in keys && IsUnder(k, before))
      && |p.items| == (if |Under(keys, before)| < limit then |Under(keys, before)| else limit)
      && (p.next.Some? <==> |Under(keys, before)| > limit)
      && (p.next.None? ==> forall k | k in keys && IsUnder(k, before) :: k in p.items)
      && (p.next.Some? ==>
          && p.items != [] && p.next.value == p.items[|p.items| - 1]
          && (forall k | k in keys && IsUnder(k, before) :: k in p.items || Below(k, p.next.value)))
  {
    hide Query;
    var records := Query(keys, before, limit + 1);
    var items := Take(records, limit);
    QueryMeaning(keys, before, limit + 1);
    forall k | k in keys && IsUnder(k, before) && |records| > limit
      ensures k in items || Below(k, items[|items| - 1])
    {
      if k in records {
        var i :| 0 <= i < |records| && records[i] == k;
        if i < limit {
          assert items[i] == k;
        }
      } else {
        assert items[|items| - 1] in records;
      }
    }
  }
}

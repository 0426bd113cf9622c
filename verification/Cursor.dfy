/** Keyset pagination in the fixed order `createdAt desc, id desc`. */
module Cursor {
  import opened Basics
  import opened Wrappers

  const DEFAULT_PAGE_SIZE := 25
  const MAX_PAGE_SIZE := 100

  /** The sort key of a row, which is also the position a cursor names. */
  datatype Key = Key(createdAt: int, id: nat)

  datatype LimitError = LimitInvalid

  /** An absent limit is the default, a larger one is clamped, and one below 1 is refused. */
  function ResolveLimit(raw: Option<int>, max: int := MAX_PAGE_SIZE): (r: Result<int, LimitError>)
    requires max >= 1
    ensures r.Success? ==> 1 <= r.value <= max
    ensures r.Failure? <==> raw.Some? && raw.value < 1
    ensures r.Success? ==>
              var asked := if raw.Some? then raw.value else 25;
              r.value <= asked && (r.value < asked ==> r.value == max)
  {
    match raw
    case None => Success(if DEFAULT_PAGE_SIZE < max then DEFAULT_PAGE_SIZE else max)
    case Some(value) => if value < 1 then Failure(LimitInvalid) else Success(if value < max then value else max)
  }

  /** Unless a route asks for another maximum: 25 rows when nothing is asked for, and never more than 100. */
  lemma DefaultLimits(raw: Option<int>)
    ensures ResolveLimit(raw) == match raw
                                 case None => Success(25)
                                 case Some(n) => if n < 1 then Failure(LimitInvalid)
                                                 else if n <= 100 then Success(n) else Success(100)
  {
  }

  /** Split an over-fetched result into the page and the position after it. */
  function Paginate<T>(rows: seq<T>, limit: nat, toCursor: T -> Key): (seq<T>, Option<Key>)
    requires limit >= 1
  {
    if |rows| <= limit then (rows, None)
    else (rows[..limit], Some(toCursor(rows[limit - 1])))
  }

  /** `k` comes after `c` in the list order: the `where` that a cursor adds. */
  predicate After(c: Key, k: Key) {
    k.createdAt < c.createdAt || (k.createdAt == c.createdAt && k.id < c.id)
  }

  predicate Beyond(c: Option<Key>, k: Key) {
    c.Some? ==> After(c.value, k)
  }

  ghost predicate Descending(s: seq<Key>) {
    forall i, j :: 0 <= i < j < |s| ==> After(s[i], s[j])
  }

  /** `s` lists exactly the rows of `rows`, in order. */
  ghost predicate IsListing(s: seq<Key>, rows: set<Key>) {
    Descending(s) && forall k :: k in s <==> k in rows
  }

  lemma FirstExists(rows: set<Key>)
    requires rows != {}
    ensures exists f :: f in rows && forall k :: k in rows && k != f ==> After(f, k)
  {
    var x :| x in rows;
    if rows != {x} {
      var rest := rows - {x};
      FirstExists(rest);
      var f :| f in rest && forall k :: k in rest && k != f ==> After(f, k);
      var g := if After(f, x) then f else x;
      assert forall k :: k in rows <==> k == x || k in rest;
      forall k | k in rows && k != g
        ensures After(g, k)
      {
        assert f != x && (k == f || k == x || After(f, k));
      }
      assert g in rows;
    }
  }

  /** The rows in list order. */
  ghost function Sorted(rows: set<Key>): (s: seq<Key>)
    ensures IsListing(s, rows)
  {
    if rows == {} then []
    else
      FirstExists(rows);
      var f :| f in rows && forall k :: k in rows && k != f ==> After(f, k);
      [f] + Sorted(rows - {f})
  }

  lemma ListedIsRow(s: seq<Key>, rows: set<Key>, i: nat)
    requires IsListing(s, rows) && i < |s|
    ensures s[i] in rows
  {
  }

  lemma {:induction false} ListingIsUnique(s: seq<Key>, t: seq<Key>, rows: set<Key>)
    requires IsListing(s, rows) && IsListing(t, rows)
    ensures s == t
  {
    if s == [] || t == [] {
      if s != [] { ListedIsRow(s, rows, 0); }
      if t != [] { ListedIsRow(t, rows, 0); }
    } else {
      assert s[0] in t && t[0] in s;
      assert s[0] == t[0];
      forall k
        ensures k in s[1..] <==> k in rows - {s[0]}
        ensures k in t[1..] <==> k in rows - {s[0]}
      {
        assert s == [s[0]] + s[1..] && t == [t[0]] + t[1..];
      }
      ListingIsUnique(s[1..], t[1..], rows - {s[0]});
      assert s == [s[0]] + s[1..] && t == [t[0]] + t[1..];
    }
  }

  /** The matching rows beyond a cursor. */
  function Window(rows: set<Key>, c: Option<Key>): set<Key> {
    set k | k in rows && Beyond(c, k)
  }

  /** One request: the query over-fetches by one row, and the result is split. */
  ghost function Page(rows: set<Key>, c: Option<Key>, limit: nat): (seq<Key>, Option<Key>)
    requires limit >= 1
  {
    var found := Sorted(Window(rows, c));
    Paginate(if |found| <= limit + 1 then found else found[..limit + 1], limit, (k: Key) => k)
  }

  /** A page is the start of the window; what is left of the window lies beyond the next cursor. */
  lemma PageSplitsWindow(rows: set<Key>, c: Option<Key>, limit: nat)
    requires limit >= 1
    ensures var (items, next) := Page(rows, c, limit);
            && Descending(items)
            && (forall k :: k in items ==> k in Window(rows, c))
            && (next.None? ==> forall k :: k in Window(rows, c) ==> k in items)
            && (next.Some? ==>
                  && items != [] && next.value == items[|items| - 1]
                  && Window(rows, next) < Window(rows, c)
                  && forall k :: k in Window(rows, c) && k !in items ==> After(next.value, k))
  {
  }

  lemma {:induction false} ListingSize(s: seq<Key>, rows: set<Key>)
    requires IsListing(s, rows)
    ensures |s| == |rows|
  {
    if s == [] {
      assert rows == {};
    } else {
      assert s == [s[0]] + s[1..];
      ListingSize(s[1..], rows - {s[0]});
    }
  }

  /** A page is as long as the limit allows and the rows suffice; there is a next one exactly when rows are left. */
  lemma PageSize(rows: set<Key>, c: Option<Key>, limit: nat)
    requires limit >= 1
    ensures var (items, next) := Page(rows, c, limit);
            && |items| == (if limit < |Window(rows, c)| then limit else |Window(rows, c)|)
            && (next.Some? <==> limit < |Window(rows, c)|)
  {
    ListingSize(Sorted(Window(rows, c)), Window(rows, c));
  }

  // ── following the cursors while the table changes ────────────────────────

  /** The rows shown when the `i`-th page is read from the rows `tables[i]` matching at that moment. */
  ghost function Follow(tables: seq<set<Key>>, c: Option<Key>, limit: nat): seq<Key>
    requires limit >= 1
  {
    if tables == [] then []
    else
      var (items, next) := Page(tables[0], c, limit);
      if next.None? then items else items + Follow(tables[1..], next, limit)
  }

  /** The walk reaches a page without a next cursor before `tables` runs out. */
  ghost predicate ReachesEnd(tables: seq<set<Key>>, c: Option<Key>, limit: nat)
    requires limit >= 1
  {
    tables != [] &&
    var next := Page(tables[0], c, limit).1;
    next.Some? ==> ReachesEnd(tables[1..], next, limit)
  }

  lemma AppendDescends(items: seq<Key>, rest: seq<Key>)
    requires Descending(items) && Descending(rest)
    requires items != [] && forall k :: k in rest ==> After(items[|items| - 1], k)
    ensures Descending(items + rest)
  {
    forall i, j | 0 <= i < j < |items + rest|
      ensures After((items + rest)[i], (items + rest)[j])
    {
      if i < |items| <= j {
        assert rest[j - |items|] in rest && (i == |items| - 1 || After(items[i], items[|items| - 1]));
      }
    }
  }

  lemma {:induction false} FollowDescends(tables: seq<set<Key>>, c: Option<Key>, limit: nat)
    requires limit >= 1
    ensures Descending(Follow(tables, c, limit))
    ensures forall k :: k in Follow(tables, c, limit) ==> Beyond(c, k) && exists t <- tables :: k in t
  {
    if tables != [] {
      PageSplitsWindow(tables[0], c, limit);
      var (items, next) := Page(tables[0], c, limit);
      if next.Some? {
        var rest := Follow(tables[1..], next, limit);
        FollowDescends(tables[1..], next, limit);
        AppendDescends(items, rest);
        forall k | k in rest
          ensures Beyond(c, k) && exists t <- tables :: k in t
        {
          assert next.value in items;
          var t :| t in tables[1..] && k in t;
          assert t in tables;
        }
      }
    }
  }

  /** Rows may come and go between pages: a row that matches throughout is shown exactly once. */
  lemma {:induction false} EveryStableRowOnce(tables: seq<set<Key>>, c: Option<Key>, limit: nat, k: Key)
    requires limit >= 1 && ReachesEnd(tables, c, limit)
    requires Beyond(c, k) && forall t <- tables :: k in t
    ensures k in Follow(tables, c, limit)
    ensures Descending(Follow(tables, c, limit))
  {
    PageSplitsWindow(tables[0], c, limit);
    FollowDescends(tables, c, limit);
    var (items, next) := Page(tables[0], c, limit);
    assert k in Window(tables[0], c);
    if next.Some? && k !in items {
      EveryStableRowOnce(tables[1..], next, limit, k);
    }
  }

  // ── over a table that does not change ────────────────────────────────────

  function Repeat(rows: set<Key>, n: nat): (tables: seq<set<Key>>)
    ensures |tables| == n && forall t :: t in tables ==> t == rows
  {
    if n == 0 then [] else [rows] + Repeat(rows, n - 1)
  }

  /** Over fixed rows the walk ends after at most one page per row, plus one. */
  lemma {:induction false} FixedWalkEnds(rows: set<Key>, c: Option<Key>, limit: nat, n: nat)
    requires limit >= 1 && |Window(rows, c)| < n
    ensures ReachesEnd(Repeat(rows, n), c, limit)
    decreases n
  {
    var next := Page(rows, c, limit).1;
    PageSplitsWindow(rows, c, limit);
    assert Repeat(rows, n)[1..] == Repeat(rows, n - 1);
    if next.Some? {
      SubsetSize(Window(rows, next), Window(rows, c));
      FixedWalkEnds(rows, next, limit, n - 1);
    }
  }

  /** Over fixed rows, following the cursors shows every row, in order. */
  lemma FixedWalkListsAll(rows: set<Key>, limit: nat, n: nat)
    requires limit >= 1 && |rows| < n
    ensures Follow(Repeat(rows, n), None, limit) == Sorted(rows)
  {
    var tables := Repeat(rows, n);
    assert Window(rows, None) == rows;
    FixedWalkEnds(rows, None, limit, n);
    FollowDescends(tables, None, limit);
    var shown := Follow(tables, None, limit);
    forall k
      ensures k in shown <==> k in rows
    {
      if k in rows { EveryStableRowOnce(tables, None, limit, k); }
    }
    ListingIsUnique(shown, Sorted(rows), rows);
  }
}

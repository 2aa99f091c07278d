/** Cursor pagination, newest first, as the audit listing and the run listing
    both do it: a page probes one row more than it returns, and the cursor is
    the id of that first unreturned row. */
module Paging {

  datatype Rec<T> = Rec(id: nat, value: T)

  /** A table in insertion order: positive, increasing ids. */
  predicate Ordered<T>(rows: seq<Rec<T>>) {
    (forall i :: 0 <= i < |rows| ==> rows[i].id > 0) && forall i, j :: 0 <= i < j < |rows| ==> rows[i].id < rows[j].id
  }

  predicate Selected<T>(r: Rec<T>, cursor: nat, filter: T -> bool) {
    filter(r.value) && (cursor > 0 ==> r.id <= cursor)
  }

  /** The rows a query selects, by descending id. */
  function Query<T>(rows: seq<Rec<T>>, cursor: nat, filter: T -> bool): seq<Rec<T>> {
    if rows == [] then []
    else
      var n := |rows| - 1;
      (if Selected(rows[n], cursor, filter) then [rows[n]] else []) + Query(rows[..n], cursor, filter)
  }

  /** An out-of-range limit falls back to 50. */
  function Limit(limit: int, ceiling: nat): (n: nat)
    ensures n > 0
  {
    if limit <= 0 || limit > ceiling then 50 else limit
  }

  function PageRows<T>(q: seq<Rec<T>>, limit: nat): seq<Rec<T>> {
    if |q| > limit then q[..limit] else q
  }

  function NextCursor<T>(q: seq<Rec<T>>, limit: nat): nat {
    if |q| > limit then q[limit].id else 0
  }

  /** One page; the ceiling is 200 for the audit log and 100 for runs. */
  method Page<T>(rows: seq<Rec<T>>, limit: int, ceiling: nat, cursor: nat, filter: T -> bool)
      returns (out: seq<Rec<T>>, next: nat)
    requires Ordered(rows)
    ensures var q := Query(rows, cursor, filter);
            out == PageRows(q, Limit(limit, ceiling)) && next == NextCursor(q, Limit(limit, ceiling))
    ensures var q, n := Query(rows, cursor, filter), if 1 <= limit <= ceiling then limit else 50;
            && out == q[..if |q| <= n then |q| else n]
            && (next == 0 <==> |q| <= n) && (next != 0 ==> next == q[n].id)
  {
    hide Query, Ordered, Limit;
    PageExactly(rows, limit, ceiling, cursor, filter);
    var lim := if limit <= 0 || limit > ceiling then 50 else limit;
    var q := Query(rows, cursor, filter);
    var fetched := if |q| > lim + 1 then q[..lim + 1] else q;
    out, next := [], 0;
    var i := 0;
    while i < |fetched|
      invariant i <= |fetched| && i <= lim
      invariant out == q[..i] && next == 0
    {
      if |out| == lim {
        next := fetched[i].id;
        break;
      }
      out := out + [fetched[i]];
      i := i + 1;
    }
  }

  /** The page and the cursor of a query. */
  lemma PageExactly<T>(rows: seq<Rec<T>>, limit: int, ceiling: nat, cursor: nat, filter: T -> bool)
    requires Ordered(rows)
    ensures var q, n := Query(rows, cursor, filter), if 1 <= limit <= ceiling then limit else 50;
            && Limit(limit, ceiling) == n && PageRows(q, n) == q[..if |q| <= n then |q| else n]
            && (NextCursor(q, n) == 0 <==> |q| <= n) && (NextCursor(q, n) != 0 ==> NextCursor(q, n) == q[n].id)
  {
    hide Query, Ordered, Selected;
    var q, n := Query(rows, cursor, filter), if 1 <= limit <= ceiling then limit else 50;
    QueryDescends(rows, cursor, filter);
    PositiveIds(rows);
    assert |q| > n ==> q[n] in rows;
    assert q[..|q|] == q;
  }

  lemma PositiveIds<T>(rows: seq<Rec<T>>)
    requires Ordered(rows)
    ensures forall r :: r in rows ==> r.id > 0
  {
  }

  /** The audit listing: at most 200 rows a page. */
  method ListPage<T>(rows: seq<Rec<T>>, limit: int, cursor: nat, filter: T -> bool)
      returns (out: seq<Rec<T>>, next: nat)
    requires Ordered(rows)
    ensures var q, n := Query(rows, cursor, filter), if 1 <= limit <= 200 then limit else 50;
            && out == q[..if |q| <= n then |q| else n]
            && (next == 0 <==> |q| <= n) && (next != 0 ==> next == q[n].id)
  {
    out, next := Page(rows, limit, 200, cursor, filter);
  }

  /** The run listing: at most 100 rows a page, and no filter. */
  method ListRuns<T>(rows: seq<Rec<T>>, limit: int, cursor: nat) returns (out: seq<Rec<T>>, next: nat)
    requires Ordered(rows)
    ensures var q, n := Query(rows, cursor, _ => true), if 1 <= limit <= 100 then limit else 50;
            && out == q[..if |q| <= n then |q| else n]
            && (next == 0 <==> |q| <= n) && (next != 0 ==> next == q[n].id)
  {
    out, next := Page(rows, limit, 100, cursor, _ => true);
  }

  // ----- what a query returns

  lemma {:induction false} QueryMember<T>(rows: seq<Rec<T>>, cursor: nat, filter: T -> bool, r: Rec<T>)
    ensures r in Query(rows, cursor, filter) <==> r in rows && filter(r.value) && (cursor == 0 || r.id <= cursor)
  {
    if rows == [] {
    } else {
      var n := |rows| - 1;
      QueryMember(rows[..n], cursor, filter, r);
      assert rows == rows[..n] + [rows[n]];
    }
  }

  predicate Descending<T>(q: seq<Rec<T>>) {
    forall i, j :: 0 <= i < j < |q| ==> q[i].id > q[j].id
  }

  lemma QueryUnfold<T>(rows: seq<Rec<T>>, cursor: nat, filter: T -> bool)
    requires rows != []
    ensures var n := |rows| - 1;
            Query(rows, cursor, filter)
              == (if Selected(rows[n], cursor, filter) then [rows[n]] else []) + Query(rows[..n], cursor, filter)
  {
  }

  lemma BelowLast<T>(rows: seq<Rec<T>>)
    requires Ordered(rows) && rows != []
    ensures Ordered(rows[..|rows| - 1]) && rows[|rows| - 1] in rows
    ensures forall r :: r in rows[..|rows| - 1] ==> r in rows && r.id < rows[|rows| - 1].id
  {
  }

  /** Each selected row once, newest first. */
  lemma {:induction false} QueryDescends<T>(rows: seq<Rec<T>>, cursor: nat, filter: T -> bool)
    requires Ordered(rows)
    ensures Descending(Query(rows, cursor, filter))
    ensures forall i :: 0 <= i < |Query(rows, cursor, filter)| ==> Query(rows, cursor, filter)[i] in rows
  {
    if rows == [] {
    } else {
      hide Query, Selected, Ordered;
      var n := |rows| - 1;
      BelowLast(rows);
      QueryDescends(rows[..n], cursor, filter);
      QueryUnfold(rows, cursor, filter);
    }
  }

  /** Querying from a selected row's id gives the rest of the list from it on. */
  lemma {:induction false} QueryFrom<T>(rows: seq<Rec<T>>, cursor: nat, filter: T -> bool, k: nat)
    requires Ordered(rows) && k < |Query(rows, cursor, filter)|
    ensures Query(rows, Query(rows, cursor, filter)[k].id, filter) == Query(rows, cursor, filter)[k..]
  {
    hide Query;
    QueryNone(rows, cursor, filter);
    var q, n := Query(rows, cursor, filter), |rows| - 1;
    var rest := Query(rows[..n], cursor, filter);
    QueryUnfold(rows, cursor, filter);
    QueryUnfold(rows, q[k].id, filter);
    BelowLast(rows);
    if Selected(rows[n], cursor, filter) && k == 0 {
      SameBelow(rows[..n], rows[n].id, cursor, filter);
      assert q[0..] == q;
    } else {
      var k' := if Selected(rows[n], cursor, filter) then k - 1 else k;
      assert q[k] == rest[k'] && q[k..] == rest[k'..];
      QueryDescends(rows[..n], cursor, filter);
      assert rest[k'] in rows[..n];
      QueryFrom(rows[..n], cursor, filter, k');
    }
  }

  lemma QueryNone<T>(rows: seq<Rec<T>>, cursor: nat, filter: T -> bool)
    ensures rows == [] ==> Query(rows, cursor, filter) == []
  {
  }

  /** A cursor at or above every row, and within the old cursor, selects the same rows. */
  lemma {:induction false} SameBelow<T>(rows: seq<Rec<T>>, c: nat, cursor: nat, filter: T -> bool)
    requires c > 0 && (cursor > 0 ==> c <= cursor) && forall i :: 0 <= i < |rows| ==> rows[i].id <= c
    ensures Query(rows, c, filter) == Query(rows, cursor, filter)
  {
    if rows == [] {
    } else {
      SameBelow(rows[..|rows| - 1], c, cursor, filter);
    }
  }

  /** Rows appended after the cursor's row are not selected. */
  lemma {:induction false} AppendUnseen<T>(rows: seq<Rec<T>>, more: seq<Rec<T>>, cursor: nat, filter: T -> bool)
    requires rows <= more && Ordered(more) && cursor > 0
    requires exists r :: r in rows && cursor <= r.id
    ensures Query(more, cursor, filter) == Query(rows, cursor, filter)
    decreases |more|
  {
    if |more| > |rows| {
      var n := |more| - 1;
      var i :| 0 <= i < |rows| && cursor <= rows[i].id;
      assert more[i] == rows[i] && more[n].id > cursor;
      AppendUnseen(rows, more[..n], cursor, filter);
    } else {
      assert more == rows;
    }
  }

  // ----- following the cursors

  /** A table that only grows at its end, as the successive pages see it. */
  ghost predicate Growing<T>(tables: seq<seq<Rec<T>>>) {
    (forall k :: 0 <= k < |tables| ==> Ordered(tables[k])) && forall k :: 0 < k < |tables| ==>
      tables[k - 1] <= tables[k]
  }

  /** All rows returned by following the cursors, one page per table state. */
  function Walk<T>(tables: seq<seq<Rec<T>>>, limit: nat, cursor: nat, filter: T -> bool): seq<Rec<T>> {
    if tables == [] then []
    else
      var q := Query(tables[0], cursor, filter);
      PageRows(q, limit) + if NextCursor(q, limit) == 0 then []
        else Walk(tables[1..], limit, NextCursor(q, limit), filter)
  }

  /** The walk reaches a page with no next cursor. */
  predicate Ends<T>(tables: seq<seq<Rec<T>>>, limit: nat, cursor: nat, filter: T -> bool) {
    tables != [] &&
    var next := NextCursor(Query(tables[0], cursor, filter), limit);
    next == 0 || Ends(tables[1..], limit, next, filter)
  }

  /** Whatever is appended between pages, following the cursors to the end
      returns exactly what one unlimited query at the first page would have
      returned, and takes as many pages as that list needs. */
  lemma {:induction false} WalkIsQuery<T>(tables: seq<seq<Rec<T>>>, limit: nat, cursor: nat, filter: T -> bool)
    requires limit > 0 && Growing(tables) && tables != []
    ensures Ends(tables, limit, cursor, filter) <==> |Query(tables[0], cursor, filter)| <= limit * |tables|
    ensures Ends(tables, limit, cursor, filter) ==>
      Walk(tables, limit, cursor, filter) == Query(tables[0], cursor, filter)
  {
    hide Query, Growing, Ordered, Selected;
    var q := Query(tables[0], cursor, filter);
    if |q| > limit {
      NextPage(tables, limit, cursor, filter);
      if |tables| > 1 {
        WalkIsQuery(tables[1..], limit, q[limit].id, filter);
        Times(limit, |tables|);
        assert q == q[..limit] + q[limit..];
      }
    } else {
      Times(limit, |tables|);
    }
  }

  lemma Times(limit: nat, n: nat)
    requires n > 0
    ensures limit * n == limit + limit * (n - 1) && limit * (n - 1) >= 0
  {
  }

  /** A page that has a next cursor: the next page continues the same list. */
  lemma NextPage<T>(tables: seq<seq<Rec<T>>>, limit: nat, cursor: nat, filter: T -> bool)
    requires Growing(tables) && tables != [] && |Query(tables[0], cursor, filter)| > limit
    ensures var q := Query(tables[0], cursor, filter);
            q[limit].id > 0
            && (|tables| > 1 ==> Growing(tables[1..]) && Query(tables[1], q[limit].id, filter) == q[limit..])
  {
    var rows, q := tables[0], Query(tables[0], cursor, filter);
    QueryDescends(rows, cursor, filter);
    assert q[limit] in rows;
    QueryFrom(rows, cursor, filter, limit);
    if |tables| > 1 {
      TailGrows(tables);
      AppendUnseen(rows, tables[1], q[limit].id, filter);
    }
  }

  lemma TailGrows<T>(tables: seq<seq<Rec<T>>>)
    requires Growing(tables) && |tables| > 1
    ensures Growing(tables[1..])
  {
    var tail := tables[1..];
    forall k | 0 < k < |tail| ensures tail[k - 1] <= tail[k] {
      assert tables[k] <= tables[k + 1];
    }
  }

  /** From the start, to the end: every matching row that existed at the first
      page is returned exactly once, newest first, and nothing else is. */
  lemma FullWalk<T>(tables: seq<seq<Rec<T>>>, limit: nat, filter: T -> bool)
    requires limit > 0 && Growing(tables) && Ends(tables, limit, 0, filter)
    ensures var w := Walk(tables, limit, 0, filter);
            Descending(w) && forall r :: r in w <==> r in tables[0] && filter(r.value)
  {
    WalkIsQuery(tables, limit, 0, filter);
    QueryDescends(tables[0], 0, filter);
    forall r ensures r in Query(tables[0], 0, filter) <==> r in tables[0] && filter(r.value) {
      QueryMember(tables[0], 0, filter, r);
    }
  }
}

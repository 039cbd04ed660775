/** Paging through the audit log newest first, while rows are being written to it. */
module AuditPaging {
  import opened Basics
  import opened Cursor

  const DEFAULT_LIMIT: nat := 50
  const MAX_LIMIT: nat := 500

  datatype Row = Row(at: Position, tenant: string)

  predicate Below(a: Position, b: Position) {
    a.ts < b.ts || (a.ts == b.ts && a.id < b.id)
  }

  /** A table is its rows in the order the query asks for: newest first. */
  ghost predicate Descending(rows: seq<Row>) {
    forall i, j :: 0 <= i < j < |rows| ==> Below(rows[j].at, rows[i].at)
  }

  datatype Query = Query(tenant: string, since: int, until: int)

  predicate InRange(r: Row, q: Query) {
    r.tenant == q.tenant && q.since <= r.at.ts < q.until
  }

  predicate Matches(r: Row, q: Query, after: Option<Position>) {
    InRange(r, q) && (after.Some? ==> r.at.ts <= after.value.ts && Below(r.at, after.value))
  }

  function Matching(table: seq<Row>, q: Query, after: Option<Position>): seq<Row> {
    if table == [] then []
    else
      (if Matches(table[0], q, after) then [table[0]] else []) + Matching(table[1..], q, after)
  }

  datatype Page = Page(events: seq<Row>, next: Option<Position>)

  datatype Listed = Listed(page: Page) | Invalid

  /** The page cut from all that match: there is a next one if a row is left over. */
  function PageOf(rows: seq<Row>, limit: nat): Page
    requires limit > 0
  {
    if |rows| > limit then Page(rows[..limit], Some(rows[limit - 1].at)) else Page(rows, None)
  }

  predicate Valid(q: Query, limit: int) {
    q.tenant != "" && q.since < q.until && 0 <= limit <= MAX_LIMIT
  }

  function PageSize(limit: int): (n: nat)
    ensures limit >= 0 ==> n > 0
  {
    if limit <= 0 then DEFAULT_LIMIT else limit
  }

  /** One page in full: rows of the tenant's, from since up to until and below the cursor by
      time and then by id, each below the one before. Any other such row is below where the
      next page starts, which is where a full page ends. */
  ghost predicate InFull(page: Page, table: seq<Row>, q: Query, after: Option<Position>, size: nat) {
    && |page.events| <= size
    && (page.next.Some? ==> 0 < size == |page.events| && page.next.value == page.events[size - 1].at)
    && (forall i, j :: 0 <= i < j < |page.events| ==>
          var upper, lower := page.events[i].at, page.events[j].at;
          lower.ts < upper.ts || (lower.ts == upper.ts && lower.id < upper.id))
    && (forall e :: e in page.events ==>
          && e in table && e.tenant == q.tenant && q.since <= e.at.ts && e.at.ts < q.until
          && (after.Some? ==>
                e.at.ts < after.value.ts || (e.at.ts == after.value.ts && e.at.id < after.value.id)))
    && (forall e :: e in table && e.tenant == q.tenant && q.since <= e.at.ts && e.at.ts < q.until ==>
          || e in page.events
          || (after.Some? && (e.at.ts > after.value.ts || (e.at.ts == after.value.ts && e.at.id >= after.value.id)))
          || (page.next.Some?
              && (e.at.ts < page.next.value.ts || (e.at.ts == page.next.value.ts && e.at.id < page.next.value.id))))
  }

  class AuditLog {
    var table: seq<Row>

    constructor ()
      ensures table == [] && Descending(table)
    {
      table := [];
    }

    /** Rows arrive in any order; one with a key already there is refused. */
    method Insert(r: Row)
      requires Descending(table)
      modifies this
      ensures Descending(table) && Grown(old(table), table)
      ensures exists i :: 0 <= i < |table| && table[i].at == r.at
      ensures forall x :: x in table ==> x in old(table) || x == r
    {
      var i := 0;
      while i < |table| && Below(r.at, table[i].at)
        invariant 0 <= i <= |table|
        invariant forall k :: 0 <= k < i ==> Below(r.at, table[k].at)
      {
        i := i + 1;
      }
      if i < |table| && table[i].at == r.at {
        return;
      }
      table := table[..i] + [r] + table[i..];
      assert table[i] == r;
    }

    /** One page, newest first, asking for one row more than the page holds. */
    method ListAudit(q: Query, after: Option<Position>, limit: int) returns (r: Listed)
      ensures r == if Valid(q, limit) then Listed(PageOf(Matching(table, q, after), PageSize(limit))) else Invalid
      ensures r.Invalid? <==> q.tenant == "" || q.since >= q.until || limit < 0 || limit > 500
      ensures r.Listed? && Descending(table) ==>
          InFull(r.page, table, q, after, if limit == 0 then 50 else limit)
    {
      hide Matching, Descending, InFull;
      if !Valid(q, limit) {
        return Invalid;
      }
      if Descending(table) {
        PageInFull(table, q, after, PageSize(limit));
      }
      var size := PageSize(limit);
      var all := Matching(table, q, after);
      var rows := if |all| > size + 1 then all[..size + 1] else all;
      var more := |rows| > size;
      if more {
        rows := rows[..size];
      }
      var events: seq<Row> := [];
      for i := 0 to |rows|
        invariant events == rows[..i]
      {
        events := events + [rows[i]];
      }
      var next := None;
      if more && |rows| > 0 {
        next := Some(rows[|rows| - 1].at);
      }
      assert events == rows == PageOf(all, size).events;
      r := Listed(Page(events, next));
    }
  }

  lemma {:induction false} MatchingMatches(table: seq<Row>, q: Query, after: Option<Position>)
    requires Descending(table)
    ensures Descending(Matching(table, q, after))
    ensures forall r :: r in Matching(table, q, after) <==> r in table && Matches(r, q, after)
  {
    if table != [] {
      MatchingMatches(table[1..], q, after);
      var rest := Matching(table[1..], q, after);
      forall i | 0 <= i < |rest| ensures Below(rest[i].at, table[0].at) {
        assert rest[i] in table[1..];
      }
    }
  }

  /** The rows that match, newest first: the tenant's, from since up to until, strictly below
      the cursor by time and then by id. */
  lemma {:induction false} MatchingIsFilter(table: seq<Row>, q: Query, after: Option<Position>)
    requires Descending(table)
    ensures forall r :: r in Matching(table, q, after) <==>
        && r in table && r.tenant == q.tenant && q.since <= r.at.ts && r.at.ts < q.until
        && (after.Some? ==> r.at.ts < after.value.ts || (r.at.ts == after.value.ts && r.at.id < after.value.id))
    ensures forall i, j :: 0 <= i < j < |Matching(table, q, after)| ==>
        var upper, lower := Matching(table, q, after)[i].at, Matching(table, q, after)[j].at;
        lower.ts < upper.ts || (lower.ts == upper.ts && lower.id < upper.id)
  {
    MatchingMatches(table, q, after);
    hide Matching;
  }

  // ---------------------------------------------------------------- a client that follows Next

  /** Rows are only ever added, each at its own place. */
  ghost predicate Grown(was: seq<Row>, table: seq<Row>) {
    Descending(table) && forall r :: r in was ==> r in table
  }

  /** Page after page, each read from the table as it then was, from where the last ended. */
  ghost predicate Paged(tables: seq<seq<Row>>, q: Query, limits: seq<nat>, pages: seq<Page>) {
    && 0 < |pages| == |tables| == |limits|
    && Descending(tables[0])
    && (forall i :: 0 < i < |tables| ==> Grown(tables[i - 1], tables[i]))
    && (forall i :: 0 <= i < |limits| ==> limits[i] > 0)
    && (forall i :: 0 <= i < |pages| - 1 ==> pages[i].next.Some?)
    && forall i :: 0 <= i < |pages| ==> pages[i] == PageOf(Matching(tables[i], q, After(pages, i)), limits[i])
  }

  function After(pages: seq<Page>, i: nat): Option<Position>
    requires i <= |pages|
  {
    if i == 0 then None else pages[i - 1].next
  }

  function Flat(pages: seq<Page>): seq<Row> {
    if pages == [] then [] else Flat(pages[..|pages| - 1]) + pages[|pages| - 1].events
  }

  /** One page: in order, below where it started, and nothing in between left out. */
  lemma PageIsExact(table: seq<Row>, q: Query, after: Option<Position>, limit: nat)
    requires Descending(table) && limit > 0
    ensures var page := PageOf(Matching(table, q, after), limit);
            && Descending(page.events)
            && (forall r :: r in page.events ==> r in table && Matches(r, q, after))
            && (page.next.Some? ==> page.events != [] && page.next.value == page.events[|page.events| - 1].at)
            && (forall r :: r in table && Matches(r, q, after) ==>
                  r in page.events || (page.next.Some? && Below(r.at, page.next.value)))
            && (page.next.Some? ==> exists r :: r in table && Matches(r, q, page.next))
  {
    MatchingMatches(table, q, after);
    var rows := Matching(table, q, after);
    CutIsExact(rows, limit);
    hide Matching, PageOf, Descending, Below, InRange;
    var page := PageOf(rows, limit);
    if page.next.Some? {
      var r :| r in rows && Below(r.at, page.next.value);
      assert Below(r.at, page.next.value) ==> r.at.ts <= page.next.value.ts by {
        BelowIsNoLater(r.at, page.next.value);
      }
      assert r in table && Matches(r, q, page.next);
    }
  }

  lemma PageInFull(table: seq<Row>, q: Query, after: Option<Position>, limit: nat)
    requires Descending(table) && limit > 0
    ensures InFull(PageOf(Matching(table, q, after), limit), table, q, after, limit)
  {
    PageIsExact(table, q, after, limit);
    hide Matching;
  }

  lemma BelowIsNoLater(a: Position, b: Position)
    requires Below(a, b)
    ensures a.ts <= b.ts
  {
  }

  lemma CutIsExact(rows: seq<Row>, limit: nat)
    requires Descending(rows) && limit > 0
    ensures var page := PageOf(rows, limit);
            && Descending(page.events)
            && (forall r :: r in page.events ==> r in rows)
            && (page.next.Some? ==> page.events != [] && page.next.value == page.events[|page.events| - 1].at)
            && (forall r :: r in rows ==> r in page.events || (page.next.Some? && Below(r.at, page.next.value)))
            && (page.next.Some? ==> exists r :: r in rows && Below(r.at, page.next.value))
  {
    var page := PageOf(rows, limit);
    forall r | r in rows ensures r in page.events || (page.next.Some? && Below(r.at, page.next.value)) {
      var k :| 0 <= k < |rows| && rows[k] == r;
      if |rows| > limit && k < limit {
        assert page.events[k] == r;
      }
    }
    if |rows| > limit {
      assert rows[limit] in rows;
    }
  }

  /** What holds after any number of pages, of all the rows seen and where to go on from. */
  ghost predicate SoFar(first: seq<Row>, q: Query, seen: seq<Row>, next: Option<Position>) {
    && Descending(seen)
    && (forall r :: r in seen ==> InRange(r, q))
    && (next.Some? ==> seen != [] && seen[|seen| - 1].at == next.value)
    && forall r :: r in first && InRange(r, q) ==> r in seen || (next.Some? && Below(r.at, next.value))
  }

  lemma {:induction false} GrownThroughout(tables: seq<seq<Row>>, i: nat)
    requires tables != [] && Descending(tables[0]) && i < |tables|
    requires forall j :: 0 < j < |tables| ==> Grown(tables[j - 1], tables[j])
    ensures Grown(tables[0], tables[i])
  {
    if i > 0 {
      GrownThroughout(tables, i - 1);
    }
  }

  lemma SoFarStarts(first: seq<Row>, q: Query, limit: nat)
    requires Descending(first) && limit > 0
    ensures var page := PageOf(Matching(first, q, None), limit); SoFar(first, q, page.events, page.next)
  {
    PageIsExact(first, q, None, limit);
  }

  lemma SoFarGoesOn(first: seq<Row>, table: seq<Row>, q: Query, limit: nat, seen: seq<Row>, next: Position)
    requires SoFar(first, q, seen, Some(next)) && Grown(first, table) && limit > 0
    ensures var page := PageOf(Matching(table, q, Some(next)), limit); SoFar(first, q, seen + page.events, page.next)
  {
    PageIsExact(table, q, Some(next), limit);
    hide Matching, PageOf;
    var page := PageOf(Matching(table, q, Some(next)), limit);
    JoinDescends(seen, page.events);
    hide Descending;
    forall r | r in first && InRange(r, q)
      ensures r in seen + page.events || (page.next.Some? && Below(r.at, page.next.value))
    {
      if r !in seen {
        BelowMatches(r, q, next);
        assert r in table && Matches(r, q, Some(next));
      }
    }
  }

  lemma BelowMatches(r: Row, q: Query, after: Position)
    requires InRange(r, q) && Below(r.at, after)
    ensures Matches(r, q, Some(after))
  {
  }

  lemma JoinDescends(seen: seq<Row>, more: seq<Row>)
    requires seen != [] && Descending(seen) && Descending(more)
    requires forall r :: r in more ==> Below(r.at, seen[|seen| - 1].at)
    ensures Descending(seen + more)
  {
    var all := seen + more;
    forall i, j | 0 <= i < j < |all| ensures Below(all[j].at, all[i].at) {
      if i < |seen| <= j {
        assert all[j] in more;
        assert i < |seen| - 1 ==> Below(seen[|seen| - 1].at, seen[i].at);
      }
    }
  }

  lemma {:induction false} PagedSoFar(tables: seq<seq<Row>>, q: Query, limits: seq<nat>, pages: seq<Page>, n: nat)
    requires Paged(tables, q, limits, pages) && 0 < n <= |pages|
    ensures SoFar(tables[0], q, Flat(pages[..n]), pages[n - 1].next)
  {
    hide PageOf, Matching, Descending, Grown, SoFar;
    assert pages[..n][..n - 1] == pages[..n - 1];
    if n == 1 {
      assert Flat(pages[..1]) == pages[0].events;
      SoFarStarts(tables[0], q, limits[0]);
    } else {
      PagedSoFar(tables, q, limits, pages, n - 1);
      GrownThroughout(tables, n - 1);
      SoFarGoesOn(tables[0], tables[n - 1], q, limits[n - 1], Flat(pages[..n - 1]), pages[n - 2].next.value);
    }
  }

  /** The pages run strictly downwards as one list, so no row comes twice; and once the last
      page is in, every row in range that was there at the first read has come. Rows written
      meanwhile may or may not have. */
  lemma EveryRowOnce(tables: seq<seq<Row>>, q: Query, limits: seq<nat>, pages: seq<Page>)
    requires Paged(tables, q, limits, pages)
    ensures forall i, j :: 0 <= i < j < |Flat(pages)| ==>
        var upper, lower := Flat(pages)[i].at, Flat(pages)[j].at;
        lower.ts < upper.ts || (lower.ts == upper.ts && lower.id < upper.id)
    ensures forall r :: r in Flat(pages) ==> r.tenant == q.tenant && q.since <= r.at.ts && r.at.ts < q.until
    ensures pages[|pages| - 1].next.None? ==>
        forall r :: r in tables[0] && r.tenant == q.tenant && q.since <= r.at.ts && r.at.ts < q.until ==>
          r in Flat(pages)
  {
    hide Flat;
    PagedSoFar(tables, q, limits, pages, |pages|);
    assert pages[..|pages|] == pages;
  }

  /** No page but the first is ever empty: a full last page says that it is the last. */
  lemma NoEmptyRequest(tables: seq<seq<Row>>, q: Query, limits: seq<nat>, pages: seq<Page>, i: nat)
    requires Paged(tables, q, limits, pages) && 0 < i < |pages|
    ensures pages[i].events != []
  {
    GrownThroughout(tables, i - 1);
    GrownThroughout(tables, i);
    var after := After(pages, i - 1);
    PageIsExact(tables[i - 1], q, after, limits[i - 1]);
    var r :| r in tables[i - 1] && Matches(r, q, pages[i - 1].next);
    MatchingMatches(tables[i], q, pages[i - 1].next);
    assert r in tables[i];
  }

  lemma {:induction false} DescendingIsUnique(a: seq<Row>, b: seq<Row>)
    requires Descending(a) && Descending(b) && forall r :: r in a <==> r in b
    ensures a == b
  {
    if a == [] {
      assert forall i :: 0 <= i < |b| ==> b[i] in b;
    } else {
      assert a[0] in b && (b != [] ==> b[0] in a);
      assert a[0] == b[0];
      forall r ensures r in a[1..] <==> r in b[1..] {
        assert r in a <==> r == a[0] || r in a[1..];
        assert r in b <==> r == b[0] || r in b[1..];
        assert a[0] !in a[1..] && b[0] !in b[1..];
      }
      DescendingIsUnique(a[1..], b[1..]);
    }
  }

  // ---------------------------------------------------------------- paging ends

  lemma AfterStays(pages: seq<Page>, page: Page, i: nat)
    requires i <= |pages| && pages != []
    ensures After(pages + [page], i) == After(pages, i)
  {
  }

  /** A chain that has a next page goes on, with a page of any size. */
  lemma GoesOn(tables: seq<seq<Row>>, q: Query, limits: seq<nat>, pages: seq<Page>, table: seq<Row>, limit: nat)
    requires Paged(tables, q, limits, pages) && pages[|pages| - 1].next.Some?
    requires Grown(tables[|tables| - 1], table) && limit > 0
    ensures Paged(tables + [table], q, limits + [limit],
                  pages + [PageOf(Matching(table, q, After(pages, |pages|)), limit)])
  {
    hide PageOf, Matching, Descending, Grown, After;
    var n, page := |pages|, PageOf(Matching(table, q, After(pages, |pages|)), limit);
    var more, read, sizes := pages + [page], tables + [table], limits + [limit];
    forall i | 0 < i < |read| ensures Grown(read[i - 1], read[i]) {
      assert i < n ==> Grown(tables[i - 1], tables[i]);
    }
    forall i | 0 <= i < |more| ensures more[i] == PageOf(Matching(read[i], q, After(more, i)), sizes[i]) {
      AfterStays(pages, page, i);
      assert i < n ==> more[i] == pages[i] && read[i] == tables[i] && sizes[i] == limits[i];
    }
  }

  ghost predicate Fixed(tables: seq<seq<Row>>, table: seq<Row>) {
    forall i :: 0 <= i < |tables| ==> tables[i] == table
  }

  lemma {:induction false} RowsComeFromTable(
      tables: seq<seq<Row>>, q: Query, limits: seq<nat>, pages: seq<Page>, table: seq<Row>, n: nat)
    requires Paged(tables, q, limits, pages) && n <= |pages| && Fixed(tables, table)
    ensures forall r :: r in Flat(pages[..n]) ==> r in table
  {
    if n > 0 {
      RowsComeFromTable(tables, q, limits, pages, table, n - 1);
      assert tables[0] == table;
      assert pages[..n][..n - 1] == pages[..n - 1] && tables[n - 1] == table;
      var after := After(pages, n - 1);
      PageIsExact(table, q, after, limits[n - 1]);
    }
  }

  /** Every page that has a next one brings a row. */
  lemma {:induction false} RowsPerPage(tables: seq<seq<Row>>, q: Query, limits: seq<nat>, pages: seq<Page>, n: nat)
    requires Paged(tables, q, limits, pages) && n <= |pages|
    requires forall i :: 0 <= i < n ==> pages[i].next.Some?
    ensures |Flat(pages[..n])| >= n
  {
    if n > 0 {
      RowsPerPage(tables, q, limits, pages, n - 1);
      assert pages[..n][..n - 1] == pages[..n - 1];
      GrownThroughout(tables, n - 1);
      PageIsExact(tables[n - 1], q, After(pages, n - 1), limits[n - 1]);
    }
  }

  /** On a table nobody writes to, what has come and what is left are the matching rows, cut
      in two. So there are at most as many pages as rows, or the one that says there are
      none; a chain that cannot go on has listed them all. */
  lemma FixedTableIsListed(tables: seq<seq<Row>>, q: Query, limits: seq<nat>, pages: seq<Page>, table: seq<Row>)
    requires Paged(tables, q, limits, pages) && Fixed(tables, table)
    ensures var next, all := pages[|pages| - 1].next, Matching(table, q, None);
            && Flat(pages) + (if next.None? then [] else Matching(table, q, next)) == all
            && |pages| <= 1 + |all|
            && (next.Some? ==> |pages| < |all|)
  {
    hide Matching, Descending, Grown, InRange, Below;
    var n := |pages|;
    var next, all := pages[n - 1].next, Matching(table, q, None);
    assert tables[n - 1] == table && pages[..n] == pages;
    assert Flat(pages) == Flat(pages[..n - 1]) + pages[n - 1].events;
    RowsPerPage(tables, q, limits, pages, n - 1);
    ListedAndLeft(tables, q, limits, pages, table);
    if next.Some? {
      RowsPerPage(tables, q, limits, pages, n);
      GrownThroughout(tables, n - 1);
      NextIsLeft(table, q, After(pages, n - 1), limits[n - 1]);
    }
  }

  /** Where there is a next page there is a row for it. */
  lemma NextIsLeft(table: seq<Row>, q: Query, after: Option<Position>, limit: nat)
    requires Descending(table) && limit > 0
    ensures var next := PageOf(Matching(table, q, after), limit).next;
            next.Some? ==> Matching(table, q, next) != []
  {
    PageIsExact(table, q, after, limit);
    MatchingMatches(table, q, PageOf(Matching(table, q, after), limit).next);
  }

  lemma ListedAndLeft(tables: seq<seq<Row>>, q: Query, limits: seq<nat>, pages: seq<Page>, table: seq<Row>)
    requires Paged(tables, q, limits, pages) && Fixed(tables, table)
    ensures var next := pages[|pages| - 1].next;
            Flat(pages) + (if next.None? then [] else Matching(table, q, next)) == Matching(table, q, None)
  {
    var n, seen := |pages|, Flat(pages);
    var next := pages[n - 1].next;
    assert tables[0] == table && pages[..n] == pages;
    PagedSoFar(tables, q, limits, pages, n);
    RowsComeFromTable(tables, q, limits, pages, table, n);
    MatchingMatches(table, q, None);
    hide Flat, Paged, Matching;
    var left := if next.None? then [] else Matching(table, q, next);
    if next.Some? {
      MatchingMatches(table, q, next);
      JoinDescends(seen, left);
    }
    assert seen + [] == seen;
    forall r ensures r in seen + left <==> r in Matching(table, q, None) {
      if r in table && InRange(r, q) && r !in seen {
        BelowMatches(r, q, next.value);
      }
    }
    DescendingIsUnique(seen + left, Matching(table, q, None));
  }

  // ---------------------------------------------------------------- through cursors

  /** The table's keys are what a cursor can carry. */
  ghost predicate Carried(rows: seq<Row>) {
    forall i :: 0 <= i < |rows| ==> IsId(rows[i].at.id) && FitsInt64(rows[i].at.ts)
  }

  /** What the server makes of the text it sent with the page before. */
  function Resumed(next: Position): Option<Position> {
    if IsId(next.id) then Decode(Encode(next)) else None
  }

  function AskedFor(pages: seq<Page>, i: nat): Option<Position>
    requires i <= |pages|
  {
    if i == 0 || pages[i - 1].next.None? then None else Resumed(pages[i - 1].next.value)
  }

  /** The same chain as its client sees it: each page is asked for by the text of a cursor. */
  ghost predicate PagedByCursor(tables: seq<seq<Row>>, q: Query, limits: seq<nat>, pages: seq<Page>) {
    && 0 < |pages| == |tables| == |limits|
    && Descending(tables[0])
    && (forall i :: 0 < i < |tables| ==> Grown(tables[i - 1], tables[i]))
    && (forall i :: 0 <= i < |limits| ==> limits[i] > 0)
    && (forall i :: 0 <= i < |pages| - 1 ==> pages[i].next.Some? && Resumed(pages[i].next.value).Some?)
    && forall i :: 0 <= i < |pages| ==> pages[i] == PageOf(Matching(tables[i], q, AskedFor(pages, i)), limits[i])
  }

  lemma NextIsCarried(table: seq<Row>, q: Query, after: Option<Position>, limit: nat)
    requires Descending(table) && Carried(table) && limit > 0
    requires PageOf(Matching(table, q, after), limit).next.Some?
    ensures var next := PageOf(Matching(table, q, after), limit).next.value;
            IsId(next.id) && FitsInt64(next.ts) && Resumed(next) == Some(next)
  {
    PageIsExact(table, q, after, limit);
    var page := PageOf(Matching(table, q, after), limit);
    assert page.events[|page.events| - 1] in table;
    IdsAre();
    RoundTripIff(page.next.value);
  }

  /** With every time within 64 bits of nanoseconds, paging by cursor is paging by position. */
  lemma CursorsCarryPaging(tables: seq<seq<Row>>, q: Query, limits: seq<nat>, pages: seq<Page>)
    requires PagedByCursor(tables, q, limits, pages)
    requires forall i :: 0 <= i < |tables| ==> Carried(tables[i])
    ensures Paged(tables, q, limits, pages)
    ensures forall i, j :: 0 <= i < j < |Flat(pages)| ==>
        var upper, lower := Flat(pages)[i].at, Flat(pages)[j].at;
        lower.ts < upper.ts || (lower.ts == upper.ts && lower.id < upper.id)
    ensures forall r :: r in Flat(pages) ==> r.tenant == q.tenant && q.since <= r.at.ts && r.at.ts < q.until
    ensures pages[|pages| - 1].next.None? ==>
        forall r :: r in tables[0] && r.tenant == q.tenant && q.since <= r.at.ts && r.at.ts < q.until ==>
          r in Flat(pages)
  {
    CursorsResume(tables, q, limits, pages, |pages|);
    assert Paged(tables, q, limits, pages);
    EveryRowOnce(tables, q, limits, pages);
  }

  lemma {:induction false} CursorsResume(
      tables: seq<seq<Row>>, q: Query, limits: seq<nat>, pages: seq<Page>, n: nat)
    requires PagedByCursor(tables, q, limits, pages) && n <= |pages|
    requires forall i :: 0 <= i < |tables| ==> Carried(tables[i])
    ensures forall i :: 0 <= i < n ==> pages[i] == PageOf(Matching(tables[i], q, After(pages, i)), limits[i])
  {
    hide PageOf, Matching, Carried, Resumed;
    if n > 1 {
      CursorsResume(tables, q, limits, pages, n - 1);
      GrownThroughout(tables, n - 2);
      NextIsCarried(tables[n - 2], q, After(pages, n - 2), limits[n - 2]);
    }
  }
}

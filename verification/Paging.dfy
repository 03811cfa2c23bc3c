/**
 Keyset paging (internal/db/page.go; the Membership list of internal/membership/service.go). A page
 asks for one row more than it returns, to know whether another follows, and the last row it returns
 is where the next begins.
 */
module Paging {
  import opened Base
  import M = Membership

  const DEFAULT_LIMIT := 50
  const MAX_LIMIT := 100

  /** Zero asks for the default; a size out of range is refused, never reduced. */
  function ListLimit(requested: int): Option<int> {
    if requested == 0 then Some(DEFAULT_LIMIT)
    else if requested < 0 || requested > MAX_LIMIT then None
    else Some(requested)
  }

  datatype Entry = Entry(id: Id, row: M.Row)

  /** A table in the order of its key. */
  type Table = seq<Entry>

  ghost predicate Sorted(t: Table) {
    && (forall i, j :: 0 <= i < j < |t| ==> t[i].id < t[j].id)
    && (forall i :: 0 <= i < |t| ==> t[i].id != NIL)
  }

  /** A nil filter is skipped; a nil cursor starts at the first row. */
  datatype Query = Query(status: Option<M.State>, workspace: Id, principal: Id, after: Id, limit: int)

  /** Row-Level Security leaves a caller the rows of its own Tenant. */
  predicate Matches(e: Entry, tenant: Id, q: Query) {
    && e.row.tenant == tenant
    && (q.status.None? || e.row.status == q.status.value)
    && (q.workspace == NIL || e.row.workspace == q.workspace)
    && (q.principal == NIL || e.row.principal == q.principal)
    && (q.after == NIL || e.id > q.after)
  }

  /** Every row that matches, in key order. */
  function Select(t: Table, tenant: Id, q: Query): seq<Entry> {
    if t == [] then [] else (if Matches(t[0], tenant, q) then [t[0]] else []) + Select(t[1..], tenant, q)
  }

  function First(rows: seq<Entry>, n: nat): seq<Entry> {
    if n < |rows| then rows[..n] else rows
  }

  datatype Page = Page(rows: seq<Entry>, next: Option<Id>)

  function PageOf(t: Table, tenant: Id, q: Query, limit: nat): Page
    requires limit > 0
  {
    var rows := First(Select(t, tenant, q), limit + 1);
    if |rows| > limit then Page(rows[..limit], Some(rows[limit - 1].id)) else Page(rows, None)
  }

  /** The extra row is only looked at: a page is the first `limit` rows of the selection. */
  lemma PageCuts(t: Table, tenant: Id, q: Query, limit: nat)
    requires limit > 0
    ensures
      var all := Select(t, tenant, q);
      PageOf(t, tenant, q, limit) == if |all| > limit then Page(all[..limit], Some(all[limit - 1].id)) else Page(all, None)
  {
    var all := Select(t, tenant, q);
    if |all| > limit + 1 {
      assert all[..limit + 1][..limit] == all[..limit];
    }
  }

  /** The first rows of the selection, at most `limit`; the last of them is named exactly when more follow. */
  ghost predicate IsPage(page: Page, all: seq<Entry>, limit: nat) {
    && |page.rows| <= limit && page.rows <= all
    && (page.next.Some? <==> |page.rows| < |all|)
    && (page.next.Some? ==> |page.rows| == limit > 0 && page.next.value == page.rows[limit - 1].id)
  }

  /** There is one such page: the one a read of one row more gives. */
  lemma PageIsUnique(page: Page, t: Table, tenant: Id, q: Query, limit: nat)
    requires limit > 0
    ensures IsPage(page, Select(t, tenant, q), limit) <==> page == PageOf(t, tenant, q, limit)
  {
    PageCuts(t, tenant, q, limit);
    var all := Select(t, tenant, q);
    if IsPage(page, all, limit) {
      assert page.rows == all[..|page.rows|];
    }
  }

  /** Reads the rows one by one, one more than the page, and cuts the extra one off. */
  method ReadPage(t: Table, tenant: Id, q: Query, limit: nat) returns (page: Page)
    requires limit > 0
    ensures IsPage(page, Select(t, tenant, q), limit)
  {
    var result := First(Select(t, tenant, q), limit + 1);
    var rows: seq<Entry> := [];
    while |rows| < |result|
      invariant |rows| <= |result| && rows == result[..|rows|]
    {
      rows := rows + [result[|rows|]];
    }
    assert rows == result;
    if |rows| > limit {
      rows := rows[..limit];
      return Page(rows, Some(rows[limit - 1].id));
    }
    return Page(rows, None);
  }

  // ----- the selection

  lemma {:induction false} SelectSorted(t: Table, tenant: Id, q: Query)
    requires Sorted(t)
    ensures Sorted(Select(t, tenant, q))
    ensures forall e :: e in Select(t, tenant, q) <==> e in t && Matches(e, tenant, q)
  {
    if t != [] {
      SelectSorted(t[1..], tenant, q);
      var rest := Select(t[1..], tenant, q);
      forall i | 0 <= i < |rest| ensures t[0].id < rest[i].id {
        assert rest[i] in t[1..];
        var k :| 0 <= k < |t| - 1 && t[1..][k] == rest[i];
        assert t[k + 1] == rest[i];
      }
    }
  }

  /** A row of the Tenant, past the cursor, with the status, Workspace and Principal asked for. */
  ghost predicate Wanted(e: Entry, tenant: Id, q: Query) {
    && e.row.tenant == tenant && e.id > q.after
    && (q.status == Some(e.row.status) || q.status == None)
    && q.workspace in {e.row.workspace, NIL} && q.principal in {e.row.principal, NIL}
  }

  /** The rows of the table that are asked for, in key order. */
  ghost predicate Lists(all: seq<Entry>, t: Table, tenant: Id, q: Query) {
    Sorted(all) && forall e :: e in all <==> e in t && Wanted(e, tenant, q)
  }

  /** The selection is the one such sequence. */
  lemma ListsExactly(all: seq<Entry>, t: Table, tenant: Id, q: Query)
    requires Sorted(t)
    ensures Lists(all, t, tenant, q) <==> all == Select(t, tenant, q)
  {
    SelectSorted(t, tenant, q);
    forall e | e in t ensures Matches(e, tenant, q) <==> Wanted(e, tenant, q) {
      assert e.id != NIL;
    }
    if Lists(all, t, tenant, q) {
      SortedByElements(all, Select(t, tenant, q));
    }
  }

  /** Rows in key order are told apart by which they are. */
  lemma {:induction false} SortedByElements(a: seq<Entry>, b: seq<Entry>)
    requires Sorted(a) && Sorted(b) && forall e :: e in a <==> e in b
    ensures a == b
  {
    assert a != [] ==> a[0] in b;
    assert b != [] ==> b[0] in a;
    if a != [] {
      forall e ensures e in a[1..] <==> e in b[1..] {
        TailOf(a, e);
        TailOf(b, e);
      }
      SortedByElements(a[1..], b[1..]);
    }
  }

  lemma TailOf(rows: seq<Entry>, e: Entry)
    requires rows != [] && Sorted(rows)
    ensures e in rows[1..] <==> e in rows && e != rows[0]
  {
    if e in rows && e != rows[0] {
      var i :| 0 <= i < |rows| && rows[i] == e;
      assert rows[1..][i - 1] == e;
    }
  }

  /**
   One page of the bound Tenant's Memberships: of the rows asked for, in key order, the first 50 or as
   many as were asked for. A size out of range is refused.
   */
  method List(t: Table, tenant: Id, q: Query) returns (r: Option<Page>)
    ensures r.None? <==> q.limit < 0 || q.limit > 100
    ensures r.Some? ==> IsPage(r.value, Select(t, tenant, q), if q.limit == 0 then 50 else q.limit)
    ensures r.Some? && Sorted(t) ==> exists all :: Lists(all, t, tenant, q) && IsPage(r.value, all, if q.limit == 0 then 50 else q.limit)
  {
    if Sorted(t) {
      ListsExactly(Select(t, tenant, q), t, tenant, q);
    }
    var limit := ListLimit(q.limit);
    if limit.None? {
      return None;
    }
    var page := ReadPage(t, tenant, q, limit.value);
    return Some(page);
  }

  lemma SelectAbove(t: Table, tenant: Id, q: Query, n: nat)
    requires Sorted(t) && n < |Select(t, tenant, q)|
    ensures t != [] && t[0].id <= Select(t, tenant, q)[n].id
  {
    SelectSorted(t, tenant, q);
    assert Select(t, tenant, q)[n] in t;
  }

  /** Moving the cursor to the last row of a page leaves exactly the rows after it. */
  lemma {:induction false} SelectAfter(t: Table, tenant: Id, q: Query, n: nat, after: Id)
    requires Sorted(t) && 0 < n <= |Select(t, tenant, q)| && after == Select(t, tenant, q)[n - 1].id
    ensures Select(t, tenant, q.(after := after)) == Select(t, tenant, q)[n..]
  {
    SelectAbove(t, tenant, q, n - 1);
    var q' := q.(after := after);
    var rest := Select(t[1..], tenant, q);
    assert Select(t, tenant, q') == Select(t[1..], tenant, q') by {
      assert !Matches(t[0], tenant, q');
    }
    if !Matches(t[0], tenant, q) {
      SelectAfter(t[1..], tenant, q, n, after);
    } else {
      ConsDrop(t[0], rest, n);
      if n == 1 {
        SelectBeyond(t[1..], tenant, q, after);
      } else {
        SelectAfter(t[1..], tenant, q, n - 1, after);
      }
    }
  }

  lemma ConsDrop(first: Entry, rest: seq<Entry>, n: nat)
    requires 0 < n <= |rest| + 1
    ensures ([first] + rest)[n..] == rest[n - 1..]
    ensures n > 1 ==> ([first] + rest)[n - 1] == rest[n - 2]
  {
  }

  lemma {:induction false} SelectBeyond(t: Table, tenant: Id, q: Query, after: Id)
    requires forall i :: 0 <= i < |t| ==> t[i].id > after
    requires q.after == NIL || q.after < after
    ensures Select(t, tenant, q.(after := after)) == Select(t, tenant, q)
  {
    if t != [] {
      SelectBeyond(t[1..], tenant, q, after);
    }
  }

  // ----- walking a table that changes between pages

  /** Following Next from a query; the k-th page is read from the k-th table. */
  function Walk(tables: seq<Table>, tenant: Id, q: Query, limit: nat): seq<Page>
    requires limit > 0
  {
    if tables == [] then []
    else
      var page := PageOf(tables[0], tenant, q, limit);
      if page.next.None? then [page] else [page] + Walk(tables[1..], tenant, q.(after := page.next.value), limit)
  }

  function Rows(pages: seq<Page>): seq<Entry> {
    if pages == [] then [] else pages[0].rows + Rows(pages[1..])
  }

  /** The walk came to a page that names no next. */
  predicate Ended(pages: seq<Page>) {
    pages != [] && pages[|pages| - 1].next.None?
  }

  lemma WalkOnce(tables: seq<Table>, tenant: Id, q: Query, limit: nat)
    requires limit > 0 && tables != []
    ensures
      var page := PageOf(tables[0], tenant, q, limit);
      var pages := Walk(tables, tenant, q, limit);
      if page.next.None? then Rows(pages) == page.rows && Ended(pages)
      else
        var rest := Walk(tables[1..], tenant, q.(after := page.next.value), limit);
        pages == [page] + rest && Rows(pages) == page.rows + Rows(rest) && (Ended(pages) <==> Ended(rest))
  {
    var pages := Walk(tables, tenant, q, limit);
    assert pages[1..] == if pages[0].next.None? then [] else Walk(tables[1..], tenant, q.(after := pages[0].next.value), limit);
  }

  ghost predicate AllSorted(tables: seq<Table>) {
    forall k :: 0 <= k < |tables| ==> Sorted(tables[k])
  }

  ghost predicate HasKey(rows: seq<Entry>, key: Id) {
    exists i :: 0 <= i < |rows| && rows[i].id == key
  }

  /** A row with this key matches in the table. */
  ghost predicate Present(t: Table, tenant: Id, q: Query, key: Id) {
    exists i :: 0 <= i < |t| && t[i].id == key && Matches(t[i], tenant, q)
  }

  /** A page holds every match up to where it ends. */
  lemma PageHas(t: Table, tenant: Id, q: Query, limit: nat, key: Id)
    requires Sorted(t) && limit > 0 && Present(t, tenant, q, key)
    requires PageOf(t, tenant, q, limit).next.Some? ==> key <= PageOf(t, tenant, q, limit).next.value
    ensures HasKey(PageOf(t, tenant, q, limit).rows, key)
  {
    SelectSorted(t, tenant, q);
    PageCuts(t, tenant, q, limit);
    var all := Select(t, tenant, q);
    var i :| 0 <= i < |t| && t[i].id == key && Matches(t[i], tenant, q);
    assert t[i] in all;
    var k :| 0 <= k < |all| && all[k] == t[i];
    assert PageOf(t, tenant, q, limit).rows[k].id == key;
  }

  /** The first rows of a selection are sorted and after the cursor; none is past the last of them. */
  lemma FirstRows(all: seq<Entry>, q: Query, n: nat)
    requires Sorted(all) && n <= |all| && forall i :: 0 <= i < |all| ==> all[i].id > q.after
    ensures Sorted(all[..n]) && forall i :: 0 <= i < n ==> all[..n][i].id > q.after
    ensures n > 0 ==> forall i :: 0 <= i < n ==> all[..n][i].id <= all[n - 1].id
  {
  }

  lemma PageRows(t: Table, tenant: Id, q: Query, limit: nat)
    requires Sorted(t) && limit > 0
    ensures
      var page := PageOf(t, tenant, q, limit);
      && Sorted(page.rows) && (forall i :: 0 <= i < |page.rows| ==> page.rows[i].id > q.after)
      && (page.next.Some? ==> forall i :: 0 <= i < |page.rows| ==> page.rows[i].id <= page.next.value)
      && (page.next.Some? ==> page.next.value > q.after)
  {
    var all := Select(t, tenant, q);
    SelectSorted(t, tenant, q);
    forall i | 0 <= i < |all| ensures all[i].id > q.after {
      assert all[i] in all;
    }
    PageCuts(t, tenant, q, limit);
    FirstRows(all, q, if |all| > limit then limit else |all|);
    assert all[..|all|] == all;
  }

  /** However the table changes between pages, no row is returned twice, and keys only grow. */
  lemma {:induction false} NoRowTwice(tables: seq<Table>, tenant: Id, q: Query, limit: nat)
    requires limit > 0 && AllSorted(tables)
    ensures
      var rows := Rows(Walk(tables, tenant, q, limit));
      Sorted(rows) && forall i :: 0 <= i < |rows| ==> rows[i].id > q.after
  {
    if tables != [] {
      WalkOnce(tables, tenant, q, limit);
      PageRows(tables[0], tenant, q, limit);
      var page := PageOf(tables[0], tenant, q, limit);
      if page.next.Some? {
        NoRowTwice(tables[1..], tenant, q.(after := page.next.value), limit);
      }
    }
  }

  lemma HasKeyIn(a: seq<Entry>, b: seq<Entry>, key: Id)
    requires HasKey(a, key) || HasKey(b, key)
    ensures HasKey(a + b, key)
  {
    if HasKey(a, key) {
      var i :| 0 <= i < |a| && a[i].id == key;
      assert (a + b)[i].id == key;
    } else {
      var i :| 0 <= i < |b| && b[i].id == key;
      assert (a + b)[|a| + i].id == key;
    }
  }

  lemma PresentAfter(t: Table, tenant: Id, q: Query, key: Id, after: Id)
    requires Present(t, tenant, q, key) && key > after
    ensures Present(t, tenant, q.(after := after), key)
  {
    var i :| 0 <= i < |t| && t[i].id == key && Matches(t[i], tenant, q);
    assert Matches(t[i], tenant, q.(after := after));
  }

  /** And a walk that ends has returned every row that matched throughout. */
  lemma {:induction false} NothingStableMissed(tables: seq<Table>, tenant: Id, q: Query, limit: nat, key: Id)
    requires limit > 0 && AllSorted(tables) && Ended(Walk(tables, tenant, q, limit))
    requires forall k :: 0 <= k < |tables| ==> Present(tables[k], tenant, q, key)
    ensures HasKey(Rows(Walk(tables, tenant, q, limit)), key)
  {
    WalkOnce(tables, tenant, q, limit);
    var page := PageOf(tables[0], tenant, q, limit);
    if page.next.None? {
      PageHas(tables[0], tenant, q, limit, key);
    } else {
      var next := q.(after := page.next.value);
      if key <= page.next.value {
        PageHas(tables[0], tenant, q, limit, key);
      } else {
        forall k | 0 <= k < |tables| - 1 ensures Present(tables[1..][k], tenant, next, key) {
          PresentAfter(tables[k + 1], tenant, q, key, page.next.value);
        }
        NothingStableMissed(tables[1..], tenant, next, limit, key);
      }
      HasKeyIn(page.rows, Rows(Walk(tables[1..], tenant, next, limit)), key);
    }
  }

  // ----- walking a table that does not change

  /** Every page but the last is full and names the next; the last names none. */
  ghost predicate FullPages(pages: seq<Page>, limit: int) {
    && Ended(pages) && |pages[|pages| - 1].rows| <= limit
    && forall k :: 0 <= k < |pages| - 1 ==> |pages[k].rows| == limit && pages[k].next.Some?
  }

  /** How many pages of the limit hold so many rows: one at least. */
  function Needed(rows: nat, limit: nat): nat
    requires limit > 0
  {
    if rows <= limit then 1 else 1 + Needed(rows - limit, limit)
  }

  /** Enough for all of them, and one fewer is not. */
  lemma {:induction false} NeededIsLeast(rows: nat, limit: nat)
    requires limit > 0
    ensures Needed(rows, limit) * limit >= rows
    ensures rows > 0 ==> (Needed(rows, limit) - 1) * limit < rows
  {
    if rows > limit {
      NeededIsLeast(rows - limit, limit);
    }
  }

  /** The same table at each of n reads. */
  function Unchanging(t: Table, n: nat): seq<Table> {
    if n == 0 then [] else [t] + Unchanging(t, n - 1)
  }

  /** One read of a table that does not change, and the walk from there. */
  lemma WalkOn(t: Table, n: nat, tenant: Id, q: Query, limit: nat)
    requires limit > 0
    ensures
      var page := PageOf(t, tenant, q, limit);
      Walk(Unchanging(t, n + 1), tenant, q, limit)
      == if page.next.None? then [page] else [page] + Walk(Unchanging(t, n), tenant, q.(after := page.next.value), limit)
  {
    assert Unchanging(t, n + 1)[1..] == Unchanging(t, n);
  }

  /** A page, and what is left after it, are the selection; the walk goes on from there. */
  lemma OnePage(t: Table, n: nat, tenant: Id, q: Query, limit: nat) returns (page: Page, next: Query)
    requires limit > 0 && Sorted(t)
    ensures page.next.None? ==>
              Walk(Unchanging(t, n + 1), tenant, q, limit) == [page] && Select(t, tenant, q) == page.rows && |page.rows| <= limit
    ensures page.next.Some? ==>
              && Walk(Unchanging(t, n + 1), tenant, q, limit) == [page] + Walk(Unchanging(t, n), tenant, next, limit)
              && Select(t, tenant, q) == page.rows + Select(t, tenant, next) && |page.rows| == limit && |Select(t, tenant, next)| > 0
  {
    page, next := PageSplits(t, tenant, q, limit);
    WalkOn(t, n, tenant, q, limit);
  }

  /** The rows of a page and the selection after it. */
  lemma PageSplits(t: Table, tenant: Id, q: Query, limit: nat) returns (page: Page, next: Query)
    requires limit > 0 && Sorted(t)
    ensures page == PageOf(t, tenant, q, limit)
    ensures page.next.None? ==> Select(t, tenant, q) == page.rows && |page.rows| <= limit
    ensures page.next.Some? ==>
              && next == q.(after := page.next.value)
              && Select(t, tenant, q) == page.rows + Select(t, tenant, next) && |page.rows| == limit && |Select(t, tenant, next)| > 0
  {
    PageCuts(t, tenant, q, limit);
    var all := Select(t, tenant, q);
    page, next := PageOf(t, tenant, q, limit), q;
    if |all| > limit {
      next := q.(after := all[limit - 1].id);
      SelectAfter(t, tenant, q, limit, next.after);
      Halves(all, limit);
    }
  }

  lemma Halves(all: seq<Entry>, n: nat)
    requires n <= |all|
    ensures all == all[..n] + all[n..] && |all[n..]| == |all| - n
  {
  }

  /** Page after page: full and followed by rows, then one that names no next. */
  ghost predicate Filled(pages: seq<Page>, limit: nat) {
    && pages != []
    && if |pages| == 1 then pages[0].next.None? && |pages[0].rows| <= limit
       else |pages[0].rows| == limit && pages[0].next.Some? && Rows(pages[1..]) != [] && Filled(pages[1..], limit)
  }

  lemma FilledBy(page: Page, rest: seq<Page>, limit: nat)
    requires Filled(rest, limit) && Rows(rest) != [] && |page.rows| == limit && page.next.Some?
    ensures Filled([page] + rest, limit) && Rows([page] + rest) == page.rows + Rows(rest)
  {
    assert ([page] + rest)[1..] == rest;
  }

  /** The pages are the whole selection, in order, and filled. */
  lemma {:induction false} WalkFills(t: Table, tries: nat, tenant: Id, q: Query, limit: nat)
    requires limit > 0 && Sorted(t) && tries >= Needed(|Select(t, tenant, q)|, limit)
    ensures
      var pages := Walk(Unchanging(t, tries), tenant, q, limit);
      Rows(pages) == Select(t, tenant, q) && Filled(pages, limit)
  {
    var page, next := OnePage(t, tries - 1, tenant, q, limit);
    if page.next.Some? {
      WalkFills(t, tries - 1, tenant, next, limit);
      FilledBy(page, Walk(Unchanging(t, tries - 1), tenant, next, limit), limit);
    } else {
      assert Rows([page]) == page.rows by { assert [page][1..] == []; }
    }
  }

  /** Filled pages: every one but the last is full and names the next, and there are as many as their rows need. */
  lemma {:induction false} FilledIsFull(pages: seq<Page>, limit: nat)
    requires limit > 0 && Filled(pages, limit)
    ensures FullPages(pages, limit)
  {
    if |pages| > 1 {
      FilledIsFull(pages[1..], limit);
      forall k | 0 <= k < |pages| - 1 ensures |pages[k].rows| == limit && pages[k].next.Some? {
        assert k > 0 ==> pages[k] == pages[1..][k - 1];
      }
    }
  }

  lemma {:induction false} FilledLength(pages: seq<Page>, limit: nat)
    requires limit > 0 && Filled(pages, limit)
    ensures |pages| == Needed(|Rows(pages)|, limit)
  {
    if |pages| == 1 {
      assert pages[1..] == [];
    } else {
      FilledLength(pages[1..], limit);
    }
  }

  /** The pages are the whole selection in order, all but the last full, as many as that takes. */
  lemma WalkReturnsAll(t: Table, tries: nat, tenant: Id, q: Query, limit: nat)
    requires limit > 0 && Sorted(t) && tries >= Needed(|Select(t, tenant, q)|, limit)
    ensures
      var pages := Walk(Unchanging(t, tries), tenant, q, limit);
      Rows(pages) == Select(t, tenant, q) && FullPages(pages, limit) && |pages| == Needed(|Select(t, tenant, q)|, limit)
  {
    WalkFills(t, tries, tenant, q, limit);
    FilledIsFull(Walk(Unchanging(t, tries), tenant, q, limit), limit);
    FilledLength(Walk(Unchanging(t, tries), tenant, q, limit), limit);
  }
}

// Keyset pagination: one page of a query, and a client following next_cursor to the end, over a
// gold table that may be replaced between pages.
module Paging {
  import opened Basics
  import opened Gold
  import opened Queries

  /******* ORDER BY and LIMIT *******/

  function Insert(g: GoldRow, rows: seq<GoldRow>): seq<GoldRow> {
    if rows == [] || KeyLess(g.key, rows[0].key) then [g] + rows else [rows[0]] + Insert(g, rows[1..])
  }

  // The rows whose key is selected, in sort order.
  function Ordered(table: seq<GoldRow>, p: GoldKey -> bool): seq<GoldRow> {
    if table == [] then []
    else
      var rest := Ordered(table[1..], p);
      if p(table[0].key) then Insert(table[0], rest) else rest
  }

  function First(rows: seq<GoldRow>, n: int): seq<GoldRow>
    requires n >= 0
  {
    if |rows| <= n then rows else rows[..n]
  }

  ghost predicate Increasing(rows: seq<GoldRow>) {
    forall i, j :: 0 <= i < j < |rows| ==> KeyLess(rows[i].key, rows[j].key)
  }

  lemma {:induction false} InsertSpec(g: GoldRow, rows: seq<GoldRow>)
    requires Increasing(rows) && forall r :: r in rows ==> r.key != g.key
    ensures Increasing(Insert(g, rows))
    ensures forall r :: r in Insert(g, rows) <==> r == g || r in rows
  {
    if rows == [] || KeyLess(g.key, rows[0].key) {
      forall i | 0 < i < |rows| ensures KeyLess(g.key, rows[i].key) {
        KeyLessTransitive(g.key, rows[0].key, rows[i].key);
      }
    } else {
      assert rows[0] in rows && rows == [rows[0]] + rows[1..];
      KeyLessTotal(g.key, rows[0].key);
      InsertSpec(g, rows[1..]);
      var more := Insert(g, rows[1..]);
      forall i | 0 <= i < |more| ensures KeyLess(rows[0].key, more[i].key) {
        assert more[i] in more;
        if more[i] != g {
          var j :| 0 <= j < |rows[1..]| && rows[1..][j] == more[i];
          assert rows[j + 1] == more[i];
        }
      }
    }
  }

  lemma {:induction false} OrderedSpec(table: seq<GoldRow>, p: GoldKey -> bool)
    requires UniqueGold(table)
    ensures Increasing(Ordered(table, p))
    ensures forall r :: r in Ordered(table, p) <==> r in table && p(r.key)
  {
    if table != [] {
      assert table == [table[0]] + table[1..];
      OrderedSpec(table[1..], p);
      var rest := Ordered(table[1..], p);
      if p(table[0].key) {
        forall r | r in rest ensures r.key != table[0].key {
          var j :| 0 <= j < |table[1..]| && table[1..][j] == r;
          assert table[j + 1] == r;
        }
        InsertSpec(table[0], rest);
      }
    }
  }

  lemma {:induction false} OrderedSame(table: seq<GoldRow>, p: GoldKey -> bool, q: GoldKey -> bool)
    requires forall k :: p(k) == q(k)
    ensures Ordered(table, p) == Ordered(table, q)
  {
    if table != [] {
      OrderedSame(table[1..], p, q);
    }
  }

  /******* One page *******/

  // Running a built statement: a row is selected when its WHERE clauses hold.
  predicate Selected(sql: Statement, params: seq<Value>, k: GoldKey) {
    var b := EvalWhere(sql.clauses, k, params);
    b.Some? && b.value.holds
  }

  function Execute(table: seq<GoldRow>, sql: Statement, params: seq<Value>): seq<GoldRow>
    requires sql.limit >= 0
  {
    First(Ordered(table, k => Selected(sql, params, k)), sql.limit)
  }

  // The rows behind one page: one more than the page can show, as the has-more signal.
  function HourlyRows(table: seq<GoldRow>, f: MetricsFilter, limit: nat, after: Option<GoldKey>): seq<GoldRow> {
    First(Ordered(table, Wants(f, after)), limit + 1)
  }

  // Building the statement and running it fetches exactly those rows.
  method FetchHourlyRows(table: seq<GoldRow>, f: MetricsFilter, limit: nat, after: Option<GoldKey>)
    returns (rows: seq<GoldRow>)
    ensures rows == HourlyRows(table, f, limit, after)
  {
    var sql, params := HourlyMetricsSql(f, limit + 1, after);
    rows := Execute(table, sql, params);
    forall k ensures Selected(sql, params, k) == Wanted(f, after, k) {
      assert params + [] == params;
      assert EvalWhere(sql.clauses, k, params + []) == Some(Bound(Wanted(f, after, k), []));
    }
    OrderedSame(table, k => Selected(sql, params, k), Wants(f, after));
  }

  datatype Page = Page(data: seq<GoldRow>, next: Option<GoldKey>)

  function PageOf(rows: seq<GoldRow>, limit: nat): Page {
    var data := First(rows, limit);
    Page(data, if |rows| > limit && data != [] then Some(data[|data| - 1].key) else None)
  }

  function PageAt(table: seq<GoldRow>, f: MetricsFilter, limit: nat, after: Option<GoldKey>): Page {
    PageOf(HourlyRows(table, f, limit, after), limit)
  }

  // What one page promises about the version it is read from.
  lemma PageSpec(table: seq<GoldRow>, f: MetricsFilter, limit: nat, after: Option<GoldKey>)
    requires UniqueGold(table) && limit >= 1
    ensures var page, all := PageAt(table, f, limit, after), Ordered(table, Wants(f, after));
            page.data <= all && Increasing(all) &&
            (forall r :: r in all <==> r in table && Wanted(f, after, r.key)) &&
            (page.next.None? ==> page.data == all) &&
            (page.next.Some? ==> |page.data| == limit < |all| && page.next == Some(page.data[limit - 1].key))
  {
    OrderedSpec(table, Wants(f, after));
  }

  /******* A walk *******/

  // Page i is read from tables[i]; the walk stops at the first page without a cursor.
  function Walk(tables: seq<seq<GoldRow>>, f: MetricsFilter, limit: nat, after: Option<GoldKey>): (pages: seq<Page>)
    ensures |pages| <= |tables|
  {
    if tables == [] then []
    else
      var page := PageAt(tables[0], f, limit, after);
      if page.next.None? then [page] else [page] + Walk(tables[1..], f, limit, page.next)
  }

  function Returned(pages: seq<Page>): seq<GoldRow> {
    if pages == [] then [] else pages[0].data + Returned(pages[1..])
  }

  predicate Finished(pages: seq<Page>) {
    pages != [] && pages[|pages| - 1].next.None?
  }

  ghost predicate HasKey(rows: seq<GoldRow>, k: GoldKey) {
    exists r :: r in rows && r.key == k
  }

  lemma IncreasingConcat(a: seq<GoldRow>, b: seq<GoldRow>)
    requires Increasing(a) && Increasing(b)
    requires forall r :: r in b ==> a != [] ==> KeyLess(a[|a| - 1].key, r.key)
    ensures Increasing(a + b)
  {
    forall i, j | 0 <= i < |a| && 0 <= j < |b| ensures KeyLess(a[i].key, b[j].key) {
      assert b[j] in b;
      if i < |a| - 1 {
        KeyLessTransitive(a[i].key, a[|a| - 1].key, b[j].key);
      }
    }
  }

  lemma WalkUnfolds(tables: seq<seq<GoldRow>>, f: MetricsFilter, limit: nat, after: Option<GoldKey>)
    requires tables != []
    ensures var page, pages := PageAt(tables[0], f, limit, after), Walk(tables, f, limit, after);
            var rest := Walk(tables[1..], f, limit, page.next);
            (page.next.None? ==> pages == [page] && Returned(pages) == page.data) &&
            (page.next.Some? ==> pages == [page] + rest && Returned(pages) == page.data + Returned(rest))
  {
    var page := PageAt(tables[0], f, limit, after);
    var rest := Walk(tables[1..], f, limit, page.next);
    assert ([page] + rest)[1..] == rest;
    assert Returned([page]) == page.data;
  }

  // Every row is wanted and comes from one of the versions.
  ghost predicate Genuine(rows: seq<GoldRow>, tables: seq<seq<GoldRow>>, f: MetricsFilter, after: Option<GoldKey>) {
    forall r :: r in rows ==> Wanted(f, after, r.key) && exists t :: t in tables && r in t
  }

  lemma JoinPages(a: seq<GoldRow>, b: seq<GoldRow>, tables: seq<seq<GoldRow>>, f: MetricsFilter, after: Option<GoldKey>)
    requires tables != [] && a != []
    requires Increasing(a) && Genuine(a, tables, f, after)
    requires Increasing(b) && Genuine(b, tables[1..], f, Some(a[|a| - 1].key))
    ensures Increasing(a + b) && Genuine(a + b, tables, f, after)
  {
    var last := a[|a| - 1].key;
    assert a[|a| - 1] in a;
    IncreasingConcat(a, b);
    forall r | r in b ensures Wanted(f, after, r.key) && exists t :: t in tables && r in t {
      if after.Some? {
        KeyLessTransitive(after.value, last, r.key);
      }
      var t :| t in tables[1..] && r in t;
      assert t in tables;
    }
  }

  // Even if gold is replaced between any two pages, the keys of one walk strictly increase, so
  // none repeats; every row is wanted and comes from a version the walk read.
  lemma {:induction false} WalkIncreases(tables: seq<seq<GoldRow>>, f: MetricsFilter, limit: nat, after: Option<GoldKey>)
    requires limit >= 1 && forall t :: t in tables ==> UniqueGold(t)
    ensures Increasing(Returned(Walk(tables, f, limit, after)))
    ensures Genuine(Returned(Walk(tables, f, limit, after)), tables, f, after)
  {
    if tables != [] {
      assert tables[0] in tables;
      FirstPageGenuine(tables, f, limit, after);
      WalkUnfolds(tables, f, limit, after);
      var page := PageAt(tables[0], f, limit, after);
      if page.next.Some? {
        assert forall t :: t in tables[1..] ==> t in tables;
        WalkIncreases(tables[1..], f, limit, page.next);
        JoinPages(page.data, Returned(Walk(tables[1..], f, limit, page.next)), tables, f, after);
      }
    }
  }

  lemma FirstPageGenuine(tables: seq<seq<GoldRow>>, f: MetricsFilter, limit: nat, after: Option<GoldKey>)
    requires tables != [] && limit >= 1 && UniqueGold(tables[0])
    ensures Increasing(PageAt(tables[0], f, limit, after).data)
    ensures Genuine(PageAt(tables[0], f, limit, after).data, tables, f, after)
    ensures var page := PageAt(tables[0], f, limit, after);
            page.next.Some? ==> page.data != [] && page.next == Some(page.data[|page.data| - 1].key)
  {
    PageSpec(tables[0], f, limit, after);
    var page, all := PageAt(tables[0], f, limit, after), Ordered(tables[0], Wants(f, after));
    forall r | r in page.data ensures r in all && tables[0] in tables {
      var i :| 0 <= i < |page.data| && page.data[i] == r;
      assert all[i] == r;
    }
  }

  // When a walk finishes, every wanted key that was present in every version it read was returned;
  // with WalkIncreases, exactly once.
  lemma {:induction false} FinishedWalkMissesNothing(tables: seq<seq<GoldRow>>, f: MetricsFilter, limit: nat,
                                                     after: Option<GoldKey>, k: GoldKey)
    requires limit >= 1 && forall t :: t in tables ==> UniqueGold(t)
    requires Finished(Walk(tables, f, limit, after)) && Wanted(f, after, k)
    requires forall i :: 0 <= i < |Walk(tables, f, limit, after)| ==> HasKey(tables[i], k)
    ensures HasKey(Returned(Walk(tables, f, limit, after)), k)
  {
    var pages := Walk(tables, f, limit, after);
    var page := pages[0];
    assert HasKey(tables[0], k);
    if HasKey(page.data, k) {
      var r :| r in page.data && r.key == k;
      assert r in Returned(pages);
    } else {
      PageLeavesLater(tables[0], f, limit, after, k);
      var rest := Walk(tables[1..], f, limit, page.next);
      assert pages == [page] + rest && pages[1..] == rest;
      forall j | 0 <= j < |rest| ensures HasKey(tables[1..][j], k) {
        assert HasKey(tables[j + 1], k);
      }
      FinishedWalkMissesNothing(tables[1..], f, limit, page.next, k);
      var found :| found in Returned(rest) && found.key == k;
      assert found in Returned(pages);
    }
  }

  // A wanted key of the version that a page does not show lies strictly after its cursor.
  lemma PageLeavesLater(table: seq<GoldRow>, f: MetricsFilter, limit: nat, after: Option<GoldKey>, k: GoldKey)
    requires limit >= 1 && UniqueGold(table) && Wanted(f, after, k)
    requires HasKey(table, k) && !HasKey(PageAt(table, f, limit, after).data, k)
    ensures PageAt(table, f, limit, after).next.Some? && Wanted(f, PageAt(table, f, limit, after).next, k)
  {
    var page, all := PageAt(table, f, limit, after), Ordered(table, Wants(f, after));
    PageSpec(table, f, limit, after);
    var r :| r in table && r.key == k;
    assert r in all && r !in page.data;
    var i :| 0 <= i < |all| && all[i] == r;
    assert forall j :: 0 <= j < |page.data| ==> page.data[j] != r;
  }

  /******* A table nobody replaces *******/

  lemma {:induction false} IncreasingIsUnique(a: seq<GoldRow>, b: seq<GoldRow>)
    requires Increasing(a) && Increasing(b) && forall r :: r in a <==> r in b
    ensures a == b
  {
    if a == [] {
      assert forall i :: 0 <= i < |b| ==> b[i] in b;
    } else {
      assert a[0] in a && a[0] in b;
      assert b[0] in b && b[0] in a;
      var i :| 0 <= i < |b| && b[i] == a[0];
      var j :| 0 <= j < |a| && a[j] == b[0];
      KeyLessTotal(a[0].key, b[0].key);
      assert a[0] == b[0];
      forall r ensures r in a[1..] <==> r in b[1..] {
        if r in a[1..] { TailMember(a, b, r); }
        if r in b[1..] { TailMember(b, a, r); }
      }
      IncreasingIsUnique(a[1..], b[1..]);
      assert a == [a[0]] + a[1..] && b == [b[0]] + b[1..];
    }
  }

  lemma TailMember(a: seq<GoldRow>, b: seq<GoldRow>, r: GoldRow)
    requires a != [] && b != [] && a[0] == b[0] && Increasing(a)
    requires r in a[1..] && forall x :: x in a ==> x in b
    ensures r in b[1..]
  {
    var i :| 0 <= i < |a[1..]| && a[1..][i] == r;
    assert a[i + 1] == r && r in a && KeyLess(a[0].key, r.key);
    KeyLessTotal(r.key, r.key);
    assert b == [b[0]] + b[1..];
  }

  // The rows strictly after row limit - 1 of a sorted sequence are those from limit on.
  lemma LaterRows(all: seq<GoldRow>, limit: nat, r: GoldRow)
    requires Increasing(all) && 1 <= limit <= |all|
    ensures r in all[limit..] <==> r in all && KeyLess(all[limit - 1].key, r.key)
  {
    if r in all[limit..] {
      var i :| 0 <= i < |all[limit..]| && all[limit..][i] == r;
      assert all[limit + i] == r;
    }
    if r in all && KeyLess(all[limit - 1].key, r.key) {
      var i :| 0 <= i < |all| && all[i] == r;
      KeyLessTotal(all[limit - 1].key, r.key);
      assert i >= limit;
      assert all[limit..][i - limit] == r;
    }
  }

  lemma WantedLater(f: MetricsFilter, after: Option<GoldKey>, last: GoldKey, k: GoldKey)
    requires Wanted(f, after, last)
    ensures Wanted(f, Some(last), k) <==> Wanted(f, after, k) && KeyLess(last, k)
  {
    if after.Some? && KeyLess(last, k) {
      KeyLessTransitive(after.value, last, k);
    }
  }

  // Resuming after the last row of a page selects what the page left.
  lemma CursorDropsPage(table: seq<GoldRow>, f: MetricsFilter, limit: nat, after: Option<GoldKey>)
    requires UniqueGold(table) && limit >= 1 && PageAt(table, f, limit, after).next.Some?
    ensures Ordered(table, Wants(f, PageAt(table, f, limit, after).next)) == Ordered(table, Wants(f, after))[limit..]
  {
    var next := PageAt(table, f, limit, after).next;
    PageSpec(table, f, limit, after);
    OrderedSpec(table, Wants(f, next));
    var all, rest := Ordered(table, Wants(f, after)), Ordered(table, Wants(f, next));
    var last := all[limit - 1];
    assert last in all;
    forall r ensures r in rest <==> r in all[limit..] {
      LaterRows(all, limit, r);
      WantedLater(f, after, last.key, r.key);
    }
    IncreasingIsUnique(rest, all[limit..]);
  }

  function Requests(rows: nat, limit: nat): nat
    requires limit >= 1
  {
    if rows <= limit then 1 else 1 + Requests(rows - limit, limit)
  }

  // max(1, ceil(rows / limit)).
  lemma {:induction false} RequestsIsCeiling(rows: nat, limit: nat)
    requires limit >= 1
    ensures rows <= Requests(rows, limit) * limit
    ensures rows > 0 ==> (Requests(rows, limit) - 1) * limit < rows
    ensures rows == 0 ==> Requests(rows, limit) == 1
  {
    if rows > limit {
      RequestsIsCeiling(rows - limit, limit);
      var n := Requests(rows - limit, limit);
      assert (n + 1) * limit == n * limit + limit && n * limit == (n - 1) * limit + limit;
    }
  }

  function Copies(table: seq<GoldRow>, n: nat): seq<seq<GoldRow>> {
    if n == 0 then [] else [table] + Copies(table, n - 1)
  }

  // One page of the wanted rows all, and the rows its cursor leaves.
  lemma FixedPage(table: seq<GoldRow>, f: MetricsFilter, limit: nat, after: Option<GoldKey>, all: seq<GoldRow>)
    requires UniqueGold(table) && limit >= 1 && all == Ordered(table, Wants(f, after))
    ensures var page := PageAt(table, f, limit, after);
            if |all| <= limit then page == Page(all, None)
            else page.data == all[..limit] && page.next.Some? && Ordered(table, Wants(f, page.next)) == all[limit..]
  {
    PageSpec(table, f, limit, after);
    if |all| > limit {
      CursorDropsPage(table, f, limit, after);
    }
  }

  // A walk over n copies is its first page and a walk over the others.
  lemma FixedWalkUnfolds(table: seq<GoldRow>, n: nat, f: MetricsFilter, limit: nat, after: Option<GoldKey>)
    requires n > 0
    ensures var page, pages := PageAt(table, f, limit, after), Walk(Copies(table, n), f, limit, after);
            pages == if page.next.None? then [page] else [page] + Walk(Copies(table, n - 1), f, limit, page.next)
  {
    assert Copies(table, n)[0] == table && Copies(table, n)[1..] == Copies(table, n - 1);
  }

  // The walk finished after n pages and returned exactly all.
  predicate WalksTo(pages: seq<Page>, n: nat, all: seq<GoldRow>) {
    Finished(pages) && |pages| == n && Returned(pages) == all
  }

  lemma PageThenRest(page: Page, rest: seq<Page>, n: nat, all: seq<GoldRow>, limit: nat)
    requires limit <= |all| && page.data == all[..limit] && WalksTo(rest, n, all[limit..])
    ensures WalksTo([page] + rest, n + 1, all)
  {
    assert ([page] + rest)[1..] == rest;
    assert all == all[..limit] + all[limit..];
  }

  lemma OnlyPage(page: Page)
    requires page.next.None?
    ensures WalksTo([page], 1, page.data)
  {
    assert [page][1..] == [];
  }

  // Over an unchanging table the walk finishes in max(1, ceil(rows / limit)) requests and returns
  // exactly the wanted rows in sort order.
  lemma {:induction false} FixedWalkIsTheQuery(table: seq<GoldRow>, f: MetricsFilter, limit: nat, after: Option<GoldKey>,
                                               all: seq<GoldRow>, n: nat)
    requires UniqueGold(table) && limit >= 1 && all == Ordered(table, Wants(f, after)) && n == Requests(|all|, limit)
    ensures WalksTo(Walk(Copies(table, n), f, limit, after), n, all)
    decreases |all|
  {
    var page := PageAt(table, f, limit, after);
    FixedPage(table, f, limit, after, all);
    FixedWalkUnfolds(table, n, f, limit, after);
    if |all| <= limit {
      OnlyPage(page);
    } else {
      FixedWalkIsTheQuery(table, f, limit, page.next, all[limit..], n - 1);
      PageThenRest(page, Walk(Copies(table, n - 1), f, limit, page.next), n - 1, all, limit);
    }
  }
}

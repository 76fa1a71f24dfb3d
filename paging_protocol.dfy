/**
 * The listing's paging protocol end to end: the client's first request is page 1, each
 * response's `nextCursor` becomes the next request's `cursor` (accident.query.ts, then
 * accident.action.ts), and the service answers it with the rows below that id
 * (accident.service.ts). Following the cursors visits every matching accident once, newest
 * id first.
 */
module PagingProtocol {
  import opened Wrappers
  import opened Seqs
  import opened JsValues
  import opened Store
  import opened QueryFilters
  import opened BackendFunctions
  import opened Listing
  import opened ClientRequests

  /**
   * The pagination the service reads from a client request: the cursor, or the page number,
   * and the limit of 100, each sent as text and read back by the `Pagination` extractor.
   */
  function ServerPagination(param: PageParam): (p: PaginationParams)
    ensures param.PageCursor? && param.cursor != "1" ==> p.cursor == Some(param.cursor)
    ensures param.PageNumber? ==> p.cursor.None? && p.page == Num(param.n)
    ensures param == PageCursor("1") ==> p.cursor.None? && p.page == Num(1)
    ensures p.limit == Num(ClientPageSize)
  {
    ExtractPaginationOfPrinted(1, ClientPageSize, None);
    match param
    case PageCursor(c) =>
      if c != "1" then
        var p := ExtractPagination(None, Some(IntToString(ClientPageSize)), Some(c));
        ToNumberOfIntToString(ClientPageSize);
        p
      else ExtractPagination(Some(IntToString(1)), Some(IntToString(ClientPageSize)), None)
    case PageNumber(n) =>
      ExtractPaginationOfPrinted(n, ClientPageSize, None);
      ExtractPagination(Some(IntToString(n)), Some(IntToString(ClientPageSize)), None)
  }

  /** The service's answer to one request: the listing page with its fresh count. */
  function Answer(table: seq<Accident>, q: QueryParam, param: PageParam): ListingPage {
    var p := ServerPagination(param);
    var w := BuildListWhere(q, p.cursor);
    ListPage(table, w, p.page, p.limit, |Matching(table, w)|)
  }

  function ToClientRow(a: Accident): Option<ClientRow> {
    Some(ClientRow(Some(a.id)))
  }

  /** The page as the client receives it: `{ data, ...meta, hasMore, nextCursor }`. */
  function Received(page: ListingPage): ListingResponse {
    ListingResponse(Some(Map(page.data, ToClientRow)), Some(page.meta.total), Some(page.meta.page),
                    Some(page.hasMore), page.nextCursor)
  }

  /** The page parameter the client asks with after receiving `page`. */
  function Following(page: ListingPage): Option<PageParam> {
    NextPageParam(Normalise(Received(page)))
  }

  /** The rows of the pages fetched from `param` onwards, at most `fuel` further requests. */
  function Crawl(table: seq<Accident>, q: QueryParam, param: PageParam, fuel: nat): seq<Accident>
    decreases fuel
  {
    var page := Answer(table, q, param);
    if fuel == 0 || Following(page).None? then page.data
    else page.data + Crawl(table, q, Following(page).value, fuel - 1)
  }

  /** Ids the client can hand back as cursors: not empty (falsy) and not "1" (read as page 1). */
  predicate UsableIds(table: seq<Accident>) {
    forall i :: 0 <= i < |table| ==> table[i].id != "" && table[i].id != "1"
  }

  function Below(x: string): Accident -> bool {
    (a: Accident) => IdLess(a.id, x)
  }

  /**
   * Paging from the first page through every cursor fetches exactly the rows the listing's
   * filters admit, in strictly descending id order, each once.
   */
  lemma CrawlVisitsAllMatchesOnce(table: seq<Accident>, q: QueryParam)
    requires IndexOrdered(table) && UsableIds(table)
    ensures var rows := Crawl(table, q, FirstPageParam, |table|);
      && rows == Descending(table, BuildListWhere(q, None))
      && StrictlyDescending(rows)
      && (forall i, j :: 0 <= i < j < |rows| ==> rows[i].id != rows[j].id)
      && (forall a :: a in table && MatchesList(BuildListWhere(q, None), a) <==> a in rows)
  {
    CrawlFrom(table, q, None, |table|);
    var rows := Descending(table, BuildListWhere(q, None));
    DescendingRows(table, q, None);
    DescendingHasNoRepeats(rows);
    forall a ensures a in table && MatchesList(BuildListWhere(q, None), a) <==> a in rows {
      ReverseMembers(Matching(table, BuildListWhere(q, None)), a);
      if a in table && MatchesList(BuildListWhere(q, None), a) {
        FilterHas(table, a, ListMatch(BuildListWhere(q, None)));
      }
    }
  }

  lemma {:induction false} FilterHas<T>(s: seq<T>, x: T, p: T -> bool)
    requires x in s && p(x)
    ensures x in Filter(s, p)
  {
    if s[0] != x {
      FilterHas(s[1..], x, p);
    }
  }

  /** The page parameter that asks for the rows below `cursor`, or the first page. */
  function ParamFor(cursor: Option<string>): PageParam {
    if cursor.Some? then PageCursor(cursor.value) else FirstPageParam
  }

  /** A cursor the crawl can be at: none, or the id of a row of the table. */
  predicate CursorOf(table: seq<Accident>, cursor: Option<string>) {
    cursor.None? || exists a :: a in table && a.id == cursor.value
  }

  /**
   * One exchange from a reachable cursor: the page is the first 100 rows below it, and the
   * client asks again, with the last row's id, exactly when more than 100 rows are below.
   */
  lemma AnswerStep(table: seq<Accident>, q: QueryParam, cursor: Option<string>)
    requires IndexOrdered(table) && UsableIds(table) && CursorOf(table, cursor)
    ensures var page := Answer(table, q, ParamFor(cursor));
      var rows := Descending(table, BuildListWhere(q, cursor));
      && page.data == Prefix(rows, ClientPageSize)
      && (|rows| <= ClientPageSize ==> Following(page).None?)
      && (|rows| > ClientPageSize ==>
            Following(page) == Some(PageCursor(rows[ClientPageSize - 1].id))
            && CursorOf(table, Some(rows[ClientPageSize - 1].id)))
  {
    var param := ParamFor(cursor);
    var w := BuildListWhere(q, cursor);
    var rows := Descending(table, w);
    var page := Answer(table, q, param);
    assert ServerPagination(param).cursor == cursor by {
      if cursor.Some? {
        var a :| a in table && a.id == cursor.value;
      }
    }
    assert SafeLimit(Num(ClientPageSize)) == ClientPageSize;
    ListPageShape(table, w, ServerPagination(param).page, Num(ClientPageSize), |Matching(table, w)|);
    FollowingPage(page);
    if |rows| > ClientPageSize {
      var last := rows[ClientPageSize - 1];
      assert page.nextCursor == Some(last.id);
      ReverseMembers(Matching(table, w), last);
      assert last in table;
      var k :| 0 <= k < |table| && table[k] == last;
      assert last.id != "" && last.id != "1";
    }
  }

  /** The client asks again, by cursor, exactly when the page says more rows exist. */
  lemma FollowingPage(page: ListingPage)
    ensures !page.hasMore ==> Following(page).None?
    ensures page.hasMore && Truthy(page.nextCursor) ==> Following(page) == Some(PageCursor(page.nextCursor.value))
  {
    var r := Received(page);
    assert r.hasMore == Some(page.hasMore) && r.nextCursor == page.nextCursor;
  }

  /** From any reachable cursor, the crawl fetches the rows below it, given enough requests. */
  lemma {:induction false} CrawlFrom(table: seq<Accident>, q: QueryParam, cursor: Option<string>, fuel: nat)
    requires IndexOrdered(table) && UsableIds(table) && CursorOf(table, cursor)
    requires |Descending(table, BuildListWhere(q, cursor))| <= fuel + ClientPageSize
    ensures Crawl(table, q, ParamFor(cursor), fuel) == Descending(table, BuildListWhere(q, cursor))
    decreases fuel, 1
  {
    if |Descending(table, BuildListWhere(q, cursor))| <= ClientPageSize {
      CrawlLastPage(table, q, cursor, fuel);
    } else {
      CrawlMore(table, q, cursor, fuel);
    }
  }

  /** More than a page below the cursor: the first page, then the crawl from its last row. */
  lemma {:induction false} CrawlMore(table: seq<Accident>, q: QueryParam, cursor: Option<string>, fuel: nat)
    requires IndexOrdered(table) && UsableIds(table) && CursorOf(table, cursor)
    requires ClientPageSize < |Descending(table, BuildListWhere(q, cursor))| <= fuel + ClientPageSize
    ensures Crawl(table, q, ParamFor(cursor), fuel) == Descending(table, BuildListWhere(q, cursor))
    decreases fuel, 0
  {
    var x := Descending(table, BuildListWhere(q, cursor))[ClientPageSize - 1].id;
    NextCursor(table, q, cursor, fuel);
    CrawlFrom(table, q, Some(x), fuel - 1);
    CrawlJoin(table, q, cursor, fuel, x);
  }

  /** The 100th row's id is a cursor the crawl can go on from, with one request fewer. */
  lemma NextCursor(table: seq<Accident>, q: QueryParam, cursor: Option<string>, fuel: nat)
    requires IndexOrdered(table) && UsableIds(table) && CursorOf(table, cursor)
    requires ClientPageSize < |Descending(table, BuildListWhere(q, cursor))| <= fuel + ClientPageSize
    ensures var x := Descending(table, BuildListWhere(q, cursor))[ClientPageSize - 1].id;
      && fuel > 0
      && CursorOf(table, Some(x))
      && |Descending(table, BuildListWhere(q, Some(x)))| <= fuel - 1 + ClientPageSize
  {
    AnswerStep(table, q, cursor);
    CursorContinues(table, q, cursor, ClientPageSize - 1);
  }

  /** With at most a page below the cursor, the crawl stops after it. */
  lemma CrawlLastPage(table: seq<Accident>, q: QueryParam, cursor: Option<string>, fuel: nat)
    requires IndexOrdered(table) && UsableIds(table) && CursorOf(table, cursor)
    requires |Descending(table, BuildListWhere(q, cursor))| <= ClientPageSize
    ensures Crawl(table, q, ParamFor(cursor), fuel) == Descending(table, BuildListWhere(q, cursor))
  {
    AnswerStep(table, q, cursor);
    CrawlLast(table, q, ParamFor(cursor), fuel);
  }

  /** The first page followed by the crawl of the rest, given that crawl, is the whole. */
  lemma CrawlJoin(table: seq<Accident>, q: QueryParam, cursor: Option<string>, fuel: nat, x: string)
    requires IndexOrdered(table) && UsableIds(table) && CursorOf(table, cursor)
    requires fuel > 0 && ClientPageSize < |Descending(table, BuildListWhere(q, cursor))|
    requires x == Descending(table, BuildListWhere(q, cursor))[ClientPageSize - 1].id
    requires Crawl(table, q, ParamFor(Some(x)), fuel - 1) == Descending(table, BuildListWhere(q, Some(x)))
    ensures Crawl(table, q, ParamFor(cursor), fuel) == Descending(table, BuildListWhere(q, cursor))
  {
    var rows := Descending(table, BuildListWhere(q, cursor));
    CrawlStep(table, q, cursor, fuel);
    Glue(Crawl(table, q, ParamFor(cursor), fuel), Crawl(table, q, ParamFor(Some(x)), fuel - 1), rows, ClientPageSize);
  }

  /** A sequence made of the first `n` rows and a tail equal to the rest is the rows. */
  lemma Glue<T>(whole: seq<T>, tail: seq<T>, rows: seq<T>, n: nat)
    requires n <= |rows| && whole == rows[..n] + tail && tail == rows[n..]
    ensures whole == rows
  {
    assert rows == rows[..n] + rows[n..];
  }

  /**
   * One exchange with more than a page below the cursor: the first 100 rows, then the crawl
   * from the cursor of the 100th, which asks for the rest.
   */
  lemma CrawlStep(table: seq<Accident>, q: QueryParam, cursor: Option<string>, fuel: nat)
    requires IndexOrdered(table) && UsableIds(table) && CursorOf(table, cursor)
    requires fuel > 0 && ClientPageSize < |Descending(table, BuildListWhere(q, cursor))|
    ensures var rows := Descending(table, BuildListWhere(q, cursor));
      var x := rows[ClientPageSize - 1].id;
      && CursorOf(table, Some(x))
      && Descending(table, BuildListWhere(q, Some(x))) == rows[ClientPageSize..]
      && Crawl(table, q, ParamFor(cursor), fuel) == rows[..ClientPageSize] + Crawl(table, q, ParamFor(Some(x)), fuel - 1)
  {
    var rows := Descending(table, BuildListWhere(q, cursor));
    var x := rows[ClientPageSize - 1].id;
    AnswerStep(table, q, cursor);
    CrawlNext(table, q, ParamFor(cursor), fuel, PageCursor(x));
    CursorContinues(table, q, cursor, ClientPageSize - 1);
  }

  lemma CrawlLast(table: seq<Accident>, q: QueryParam, param: PageParam, fuel: nat)
    requires Following(Answer(table, q, param)).None?
    ensures Crawl(table, q, param, fuel) == Answer(table, q, param).data
  {
  }

  lemma CrawlNoFuel(table: seq<Accident>, q: QueryParam, param: PageParam)
    ensures Crawl(table, q, param, 0) == Answer(table, q, param).data
  {
  }

  lemma CrawlNext(table: seq<Accident>, q: QueryParam, param: PageParam, fuel: nat, next: PageParam)
    requires fuel > 0 && Following(Answer(table, q, param)) == Some(next)
    ensures Crawl(table, q, param, fuel) == Answer(table, q, param).data + Crawl(table, q, next, fuel - 1)
  {
  }

  /** The rows below a cursor descend strictly and all come from the table. */
  lemma DescendingRows(table: seq<Accident>, q: QueryParam, cursor: Option<string>)
    requires IndexOrdered(table)
    ensures StrictlyDescending(Descending(table, BuildListWhere(q, cursor)))
  {
    var w := BuildListWhere(q, cursor);
    FilterKeepsOrdered(table, ListMatch(w));
    ReverseOfOrderedDescends(Matching(table, w));
  }

  /** The cursor of the row at `i` asks for exactly the rows after it. */
  lemma CursorContinues(table: seq<Accident>, q: QueryParam, cursor: Option<string>, i: nat)
    requires IndexOrdered(table) && UsableIds(table) && CursorOf(table, cursor)
    requires i < |Descending(table, BuildListWhere(q, cursor))|
    ensures var rows := Descending(table, BuildListWhere(q, cursor));
      Descending(table, BuildListWhere(q, Some(rows[i].id))) == rows[i + 1..]
  {
    var wc := BuildListWhere(q, cursor);
    var rows := Descending(table, wc);
    var x := rows[i].id;
    var wx := BuildListWhere(q, Some(x));
    ReverseMembers(Matching(table, wc), rows[i]);
    assert rows[i] in table && MatchesList(wc, rows[i]);
    var k :| 0 <= k < |table| && table[k] == rows[i];
    assert x != "";
    forall a ensures MatchesList(wx, a) == (MatchesList(wc, a) && IdLess(a.id, x)) {
      if IdLess(a.id, x) && wc.idBelow.Some? {
        IdLessTransitive(a.id, x, wc.idBelow.value);
      }
    }
    FilterFilter(table, ListMatch(wc), Below(x), ListMatch(wx));
    assert Matching(table, wx) == Filter(Matching(table, wc), Below(x));
    FilterReverse(Matching(table, wc), Below(x));
    assert Descending(table, wx) == Filter(rows, Below(x));
    DescendingRows(table, q, cursor);
    FilterBelowDescending(rows, i);
  }

  /** In strictly descending rows, those below the `i`-th id are the ones after it. */
  lemma {:induction false} FilterBelowDescending(rows: seq<Accident>, i: nat)
    requires StrictlyDescending(rows) && i < |rows|
    ensures Filter(rows, Below(rows[i].id)) == rows[i + 1..]
  {
    var x := rows[i].id;
    IdLessIrreflexive(x);
    if i == 0 {
      FilterAll(rows[1..], Below(x));
    } else {
      IdLessAsymmetric(x, rows[0].id);
      assert StrictlyDescending(rows[1..]);
      assert rows[1..][i - 1] == rows[i];
      FilterBelowDescending(rows[1..], i - 1);
      assert rows[1..][i..] == rows[i + 1..];
    }
  }

  lemma {:induction false} FilterAll(s: seq<Accident>, p: Accident -> bool)
    requires forall j :: 0 <= j < |s| ==> p(s[j])
    ensures Filter(s, p) == s
  {
    if s != [] {
      FilterAll(s[1..], p);
    }
  }

  lemma IdLessAsymmetric(a: string, b: string)
    requires IdLess(a, b)
    ensures !IdLess(b, a)
  {
    if IdLess(b, a) {
      IdLessTransitive(a, b, a);
      IdLessIrreflexive(a);
    }
  }

  // ---------------------------------------------------------------------------------------
  // Ids the client cannot hand back
  // ---------------------------------------------------------------------------------------

  /**
   * More than a page matches, and the first page's last id is "" (falsy, so the client falls
   * back to a page number) or "1" (sent as page 1): either way the next request has no cursor.
   */
  predicate StuckAtFirstPage(table: seq<Accident>, q: QueryParam) {
    var rows := Descending(table, BuildListWhere(q, None));
    |rows| > ClientPageSize && (rows[ClientPageSize - 1].id == "" || rows[ClientPageSize - 1].id == "1")
  }

  /** A request without a cursor gets the first page, and so does the request that follows it. */
  lemma FirstPageAgain(table: seq<Accident>, q: QueryParam, param: PageParam)
    requires ServerPagination(param).cursor.None? && StuckAtFirstPage(table, q)
    ensures var page := Answer(table, q, param);
      && page.data == Descending(table, BuildListWhere(q, None))[..ClientPageSize]
      && Following(page).Some? && ServerPagination(Following(page).value).cursor.None?
  {
    var p := ServerPagination(param);
    var w := BuildListWhere(q, None);
    var rows := Descending(table, w);
    var page := Answer(table, q, param);
    assert SafeLimit(Num(ClientPageSize)) == ClientPageSize;
    ListPageShape(table, w, p.page, Num(ClientPageSize), |Matching(table, w)|);
    assert page.nextCursor == Some(rows[ClientPageSize - 1].id);
    FollowingPage(page);
    var c := Normalise(Received(page));
    assert c.next;
  }

  /** `s` written `k` times in a row. */
  function Repeat<T>(s: seq<T>, k: nat): seq<T> {
    if k == 0 then [] else s + Repeat(s, k - 1)
  }

  lemma {:induction false} RepeatMembers<T>(s: seq<T>, k: nat, x: T)
    requires x in Repeat(s, k)
    ensures x in s
  {
    if x !in s {
      assert x in Repeat(s, k - 1);
      RepeatMembers(s, k - 1, x);
    }
  }

  /** The first page's last id is "1", which the client sends back as page 1. */
  predicate CursorOneAtFirstPage(table: seq<Accident>, q: QueryParam) {
    var rows := Descending(table, BuildListWhere(q, None));
    |rows| > ClientPageSize && rows[ClientPageSize - 1].id == "1"
  }

  /** The cursor "1" is answered as the first page, and the first page asks for it. */
  lemma CursorOneIsFirstPage(table: seq<Accident>, q: QueryParam)
    requires CursorOneAtFirstPage(table, q)
    ensures Answer(table, q, PageCursor("1")) == Answer(table, q, FirstPageParam)
    ensures Following(Answer(table, q, FirstPageParam)) == Some(PageCursor("1"))
    ensures Answer(table, q, FirstPageParam).data == Descending(table, BuildListWhere(q, None))[..ClientPageSize]
  {
    var page := Answer(table, q, FirstPageParam);
    FirstPageAgain(table, q, FirstPageParam);
    assert page.hasMore && page.nextCursor == Some("1") by {
      var w := BuildListWhere(q, None);
      assert SafeLimit(Num(ClientPageSize)) == ClientPageSize;
      ListPageShape(table, w, ServerPagination(FirstPageParam).page, Num(ClientPageSize), |Matching(table, w)|);
    }
    FollowingPage(page);
  }

  /**
   * With the first page's last id "1", the client fetches the first page again and again: the
   * crawl from page 1 with `fuel` further requests is `n` = `fuel + 1` copies of that page.
   */
  lemma {:induction false} CrawlRepeats(table: seq<Accident>, q: QueryParam, fuel: nat, n: nat)
    requires CursorOneAtFirstPage(table, q) && n == fuel + 1
    ensures Crawl(table, q, FirstPageParam, fuel)
      == Repeat(Descending(table, BuildListWhere(q, None))[..ClientPageSize], n)
    decreases fuel, 1
  {
    if fuel == 0 {
      CrawlFirstPageOnce(table, q);
    } else {
      CrawlFirstPageMore(table, q, fuel, n);
    }
  }

  lemma CrawlFirstPageOnce(table: seq<Accident>, q: QueryParam)
    requires CursorOneAtFirstPage(table, q)
    ensures Crawl(table, q, FirstPageParam, 0)
      == Repeat(Descending(table, BuildListWhere(q, None))[..ClientPageSize], 1)
  {
    CursorOneIsFirstPage(table, q);
    CrawlNoFuel(table, q, FirstPageParam);
    RepeatOnce(Descending(table, BuildListWhere(q, None))[..ClientPageSize], 0);
  }

  lemma {:induction false} CrawlFirstPageMore(table: seq<Accident>, q: QueryParam, fuel: nat, n: nat)
    requires CursorOneAtFirstPage(table, q) && fuel > 0 && n == fuel + 1
    ensures Crawl(table, q, FirstPageParam, fuel)
      == Repeat(Descending(table, BuildListWhere(q, None))[..ClientPageSize], n)
    decreases fuel, 0
  {
    CrawlRepeats(table, q, fuel - 1, n - 1);
    CrawlRepeatJoin(table, q, fuel, n);
  }

  /** The first page, then the crawl from the cursor "1", is one repetition more. */
  lemma CrawlRepeatJoin(table: seq<Accident>, q: QueryParam, fuel: nat, n: nat)
    requires CursorOneAtFirstPage(table, q) && fuel > 0 && n == fuel + 1
    requires Crawl(table, q, FirstPageParam, fuel - 1)
      == Repeat(Descending(table, BuildListWhere(q, None))[..ClientPageSize], n - 1)
    ensures Crawl(table, q, FirstPageParam, fuel)
      == Repeat(Descending(table, BuildListWhere(q, None))[..ClientPageSize], n)
  {
    CursorOneIsFirstPage(table, q);
    CrawlNext(table, q, FirstPageParam, fuel, PageCursor("1"));
    CrawlSameAnswer(table, q, PageCursor("1"), FirstPageParam, fuel - 1);
    RepeatOnce(Descending(table, BuildListWhere(q, None))[..ClientPageSize], n - 1);
  }

  lemma CrawlSameAnswer(table: seq<Accident>, q: QueryParam, p1: PageParam, p2: PageParam, fuel: nat)
    requires Answer(table, q, p1) == Answer(table, q, p2)
    ensures Crawl(table, q, p1, fuel) == Crawl(table, q, p2, fuel)
  {
  }

  lemma RepeatOnce<T>(s: seq<T>, k: nat)
    ensures Repeat(s, k + 1) == s + Repeat(s, k)
    ensures Repeat(s, 1) == s
  {
    assert Repeat(s, 1) == s + [];
  }

  /**
   * The client as written, on such a table: starting from page 1 with the same number of
   * requests as `CrawlVisitsAllMatchesOnce`, it loads the first page twice and never reaches
   * the 101st matching row.
   */
  lemma StuckCrawlNeverAdvances(table: seq<Accident>, q: QueryParam)
    requires IndexOrdered(table) && CursorOneAtFirstPage(table, q)
    ensures var rows := Descending(table, BuildListWhere(q, None));
      var c := Crawl(table, q, FirstPageParam, |table|);
      && |c| > ClientPageSize && c[0] == c[ClientPageSize]
      && rows[ClientPageSize] !in c
      && c != rows
  {
    var rows := Descending(table, BuildListWhere(q, None));
    var n := |table| + 1;
    CrawlRepeats(table, q, |table|, n);
    DescendingRows(table, q, None);
    StuckRepeatNeverAdvances(rows, n);
  }

  /** The first page repeated, with more than a page of rows: the 101st row is never in it. */
  lemma StuckRepeatNeverAdvances(rows: seq<Accident>, n: nat)
    requires StrictlyDescending(rows) && ClientPageSize < |rows| < n
    ensures var c := Repeat(rows[..ClientPageSize], n);
      && |c| > ClientPageSize && c[0] == c[ClientPageSize]
      && rows[ClientPageSize] !in c
      && c != rows
  {
    var first := rows[..ClientPageSize];
    var c := Repeat(first, n);
    var m := n - 1;
    assert c == first + Repeat(first, m);
    assert Repeat(first, m) == first + Repeat(first, m - 1);
    assert c[ClientPageSize] == Repeat(first, m)[0] == first[0];
    if rows[ClientPageSize] in c {
      RepeatMembers(first, n, rows[ClientPageSize]);
      IdLessIrreflexive(rows[ClientPageSize].id);
      assert false;
    }
    assert rows[ClientPageSize] in rows;
  }
}

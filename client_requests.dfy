/**
 * How the client asks for accidents (dm-project-front/src/lib/react-query/actions/accident.action.ts
 * and dm-project-front/src/lib/react-query/query/accident.query.ts): URLs, the time filters
 * appended to a search string, the listing request built from the page parameter and the
 * cleaned filters, the normalised response, and the choice of the next page parameter.
 */
module ClientRequests {
  import opened Wrappers
  import opened Seqs
  import opened JsValues
  import opened JsObjects
  import opened ClientFunctions

  /** The page size the client asks for. */
  const ClientPageSize: int := 100

  // ---------------------------------------------------------------------------------------
  // Time filters
  // ---------------------------------------------------------------------------------------

  datatype TimeFrameFilters = TimeFrameFilters(
    year: Option<string>,
    month: Option<string>,
    dayOfWeek: Option<string>,
    timeOfDay: Option<string>)

  /** A `URLSearchParams`: its pairs, in the order they were appended. */
  class SearchParams {
    var pairs: seq<(string, string)>

    constructor()
      ensures pairs == []
    {
      pairs := [];
    }

    method Append(key: string, value: string)
      modifies this
      ensures pairs == old(pairs) + [(key, value)]
    {
      pairs := pairs + [(key, value)];
    }
  }

  /** The pair a present, non-empty field contributes. */
  function FieldPair(name: string, p: Option<string>): (r: seq<(string, string)>)
    ensures |r| <= 1
    ensures r != [] <==> Truthy(p)
    ensures r != [] ==> r[0] == (name, p.value)
  {
    if Truthy(p) then [(name, p.value)] else []
  }

  /** The pairs `addTimeFilters` appends: the non-empty fields, in the order year, month, day, time of day. */
  function TimeFilterPairs(tf: Option<TimeFrameFilters>): seq<(string, string)> {
    if tf.None? then []
    else
      FieldPair("year", tf.value.year) + FieldPair("month", tf.value.month)
      + FieldPair("dayOfWeek", tf.value.dayOfWeek) + FieldPair("timeOfDay", tf.value.timeOfDay)
  }

  /** `addTimeFilters`: appends the pairs of the filters that are set. */
  method AddTimeFilters(params: SearchParams, tf: Option<TimeFrameFilters>)
    modifies params
    ensures params.pairs == old(params.pairs) + TimeFilterPairs(tf)
  {
    if tf.None? {
      return;
    }
    var f := tf.value;
    ghost var p0 := params.pairs;
    AppendField(params, "year", f.year);
    ghost var p1 := params.pairs;
    AppendField(params, "month", f.month);
    ghost var p2 := params.pairs;
    AppendField(params, "dayOfWeek", f.dayOfWeek);
    ghost var p3 := params.pairs;
    AppendField(params, "timeOfDay", f.timeOfDay);
    assert p1 == p0 + FieldPair("year", f.year);
    assert p3 == p0 + (FieldPair("year", f.year) + FieldPair("month", f.month) + FieldPair("dayOfWeek", f.dayOfWeek));
  }

  /** `if (value) params.append(name, value)`. */
  method AppendField(params: SearchParams, name: string, value: Option<string>)
    modifies params
    ensures params.pairs == old(params.pairs) + FieldPair(name, value)
  {
    if Truthy(value) {
      params.Append(name, value.value);
    }
  }

  /** Each filter is sent exactly when it is set, under its own name, and no empty value is sent. */
  lemma TimeFilterPairsMeaning(tf: TimeFrameFilters)
    ensures var ps := TimeFilterPairs(Some(tf));
      && (Truthy(tf.year) <==> ("year", tf.year.GetOr("")) in ps)
      && (Truthy(tf.month) <==> ("month", tf.month.GetOr("")) in ps)
      && (Truthy(tf.dayOfWeek) <==> ("dayOfWeek", tf.dayOfWeek.GetOr("")) in ps)
      && (Truthy(tf.timeOfDay) <==> ("timeOfDay", tf.timeOfDay.GetOr("")) in ps)
      && (forall e :: e in ps ==> e.1 != "")
  {
    forall e | true ensures e in TimeFilterPairs(Some(tf)) <==> SentAs(tf, e) {
      TimeFilterPairsHold(tf, e);
    }
  }

  /** The pair `e` is sent for the filters `tf`: one of the four fields is set to its value. */
  predicate SentAs(tf: TimeFrameFilters, e: (string, string)) {
    || (e.0 == "year" && Truthy(tf.year) && e.1 == tf.year.value)
    || (e.0 == "month" && Truthy(tf.month) && e.1 == tf.month.value)
    || (e.0 == "dayOfWeek" && Truthy(tf.dayOfWeek) && e.1 == tf.dayOfWeek.value)
    || (e.0 == "timeOfDay" && Truthy(tf.timeOfDay) && e.1 == tf.timeOfDay.value)
  }

  lemma TimeFilterPairsHold(tf: TimeFrameFilters, e: (string, string))
    ensures e in TimeFilterPairs(Some(tf)) <==> SentAs(tf, e)
  {
    var a := FieldPair("year", tf.year);
    var b := FieldPair("month", tf.month);
    var c := FieldPair("dayOfWeek", tf.dayOfWeek);
    var d := FieldPair("timeOfDay", tf.timeOfDay);
    assert TimeFilterPairs(Some(tf)) == a + b + c + d;
    assert e in a + b + c + d <==> e in a || e in b || e in c || e in d;
  }

  /** `useTimeFrameFilters`: the URL state's filters, with empty values dropped and the names camel-cased. */
  function TimeFrameFiltersOf(state: Entries<string>): (tf: TimeFrameFilters)
  {
    TimeFrameFilters(
      NonEmpty(Get(state, "year")), NonEmpty(Get(state, "month")),
      NonEmpty(Get(state, "day_of_week")), NonEmpty(Get(state, "time_of_day")))
  }

  /** `v || undefined`. */
  function NonEmpty(v: Option<string>): (r: Option<string>)
    ensures r.Some? <==> Truthy(v)
    ensures r.Some? ==> r == v
  {
    if Truthy(v) then v else None
  }

  /**
   * From URL state to request: the aggregates' requests carry `day_of_week` as `dayOfWeek`
   * and `time_of_day` as `timeOfDay`, and no filter whose state value is missing or empty.
   */
  lemma TimeFiltersFromState(state: Entries<string>, v: string)
    ensures ("dayOfWeek", v) in TimeFilterPairs(Some(TimeFrameFiltersOf(state))) <==> v != "" && Get(state, "day_of_week") == Some(v)
    ensures ("timeOfDay", v) in TimeFilterPairs(Some(TimeFrameFiltersOf(state))) <==> v != "" && Get(state, "time_of_day") == Some(v)
    ensures ("year", v) in TimeFilterPairs(Some(TimeFrameFiltersOf(state))) <==> v != "" && Get(state, "year") == Some(v)
    ensures ("month", v) in TimeFilterPairs(Some(TimeFrameFiltersOf(state))) <==> v != "" && Get(state, "month") == Some(v)
  {
    var tf := TimeFrameFiltersOf(state);
    TimeFilterPairsHold(tf, ("dayOfWeek", v));
    TimeFilterPairsHold(tf, ("timeOfDay", v));
    TimeFilterPairsHold(tf, ("year", v));
    TimeFilterPairsHold(tf, ("month", v));
  }

  // ---------------------------------------------------------------------------------------
  // URLs
  // ---------------------------------------------------------------------------------------

  /** `buildUrl`: no query object or an empty one leaves the URL as it is. */
  function BuildUrl(baseUrl: string, queries: Option<ClientQuery>): (url: string)
    ensures queries.None? || queries.value == [] ==> url == baseUrl
  {
    if queries.None? || queries.value == [] then baseUrl
    else baseUrl + (if '?' in baseUrl then "&" else "?") + BuildQueryString(queries.value)
  }

  /**
   * With a query object, the URL is the base, one separator — `&` when the base already has
   * a query part, `?` otherwise — and the query string.
   */
  lemma BuildUrlMeaning(baseUrl: string, queries: ClientQuery)
    requires queries != []
    ensures var url := BuildUrl(baseUrl, Some(queries));
      && url[..|baseUrl|] == baseUrl
      && url[|baseUrl|] == (if '?' in baseUrl then '&' else '?')
      && url[|baseUrl| + 1..] == BuildQueryString(queries)
      && '?' in url
  {
    var url := BuildUrl(baseUrl, Some(queries));
    assert url[|baseUrl|] in url;
  }

  // ---------------------------------------------------------------------------------------
  // The listing request
  // ---------------------------------------------------------------------------------------

  /** The infinite query's page parameter: a page number or a cursor. */
  datatype PageParam = PageNumber(n: int) | PageCursor(cursor: string)

  const FirstPageParam: PageParam := PageNumber(1)

  /**
   * The pagination part of the request: a cursor for any string other than "1", else the page
   * number (1 for the string "1"); the limit is always 100.
   */
  function PaginationQuery(pageParam: PageParam): (r: ClientQuery)
    ensures DistinctKeys(r)
  {
    match pageParam
    case PageCursor(c) =>
      if c != "1" then [("cursor", Str(c)), ("limit", Number(ClientPageSize))]
      else [("page", Number(1)), ("limit", Number(ClientPageSize))]
    case PageNumber(n) => [("page", Number(n)), ("limit", Number(ClientPageSize))]
  }

  /** A filter is forwarded unless it is empty, null, undefined or "all". */
  predicate Kept(e: (string, QVal)) {
    e.1 != Str("") && e.1 != Null && e.1 != Undefined && e.1 != Str("all")
  }

  /** The cleaning reduce: copies each kept entry into an initially empty object. */
  method CleanQueries(queries: ClientQuery) returns (cleaned: ClientQuery)
    requires DistinctKeys(queries)
    ensures cleaned == Filter(queries, Kept)
  {
    cleaned := [];
    for i := 0 to |queries|
      invariant cleaned == Filter(queries[..i], Kept)
    {
      var (key, value) := queries[i];
      KeptStep(queries, i);
      if value != Str("") && value != Null && value != Undefined && value != Str("all") {
        cleaned := Set(cleaned, key, value);
      }
    }
    assert queries[..|queries|] == queries;
  }

  /** One more entry of the reduce: appended when kept, its key being new in the object so far. */
  lemma KeptStep(queries: ClientQuery, i: nat)
    requires DistinctKeys(queries) && i < |queries|
    ensures var kept := Filter(queries[..i], Kept);
      && Get(kept, queries[i].0).None?
      && Filter(queries[..i + 1], Kept) == kept + (if Kept(queries[i]) then [queries[i]] else [])
  {
    var kept := Filter(queries[..i], Kept);
    FilterAppend(queries[..i], [queries[i]], Kept);
    assert queries[..i + 1] == queries[..i] + [queries[i]];
    forall j | 0 <= j < |kept| ensures kept[j].0 != queries[i].0 {
      assert kept[j] in queries[..i];
    }
  }

  /** The whole request query: the cleaned filters with the pagination spread over them. */
  function RequestQuery(queries: Option<ClientQuery>, pageParam: PageParam): ClientQuery {
    Spread(Filter(queries.GetOr([]), Kept), PaginationQuery(pageParam))
  }

  /**
   * What the listing request carries under each key: the pagination's value for `page`,
   * `limit` and `cursor` when it sets them, and otherwise the filter's value when it is kept.
   */
  lemma RequestQueryGet(queries: ClientQuery, pageParam: PageParam, k: string)
    requires DistinctKeys(queries)
    ensures var r := Get(RequestQuery(Some(queries), pageParam), k);
      && (Get(PaginationQuery(pageParam), k).Some? ==> r == Get(PaginationQuery(pageParam), k))
      && (Get(PaginationQuery(pageParam), k).None? ==>
            r == if Get(queries, k).Some? && Kept((k, Get(queries, k).value)) then Get(queries, k) else None)
  {
    SpreadGet(Filter(queries, Kept), PaginationQuery(pageParam), k);
    FilterGet(queries, k);
  }

  /** In a filtered object with distinct keys, a key holds its old value when that entry was kept. */
  lemma {:induction false} FilterGet(queries: ClientQuery, k: string)
    requires DistinctKeys(queries)
    ensures Get(Filter(queries, Kept), k) ==
      if Get(queries, k).Some? && Kept((k, Get(queries, k).value)) then Get(queries, k) else None
  {
    if queries != [] {
      FilterGet(queries[1..], k);
      if queries[0].0 == k {
        assert Get(queries[1..], k).None?;
        assert Get(Filter(queries[1..], Kept), k).None?;
      }
    }
  }

  /** The pagination of a request is the page parameter's, whatever the filters say. */
  lemma PaginationWins(queries: ClientQuery, c: string)
    requires DistinctKeys(queries) && c != "1"
    ensures Get(RequestQuery(Some(queries), PageCursor(c)), "cursor") == Some(Str(c))
    ensures Get(RequestQuery(Some(queries), PageCursor(c)), "limit") == Some(Number(ClientPageSize))
  {
    RequestQueryGet(queries, PageCursor(c), "cursor");
    RequestQueryGet(queries, PageCursor(c), "limit");
  }

  /** `getAccidents`' request URL. */
  method AccidentsRequest(baseUrl: string, queries: Option<ClientQuery>, pageParam: PageParam) returns (url: string)
    requires queries.Some? ==> DistinctKeys(queries.value)
    ensures url == BuildUrl(baseUrl, Some(RequestQuery(queries, pageParam)))
  {
    var pagination := PaginationQuery(pageParam);
    var cleaned := CleanQueries(queries.GetOr([]));
    url := BuildUrl(baseUrl, Some(Spread(cleaned, pagination)));
  }

  // ---------------------------------------------------------------------------------------
  // The response and the next page
  // ---------------------------------------------------------------------------------------

  /** A listing row as the client sees it: an object with an id, or null. */
  datatype ClientRow = ClientRow(id: Option<string>)

  /** A listing response as it arrives, every field possibly missing. */
  datatype ListingResponse = ListingResponse(
    data: Option<seq<Option<ClientRow>>>,
    total: Option<int>,
    page: Option<int>,
    hasMore: Option<bool>,
    nextCursor: Option<string>)

  /** A response after `getAccidents` has normalised it: `next` and `page` added. */
  datatype ClientPage = ClientPage(
    data: Option<seq<Option<ClientRow>>>,
    total: Option<int>,
    page: Option<int>,
    hasMore: Option<bool>,
    nextCursor: Option<string>,
    next: bool)

  /** `next: hasMore ?? data.length >= 100`, `page: page ?? 1`. */
  function Normalise(r: ListingResponse): (p: ClientPage)
    ensures p.page.Some?
    ensures r.hasMore.Some? ==> p.next == r.hasMore.value
    ensures r.hasMore.None? ==> (p.next <==> r.data.Some? && |r.data.value| >= ClientPageSize)
  {
    ClientPage(
      r.data, r.total, Some(r.page.GetOr(1)), r.hasMore, r.nextCursor,
      if r.hasMore.Some? then r.hasMore.value else r.data.Some? && |r.data.value| >= ClientPageSize)
  }

  /**
   * `getNextPageParam`: the cursor when more rows exist and a cursor came back, else the
   * following page number when `next` holds, else nothing, which ends the paging.
   */
  function NextPageParam(last: ClientPage): (r: Option<PageParam>)
    ensures r.Some? <==> (last.hasMore == Some(true) && Truthy(last.nextCursor)) || last.next
    ensures r.Some? && r.value.PageCursor? ==>
      last.hasMore == Some(true) && Truthy(last.nextCursor) && r.value.cursor == last.nextCursor.value
    ensures r.Some? && r.value.PageNumber? ==> r.value.n == last.page.GetOr(0) + 1
  {
    if last.hasMore == Some(true) && Truthy(last.nextCursor) then Some(PageCursor(last.nextCursor.value))
    else if last.next then Some(PageNumber(last.page.GetOr(0) + 1))
    else None
  }

  /** A cursor is preferred: with more rows and a cursor, the next request is by cursor. */
  lemma CursorPreferred(r: ListingResponse)
    requires r.hasMore == Some(true) && Truthy(r.nextCursor)
    ensures NextPageParam(Normalise(r)) == Some(PageCursor(r.nextCursor.value))
  {
  }

  /** A response that says there are no more rows ends the paging. */
  lemma NoMoreEndsPaging(r: ListingResponse)
    requires r.hasMore == Some(false)
    ensures NextPageParam(Normalise(r)).None?
  {
  }

  /** Without `hasMore`, a full page of 100 rows asks for the following page number. */
  lemma FullPageAsksForNextNumber(r: ListingResponse)
    requires r.hasMore.None? && r.data.Some? && |r.data.value| >= ClientPageSize
    ensures NextPageParam(Normalise(r)) == Some(PageNumber(r.page.GetOr(1) + 1))
  {
  }
}

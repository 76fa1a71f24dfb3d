/**
 * The backend's request helpers (dm-project-back/lib/functions.ts): pagination metadata,
 * the `Pagination` and `Queries` parameter extractors, and the update record that
 * `changeDataStatePrisma` hands to the store.
 */
module BackendFunctions {
  import opened Wrappers
  import opened JsValues
  import opened JsObjects
  import Seqs

  datatype PaginationMeta = PaginationMeta(total: int, totalPage: int, next: bool, page: int, limit: int)

  /** `Math.ceil(a / b)` for a positive divisor: the unique k with (k - 1) * b < a <= k * b. */
  function CeilDiv(a: int, b: int): (k: int)
    requires b >= 1
    ensures (k - 1) * b < a <= k * b
  {
    var q := a / b;
    assert a == q * b + a % b;
    if a % b == 0 then q else q + 1
  }

  /**
   * `buildPagination(total, page, limit)`: page falls back to 0 and is clamped to at least 0,
   * limit falls back to 100 and is clamped to at least 1, `total_page` is the ceiling of
   * total / limit and `next` says whether a page follows the current (zero-based) one.
   */
  function BuildPagination(total: int, page: JsNum, limit: JsNum): (m: PaginationMeta)
    ensures m.total == total
    ensures m.page == Seqs.Max(0, OrDefault(page, 0))
    ensures m.limit == Seqs.Max(1, OrDefault(limit, 100))
    ensures m.page >= 0 && m.limit >= 1
    ensures (m.totalPage - 1) * m.limit < total <= m.totalPage * m.limit
    ensures m.next <==> m.page < m.totalPage - 1
  {
    var safePage := Seqs.Max(0, OrDefault(page, 0));
    var safeLimit := Seqs.Max(1, OrDefault(limit, 100));
    var totalPage := CeilDiv(total, safeLimit);
    PaginationMeta(total, totalPage, safePage < totalPage - 1, safePage, safeLimit)
  }

  /** No rows: no pages and no next page. */
  lemma EmptyHasNoPages(page: JsNum, limit: JsNum)
    ensures BuildPagination(0, page, limit).totalPage == 0
    ensures !BuildPagination(0, page, limit).next
  {
  }

  datatype PaginationParams = PaginationParams(page: JsNum, limit: JsNum, cursor: Option<string>)

  /**
   * The `Pagination` extractor: page and limit default to 1 and 10 when the request does not
   * carry them, are converted with `Number`, and the cursor passes through untouched.
   */
  function ExtractPagination(page: Option<string>, limit: Option<string>, cursor: Option<string>): (p: PaginationParams)
    ensures page.None? ==> p.page == Num(1)
    ensures limit.None? ==> p.limit == Num(10)
    ensures page.Some? ==> p.page == ToNumber(page.value)
    ensures limit.Some? ==> p.limit == ToNumber(limit.value)
    ensures p.cursor == cursor
  {
    PaginationParams(
      if page.Some? then ToNumber(page.value) else Num(1),
      if limit.Some? then ToNumber(limit.value) else Num(10),
      cursor)
  }

  /** A page number sent as its decimal text arrives as that number. */
  lemma ExtractPaginationOfPrinted(page: int, limit: int, cursor: Option<string>)
    ensures ExtractPagination(Some(IntToString(page)), Some(IntToString(limit)), cursor)
         == PaginationParams(Num(page), Num(limit), cursor)
  {
    ToNumberOfIntToString(page);
    ToNumberOfIntToString(limit);
  }

  /**
   * The `Queries` extractor: the request's query entries without `page`, `limit` and
   * entries whose value is undefined, in their original order.
   */
  function ExtractQueries(query: Entries<Option<string>>): (r: Entries<Option<string>>)
    ensures forall e :: e in r <==> e in query && e.0 != "page" && e.0 != "limit" && e.1.Some?
    ensures |r| <= |query|
    decreases |query|
  {
    if query == [] then []
    else
      var rest := ExtractQueries(query[1..]);
      var e := query[0];
      if e.0 != "page" && e.0 != "limit" && e.1.Some? then [e] + rest else rest
  }

  /** Removing entries keeps the remaining keys distinct. */
  lemma {:induction false} ExtractQueriesDistinct(query: Entries<Option<string>>)
    requires DistinctKeys(query)
    ensures DistinctKeys(ExtractQueries(query))
  {
    if query != [] {
      ExtractQueriesDistinct(query[1..]);
      var r := ExtractQueries(query[1..]);
      forall i | 0 <= i < |r| ensures r[i].0 != query[0].0 {
        assert r[i] in query[1..];
      }
    }
  }

  /** The record `changeDataStatePrisma` writes to every selected row. */
  datatype StateUpdate = StateUpdate(deleted: bool, deletedAt: Option<int>)

  datatype UpdateOutcome = Update(update: StateUpdate) | InvalidState(message: string)

  /**
   * `soft_delete` marks rows deleted at `now`, `restore` clears both fields, and any other state
   * is rejected before the store is touched.
   */
  function ChangeDataStateUpdate(state: string, now: int): (r: UpdateOutcome)
    ensures r.Update? <==> state == "soft_delete" || state == "restore"
    ensures r.Update? ==> (r.update.deleted <==> state == "soft_delete")
    ensures r.Update? ==> (r.update.deletedAt.Some? <==> r.update.deleted)
    ensures r.Update? && r.update.deleted ==> r.update.deletedAt == Some(now)
    ensures r.InvalidState? ==> r.message == "Invalid state: " + state
  {
    if state == "soft_delete" then Update(StateUpdate(true, Some(now)))
    else if state == "restore" then Update(StateUpdate(false, None))
    else InvalidState("Invalid state: " + state)
  }
}

/**
 * The accident listing (`get` in dm-project-back/src/accident/accident.service.ts): the page
 * size, the one-extra-row fetch in descending id order, `hasMore`, the cursor for the next
 * request and the pagination metadata.
 */
module Listing {
  import opened Wrappers
  import opened Seqs
  import opened JsValues
  import opened Store
  import opened QueryFilters
  import opened BackendFunctions

  /** The listing's largest page. */
  const MaxPageSize: int := 200
  /** The page size when the request has no usable limit (0 or NaN). */
  const FallbackPageSize: int := 50

  /** `Math.min(limit || 50, 200)`. */
  function SafeLimit(limit: JsNum): (n: int)
    ensures n <= MaxPageSize
    ensures limit == NaN || limit == Num(0) ==> n == FallbackPageSize
    ensures limit.Num? && limit.n != 0 ==> n == Min(limit.n, MaxPageSize)
  {
    Min(OrDefault(limit, FallbackPageSize), MaxPageSize)
  }

  /**
   * Prisma's `take: n` over ordered rows: the first `n` rows, and for a negative `n` the last
   * `-n` rows, still in order.
   */
  function Take<T>(rows: seq<T>, n: int): (r: seq<T>)
    ensures |r| == if n >= 0 then Min(n, |rows|) else Min(-n, |rows|)
    ensures n >= 0 ==> r == rows[..|r|]
    ensures n < 0 ==> r == rows[|rows| - |r|..]
  {
    if n >= 0 then Prefix(rows, n) else rows[|rows| - Min(-n, |rows|)..]
  }

  /** `s.slice(0, end)`: a negative end counts from the back. */
  function SliceTo<T>(s: seq<T>, end: int): (r: seq<T>)
    ensures |r| == if end >= 0 then Min(end, |s|) else Max(0, |s| + end)
    ensures r == s[..|r|]
  {
    if end >= 0 then Prefix(s, end) else s[..Max(0, |s| + end)]
  }

  /** What the listing returns. */
  datatype ListingPage = ListingPage(
    data: seq<Accident>,
    meta: PaginationMeta,
    hasMore: bool,
    nextCursor: Option<string>)

  function ListMatch(w: ListWhere): Accident -> bool {
    (a: Accident) => MatchesList(w, a)
  }

  /** The rows the listing's where object admits, in index order: the rows it counts. */
  function Matching(table: seq<Accident>, w: ListWhere): seq<Accident> {
    Filter(table, ListMatch(w))
  }

  /** The rows the listing's where object admits, newest id first. */
  function Descending(table: seq<Accident>, w: ListWhere): seq<Accident> {
    Reverse(Matching(table, w))
  }

  /**
   * One page of the listing, given the count `total` (cached or fresh): fetch `size + 1`
   * rows, keep the first `size` when the extra one arrived, and hand out the last kept id
   * as the next cursor. `page` only reaches the metadata.
   */
  function ListPage(table: seq<Accident>, w: ListWhere, page: JsNum, limit: JsNum, total: int): (p: ListingPage)
    ensures p.meta == BuildPagination(total, page, Num(SafeLimit(limit)))
  {
    var size := SafeLimit(limit);
    var fetched := Take(Descending(table, w), size + 1);
    var hasMore := |fetched| > size;
    var results := if hasMore then SliceTo(fetched, size) else fetched;
    var nextCursor := if hasMore && |results| > 0 then Some(results[|results| - 1].id) else None;
    ListingPage(results, BuildPagination(total, page, Num(size)), hasMore, nextCursor)
  }

  /**
   * For a usable limit the page is the first `size` matching rows in descending id order,
   * `hasMore` says whether more rows match, and the next cursor is the last row's id exactly
   * when there are more.
   */
  lemma {:induction false} ListPageShape(table: seq<Accident>, w: ListWhere, page: JsNum, limit: JsNum, total: int)
    requires SafeLimit(limit) >= 1
    ensures var p := ListPage(table, w, page, limit, total);
      var rows := Descending(table, w);
      && p.data == Prefix(rows, SafeLimit(limit))
      && (p.hasMore <==> |rows| > SafeLimit(limit))
      && (p.nextCursor.Some? <==> p.hasMore)
      && (p.hasMore ==> p.nextCursor == Some(p.data[|p.data| - 1].id))
      && |p.data| <= SafeLimit(limit) <= MaxPageSize
  {
    var size := SafeLimit(limit);
    var rows := Descending(table, w);
    var fetched := Take(rows, size + 1);
    if |fetched| > size {
      assert fetched[..size] == rows[..size];
    }
  }

  /** The page number never changes which rows come back, nor `hasMore` or the cursor. */
  lemma PageSelectsNoRows(table: seq<Accident>, w: ListWhere, page1: JsNum, page2: JsNum, limit: JsNum, total: int)
    ensures ListPage(table, w, page1, limit, total).data == ListPage(table, w, page2, limit, total).data
    ensures ListPage(table, w, page1, limit, total).hasMore == ListPage(table, w, page2, limit, total).hasMore
    ensures ListPage(table, w, page1, limit, total).nextCursor == ListPage(table, w, page2, limit, total).nextCursor
  {
  }

  /**
   * A negative limit (a negative page size) returns no rows, yet claims more rows and gives no
   * cursor: the one-extra fetch becomes a take from the end and `slice(0, size)` drops it all.
   */
  lemma NegativeLimitGivesEmptyPage(table: seq<Accident>, w: ListWhere, page: JsNum, limit: JsNum, total: int)
    requires limit.Num? && limit.n < 0
    ensures ListPage(table, w, page, limit, total).data == []
    ensures ListPage(table, w, page, limit, total).hasMore
    ensures ListPage(table, w, page, limit, total).nextCursor.None?
  {
  }

  /** On an index-ordered table, a page's rows descend strictly and match the where object. */
  lemma PageRowsDescend(table: seq<Accident>, w: ListWhere, page: JsNum, limit: JsNum, total: int)
    requires IndexOrdered(table)
    ensures var p := ListPage(table, w, page, limit, total);
      StrictlyDescending(p.data) && forall a :: a in p.data ==> a in table && MatchesList(w, a)
  {
    PageDescends(table, w, page, limit, total);
    PageMembers(table, w, page, limit, total);
  }

  lemma PageDescends(table: seq<Accident>, w: ListWhere, page: JsNum, limit: JsNum, total: int)
    requires IndexOrdered(table)
    ensures StrictlyDescending(ListPage(table, w, page, limit, total).data)
  {
    var rows := Descending(table, w);
    FilterKeepsOrdered(table, ListMatch(w));
    ReverseOfOrderedDescends(Matching(table, w));
    var lo := PageSlice(rows, SafeLimit(limit));
    DescendingSlice(rows, lo, ListPage(table, w, page, limit, total).data);
  }

  lemma PageMembers(table: seq<Accident>, w: ListWhere, page: JsNum, limit: JsNum, total: int)
    ensures forall a :: a in ListPage(table, w, page, limit, total).data ==> a in table && MatchesList(w, a)
  {
    var data := ListPage(table, w, page, limit, total).data;
    var lo := PageSlice(Descending(table, w), SafeLimit(limit));
    forall a | a in data ensures a in table && MatchesList(w, a) {
      ReverseMembers(Matching(table, w), a);
    }
  }

  /**
   * The rows a page keeps out of `rows` (fetch `size + 1`, keep `size` when the extra one
   * arrived) are a contiguous run of them.
   */
  lemma PageSlice<T>(rows: seq<T>, size: int) returns (lo: nat)
    ensures var fetched := Take(rows, size + 1);
      var results := if |fetched| > size then SliceTo(fetched, size) else fetched;
      lo + |results| <= |rows| && results == rows[lo..lo + |results|]
      && forall x :: x in results ==> x in rows
  {
    var fetched := Take(rows, size + 1);
    var results := if |fetched| > size then SliceTo(fetched, size) else fetched;
    lo := if size + 1 >= 0 then 0 else |rows| - |fetched|;
    assert fetched == rows[lo..lo + |fetched|];
    assert results == fetched[..|results|];
  }

  /** Any contiguous run of strictly descending rows descends strictly. */
  lemma DescendingSlice(rows: seq<Accident>, lo: nat, part: seq<Accident>)
    requires StrictlyDescending(rows)
    requires lo + |part| <= |rows| && part == rows[lo..lo + |part|]
    ensures StrictlyDescending(part)
  {
    forall i, j | 0 <= i < j < |part| ensures IdLess(part[j].id, part[i].id) {
      assert part[i] == rows[lo + i] && part[j] == rows[lo + j];
    }
  }
}

/**
 * The accidents table (dm-project-front/src/components/table/AccidentsTable.tsx): the rows it
 * shows are the pages loaded so far, flattened; its header shows the first page's total and
 * its footer how many more rows the next load brings.
 */
module AccidentsTable {
  import opened Wrappers
  import opened Seqs
  import opened Store
  import opened QueryFilters
  import opened Listing
  import opened ClientRequests
  import opened PagingProtocol

  /** A row the table keeps: present and with an id. */
  predicate Listed(item: Option<ClientRow>) {
    item.Some? && item.value.id.Some?
  }

  /** The rows of one loaded page: none when the page is missing or its data is not an array. */
  function PageItems(page: Option<ClientPage>): seq<Option<ClientRow>> {
    if page.Some? && page.value.data.Some? then page.value.data.value else []
  }

  /** `pages.filter(page => page && Array.isArray(page.data)).flatMap(page => page.data)`. */
  function Flattened(pages: seq<Option<ClientPage>>): seq<Option<ClientRow>> {
    if pages == [] then [] else Flattened(pages[..|pages| - 1]) + PageItems(pages[|pages| - 1])
  }

  /** The listed items, unwrapped, in order. */
  function ListedRows(items: seq<Option<ClientRow>>): (r: seq<ClientRow>)
    ensures |r| <= |items|
    ensures forall i :: 0 <= i < |r| ==> r[i].id.Some?
    ensures forall x :: x in r <==> Some(x) in items && x.id.Some?
  {
    if items == [] then []
    else
      assert items == [items[0]] + items[1..];
      (if Listed(items[0]) then [items[0].value] else []) + ListedRows(items[1..])
  }

  /** The table's rows: every listed item of every loaded page; none before any page loads. */
  function Loaded(pages: Option<seq<Option<ClientPage>>>): seq<ClientRow> {
    if pages.None? then [] else ListedRows(Flattened(pages.value))
  }

  lemma {:induction false} ListedRowsAppend(a: seq<Option<ClientRow>>, b: seq<Option<ClientRow>>)
    ensures ListedRows(a + b) == ListedRows(a) + ListedRows(b)
  {
    if a == [] {
      assert a + b == b;
    } else {
      assert (a + b)[0] == a[0];
      assert (a + b)[1..] == a[1..] + b;
      ListedRowsAppend(a[1..], b);
    }
  }

  /** Loading one more page appends its listed rows after those already shown. */
  lemma LoadingAppends(pages: seq<Option<ClientPage>>, page: Option<ClientPage>)
    ensures Loaded(Some(pages + [page])) == Loaded(Some(pages)) + Loaded(Some([page]))
  {
    assert (pages + [page])[..|pages + [page]| - 1] == pages;
    assert [page][..0] == [];
    assert Flattened([page]) == PageItems(page);
    ListedRowsAppend(Flattened(pages), PageItems(page));
  }

  lemma {:induction false} ListedReceived(rows: seq<Accident>)
    ensures var shown := ListedRows(Map(rows, ToClientRow));
      |shown| == |rows| && forall i :: 0 <= i < |rows| ==> shown[i].id == Some(rows[i].id)
  {
    if rows != [] {
      assert Map(rows, ToClientRow)[1..] == Map(rows[1..], ToClientRow);
      ListedReceived(rows[1..]);
    }
  }

  /** A page the listing service sent is shown whole: one row per accident, ids in order. */
  lemma ReceivedPageShown(page: ListingPage)
    ensures var shown := Loaded(Some([Some(Normalise(Received(page)))]));
      |shown| == |page.data| && forall i :: 0 <= i < |shown| ==> shown[i].id == Some(page.data[i].id)
  {
    var sent := Some(Normalise(Received(page)));
    assert [sent][..0] == [];
    assert PageItems(sent) == Map(page.data, ToClientRow);
    assert Flattened([sent]) == Map(page.data, ToClientRow);
    ListedReceived(page.data);
  }

  /** `pages[0]?.total ?? 0`, and 0 before any page has loaded. */
  function TotalCount(pages: Option<seq<Option<ClientPage>>>): (n: int)
    ensures pages.None? || pages.value == [] ==> n == 0
    ensures pages.Some? && pages.value != [] && pages.value[0].Some? && pages.value[0].value.total.Some?
      ==> n == pages.value[0].value.total.value
    ensures pages.Some? && pages.value != [] && (pages.value[0].None? || pages.value[0].value.total.None?)
      ==> n == 0
  {
    if pages.None? || pages.value == [] then 0
    else if pages.value[0].Some? && pages.value[0].value.total.Some? then pages.value[0].value.total.value
    else 0
  }

  /** The total shown never changes as later pages load: it is the first page's. */
  lemma TotalFixedByFirstPage(pages: seq<Option<ClientPage>>, more: seq<Option<ClientPage>>)
    requires pages != []
    ensures TotalCount(Some(pages + more)) == TotalCount(Some(pages))
    ensures TotalCount(Some(pages)) == TotalCount(Some([pages[0]]))
  {
  }

  /**
   * Whatever pages follow, the header shows the count of every accident matching the filters:
   * the total the service sent with the first page, which it counted without a cursor.
   */
  lemma TotalIsMatchCount(table: seq<Accident>, q: QueryParam, more: seq<Option<ClientPage>>)
    ensures TotalCount(Some([Some(Normalise(Received(Answer(table, q, FirstPageParam))))] + more))
      == |Matching(table, BuildListWhere(q, None))|
  {
    var first := Answer(table, q, FirstPageParam);
    assert ServerPagination(FirstPageParam).cursor.None?;
    assert first.meta.total == |Matching(table, BuildListWhere(q, None))|;
  }

  /** The "Next n" label: `Math.min(100, totalCount - loaded)`. */
  function NextLoadCount(total: int, loaded: nat): (n: int)
    ensures n <= ClientPageSize && n <= total - loaded
    ensures n == ClientPageSize || n == total - loaded
    ensures loaded <= total ==> n >= 0
  {
    Min(ClientPageSize, total - loaded)
  }

  /** The percentage is shown only while rows remain to load. */
  predicate ShowsPercentage(total: int, loaded: nat) {
    total > loaded
  }

  /** `(loaded / totalCount) * 100`, where it is shown. */
  function LoadedPercentage(total: int, loaded: nat): (r: real)
    requires ShowsPercentage(total, loaded)
    ensures 0.0 <= r < 100.0
    ensures r * (total as real) == (loaded as real) * 100.0
  {
    (loaded as real / total as real) * 100.0
  }

  /** The auto-load effect schedules a fetch only when enabled, with a next page and none in flight. */
  function AutoLoadFetches(enabled: bool, hasNextPage: bool, fetching: bool): (r: bool)
    ensures r ==> enabled && hasNextPage && !fetching
    ensures enabled && hasNextPage && !fetching ==> r
  {
    enabled && hasNextPage && !fetching
  }

  /** React Query's `hasNextPage`: the last loaded page yields a next page parameter. */
  predicate HasNextPage(pages: seq<ClientPage>) {
    pages != [] && NextPageParam(pages[|pages| - 1]).Some?
  }

  /** Auto-load stops at the last page of the listing: a page of all remaining rows ends it. */
  lemma AutoLoadStopsAtLastPage(pages: seq<ClientPage>, last: ListingPage, enabled: bool, fetching: bool)
    requires !last.hasMore
    ensures !AutoLoadFetches(enabled, HasNextPage(pages + [Normalise(Received(last))]), fetching)
  {
  }
}

/**
 * `AccidentService` (dm-project-back/src/accident/accident.service.ts): the listing and the five
 * dashboard aggregates over an immutable table of accidents, behind an in-memory cache of
 * time-limited entries.
 *
 * The cache is keyed here by the request fields each answer depends on, as a datatype, so
 * that equal keys mean equal answers; the source's own string keys do not have that property
 * (see `CacheKeyFindings`). The class invariant says every cached value is what the service
 * would compute afresh for its key, and each operation promises the fresh answer whether it
 * is served from the cache or not.
 */
module Accidents {
  import opened Wrappers
  import opened Seqs
  import opened JsValues
  import opened Store
  import opened QueryFilters
  import opened BackendFunctions
  import opened TtlCache
  import opened Listing
  import opened Aggregates
  import opened Sampling
  import opened Treemap
  import opened Poi

  /** The listing count is kept for two minutes. */
  const CountTtl: int := 2 * 60 * 1000
  /** A parallel-coordinates sample is kept for three minutes. */
  const PcpTtl: int := 3 * 60 * 1000

  // ---------------------------------------------------------------------------------------
  // What each operation computes
  // ---------------------------------------------------------------------------------------

  function TimeFrameMatch(q: QueryParam): Accident -> bool {
    (a: Accident) => MatchesTimeFrame(q, a)
  }

  function ClauseMatch(clause: seq<Condition>): Accident -> bool {
    (a: Accident) => AllHold(clause, a)
  }

  /** The temporal heatmap: the rows of the time-frame clause, grouped by hour and day. */
  function TemporalHeatmapOf(table: seq<Accident>, q: QueryParam): HeatmapData {
    Heatmap(Filter(table, TimeFrameMatch(q)))
  }

  /** The hexbin map's where clause: state and the time filters; the city is not read. */
  predicate HexbinMatches(q: QueryParam, a: Accident) {
    (!Truthy(q.state) || a.state == q.state.value) && TimeMatches(q, a)
  }

  function HexbinMatch(q: QueryParam): Accident -> bool {
    (a: Accident) => HexbinMatches(q, a)
  }

  /** The hexbin map, or nothing when a year or month that is not a number fails the query. */
  function HexbinOf(table: seq<Accident>, q: QueryParam): Option<HexbinData> {
    if TimeFiltersUsable(q) then Some(Hexbin(Filter(table, HexbinMatch(q)))) else None
  }

  /**
   * The parallel-coordinates answer for one choice of random pivot: the sample's weather
   * points, the ranges of all matching rows and their count.
   */
  function PcpOf(table: seq<Accident>, severity: JsNum, limit: nat, q: QueryParam, pivot: string): ParallelCoordinatesData {
    var matching := PcpRows(table, severity, q);
    ParallelCoordinatesData(Map(SampleOf(matching, pivot, limit), PointOf), Ranges(matching), |matching|)
  }

  /**
   * The parallel-coordinates answer counts every matching row, takes its ranges over all of
   * them, and plots `min(limit, count)` points, each the weather of a matching row.
   */
  lemma PcpMeaning(table: seq<Accident>, severity: JsNum, limit: nat, q: QueryParam, pivot: string)
    ensures var d := PcpOf(table, severity, limit, q, pivot);
      var rows := PcpRows(table, severity, q);
      && d.totalCount == |rows|
      && d.ranges == Ranges(rows)
      && |d.data| == Min(limit, |rows|)
      && forall i :: 0 <= i < |d.data| ==>
           exists a :: a in table && PcpMatches(severity, q, a) && d.data[i] == PointOf(a)
  {
    var rows := PcpRows(table, severity, q);
    var sample := SampleOf(rows, pivot, limit);
    SampleSize(rows, pivot, limit);
    SampleMembers(rows, pivot, limit);
    forall i | 0 <= i < |sample| ensures sample[i] in table && PcpMatches(severity, q, sample[i]) {
      assert sample[i] in rows;
    }
  }

  /** Every sampled row is one of the rows it was sampled from. */
  lemma SampleMembers(rows: seq<Accident>, pivot: string, limit: nat)
    ensures forall a :: a in SampleOf(rows, pivot, limit) ==> a in rows
  {
    var hi := Filter(rows, AtOrAfter(pivot));
    var lo := Filter(rows, Before(pivot));
    assert forall a :: a in Prefix(hi, limit) ==> a in hi;
    assert forall n: nat, a :: a in Prefix(lo, n) ==> a in lo;
  }

  // ---------------------------------------------------------------------------------------
  // Cache keys: the request fields each answer reads
  // ---------------------------------------------------------------------------------------

  /** The heatmap reads the city, the state and the time filters. */
  function HeatmapView(q: QueryParam): QueryParam {
    QueryParam(None, q.state, q.city, None, q.year, q.month, q.dayOfWeek, q.timeOfDay)
  }

  /** The hexbin map reads the state and the time filters. */
  function HexbinView(q: QueryParam): QueryParam {
    QueryParam(None, q.state, None, None, q.year, q.month, q.dayOfWeek, q.timeOfDay)
  }

  /** The other aggregates read only the time filters of the query. */
  function TimeView(q: QueryParam): QueryParam {
    QueryParam(None, None, None, None, q.year, q.month, q.dayOfWeek, q.timeOfDay)
  }

  /** `severity || 'all'`: a severity of 0 or NaN is no severity. */
  function SeverityKey(severity: JsNum): (k: Option<int>)
    ensures k.None? <==> severity == NaN || severity == Num(0)
    ensures k.Some? ==> severity == Num(k.value)
  {
    if severity == NaN || severity == Num(0) then None else Some(severity.n)
  }

  /** The severity a key stands for. */
  function KeySeverity(k: Option<int>): JsNum {
    if k.Some? then Num(k.value) else Num(0)
  }

  datatype CacheKey =
    | CountKey(where: ListWhere)
    | TemporalHeatmapKey(view: QueryParam)
    | HexbinKey(view: QueryParam)
    | PcpKey(severity: Option<int>, limit: nat, view: QueryParam)
    | TreemapKey(state: Option<string>, view: QueryParam)
    | StackedBarKey(poiType: Option<string>, view: QueryParam)

  datatype CacheValue =
    | CountValue(count: nat)
    | HeatmapValue(heatmap: HeatmapData)
    | HexbinValue(hexbin: HexbinData)
    | PcpValue(pcp: ParallelCoordinatesData)
    | TreemapValue(treemap: TreemapData)
    | StackedBarValue(stackedBar: StackedBarData)

  /**
   * A cached value is coherent with its key when it is what the service computes for the
   * key's request; a sample is coherent for some pivot.
   */
  ghost predicate Coherent(table: seq<Accident>, k: CacheKey, v: CacheValue) {
    match k
    case CountKey(w) => v == CountValue(|Matching(table, w)|)
    case TemporalHeatmapKey(view) => v == HeatmapValue(TemporalHeatmapOf(table, view))
    case HexbinKey(view) => v.HexbinValue? && HexbinOf(table, view) == Some(v.hexbin)
    case PcpKey(s, limit, view) => exists pivot: string :: v == PcpValue(PcpOf(table, KeySeverity(s), limit, view, pivot))
    case TreemapKey(state, view) => v == TreemapValue(TreemapOf(table, state, view))
    case StackedBarKey(poiType, view) => v.StackedBarValue? && StackedBarOf(table, poiType, view) == Some(v.stackedBar)
  }

  /** Two heatmap requests with the same key have the same heatmap. */
  lemma HeatmapKeyDetermines(table: seq<Accident>, q1: QueryParam, q2: QueryParam)
    requires HeatmapView(q1) == HeatmapView(q2)
    ensures TemporalHeatmapOf(table, q1) == TemporalHeatmapOf(table, q2)
  {
    FilterExt(table, TimeFrameMatch(q1), TimeFrameMatch(q2));
  }

  lemma HexbinKeyDetermines(table: seq<Accident>, q1: QueryParam, q2: QueryParam)
    requires HexbinView(q1) == HexbinView(q2)
    ensures HexbinOf(table, q1) == HexbinOf(table, q2)
  {
    FilterExt(table, HexbinMatch(q1), HexbinMatch(q2));
  }

  lemma PcpKeyDetermines(table: seq<Accident>, s1: JsNum, s2: JsNum, limit: nat, q1: QueryParam, q2: QueryParam, pivot: string)
    requires SeverityKey(s1) == SeverityKey(s2) && TimeView(q1) == TimeView(q2)
    ensures PcpOf(table, s1, limit, q1, pivot) == PcpOf(table, s2, limit, q2, pivot)
  {
    FilterExt(table, (a: Accident) => PcpMatches(s1, q1, a), (a: Accident) => PcpMatches(s2, q2, a));
  }

  lemma TreemapKeyDetermines(table: seq<Accident>, state: Option<string>, q1: QueryParam, q2: QueryParam)
    requires TimeView(q1) == TimeView(q2)
    ensures TreemapOf(table, state, q1) == TreemapOf(table, state, q2)
  {
    FilterExt(table, (a: Accident) => TreemapMatches(state, q1, a), (a: Accident) => TreemapMatches(state, q2, a));
  }

  lemma StackedBarKeyDetermines(table: seq<Accident>, poiType: Option<string>, q1: QueryParam, q2: QueryParam)
    requires TimeView(q1) == TimeView(q2)
    ensures StackedBarOf(table, poiType, q1) == StackedBarOf(table, poiType, q2)
  {
    FilterExt(table, (a: Accident) => TimeMatches(q1, a), (a: Accident) => TimeMatches(q2, a));
  }

  // ---------------------------------------------------------------------------------------
  // The service
  // ---------------------------------------------------------------------------------------

  /**
   * The service over one table whose rows are in id order (the store's primary-key index).
   * `now` is the clock reading of a request, the same for its lookup and its store; `pivot`
   * is the random id a sample starts from.
   */
  class AccidentService {
    const table: seq<Accident>
    var cache: map<CacheKey, Entry<CacheValue>>

    ghost predicate Valid()
      reads this
    {
      IndexOrdered(table) && forall k :: k in cache ==> Coherent(table, k, cache[k].data)
    }

    constructor(table: seq<Accident>)
      requires IndexOrdered(table)
      ensures Valid()
      ensures this.table == table && cache == map[]
    {
      this.table := table;
      cache := map[];
    }

    /** `getCached`: a live entry's value; an expired entry is dropped. */
    method GetCached(key: CacheKey, now: int) returns (r: Option<CacheValue>)
      requires Valid()
      modifies this
      ensures Valid()
      ensures r == Lookup(old(cache), key, now)
      ensures cache == AfterLookup(old(cache), key, now)
      ensures r.Some? ==> Coherent(table, key, r.value)
    {
      r := Lookup(cache, key, now);
      cache := AfterLookup(cache, key, now);
    }

    /** `setCache`: store a value under its key with its time to live. */
    method SetCache(key: CacheKey, data: CacheValue, now: int, ttl: int)
      requires Valid() && Coherent(table, key, data)
      modifies this
      ensures Valid()
      ensures cache == Put(old(cache), key, data, now, ttl)
    {
      cache := Put(cache, key, data, now, ttl);
    }

    /**
     * `get`: one page of the listing. The count comes from the cache when a live one is there
     * and is stored again either way; the page is what a fresh count would give.
     */
    method Get(pagination: PaginationParams, q: QueryParam, now: int) returns (page: ListingPage)
      requires Valid()
      modifies this
      ensures Valid()
      ensures var w := BuildListWhere(q, pagination.cursor);
        page == ListPage(table, w, pagination.page, pagination.limit, |Matching(table, w)|)
      ensures var k := CountKey(BuildListWhere(q, pagination.cursor));
        cache == Put(AfterLookup(old(cache), k, now), k, CountValue(|Matching(table, k.where)|), now, CountTtl)
    {
      var w := BuildListWhere(q, pagination.cursor);
      var key := CountKey(w);
      var cached := GetCached(key, now);
      var total: nat;
      if cached.None? {
        total := |Matching(table, w)|;
      } else {
        total := cached.value.count;
      }
      SetCache(key, CountValue(total), now, CountTtl);
      page := ListPage(table, w, pagination.page, pagination.limit, total);
    }

    /** `getTemporalHeatmap`. */
    method GetTemporalHeatmap(q: QueryParam, now: int) returns (data: HeatmapData)
      requires Valid()
      modifies this
      ensures Valid()
      ensures data == TemporalHeatmapOf(table, q)
      ensures var k := TemporalHeatmapKey(HeatmapView(q));
        cache == if Lookup(old(cache), k, now).Some? then old(cache)
                 else Put(AfterLookup(old(cache), k, now), k, HeatmapValue(data), now, DefaultTtl)
    {
      var key := TemporalHeatmapKey(HeatmapView(q));
      HeatmapKeyDetermines(table, HeatmapView(q), q);
      var cached := GetCached(key, now);
      if cached.Some? {
        return cached.value.heatmap;
      }
      var clause := BuildTimeFrameWhereClause(q);
      FilterExt(table, ClauseMatch(clause), TimeFrameMatch(q));
      var rows := Filter(table, ClauseMatch(clause));
      data := Heatmap(rows);
      SetCache(key, HeatmapValue(data), now, DefaultTtl);
    }

    /** `getHexbinMapData`; `None` is the query the store rejects. Only answers are cached. */
    method GetHexbinMapData(q: QueryParam, now: int) returns (data: Option<HexbinData>)
      requires Valid()
      modifies this
      ensures Valid()
      ensures data == HexbinOf(table, q)
      ensures var k := HexbinKey(HexbinView(q));
        cache == if Lookup(old(cache), k, now).Some? || data.None? then AfterLookup(old(cache), k, now)
                 else Put(AfterLookup(old(cache), k, now), k, HexbinValue(data.value), now, DefaultTtl)
    {
      var key := HexbinKey(HexbinView(q));
      HexbinKeyDetermines(table, HexbinView(q), q);
      var cached := GetCached(key, now);
      if cached.Some? {
        return Some(cached.value.hexbin);
      }
      if !TimeFiltersUsable(q) {
        return None;
      }
      data := Some(Hexbin(Filter(table, HexbinMatch(q))));
      SetCache(key, HexbinValue(data.value), now, DefaultTtl);
    }

    /**
     * `getParallelCoordinatesData`: an absent limit is 2000; a limit the store cannot take
     * fails the query. A fresh answer samples from `pivot`; a cached one from an earlier pivot.
     */
    method GetParallelCoordinatesData(severity: JsNum, limit: Option<JsNum>, q: QueryParam, pivot: string, now: int)
      returns (data: Option<ParallelCoordinatesData>)
      requires Valid()
      modifies this
      ensures Valid()
      ensures var lim := limit.GetOr(Num(ServiceDefaultLimit));
        && (data.Some? <==> UsableLimit(lim))
        && (data.Some? ==> exists p: string :: data.value == PcpOf(table, severity, lim.n, q, p))
      ensures var lim := limit.GetOr(Num(ServiceDefaultLimit));
        UsableLimit(lim) ==>
          var k := PcpKey(SeverityKey(severity), lim.n, TimeView(q));
          Lookup(old(cache), k, now).None? ==>
            data == Some(PcpOf(table, severity, lim.n, q, pivot))
            && cache == Put(AfterLookup(old(cache), k, now), k, PcpValue(data.value), now, PcpTtl)
    {
      var lim := limit.GetOr(Num(ServiceDefaultLimit));
      if !UsableLimit(lim) {
        return None;
      }
      var key := PcpKey(SeverityKey(severity), lim.n, TimeView(q));
      var cached := GetCached(key, now);
      if cached.Some? {
        var p: string :| cached.value == PcpValue(PcpOf(table, KeySeverity(key.severity), lim.n, TimeView(q), p));
        PcpKeyDetermines(table, KeySeverity(key.severity), severity, lim.n, TimeView(q), q, p);
        return Some(cached.value.pcp);
      }
      var matching := PcpRows(table, severity, q);
      var sampled := Sample(matching, pivot, lim.n);
      var response := ParallelCoordinatesData(Map(sampled, PointOf), Ranges(matching), |matching|);
      PcpKeyDetermines(table, KeySeverity(key.severity), severity, lim.n, TimeView(q), q, pivot);
      SetCache(key, PcpValue(response), now, PcpTtl);
      data := Some(response);
    }

    /** `getTreemapData`. */
    method GetTreemapData(state: Option<string>, q: QueryParam, now: int) returns (data: TreemapData)
      requires Valid()
      modifies this
      ensures Valid()
      ensures data == TreemapOf(table, state, q)
      ensures var k := TreemapKey(state, TimeView(q));
        cache == if Lookup(old(cache), k, now).Some? then old(cache)
                 else Put(AfterLookup(old(cache), k, now), k, TreemapValue(data), now, DefaultTtl)
    {
      var key := TreemapKey(state, TimeView(q));
      TreemapKeyDetermines(table, state, TimeView(q), q);
      var cached := GetCached(key, now);
      if cached.Some? {
        return cached.value.treemap;
      }
      data := BuildTreemap(table, state, q);
      SetCache(key, TreemapValue(data), now, DefaultTtl);
    }

    /** `getStackedBarData`; `None` is the query the store rejects. Only answers are cached. */
    method GetStackedBarData(poiType: Option<string>, q: QueryParam, now: int) returns (data: Option<StackedBarData>)
      requires Valid()
      modifies this
      ensures Valid()
      ensures data == StackedBarOf(table, poiType, q)
      ensures var k := StackedBarKey(poiType, TimeView(q));
        cache == if Lookup(old(cache), k, now).Some? || data.None? then AfterLookup(old(cache), k, now)
                 else Put(AfterLookup(old(cache), k, now), k, StackedBarValue(data.value), now, DefaultTtl)
    {
      var key := StackedBarKey(poiType, TimeView(q));
      StackedBarKeyDetermines(table, poiType, TimeView(q), q);
      var cached := GetCached(key, now);
      if cached.Some? {
        return Some(cached.value.stackedBar);
      }
      data := BuildStackedBar(table, poiType, q);
      if data.Some? {
        SetCache(key, StackedBarValue(data.value), now, DefaultTtl);
      }
    }
  }
}

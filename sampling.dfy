/**
 * The parallel-coordinates aggregate of dm-project-back/src/accident/accident.service.ts: a
 * sample of the matching accidents taken from a random id onwards and wrapped around to the
 * start of the id index when too few rows follow it, the five weather axes' ranges with their
 * fallbacks, and the matching count.
 */
module Sampling {
  import opened Wrappers
  import opened Seqs
  import opened JsValues
  import opened Store
  import opened QueryFilters

  datatype WeatherPoint = WeatherPoint(
    temperature: real,
    humidity: real,
    pressure: real,
    visibility: real,
    windSpeed: real,
    severity: int)

  datatype Range = Range(min: real, max: real)

  datatype WeatherRanges = WeatherRanges(
    temperature: Range,
    humidity: Range,
    pressure: Range,
    visibility: Range,
    windSpeed: Range)

  datatype ParallelCoordinatesData = ParallelCoordinatesData(
    data: seq<WeatherPoint>,
    ranges: WeatherRanges,
    totalCount: int)

  /** The service's own default sample size; the HTTP endpoint always passes one (5000 by default). */
  const ServiceDefaultLimit: int := 2000

  /** `if (severity)`: a severity of 0 or NaN (or none) does not filter; no range check. */
  predicate SeverityMatches(severity: JsNum, a: Accident) {
    severity == NaN || severity == Num(0) || a.severity == severity.n
  }

  /** The rows of the aggregate's where clause: severity and the time filters. */
  predicate PcpMatches(severity: JsNum, q: QueryParam, a: Accident) {
    SeverityMatches(severity, a) && TimeMatches(q, a)
  }

  function AtOrAfter(pivot: string): Accident -> bool {
    (a: Accident) => !IdLess(a.id, pivot)
  }

  function Before(pivot: string): Accident -> bool {
    (a: Accident) => IdLess(a.id, pivot)
  }

  /**
   * The sample: up to `limit` matching rows with id >= pivot, in index order, and only when
   * fewer than `limit` arrived, up to the remaining number of rows with id < pivot.
   */
  function SampleOf(matching: seq<Accident>, pivot: string, limit: nat): seq<Accident> {
    var first := Prefix(Filter(matching, AtOrAfter(pivot)), limit);
    if |first| < limit then first + Prefix(Filter(matching, Before(pivot)), limit - |first|) else first
  }

  /**
   * The sampling step, as the service performs it: the first query's rows, then on a short
   * result the wrap-around query's rows appended. It returns `min(limit, matching)` matching
   * rows, the rows from the pivot onwards first, and over an index-ordered table no row twice.
   */
  method Sample(matching: seq<Accident>, pivot: string, limit: nat) returns (sampled: seq<Accident>)
    ensures sampled == SampleOf(matching, pivot, limit)
    ensures |sampled| == Min(limit, |matching|)
    ensures forall a :: a in sampled ==> a in matching
    ensures IndexOrdered(matching) ==> forall i, j :: 0 <= i < j < |sampled| ==> sampled[i].id != sampled[j].id
    ensures forall i :: 0 <= i < |sampled| && i < |Filter(matching, AtOrAfter(pivot))| ==> !IdLess(sampled[i].id, pivot)
  {
    sampled := Prefix(Filter(matching, AtOrAfter(pivot)), limit);
    if |sampled| < limit {
      var remaining := limit - |sampled|;
      var more := Prefix(Filter(matching, Before(pivot)), remaining);
      sampled := sampled + more;
    }
    SampleSize(matching, pivot, limit);
    SampleMembers(matching, pivot, limit);
    SampleLeadsFromPivot(matching, pivot, limit);
    if IndexOrdered(matching) {
      SampleDistinct(matching, pivot, limit);
    }
  }

  /** Every sampled row is one of the matching rows. */
  lemma SampleMembers(matching: seq<Accident>, pivot: string, limit: nat)
    ensures forall a :: a in SampleOf(matching, pivot, limit) ==> a in matching
  {
    var hi := Filter(matching, AtOrAfter(pivot));
    var lo := Filter(matching, Before(pivot));
    var first := Prefix(hi, limit);
    assert forall a :: a in first ==> a in hi;
    if |first| < limit {
      var more := Prefix(lo, limit - |first|);
      assert forall a :: a in more ==> a in lo;
    }
  }

  /** The sample leads with the rows from the pivot onwards, as many as there are up to the limit. */
  lemma SampleLeadsFromPivot(matching: seq<Accident>, pivot: string, limit: nat)
    ensures var s := SampleOf(matching, pivot, limit);
      forall i :: 0 <= i < |s| && i < |Filter(matching, AtOrAfter(pivot))| ==> !IdLess(s[i].id, pivot)
  {
    var hi := Filter(matching, AtOrAfter(pivot));
    var first := Prefix(hi, limit);
    var s := SampleOf(matching, pivot, limit);
    forall i | 0 <= i < |s| && i < |hi| ensures !IdLess(s[i].id, pivot) {
      assert i < |first|;
      assert s[i] == first[i] == hi[i] && hi[i] in hi;
      assert AtOrAfter(pivot)(hi[i]);
    }
  }

  /** The ids on either side of the pivot split the matching rows. */
  lemma {:induction false} PivotSplits(s: seq<Accident>, pivot: string)
    ensures |Filter(s, AtOrAfter(pivot))| + |Filter(s, Before(pivot))| == |s|
  {
    if s != [] {
      PivotSplits(s[1..], pivot);
    }
  }

  /** The sample holds `min(limit, matching)` rows, whatever the pivot. */
  lemma SampleSize(matching: seq<Accident>, pivot: string, limit: nat)
    ensures |SampleOf(matching, pivot, limit)| == Min(limit, |matching|)
  {
    PivotSplits(matching, pivot);
  }

  /** Every sampled row matches, and no row is sampled twice. */
  lemma SampleDistinct(matching: seq<Accident>, pivot: string, limit: nat)
    requires IndexOrdered(matching)
    ensures var s := SampleOf(matching, pivot, limit);
      && (forall a :: a in s ==> a in matching)
      && (forall i, j :: 0 <= i < j < |s| ==> s[i].id != s[j].id)
  {
    var hi := Filter(matching, AtOrAfter(pivot));
    var lo := Filter(matching, Before(pivot));
    FilterKeepsOrdered(matching, AtOrAfter(pivot));
    FilterKeepsOrdered(matching, Before(pivot));
    var first := Prefix(hi, limit);
    var s := SampleOf(matching, pivot, limit);
    assert IndexOrdered(first);
    OrderedDistinct(first);
    if |first| < limit {
      var more := Prefix(lo, limit - |first|);
      assert IndexOrdered(more);
      OrderedDistinct(more);
      forall i, j | 0 <= i < j < |s| ensures s[i].id != s[j].id {
        if j >= |first| && i < |first| {
          assert s[i] == first[i] && first[i] in hi;
          assert s[j] == more[j - |first|] && more[j - |first|] in lo;
          IdLessIrreflexive(s[i].id);
        } else if i >= |first| {
          assert s[i] == more[i - |first|] && s[j] == more[j - |first|];
        }
      }
    }
  }

  /** Ids in index order are distinct. */
  lemma OrderedDistinct(s: seq<Accident>)
    requires IndexOrdered(s)
    ensures forall i, j :: 0 <= i < j < |s| ==> s[i].id != s[j].id
  {
    forall i, j | 0 <= i < j < |s| ensures s[i].id != s[j].id {
      IdLessIrreflexive(s[i].id);
    }
  }

  /** A sample never exceeds its limit, and reaches it whenever enough rows match. */
  lemma SampleNeverShortWhenEnough(matching: seq<Accident>, pivot: string, limit: nat)
    requires limit <= |matching|
    ensures |SampleOf(matching, pivot, limit)| == limit
  {
    SampleSize(matching, pivot, limit);
  }

  // ---------------------------------------------------------------------------------------
  // Axis ranges
  // ---------------------------------------------------------------------------------------

  /** The non-null values of one column among the rows. */
  function Present(rows: seq<Accident>, column: Accident -> Option<real>): (vs: seq<real>)
    ensures forall a :: a in rows && column(a).Some? ==> column(a).value in vs
    ensures forall v :: v in vs ==> exists a :: a in rows && column(a) == Some(v)
  {
    if rows == [] then []
    else
      var rest := Present(rows[1..], column);
      assert forall a :: a in rows[1..] ==> a in rows;
      if column(rows[0]).Some? then [column(rows[0]).value] + rest else rest
  }

  /** SQL `MIN(column)`: null when no row has a value. */
  function MinOf(vs: seq<real>): (m: Option<real>)
    ensures m.None? <==> vs == []
    ensures m.Some? ==> m.value in vs && forall v :: v in vs ==> m.value <= v
  {
    if vs == [] then None
    else
      match MinOf(vs[1..])
      case None => Some(vs[0])
      case Some(r) =>
        assert forall v :: v in vs ==> v == vs[0] || v in vs[1..];
        Some(if vs[0] < r then vs[0] else r)
  }

  /** SQL `MAX(column)`: null when no row has a value. */
  function MaxOf(vs: seq<real>): (m: Option<real>)
    ensures m.None? <==> vs == []
    ensures m.Some? ==> m.value in vs && forall v :: v in vs ==> v <= m.value
  {
    if vs == [] then None
    else
      match MaxOf(vs[1..])
      case None => Some(vs[0])
      case Some(r) =>
        assert forall v :: v in vs ==> v == vs[0] || v in vs[1..];
        Some(if vs[0] > r then vs[0] else r)
  }

  /** `Number(bound || fallback)`: a missing bound and a bound of 0 both give the fallback. */
  function OrFallback(bound: Option<real>, fallback: real): (r: real)
    ensures bound.None? || bound == Some(0.0) ==> r == fallback
    ensures bound.Some? && bound.value != 0.0 ==> r == bound.value
  {
    if bound.Some? && bound.value != 0.0 then bound.value else fallback
  }

  function AxisRange(rows: seq<Accident>, column: Accident -> Option<real>, lo: real, hi: real): Range {
    var vs := Present(rows, column);
    Range(OrFallback(MinOf(vs), lo), OrFallback(MaxOf(vs), hi))
  }

  function Temperature(a: Accident): Option<real> { a.temperature }
  function Humidity(a: Accident): Option<real> { a.humidity }
  function Pressure(a: Accident): Option<real> { a.pressure }
  function Visibility(a: Accident): Option<real> { a.visibility }
  function WindSpeed(a: Accident): Option<real> { a.windSpeed }

  /** The five ranges with their fallbacks: 0..100, 0..100, 28..32, 0..10 and 0..50. */
  function Ranges(rows: seq<Accident>): WeatherRanges {
    WeatherRanges(
      AxisRange(rows, Temperature, 0.0, 100.0),
      AxisRange(rows, Humidity, 0.0, 100.0),
      AxisRange(rows, Pressure, 28.0, 32.0),
      AxisRange(rows, Visibility, 0.0, 10.0),
      AxisRange(rows, WindSpeed, 0.0, 50.0))
  }

  /**
   * A range holds every value of its column when the column's extremes are non-zero; with no
   * value at all it is the fallback range.
   */
  lemma AxisRangeMeaning(rows: seq<Accident>, column: Accident -> Option<real>, lo: real, hi: real)
    ensures var r := AxisRange(rows, column, lo, hi);
      var vs := Present(rows, column);
      && (vs == [] ==> r == Range(lo, hi))
      && (forall a :: a in rows && column(a).Some? && MinOf(vs) != Some(0.0) ==> r.min <= column(a).value)
      && (forall a :: a in rows && column(a).Some? && MaxOf(vs) != Some(0.0) ==> column(a).value <= r.max)
  {
  }

  /** `Number(null)` is 0: a missing weather value is plotted as 0. */
  function OrZero(v: Option<real>): real {
    if v.Some? then v.value else 0.0
  }

  /** Every weather column carries the row's value, or 0 where the row has none. */
  function PointOf(a: Accident): (p: WeatherPoint)
    ensures p.severity == a.severity
    ensures a.temperature.Some? ==> p.temperature == a.temperature.value
    ensures a.humidity.Some? ==> p.humidity == a.humidity.value
    ensures a.pressure.Some? ==> p.pressure == a.pressure.value
    ensures a.visibility.Some? ==> p.visibility == a.visibility.value
    ensures a.windSpeed.Some? ==> p.windSpeed == a.windSpeed.value
    ensures a.temperature.None? ==> p.temperature == 0.0
    ensures a.humidity.None? ==> p.humidity == 0.0
    ensures a.pressure.None? ==> p.pressure == 0.0
    ensures a.visibility.None? ==> p.visibility == 0.0
    ensures a.windSpeed.None? ==> p.windSpeed == 0.0
  {
    WeatherPoint(OrZero(a.temperature), OrZero(a.humidity), OrZero(a.pressure),
                 OrZero(a.visibility), OrZero(a.windSpeed), a.severity)
  }

  /** The rows the aggregate's where clause admits. */
  function PcpRows(table: seq<Accident>, severity: JsNum, q: QueryParam): seq<Accident> {
    Filter(table, (a: Accident) => PcpMatches(severity, q, a))
  }

  /** A usable `LIMIT ?` parameter: a number that is not negative. Anything else fails the query. */
  predicate UsableLimit(limit: JsNum) {
    limit.Num? && limit.n >= 0
  }
}

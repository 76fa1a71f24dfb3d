/**
 * The post-processing of two aggregates of dm-project-back/src/accident/accident.service.ts:
 * the temporal heatmap (accidents per hour and day of week) and the hexbin map (accidents per
 * grid cell, with the bounding box of the located accidents). Each SQL `GROUP BY` is the
 * relational grouping of `Grouping`, over the rows the query's where clause admits.
 */
module Aggregates {
  import opened Wrappers
  import opened Seqs
  import opened Store
  import opened Grouping

  // ---------------------------------------------------------------------------------------
  // Temporal heatmap
  // ---------------------------------------------------------------------------------------

  datatype HeatmapCell = HeatmapCell(hour: int, dayOfWeek: string, count: int)

  datatype HeatmapData = HeatmapData(data: seq<HeatmapCell>, maxCount: int, totalAccidents: int)

  /** `Math.max(...counts, 0)`: the largest count, or 0 when there is none. */
  function MaxCount(counts: seq<int>): (m: int)
    ensures m >= 0
    ensures forall i :: 0 <= i < |counts| ==> counts[i] <= m
    ensures m == 0 || exists i :: 0 <= i < |counts| && counts[i] == m
  {
    if counts == [] then 0
    else
      var rest := MaxCount(counts[1..]);
      assert forall i :: 1 <= i < |counts| ==> counts[i] == counts[1..][i - 1];
      if counts[0] > rest then counts[0] else rest
  }

  function HeatmapKey(a: Accident): ((int, string), int) {
    ((a.hour, a.dayOfWeek), 1)
  }

  function HeatmapCellOf(g: Group<(int, string)>): HeatmapCell {
    HeatmapCell(g.key.0, g.key.1, g.count)
  }

  function CellCount(c: HeatmapCell): int { c.count }

  /** The rows of one hour on one day of the week. */
  function RowsAt(rows: seq<Accident>, hour: int, day: string): seq<Accident> {
    Filter(rows, AtSlot(hour, day))
  }

  function AtSlot(hour: int, day: string): Accident -> bool {
    (a: Accident) => a.hour == hour && a.dayOfWeek == day
  }

  /**
   * The heatmap of the matching rows: one cell per (hour, day of week) that occurs, the largest
   * cell count, and the sum of the cell counts.
   */
  function Heatmap(rows: seq<Accident>): HeatmapData {
    var cells := Map(GroupBy(Map(rows, HeatmapKey)), HeatmapCellOf);
    var counts := Map(cells, CellCount);
    HeatmapData(cells, MaxCount(counts), Sum(counts))
  }

  /** The items of one (hour, day of week) are the rows of that hour and day. */
  lemma {:induction false} HeatmapOccurrences(rows: seq<Accident>, k: (int, string))
    ensures Occurrences(Map(rows, HeatmapKey), k) == |RowsAt(rows, k.0, k.1)|
  {
    if rows != [] {
      HeatmapOccurrences(rows[..|rows| - 1], k);
      OccurrencesStep(rows, k);
      RowsAtStep(rows, k);
    }
  }

  lemma OccurrencesStep(rows: seq<Accident>, k: (int, string))
    requires rows != []
    ensures Occurrences(Map(rows, HeatmapKey), k)
      == Occurrences(Map(rows[..|rows| - 1], HeatmapKey), k) + (if AtSlot(k.0, k.1)(rows[|rows| - 1]) then 1 else 0)
  {
    var items := Map(rows, HeatmapKey);
    assert items[..|items| - 1] == Map(rows[..|rows| - 1], HeatmapKey);
  }

  lemma RowsAtStep(rows: seq<Accident>, k: (int, string))
    requires rows != []
    ensures |RowsAt(rows, k.0, k.1)|
      == |RowsAt(rows[..|rows| - 1], k.0, k.1)| + (if AtSlot(k.0, k.1)(rows[|rows| - 1]) then 1 else 0)
  {
    var init := rows[..|rows| - 1];
    var last := rows[|rows| - 1];
    assert rows == init + [last];
    FilterAppend(init, [last], AtSlot(k.0, k.1));
    assert [last][1..] == [];
  }

  /** Each heatmap cell counts exactly the rows of its hour and day of the week. */
  lemma HeatmapCellCounts(rows: seq<Accident>, i: nat)
    requires i < |Heatmap(rows).data|
    ensures var c := Heatmap(rows).data[i]; c.count == |RowsAt(rows, c.hour, c.dayOfWeek)|
  {
    var items := Map(rows, HeatmapKey);
    var gs := GroupBy(items);
    GroupByDistinct(items);
    GroupAt(gs, i);
    GroupByOf(items, gs[i].key);
    HeatmapOccurrences(rows, gs[i].key);
  }

  /** No (hour, day of week) has two cells. */
  lemma HeatmapCellsDistinct(rows: seq<Accident>)
    ensures var d := Heatmap(rows).data;
      forall i, j :: 0 <= i < j < |d| ==> (d[i].hour, d[i].dayOfWeek) != (d[j].hour, d[j].dayOfWeek)
  {
    GroupByDistinct(Map(rows, HeatmapKey));
  }

  /** Every row's (hour, day of week) has a cell. */
  lemma HeatmapCovers(rows: seq<Accident>, a: Accident)
    requires a in rows
    ensures var d := Heatmap(rows).data;
      exists i :: 0 <= i < |d| && d[i].hour == a.hour && d[i].dayOfWeek == a.dayOfWeek
  {
    var items := Map(rows, HeatmapKey);
    var gs := GroupBy(items);
    var k := (a.hour, a.dayOfWeek);
    GroupByOf(items, k);
    HeatmapOccurrences(rows, k);
    FilterHasMember(rows, a, AtSlot(k.0, k.1));
    var i :| 0 <= i < |gs| && gs[i].key == k;
    assert Heatmap(rows).data[i] == HeatmapCellOf(gs[i]);
  }

  /** The total is the number of matching rows, and no cell exceeds it. */
  lemma HeatmapTotals(rows: seq<Accident>)
    ensures Heatmap(rows).totalAccidents == |rows|
    ensures 0 <= Heatmap(rows).maxCount <= Heatmap(rows).totalAccidents
  {
    var items := Map(rows, HeatmapKey);
    var gs := GroupBy(items);
    var h := Heatmap(rows);
    GroupByTotals(items);
    assert Map(h.data, CellCount) == Counts(gs);
    assert forall i :: 0 <= i < |Counts(gs)| ==> Counts(gs)[i] >= 0;
    if h.maxCount > 0 {
      var i :| 0 <= i < |h.data| && Map(h.data, CellCount)[i] == h.maxCount;
      SumElementBound(Counts(gs), i);
    }
  }

  /** A row that satisfies the filter makes the filter non-empty. */
  lemma {:induction false} FilterHasMember<T>(s: seq<T>, x: T, p: T -> bool)
    requires x in s && p(x)
    ensures |Filter(s, p)| > 0
  {
    if s[0] != x {
      FilterHasMember(s[1..], x, p);
    }
  }

  /** One of several non-negative numbers is at most their sum. */
  lemma SumElementBound(s: seq<int>, i: nat)
    requires forall k :: 0 <= k < |s| ==> s[k] >= 0
    requires i < |s|
    ensures s[i] <= Sum(s)
  {
    SumPrefixBound(s, i + 1);
    assert s[..i + 1] == s[..i] + [s[i]];
    SumAppend(s[..i], [s[i]]);
    SumNonNegative(s[..i]);
    assert [s[i]][..0] == [];
  }

  // ---------------------------------------------------------------------------------------
  // Hexbin map
  // ---------------------------------------------------------------------------------------

  datatype HexbinPoint = HexbinPoint(lat: real, lng: real, count: int)

  datatype Bounds = Bounds(minLat: real, maxLat: real, minLng: real, maxLng: real)

  datatype HexbinData = HexbinData(points: seq<HexbinPoint>, bounds: Bounds, totalAccidents: int)

  /** The box the map shows when no matching accident has coordinates: the contiguous US. */
  const FallbackBounds := Bounds(24.0, 50.0, -125.0, -66.0)

  predicate Located(a: Accident) {
    a.lat.Some? && a.lng.Some?
  }

  /** The 0.1-degree grid cell of a located accident (exact arithmetic, see the README). */
  function GridCell(a: Accident): ((int, int), int)
    requires Located(a)
  {
    (((a.lat.value * 10.0).Floor, (a.lng.value * 10.0).Floor), 1)
  }

  /** The centre of a grid cell: `FLOOR(x / 0.1) * 0.1 + 0.05`. */
  function HexbinPointOf(g: Group<(int, int)>): HexbinPoint {
    HexbinPoint(g.key.0 as real / 10.0 + 0.05, g.key.1 as real / 10.0 + 0.05, g.count)
  }

  function MinReal(s: seq<real>): (m: real)
    requires |s| > 0
    ensures forall i :: 0 <= i < |s| ==> m <= s[i]
    ensures exists i :: 0 <= i < |s| && s[i] == m
  {
    if |s| == 1 then s[0]
    else
      var rest := MinReal(s[1..]);
      assert forall i :: 1 <= i < |s| ==> s[i] == s[1..][i - 1];
      if s[0] < rest then s[0] else rest
  }

  function MaxReal(s: seq<real>): (m: real)
    requires |s| > 0
    ensures forall i :: 0 <= i < |s| ==> s[i] <= m
    ensures exists i :: 0 <= i < |s| && s[i] == m
  {
    if |s| == 1 then s[0]
    else
      var rest := MaxReal(s[1..]);
      assert forall i :: 1 <= i < |s| ==> s[i] == s[1..][i - 1];
      if s[0] > rest then s[0] else rest
  }

  function LatOf(a: Accident): real { if Located(a) then a.lat.value else 0.0 }
  function LngOf(a: Accident): real { if Located(a) then a.lng.value else 0.0 }
  function GridCellOf(a: Accident): ((int, int), int) { if Located(a) then GridCell(a) else ((0, 0), 1) }
  function PointCount(p: HexbinPoint): int { p.count }

  /**
   * The hexbin aggregate of the matching rows: the located rows grouped by grid cell, the
   * min/max box of their coordinates (or the fallback box when there is none) and the sum of
   * the cell counts.
   */
  function Hexbin(rows: seq<Accident>): HexbinData {
    var located := Filter(rows, Located);
    var points := Map(GroupBy(Map(located, GridCellOf)), HexbinPointOf);
    var bounds :=
      if located == [] then FallbackBounds
      else BoxOf(located);
    HexbinData(points, bounds, Sum(Map(points, PointCount)))
  }

  /**
   * The total is the number of located rows; the box is the fallback exactly when no row is
   * located, and otherwise holds every located row and is touched by one on each side.
   */
  lemma HexbinMeaning(rows: seq<Accident>)
    ensures var h := Hexbin(rows);
      var located := Filter(rows, Located);
      && h.totalAccidents == |located|
      && (located == [] ==> h.bounds == FallbackBounds)
      && (forall a :: a in rows && Located(a) ==>
            h.bounds.minLat <= a.lat.value <= h.bounds.maxLat && h.bounds.minLng <= a.lng.value <= h.bounds.maxLng)
      && (located != [] ==>
            (exists a :: a in located && a.lat.value == h.bounds.minLat) &&
            (exists a :: a in located && a.lat.value == h.bounds.maxLat) &&
            (exists a :: a in located && a.lng.value == h.bounds.minLng) &&
            (exists a :: a in located && a.lng.value == h.bounds.maxLng))
  {
    var located := Filter(rows, Located);
    var h := Hexbin(rows);
    var gs := GroupBy(Map(located, GridCellOf));
    GroupByTotals(Map(located, GridCellOf));
    assert Map(h.points, PointCount) == Counts(gs);
    if located != [] {
      BoxEncloses(located);
      BoxReached(located);
      forall a | a in rows && Located(a) ensures a in located {
        FilterContains(rows, a, Located);
      }
    } else {
      forall a | a in rows && Located(a) ensures false {
        FilterContains(rows, a, Located);
      }
    }
  }

  /** The min/max box of a non-empty sequence of located rows. */
  function BoxOf(located: seq<Accident>): Bounds
    requires located != []
  {
    Bounds(MinReal(Map(located, LatOf)), MaxReal(Map(located, LatOf)),
           MinReal(Map(located, LngOf)), MaxReal(Map(located, LngOf)))
  }

  lemma BoxEncloses(located: seq<Accident>)
    requires located != [] && forall a :: a in located ==> Located(a)
    ensures var b := BoxOf(located);
      forall a :: a in located ==>
        b.minLat <= a.lat.value <= b.maxLat && b.minLng <= a.lng.value <= b.maxLng
  {
    var lats := Map(located, LatOf);
    var lngs := Map(located, LngOf);
    forall a | a in located
      ensures BoxOf(located).minLat <= a.lat.value <= BoxOf(located).maxLat
      ensures BoxOf(located).minLng <= a.lng.value <= BoxOf(located).maxLng
    {
      var k :| 0 <= k < |located| && located[k] == a;
      assert lats[k] == a.lat.value && lngs[k] == a.lng.value;
    }
  }

  lemma BoxReached(located: seq<Accident>)
    requires located != [] && forall a :: a in located ==> Located(a)
    ensures var b := BoxOf(located);
      && (exists a :: a in located && a.lat.value == b.minLat)
      && (exists a :: a in located && a.lat.value == b.maxLat)
      && (exists a :: a in located && a.lng.value == b.minLng)
      && (exists a :: a in located && a.lng.value == b.maxLng)
  {
    var b := BoxOf(located);
    LatReached(located, b.minLat);
    LatReached(located, b.maxLat);
    LngReached(located, b.minLng);
    LngReached(located, b.maxLng);
  }

  /** A latitude among the located rows' latitudes is some row's latitude. */
  lemma LatReached(located: seq<Accident>, v: real)
    requires forall a :: a in located ==> Located(a)
    requires exists i :: 0 <= i < |Map(located, LatOf)| && Map(located, LatOf)[i] == v
    ensures exists a :: a in located && a.lat.value == v
  {
    var i :| 0 <= i < |Map(located, LatOf)| && Map(located, LatOf)[i] == v;
    assert located[i] in located;
  }

  /** A longitude among the located rows' longitudes is some row's longitude. */
  lemma LngReached(located: seq<Accident>, v: real)
    requires forall a :: a in located ==> Located(a)
    requires exists i :: 0 <= i < |Map(located, LngOf)| && Map(located, LngOf)[i] == v
    ensures exists a :: a in located && a.lng.value == v
  {
    var i :| 0 <= i < |Map(located, LngOf)| && Map(located, LngOf)[i] == v;
    assert located[i] in located;
  }
}

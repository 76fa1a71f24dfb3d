/**
 * The point-of-interest stacked bar chart
 * (dm-project-front/src/components/charts/POIStackedBarChart.tsx): two bars per category,
 * counts or percentages per severity, the headline total and the first three insights.
 */
module PoiChart {
  import opened Wrappers
  import opened Seqs
  import opened Store
  import opened QueryFilters
  import opened Poi
  import opened HeatmapChart

  /** One bar: a category with or without its point of interest, split by severity. */
  datatype Bar = Bar(
    name: string, category: string, presence: string,
    severity1: real, severity2: real, severity3: real, severity4: real, total: int)

  /** The bar of one side of a category, in counts. */
  function BarOf(c: PoiCategory, present: bool): (b: Bar)
    ensures b.category == c.category && b.name == c.category + " - " + b.presence
    ensures present ==> b.presence == "Present" && b.total == c.present.total
    ensures !present ==> b.presence == "Absent" && b.total == c.absent.total
    ensures var side := if present then c.present else c.absent;
      && b.severity1 == side.severity1 as real && b.severity2 == side.severity2 as real
      && b.severity3 == side.severity3 as real && b.severity4 == side.severity4 as real
  {
    var side := if present then c.present else c.absent;
    var presence := if present then "Present" else "Absent";
    Bar(c.category + " - " + presence, c.category, presence,
        side.severity1 as real, side.severity2 as real, side.severity3 as real, side.severity4 as real, side.total)
  }

  /** `chartData`: each category's Present bar, then its Absent bar. */
  function ChartData(categories: seq<PoiCategory>): seq<Bar> {
    if categories == [] then []
    else
      var last := categories[|categories| - 1];
      ChartData(categories[..|categories| - 1]) + [BarOf(last, true), BarOf(last, false)]
  }

  /** Two bars per category, in category order, Present first. */
  lemma {:induction false} ChartDataShape(categories: seq<PoiCategory>)
    ensures |ChartData(categories)| == 2 * |categories|
    ensures forall i :: 0 <= i < |categories| ==>
      ChartData(categories)[2 * i] == BarOf(categories[i], true)
      && ChartData(categories)[2 * i + 1] == BarOf(categories[i], false)
  {
    if categories != [] {
      var init := categories[..|categories| - 1];
      var last := categories[|categories| - 1];
      var prev := ChartData(init);
      var bars := [BarOf(last, true), BarOf(last, false)];
      ChartDataShape(init);
      assert ChartData(categories) == prev + bars;
      forall i | 0 <= i < |categories|
        ensures (prev + bars)[2 * i] == BarOf(categories[i], true)
        ensures (prev + bars)[2 * i + 1] == BarOf(categories[i], false)
      {
        if i < |init| {
          assert categories[i] == init[i];
        } else {
          assert 2 * i == |prev|;
        }
      }
    }
  }

  /** `(count / total) * 100`, or 0 for an empty bar. */
  function Share(count: real, total: int): (r: real)
    ensures total <= 0 ==> r == 0.0
    ensures total > 0 ==> r * (total as real) == count * 100.0
  {
    if total > 0 then (count / total as real) * 100.0 else 0.0
  }

  /** A bar of the percentage view: each severity as a share of the bar; the rest unchanged. */
  function PercentBar(b: Bar): (p: Bar)
    ensures p.name == b.name && p.category == b.category && p.presence == b.presence && p.total == b.total
    ensures b.total > 0 ==>
      && p.severity1 * (b.total as real) == b.severity1 * 100.0
      && p.severity2 * (b.total as real) == b.severity2 * 100.0
      && p.severity3 * (b.total as real) == b.severity3 * 100.0
      && p.severity4 * (b.total as real) == b.severity4 * 100.0
    ensures b.total <= 0 ==> p.severity1 == p.severity2 == p.severity3 == p.severity4 == 0.0
  {
    b.(severity1 := Share(b.severity1, b.total), severity2 := Share(b.severity2, b.total),
       severity3 := Share(b.severity3, b.total), severity4 := Share(b.severity4, b.total))
  }

  function PercentageData(bars: seq<Bar>): seq<Bar> {
    Map(bars, PercentBar)
  }

  /** A bar whose total is the sum of its severities: its shares add up to 100. */
  lemma SharesAddUp(b: Bar)
    requires b.total > 0 && b.total as real == b.severity1 + b.severity2 + b.severity3 + b.severity4
    ensures var p := PercentBar(b); p.severity1 + p.severity2 + p.severity3 + p.severity4 == 100.0
  {
    var t := b.total as real;
    assert (b.severity1 / t) * 100.0 + (b.severity2 / t) * 100.0 + (b.severity3 / t) * 100.0
        + (b.severity4 / t) * 100.0 == ((b.severity1 + b.severity2 + b.severity3 + b.severity4) / t) * 100.0;
  }

  /** Every non-empty bar of the service's data shows shares adding up to 100. */
  lemma ServiceBarsAddUp(table: seq<Accident>, poiType: Option<string>, q: QueryParam, i: nat, present: bool)
    requires StackedBarOf(table, poiType, q).Some?
    requires i < |TargetFields(poiType)|
    requires BarOf(StackedBarOf(table, poiType, q).value.data[i], present).total > 0
    ensures var p := PercentBar(BarOf(StackedBarOf(table, poiType, q).value.data[i], present));
      p.severity1 + p.severity2 + p.severity3 + p.severity4 == 100.0
  {
    StackedBarMeaning(table, poiType, q, i, 1);
    SharesAddUp(BarOf(StackedBarOf(table, poiType, q).value.data[i], present));
  }

  /** The headline: the first category's Present plus Absent totals, or 0 with no categories. */
  function TotalAccidents(data: Option<StackedBarData>): (n: int)
    ensures data.None? || data.value.data == [] ==> n == 0
  {
    if data.Some? && |data.value.data| > 0 then data.value.data[0].present.total + data.value.data[0].absent.total
    else 0
  }

  function KnownRow(): Accident -> bool {
    (a: Accident) => KnownSeverity(a.severity)
  }

  /** The eight (severity, present or absent) slots of a column split the rows of known severity. */
  lemma SlotsPartition(m: seq<Accident>, flag: PoiFlag)
    ensures |Filter(m, WithSlot(flag, 1, true))| + |Filter(m, WithSlot(flag, 2, true))|
          + |Filter(m, WithSlot(flag, 3, true))| + |Filter(m, WithSlot(flag, 4, true))|
          + |Filter(m, WithSlot(flag, 1, false))| + |Filter(m, WithSlot(flag, 2, false))|
          + |Filter(m, WithSlot(flag, 3, false))| + |Filter(m, WithSlot(flag, 4, false))|
         == |Filter(m, KnownRow())|
  {
    SidesPartition(m, flag, 1);
    SidesPartition(m, flag, 2);
    SidesPartition(m, flag, 3);
    SidesPartition(m, flag, 4);
    SeveritiesPartition(m);
  }

  function OfSeverity(k: int): Accident -> bool {
    (a: Accident) => a.severity == k
  }

  /** The rows of one severity are those with the point of interest and those without. */
  lemma {:induction false} SidesPartition(m: seq<Accident>, flag: PoiFlag, k: int)
    ensures |Filter(m, WithSlot(flag, k, true))| + |Filter(m, WithSlot(flag, k, false))|
         == |Filter(m, OfSeverity(k))|
  {
    if m != [] {
      SidesPartition(m[1..], flag, k);
      FilterStep(m, OfSeverity(k));
      FilterStep(m, WithSlot(flag, k, true));
      FilterStep(m, WithSlot(flag, k, false));
    }
  }

  /** The rows of known severity are those of severity 1, 2, 3 and 4. */
  lemma {:induction false} SeveritiesPartition(m: seq<Accident>)
    ensures |Filter(m, OfSeverity(1))| + |Filter(m, OfSeverity(2))| + |Filter(m, OfSeverity(3))|
          + |Filter(m, OfSeverity(4))| == |Filter(m, KnownRow())|
  {
    if m != [] {
      SeveritiesPartition(m[1..]);
      FilterStep(m, KnownRow());
      FilterStep(m, OfSeverity(1));
      FilterStep(m, OfSeverity(2));
      FilterStep(m, OfSeverity(3));
      FilterStep(m, OfSeverity(4));
    }
  }

  lemma FilterStep(m: seq<Accident>, p: Accident -> bool)
    requires m != []
    ensures |Filter(m, p)| == (if p(m[0]) then 1 else 0) + |Filter(m[1..], p)|
  {
  }

  /**
   * Whatever the column, a category's two bars together hold every matching accident of a
   * known severity, so the headline counts those accidents, as the chart's comment intends.
   */
  lemma TotalAccidentsCountsMatches(table: seq<Accident>, poiType: Option<string>, q: QueryParam, i: nat)
    requires StackedBarOf(table, poiType, q).Some?
    requires i < |TargetFields(poiType)|
    ensures var c := StackedBarOf(table, poiType, q).value.data[i];
      c.present.total + c.absent.total == |Filter(Filter(table, InWindow(q)), KnownRow())|
    ensures TotalAccidents(StackedBarOf(table, poiType, q))
      == |Filter(Filter(table, InWindow(q)), KnownRow())|
  {
    forall j | 0 <= j < |TargetFields(poiType)|
      ensures var c := StackedBarOf(table, poiType, q).value.data[j];
        c.present.total + c.absent.total == |Filter(Filter(table, InWindow(q)), KnownRow())|
    {
      StackedBarMeaning(table, poiType, q, j, 1);
      StackedBarMeaning(table, poiType, q, j, 2);
      StackedBarMeaning(table, poiType, q, j, 3);
      StackedBarMeaning(table, poiType, q, j, 4);
      SlotsPartition(Filter(table, InWindow(q)), FlagNamed(TargetFields(poiType)[j]).value);
    }
  }

  /** One line of the insights: the share of high severity (3 or 4) with and without the POI. */
  datatype Insight = Insight(category: string, presentHigh: real, absentHigh: real)

  /** The share of severities 3 and 4 in a side; shown as "0" when the side is empty. */
  function HighShare(b: Buckets): (r: real)
    ensures b.total == 0 ==> r == 0.0
    ensures b.total > 0 ==> r * (b.total as real) == (b.severity3 + b.severity4) as real * 100.0
  {
    Share((b.severity3 + b.severity4) as real, b.total)
  }

  function InsightOf(c: PoiCategory): Insight {
    Insight(c.category, HighShare(c.present), HighShare(c.absent))
  }

  /** `data.slice(0, 3).map(...)`: insights for the first three categories only. */
  function Insights(categories: seq<PoiCategory>): (r: seq<Insight>)
    ensures |r| == Min(3, |categories|)
    ensures forall i :: 0 <= i < |r| ==> r[i].category == categories[i].category
  {
    Map(Prefix(categories, 3), InsightOf)
  }

  /** For the service's data, each high-severity share is a percentage. */
  lemma InsightsArePercentages(table: seq<Accident>, poiType: Option<string>, q: QueryParam, i: nat)
    requires StackedBarOf(table, poiType, q).Some?
    requires i < |Insights(StackedBarOf(table, poiType, q).value.data)|
    ensures var r := Insights(StackedBarOf(table, poiType, q).value.data)[i];
      0.0 <= r.presentHigh <= 100.0 && 0.0 <= r.absentHigh <= 100.0
  {
    var data := StackedBarOf(table, poiType, q).value.data;
    assert Insights(data)[i] == InsightOf(data[i]);
    StackedBarMeaning(table, poiType, q, i, 1);
    HighShareBounded(data[i].present);
    HighShareBounded(data[i].absent);
  }

  lemma HighShareBounded(b: Buckets)
    requires b.total == b.severity1 + b.severity2 + b.severity3 + b.severity4
    ensures 0.0 <= HighShare(b) <= 100.0
  {
    ShareBounded((b.severity3 + b.severity4) as real, b.total);
  }

  lemma ShareBounded(count: real, total: int)
    requires 0.0 <= count <= total as real
    ensures 0.0 <= Share(count, total) <= 100.0
  {
    if total > 0 {
      var t := total as real;
      assert count / t <= 1.0;
    }
  }

  /** The `poiType` requested for a stored selection: none for "" or "all". */
  function RequestedPoi(poi: string): (r: Option<string>)
    ensures r.None? <==> poi == "" || poi == "all"
    ensures r.Some? ==> r.value == poi
  {
    if poi != "" && poi != "all" then Some(poi) else None
  }

  /** Choosing "All" in the selector requests every default column. */
  lemma SelectingAllRequestsDefaults(value: string)
    ensures RequestedPoi(StoredSelection(value)).None? <==> value == "all" || value == ""
  {
  }
}

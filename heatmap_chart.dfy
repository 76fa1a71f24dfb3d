/**
 * The temporal heatmap chart (dm-project-front/src/components/charts/TemporalHeatmap.tsx): a
 * 7 × 24 grid of days of the week by hours, each slot coloured by its count relative to the
 * peak.
 */
module HeatmapChart {
  import opened Wrappers
  import opened Seqs
  import opened JsValues
  import opened Store
  import opened Aggregates

  const DaysOrder: seq<string> :=
    ["Monday", "Tuesday", "Wednesday", "Thursday", "Friday", "Saturday", "Sunday"]

  const HoursPerDay: int := 24

  // ---------------------------------------------------------------------------------------
  // Hour labels
  // ---------------------------------------------------------------------------------------

  /** `formatHour`: a 12-hour clock label. */
  function FormatHour(hour: int): (r: string)
    ensures hour == 0 ==> r == "12AM"
    ensures hour == 12 ==> r == "12PM"
    ensures 0 < hour < 12 ==> r == IntToString(hour) + "AM"
    ensures 12 < hour ==> r == IntToString(hour - 12) + "PM"
  {
    if hour == 0 then "12AM"
    else if hour == 12 then "12PM"
    else if hour < 12 then IntToString(hour) + "AM"
    else IntToString(hour - 12) + "PM"
  }

  /** The number a label shows for an hour of the day, 1..12. */
  function ClockNumber(hour: int): int {
    if hour == 0 || hour == 12 then 12 else if hour < 12 then hour else hour - 12
  }

  lemma FormatHourParts(hour: int)
    ensures FormatHour(hour) == IntToString(ClockNumber(hour)) + (if hour < 12 then "AM" else "PM")
  {
  }

  /** No two hours of the day share a label. */
  lemma FormatHourInjective(h1: int, h2: int)
    requires 0 <= h1 < HoursPerDay && 0 <= h2 < HoursPerDay && h1 != h2
    ensures FormatHour(h1) != FormatHour(h2)
  {
    FormatHourParts(h1);
    FormatHourParts(h2);
    var n1 := IntToString(ClockNumber(h1));
    var n2 := IntToString(ClockNumber(h2));
    if FormatHour(h1) == FormatHour(h2) {
      var s := FormatHour(h1);
      assert s[|s| - 2..] == (if h1 < 12 then "AM" else "PM");
      assert s[|s| - 2..] == (if h2 < 12 then "AM" else "PM");
      assert s[..|s| - 2] == n1 && s[..|s| - 2] == n2;
      ParseIntOfIntToString(ClockNumber(h1));
      ParseIntOfIntToString(ClockNumber(h2));
      assert false;
    }
  }

  /** The axis label of an hour: shown every third hour. */
  function HourLabel(hour: int): (r: string)
    ensures r != "" <==> hour % 3 == 0
    ensures hour % 3 == 0 ==> r == FormatHour(hour)
  {
    if hour % 3 == 0 then FormatHour(hour) else ""
  }

  // ---------------------------------------------------------------------------------------
  // Colours
  // ---------------------------------------------------------------------------------------

  /** A slot's colour: an index into the six heat colours, and whether its text is dark. */
  datatype HeatColor = HeatColor(level: nat, isLight: bool)

  /** `getColorForValue`: colour 0 for an empty slot, else the 0.2-wide band of value/max. */
  function ColorForValue(value: int, maxValue: int): (c: HeatColor)
    ensures c.level <= 5
    ensures c.level == 0 <==> value == 0 || maxValue == 0
    ensures c.isLight <==> c.level == 1 || c.level == 2
  {
    if value == 0 || maxValue == 0 then HeatColor(0, false)
    else
      var intensity := value as real / maxValue as real;
      if intensity < 0.2 then HeatColor(1, true)
      else if intensity < 0.4 then HeatColor(2, true)
      else if intensity < 0.6 then HeatColor(3, false)
      else if intensity < 0.8 then HeatColor(4, false)
      else HeatColor(5, false)
  }

  /** A non-empty slot's band: level k holds the intensities in [0.2(k-1), 0.2k). */
  lemma ColorBands(value: int, maxValue: int)
    requires value != 0 && maxValue != 0
    ensures var k := ColorForValue(value, maxValue).level;
      var intensity := value as real / maxValue as real;
      && (k >= 2 ==> (k - 1) as real * 0.2 <= intensity)
      && (k <= 4 ==> intensity < k as real * 0.2)
  {
  }

  /** Against the same peak, a larger count never gets a lighter colour. */
  lemma ColorMonotone(v1: int, v2: int, maxValue: int)
    requires 0 < v1 <= v2 && 0 < maxValue
    ensures ColorForValue(v1, maxValue).level <= ColorForValue(v2, maxValue).level
  {
    assert v1 as real / maxValue as real <= v2 as real / maxValue as real by {
      DivMonotone(v1 as real, v2 as real, maxValue as real);
    }
  }

  lemma DivMonotone(a: real, b: real, m: real)
    requires a <= b && 0.0 < m
    ensures a / m <= b / m
  {
    assert b / m - a / m == (b - a) / m;
  }

  /** The peak slot is drawn in the darkest colour. */
  lemma PeakIsDarkest(maxValue: int)
    requires maxValue > 0
    ensures ColorForValue(maxValue, maxValue) == HeatColor(5, false)
  {
  }

  // ---------------------------------------------------------------------------------------
  // The matrix
  // ---------------------------------------------------------------------------------------

  /** The index of a day name in `DaysOrder`, or none for any other string. */
  function DayIndex(day: string): (r: Option<nat>)
    ensures r.Some? ==> r.value < |DaysOrder| && DaysOrder[r.value] == day
    ensures r.None? ==> day !in DaysOrder
  {
    if day == "Monday" then Some(0)
    else if day == "Tuesday" then Some(1)
    else if day == "Wednesday" then Some(2)
    else if day == "Thursday" then Some(3)
    else if day == "Friday" then Some(4)
    else if day == "Saturday" then Some(5)
    else if day == "Sunday" then Some(6)
    else None
  }

  /** The count the matrix holds for a slot: that of the last cell for it, else 0. */
  function SlotCount(cells: seq<HeatmapCell>, day: string, hour: int): int {
    if cells == [] then 0
    else
      var last := cells[|cells| - 1];
      if last.dayOfWeek == day && last.hour == hour then last.count
      else SlotCount(cells[..|cells| - 1], day, hour)
  }

  /**
   * `heatmapMatrix`: all 7 × 24 slots start at 0, then each cell of a known day writes its
   * count into its slot, a later cell overwriting an earlier one.
   */
  method BuildMatrix(cells: seq<HeatmapCell>) returns (m: array2<int>)
    ensures fresh(m) && m.Length0 == |DaysOrder| && m.Length1 == HoursPerDay
    ensures forall d, h :: 0 <= d < |DaysOrder| && 0 <= h < HoursPerDay ==>
      m[d, h] == SlotCount(cells, DaysOrder[d], h)
  {
    m := new int[|DaysOrder|, HoursPerDay]((d, h) => 0);
    for i := 0 to |cells|
      invariant forall d, h :: 0 <= d < |DaysOrder| && 0 <= h < HoursPerDay ==>
        m[d, h] == SlotCount(cells[..i], DaysOrder[d], h)
    {
      assert cells[..i + 1][..i] == cells[..i];
      var c := cells[i];
      var d := DayIndex(c.dayOfWeek);
      if d.Some? && 0 <= c.hour < HoursPerDay {
        m[d.value, c.hour] := c.count;
      }
    }
    assert cells[..|cells|] == cells;
  }

  /** With one cell per slot, a slot holds the count of the cell for it. */
  lemma {:induction false} SlotOfUniqueCell(cells: seq<HeatmapCell>, i: nat)
    requires i < |cells|
    requires forall j, k :: 0 <= j < k < |cells| ==>
      (cells[j].hour, cells[j].dayOfWeek) != (cells[k].hour, cells[k].dayOfWeek)
    ensures SlotCount(cells, cells[i].dayOfWeek, cells[i].hour) == cells[i].count
  {
    if i < |cells| - 1 {
      SlotOfUniqueCell(cells[..|cells| - 1], i);
    }
  }

  /** A slot no cell names holds 0. */
  lemma {:induction false} SlotWithoutCell(cells: seq<HeatmapCell>, day: string, hour: int)
    requires forall j :: 0 <= j < |cells| ==> (cells[j].hour, cells[j].dayOfWeek) != (hour, day)
    ensures SlotCount(cells, day, hour) == 0
  {
    if cells != [] {
      SlotWithoutCell(cells[..|cells| - 1], day, hour);
    }
  }

  /**
   * Drawn from the service's heatmap of the matching rows, every slot of the grid shows the
   * number of those rows at that hour on that day.
   */
  lemma MatrixCountsRows(rows: seq<Accident>, d: nat, hour: int)
    requires d < |DaysOrder| && 0 <= hour < HoursPerDay
    ensures SlotCount(Heatmap(rows).data, DaysOrder[d], hour) == |RowsAt(rows, hour, DaysOrder[d])|
  {
    var cells := Heatmap(rows).data;
    var day := DaysOrder[d];
    HeatmapCellsDistinct(rows);
    if i :| 0 <= i < |cells| && (cells[i].hour, cells[i].dayOfWeek) == (hour, day) {
      SlotOfUniqueCell(cells, i);
      HeatmapCellCounts(rows, i);
    } else {
      SlotWithoutCell(cells, day, hour);
      if |RowsAt(rows, hour, day)| > 0 {
        var a := RowsAt(rows, hour, day)[0];
        assert a in RowsAt(rows, hour, day);
        HeatmapCovers(rows, a);
      }
    }
  }

  // ---------------------------------------------------------------------------------------
  // Location selectors
  // ---------------------------------------------------------------------------------------

  /** What a selector stores in the URL: "" for "All". */
  function StoredSelection(value: string): (r: string)
    ensures value == "all" ==> r == ""
    ensures value != "all" ==> r == value
  {
    if value == "all" then "" else value
  }

  /** What a selector shows for the stored value: `value || "all"`. */
  function ShownSelection(stored: string): (r: string)
    ensures stored == "" ==> r == "all"
    ensures stored != "" ==> r == stored
  {
    if stored == "" then "all" else stored
  }

  /** A selector shows back whatever was selected in it. */
  lemma SelectionShownBack(value: string)
    requires value != ""
    ensures ShownSelection(StoredSelection(value)) == value
  {
  }
}

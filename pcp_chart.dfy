/**
 * Brushing in the parallel coordinates plot
 * (dm-project-front/src/components/charts/ParallelCoordinatesPlot.tsx): at most one brush per
 * weather axis, each keeping the lines whose value on that axis falls inside it.
 */
module PcpChart {
  import opened Seqs
  import opened Wrappers
  import S = Sampling

  datatype Axis = Temperature | Humidity | Pressure | Visibility | WindSpeed

  /** `point[axis]`. */
  function ValueOn(p: S.WeatherPoint, axis: Axis): real {
    match axis
    case Temperature => p.temperature
    case Humidity => p.humidity
    case Pressure => p.pressure
    case Visibility => p.visibility
    case WindSpeed => p.windSpeed
  }

  /** `getScale`: the axis' range from the loaded data, or 0..100 before it has loaded. */
  function Scale(ranges: Option<S.WeatherRanges>, axis: Axis): (r: S.Range)
    ensures ranges.None? ==> r == S.Range(0.0, 100.0)
    ensures ranges.Some? && axis == Temperature ==> r == ranges.value.temperature
    ensures ranges.Some? && axis == Humidity ==> r == ranges.value.humidity
    ensures ranges.Some? && axis == Pressure ==> r == ranges.value.pressure
    ensures ranges.Some? && axis == Visibility ==> r == ranges.value.visibility
    ensures ranges.Some? && axis == WindSpeed ==> r == ranges.value.windSpeed
  {
    if ranges.None? then S.Range(0.0, 100.0)
    else
      match axis
      case Temperature => ranges.value.temperature
      case Humidity => ranges.value.humidity
      case Pressure => ranges.value.pressure
      case Visibility => ranges.value.visibility
      case WindSpeed => ranges.value.windSpeed
  }

  datatype Brush = Brush(axis: Axis, min: real, max: real)

  /** A brush admits the lines whose value on its axis lies within it. */
  predicate Admits(b: Brush, p: S.WeatherPoint) {
    b.min <= ValueOn(p, b.axis) <= b.max
  }

  predicate AdmittedByAll(brushes: seq<Brush>, p: S.WeatherPoint) {
    forall i :: 0 <= i < |brushes| ==> Admits(brushes[i], p)
  }

  /** At most one brush per axis. */
  predicate OnePerAxis(brushes: seq<Brush>) {
    forall i, j :: 0 <= i < j < |brushes| ==> brushes[i].axis != brushes[j].axis
  }

  /** `findIndex(b => b.axis === axis)`: the first brush on the axis, or -1. */
  function FindAxis(brushes: seq<Brush>, axis: Axis): (i: int)
    ensures -1 <= i < |brushes|
    ensures i >= 0 ==> brushes[i].axis == axis && forall j :: 0 <= j < i ==> brushes[j].axis != axis
    ensures i == -1 ==> forall j :: 0 <= j < |brushes| ==> brushes[j].axis != axis
  {
    if brushes == [] then -1
    else if brushes[0].axis == axis then 0
    else
      var k := FindAxis(brushes[1..], axis);
      if k == -1 then -1 else k + 1
  }

  function OffAxis(axis: Axis): Brush -> bool {
    (b: Brush) => b.axis != axis
  }

  /** The brush a slider range (in percent of the axis) stands for. */
  function BrushFor(axis: Axis, lo: real, hi: real, scale: S.Range): Brush {
    Brush(axis, scale.min + (lo / 100.0) * (scale.max - scale.min),
          scale.min + (hi / 100.0) * (scale.max - scale.min))
  }

  /**
   * The `handleBrush` updater: the full range [0, 100] removes the axis' brush; otherwise the
   * new brush replaces the axis' brush where it stands, or is appended.
   */
  function BrushUpdate(prev: seq<Brush>, axis: Axis, lo: real, hi: real, scale: S.Range): (r: seq<Brush>)
    ensures lo == 0.0 && hi == 100.0 ==> r == Filter(prev, OffAxis(axis))
    ensures !(lo == 0.0 && hi == 100.0) && FindAxis(prev, axis) >= 0 ==>
      r == prev[FindAxis(prev, axis) := BrushFor(axis, lo, hi, scale)]
    ensures !(lo == 0.0 && hi == 100.0) && FindAxis(prev, axis) == -1 ==>
      r == prev + [BrushFor(axis, lo, hi, scale)]
  {
    var existing := FindAxis(prev, axis);
    if lo == 0.0 && hi == 100.0 then Filter(prev, OffAxis(axis))
    else if existing >= 0 then prev[existing := BrushFor(axis, lo, hi, scale)]
    else prev + [BrushFor(axis, lo, hi, scale)]
  }

  lemma {:induction false} FilterKeepsOnePerAxis(prev: seq<Brush>, axis: Axis)
    requires OnePerAxis(prev)
    ensures OnePerAxis(Filter(prev, OffAxis(axis)))
  {
    if prev != [] {
      FilterKeepsOnePerAxis(prev[1..], axis);
      var rest := Filter(prev[1..], OffAxis(axis));
      forall j | 0 <= j < |rest| ensures rest[j].axis != prev[0].axis {
        assert rest[j] in prev[1..];
      }
    }
  }

  /**
   * Brushing keeps at most one brush per axis; afterwards the axis has no brush (full range)
   * or exactly the new one, and every other axis keeps its brush.
   */
  lemma BrushUpdateMeaning(prev: seq<Brush>, axis: Axis, lo: real, hi: real, scale: S.Range)
    requires OnePerAxis(prev)
    ensures var r := BrushUpdate(prev, axis, lo, hi, scale);
      && OnePerAxis(r)
      && (lo == 0.0 && hi == 100.0 ==> forall b :: b in r ==> b.axis != axis)
      && (!(lo == 0.0 && hi == 100.0) ==> BrushFor(axis, lo, hi, scale) in r)
      && (forall b :: b in prev && b.axis != axis ==> b in r)
      && (forall b :: b in r && b.axis != axis ==> b in prev)
  {
    var r := BrushUpdate(prev, axis, lo, hi, scale);
    if lo == 0.0 && hi == 100.0 {
      FilterKeepsOnePerAxis(prev, axis);
      forall b | b in prev && b.axis != axis ensures b in r {
        FilterContains(prev, b, OffAxis(axis));
      }
    } else {
      var k := FindAxis(prev, axis);
      if k >= 0 {
        forall b | b in prev && b.axis != axis ensures b in r {
          var j :| 0 <= j < |prev| && prev[j] == b;
          assert r[j] == b;
        }
        forall b | b in r && b.axis != axis ensures b in prev {
          var j :| 0 <= j < |r| && r[j] == b;
          assert prev[j] == b;
        }
        assert r[k] == BrushFor(axis, lo, hi, scale);
      } else {
        assert r[|prev|] == BrushFor(axis, lo, hi, scale);
      }
    }
  }

  function AdmittedBy(brushes: seq<Brush>): S.WeatherPoint -> bool {
    (p: S.WeatherPoint) => AdmittedByAll(brushes, p)
  }

  /** `filteredData`: the lines every brush admits; none before the data has loaded. */
  function FilteredData(data: Option<seq<S.WeatherPoint>>, brushes: seq<Brush>): (r: seq<S.WeatherPoint>)
    ensures data.None? ==> r == []
    ensures forall p :: p in r <==> data.Some? && p in data.value && AdmittedByAll(brushes, p)
  {
    if data.None? then []
    else
      var r := Filter(data.value, AdmittedBy(brushes));
      assert forall p :: p in data.value && AdmittedByAll(brushes, p) ==> p in r by {
        forall p | p in data.value && AdmittedByAll(brushes, p) ensures p in r {
          FilterContains(data.value, p, AdmittedBy(brushes));
        }
      }
      r
  }

  /** With no brush every line is drawn. */
  lemma {:induction false} NoBrushesKeepAll(data: seq<S.WeatherPoint>)
    ensures FilteredData(Some(data), []) == data
  {
    if data != [] {
      NoBrushesKeepAll(data[1..]);
    }
  }

  /** Resetting an axis to its full range never hides a line that was drawn. */
  lemma FullRangeWidens(data: seq<S.WeatherPoint>, prev: seq<Brush>, axis: Axis, scale: S.Range)
    requires OnePerAxis(prev)
    ensures forall p :: p in FilteredData(Some(data), prev) ==>
      p in FilteredData(Some(data), BrushUpdate(prev, axis, 0.0, 100.0, scale))
  {
    var r := BrushUpdate(prev, axis, 0.0, 100.0, scale);
    forall p | p in FilteredData(Some(data), prev)
      ensures AdmittedByAll(r, p)
    {
      forall i | 0 <= i < |r| ensures Admits(r[i], p) {
        assert r[i] in prev;
        var j :| 0 <= j < |prev| && prev[j] == r[i];
      }
    }
  }

  /** The plot's brush state. */
  class BrushState {
    var brushRanges: seq<Brush>

    constructor()
      ensures brushRanges == []
    {
      brushRanges := [];
    }

    /** `handleBrush`: applies the updater to the current brushes. */
    method HandleBrush(axis: Axis, lo: real, hi: real, ranges: Option<S.WeatherRanges>)
      modifies this
      ensures brushRanges == BrushUpdate(old(brushRanges), axis, lo, hi, Scale(ranges, axis))
      ensures old(OnePerAxis(brushRanges)) ==> OnePerAxis(brushRanges)
    {
      if OnePerAxis(brushRanges) {
        BrushUpdateMeaning(brushRanges, axis, lo, hi, Scale(ranges, axis));
      }
      brushRanges := BrushUpdate(brushRanges, axis, lo, hi, Scale(ranges, axis));
    }

    /** `clearBrushes`. */
    method ClearBrushes()
      modifies this
      ensures brushRanges == []
    {
      brushRanges := [];
    }
  }
}

/**
 * The aggregate cache keys of dm-project-back/src/accident/accident.service.ts as the source
 * writes them: template strings in which an absent parameter is spelled "all" and the fields
 * are joined with "-". Two requests the where clause tells apart can render the same key, and
 * the second is then answered with the first one's cached result. `Accidents` keys its cache
 * by the fields themselves (`HeatmapKeyDetermines` and its siblings).
 */
module CacheKeyFindings {
  import opened Wrappers
  import opened Seqs
  import opened JsValues
  import opened Store
  import opened QueryFilters
  import opened Aggregates
  import opened Accidents

  /** `${p || 'all'}`. */
  function OrAll(p: Option<string>): (r: string)
    ensures Truthy(p) ==> r == p.value
    ensures !Truthy(p) ==> r == "all"
  {
    if Truthy(p) then p.value else "all"
  }

  /** The heatmap's key as the source renders it. */
  function TextHeatmapKey(q: QueryParam): (k: string)
    ensures StartsWith(k, "temporal-heatmap-")
  {
    "temporal-heatmap-" + OrAll(q.city) + "-" + OrAll(q.state) + "-" + OrAll(q.year) + "-"
      + OrAll(q.month) + "-" + OrAll(q.dayOfWeek) + "-" + OrAll(q.timeOfDay)
  }

  const Everywhere := QueryParam(None, None, None, None, None, None, None, None)
  const CityAll := Everywhere.(city := Some("all"))

  const BostonCrash := Accident(
    "1", 2, "Boston", "MA", "Suffolk", 2020, 1, 8, "Monday",
    None, None, None, None, None, None, None,
    false, false, false, false, false, false, false, false, false,
    false, false, false, false)

  /**
   * A city of "all" and no city render the same text key, but the first admits only cities
   * whose name contains "all" and the second every city: over a table holding one accident
   * in Boston the two heatmaps count 0 and 1 accidents, and whichever request comes second
   * within five minutes gets the other's heatmap.
   */
  lemma TextHeatmapKeysCollide()
    ensures TextHeatmapKey(CityAll) == TextHeatmapKey(Everywhere)
    ensures TemporalHeatmapOf([BostonCrash], CityAll).totalAccidents == 0
    ensures TemporalHeatmapOf([BostonCrash], Everywhere).totalAccidents == 1
  {
    assert !Contains("Boston", "all") by {
      forall i | 0 <= i <= |"Boston"| ensures !OccursAt("Boston", "all", i) {
        if 0 <= i <= 3 {
          assert "Boston"[i..i + 3][0] == "Boston"[i];
        }
      }
    }
    assert Filter([BostonCrash], TimeFrameMatch(CityAll)) == [];
    assert Filter([BostonCrash], TimeFrameMatch(Everywhere)) == [BostonCrash];
    HeatmapTotals([]);
    HeatmapTotals([BostonCrash]);
  }

  const StateAll := Everywhere.(state := Some("all"))

  /**
   * The same collision on the state: a state of "all" admits only rows whose state is "all",
   * no state admits every row, and both render one key.
   */
  lemma TextHeatmapStateKeysCollide()
    ensures TextHeatmapKey(StateAll) == TextHeatmapKey(Everywhere)
    ensures TemporalHeatmapOf([BostonCrash], StateAll).totalAccidents == 0
    ensures TemporalHeatmapOf([BostonCrash], Everywhere).totalAccidents == 1
  {
    assert Filter([BostonCrash], TimeFrameMatch(StateAll)) == [];
    assert Filter([BostonCrash], TimeFrameMatch(Everywhere)) == [BostonCrash];
    HeatmapTotals([]);
    HeatmapTotals([BostonCrash]);
  }
}

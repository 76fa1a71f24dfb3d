/**
 * The accident table as the query layer sees it: one record per accident, ids ordered by the
 * primary-key index, and the point-of-interest flags that the stacked-bar view reads by name.
 */
module Store {
  import opened Wrappers
  import opened Seqs

  datatype Accident = Accident(
    id: string,
    severity: int,
    city: string,
    state: string,
    county: string,
    year: int,
    month: int,
    hour: int,
    dayOfWeek: string,
    lat: Option<real>,
    lng: Option<real>,
    temperature: Option<real>,
    humidity: Option<real>,
    pressure: Option<real>,
    visibility: Option<real>,
    windSpeed: Option<real>,
    junction: bool,
    trafficSignal: bool,
    stop: bool,
    crossing: bool,
    bump: bool,
    giveWay: bool,
    railway: bool,
    station: bool,
    amenity: bool,
    noExit: bool,
    roundabout: bool,
    trafficCalming: bool,
    turningLoop: bool)

  /** String order of ids, character code by character code (the store's comparison of `id`). */
  predicate IdLess(a: string, b: string)
    decreases |a|
  {
    if a == [] then b != []
    else if b == [] then false
    else a[0] < b[0] || (a[0] == b[0] && IdLess(a[1..], b[1..]))
  }

  lemma {:induction false} IdLessIrreflexive(a: string)
    ensures !IdLess(a, a)
  {
    if a != [] { IdLessIrreflexive(a[1..]); }
  }

  lemma {:induction false} IdLessTransitive(a: string, b: string, c: string)
    requires IdLess(a, b) && IdLess(b, c)
    ensures IdLess(a, c)
    decreases |a|
  {
    if a != [] && b != [] && c != [] && a[0] == b[0] == c[0] {
      IdLessTransitive(a[1..], b[1..], c[1..]);
    }
  }

  lemma {:induction false} IdLessTotal(a: string, b: string)
    ensures a == b || IdLess(a, b) || IdLess(b, a)
    decreases |a|
  {
    if a != [] && b != [] && a[0] == b[0] {
      IdLessTotal(a[1..], b[1..]);
      if a[1..] == b[1..] {
        assert a == [a[0]] + a[1..] && b == [b[0]] + b[1..];
      }
    }
  }

  /** The table in primary-key order: ids strictly ascending, hence distinct. */
  ghost predicate IndexOrdered(table: seq<Accident>) {
    forall i, j :: 0 <= i < j < |table| ==> IdLess(table[i].id, table[j].id)
  }

  /** Rows whose ids strictly descend, the order of `orderBy: { id: 'desc' }`. */
  ghost predicate StrictlyDescending(rows: seq<Accident>) {
    forall i, j :: 0 <= i < j < |rows| ==> IdLess(rows[j].id, rows[i].id)
  }

  /** Reading an index-ordered table backwards gives strictly descending ids. */
  lemma ReverseOfOrderedDescends(table: seq<Accident>)
    requires IndexOrdered(table)
    ensures StrictlyDescending(Reverse(table))
  {
    var r := Reverse(table);
    forall i, j | 0 <= i < j < |r| ensures IdLess(r[j].id, r[i].id) {
      ReverseIndex(table, i);
      ReverseIndex(table, j);
    }
  }

  /** Strictly descending rows are never repeated. */
  lemma DescendingHasNoRepeats(rows: seq<Accident>)
    requires StrictlyDescending(rows)
    ensures forall i, j :: 0 <= i < j < |rows| ==> rows[i].id != rows[j].id
  {
    forall i, j | 0 <= i < j < |rows| ensures rows[i].id != rows[j].id {
      IdLessIrreflexive(rows[i].id);
    }
  }

  /** Keeping some rows of a strictly descending sequence keeps it strictly descending. */
  lemma {:induction false} FilterKeepsDescending(rows: seq<Accident>, p: Accident -> bool)
    requires StrictlyDescending(rows)
    ensures StrictlyDescending(Filter(rows, p))
  {
    if rows != [] {
      var tail := rows[1..];
      FilterKeepsDescending(tail, p);
      if p(rows[0]) {
        assert forall k :: 0 <= k < |tail| ==> tail[k] == rows[k + 1];
        FilterStaysBelow(tail, p, rows[0].id);
        assert Filter(rows, p) == [rows[0]] + Filter(tail, p);
      }
    }
  }

  /** Rows whose ids are all below `top` keep that bound through a filter. */
  lemma {:induction false} FilterStaysBelow(rows: seq<Accident>, p: Accident -> bool, top: string)
    requires forall k :: 0 <= k < |rows| ==> IdLess(rows[k].id, top)
    ensures forall k :: 0 <= k < |Filter(rows, p)| ==> IdLess(Filter(rows, p)[k].id, top)
  {
    if rows != [] {
      FilterStaysBelow(rows[1..], p, top);
    }
  }

  /** Rows whose ids are all above `bottom` keep that bound through a filter. */
  lemma {:induction false} FilterStaysAbove(rows: seq<Accident>, p: Accident -> bool, bottom: string)
    requires forall k :: 0 <= k < |rows| ==> IdLess(bottom, rows[k].id)
    ensures forall k :: 0 <= k < |Filter(rows, p)| ==> IdLess(bottom, Filter(rows, p)[k].id)
  {
    if rows != [] {
      FilterStaysAbove(rows[1..], p, bottom);
    }
  }

  /** Keeping some rows of an index-ordered table keeps them in index order. */
  lemma {:induction false} FilterKeepsOrdered(rows: seq<Accident>, p: Accident -> bool)
    requires IndexOrdered(rows)
    ensures IndexOrdered(Filter(rows, p))
  {
    if rows != [] {
      var tail := rows[1..];
      FilterKeepsOrdered(tail, p);
      if p(rows[0]) {
        assert forall k :: 0 <= k < |tail| ==> tail[k] == rows[k + 1];
        FilterStaysAbove(tail, p, rows[0].id);
        assert Filter(rows, p) == [rows[0]] + Filter(tail, p);
      }
    }
  }

  /** The boolean point-of-interest columns of the table, any of which the stacked-bar aggregate can group by. */
  datatype PoiFlag = Junction | TrafficSignal | Stop | Crossing | Bump | GiveWay | Railway | Station | Amenity
                   | NoExit | Roundabout | TrafficCalming | TurningLoop {

    /** The column's name, as the caller spells it in `poiType`. */
    function Name(): string {
      match this
      case Junction => "junction"
      case TrafficSignal => "trafficSignal"
      case Stop => "stop"
      case Crossing => "crossing"
      case Bump => "bump"
      case GiveWay => "giveWay"
      case Railway => "railway"
      case Station => "station"
      case Amenity => "amenity"
      case NoExit => "noExit"
      case Roundabout => "roundabout"
      case TrafficCalming => "trafficCalming"
      case TurningLoop => "turningLoop"
    }

    function Of(a: Accident): bool {
      match this
      case Junction => a.junction
      case TrafficSignal => a.trafficSignal
      case Stop => a.stop
      case Crossing => a.crossing
      case Bump => a.bump
      case GiveWay => a.giveWay
      case Railway => a.railway
      case Station => a.station
      case Amenity => a.amenity
      case NoExit => a.noExit
      case Roundabout => a.roundabout
      case TrafficCalming => a.trafficCalming
      case TurningLoop => a.turningLoop
    }
  }

  /**
   * The boolean column a `poiType` names. Any other name (a column that is not a flag, or no
   * column at all) is `None`: the model charts no data for it.
   */
  function FlagNamed(name: string): (r: Option<PoiFlag>)
    ensures r.Some? ==> r.value.Name() == name
    ensures r.None? ==> forall f: PoiFlag :: f.Name() != name
  {
    if name == "junction" then Some(Junction)
    else if name == "trafficSignal" then Some(TrafficSignal)
    else if name == "stop" then Some(Stop)
    else if name == "crossing" then Some(Crossing)
    else if name == "bump" then Some(Bump)
    else if name == "giveWay" then Some(GiveWay)
    else if name == "railway" then Some(Railway)
    else if name == "station" then Some(Station)
    else if name == "amenity" then Some(Amenity)
    else if name == "noExit" then Some(NoExit)
    else if name == "roundabout" then Some(Roundabout)
    else if name == "trafficCalming" then Some(TrafficCalming)
    else if name == "turningLoop" then Some(TurningLoop)
    else None
  }
}

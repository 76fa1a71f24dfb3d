/**
 * The row predicates of the accident queries (dm-project-back/src/accident/accident.service.ts):
 * the listing's `where` object and the time-frame clause shared by the aggregates, each given
 * by what it means for one record.
 */
module QueryFilters {
  import opened Wrappers
  import opened JsValues
  import opened Store

  /** The query-string parameters the accident endpoints read; `None` is an absent parameter. */
  datatype QueryParam = QueryParam(
    search: Option<string>,
    state: Option<string>,
    city: Option<string>,
    severity: Option<string>,
    year: Option<string>,
    month: Option<string>,
    dayOfWeek: Option<string>,
    timeOfDay: Option<string>)

  /** A parameter that filters the listing: present, non-empty and not "all". */
  predicate Selects(p: Option<string>) {
    Truthy(p) && p.value != "all"
  }

  // ---------------------------------------------------------------------------------------
  // The listing's where object
  // ---------------------------------------------------------------------------------------

  /**
   * The Prisma `where` object of the listing. Every field is a constraint that is present or
   * not; two equal objects are the same JSON text, and so the same count cache key.
   */
  datatype ListWhere = ListWhere(
    search: Option<string>,
    state: Option<string>,
    city: Option<string>,
    severity: Option<int>,
    idBelow: Option<string>)

  /** The severity filter: a parameter that is selected and parses to an integer in 1..4. */
  function SeverityFilter(p: Option<string>): (r: Option<int>)
    ensures r.Some? <==> Selects(p) && ParseInt(p.value).Some? && 1 <= ParseInt(p.value).value <= 4
    ensures r.Some? ==> r.value == ParseInt(p.value).value
  {
    if Selects(p) then
      match ParseInt(p.value)
      case Some(n) => if 1 <= n <= 4 then Some(n) else None
      case None => None
    else None
  }

  /**
   * The listing's `where`: search when non-empty, state and city when selected, severity when
   * it is a valid level, and `id < cursor` when a cursor is given.
   */
  function BuildListWhere(q: QueryParam, cursor: Option<string>): (w: ListWhere)
    ensures w.search.Some? <==> Truthy(q.search)
    ensures w.state.Some? <==> Selects(q.state)
    ensures w.city.Some? <==> Selects(q.city)
    ensures w.idBelow.Some? <==> Truthy(cursor)
    ensures w.search.Some? ==> w.search == q.search
    ensures w.state.Some? ==> w.state == q.state
    ensures w.city.Some? ==> w.city == q.city
    ensures w.idBelow.Some? ==> w.idBelow == cursor
    ensures w.severity == SeverityFilter(q.severity)
  {
    ListWhere(
      if Truthy(q.search) then q.search else None,
      if Selects(q.state) then q.state else None,
      if Selects(q.city) then q.city else None,
      SeverityFilter(q.severity),
      if Truthy(cursor) then cursor else None)
  }

  /** What the where object admits: every present constraint holds of the record. */
  predicate MatchesList(w: ListWhere, a: Accident) {
    (w.search.None? ||
      Contains(a.city, w.search.value) || Contains(a.state, w.search.value) || Contains(a.county, w.search.value))
    && (w.state.None? || a.state == w.state.value)
    && (w.city.None? || Contains(a.city, w.city.value))
    && (w.severity.None? || a.severity == w.severity.value)
    && (w.idBelow.None? || IdLess(a.id, w.idBelow.value))
  }

  /** A state of "all" is the same request as no state at all: same where object, same rows. */
  lemma StateAllIsNoFilter(q: QueryParam, cursor: Option<string>)
    ensures BuildListWhere(q.(state := Some("all")), cursor) == BuildListWhere(q.(state := None), cursor)
  {
  }

  /** A severity that is not a level 1..4 ("5", "0", "high") filters nothing. */
  lemma SeverityOutOfRangeIgnored(q: QueryParam, cursor: Option<string>, a: Accident)
    requires Selects(q.severity)
    requires ParseInt(q.severity.value).None? || ParseInt(q.severity.value).value !in {1, 2, 3, 4}
    ensures MatchesList(BuildListWhere(q, cursor), a) == MatchesList(BuildListWhere(q.(severity := None), cursor), a)
  {
  }

  /** The cursor only ever narrows the listing: a row it admits is admitted without it. */
  lemma CursorNarrows(q: QueryParam, cursor: Option<string>, a: Accident)
    ensures MatchesList(BuildListWhere(q, cursor), a) ==>
      MatchesList(BuildListWhere(q, None), a) && (Truthy(cursor) ==> IdLess(a.id, cursor.value))
  {
  }

  // ---------------------------------------------------------------------------------------
  // The time-frame clause
  // ---------------------------------------------------------------------------------------

  /** `year = parseInt(p)` when `p` is non-empty; a year that is not a number matches no row. */
  predicate YearMatches(p: Option<string>, a: Accident) {
    !Truthy(p) || ParseInt(p.value) == Some(a.year)
  }

  predicate MonthMatches(p: Option<string>, a: Accident) {
    !Truthy(p) || ParseInt(p.value) == Some(a.month)
  }

  predicate DayMatches(p: Option<string>, a: Accident) {
    !Truthy(p) || a.dayOfWeek == p.value
  }

  /** "day" is hours 6 to 17, "night" hours 18 to 23 and 0 to 5; anything else constrains nothing. */
  predicate TimeOfDayMatches(p: Option<string>, a: Accident) {
    if p == Some("day") then 6 <= a.hour < 18
    else if p == Some("night") then a.hour >= 18 || a.hour < 6
    else true
  }

  /** The time filters every aggregate applies: year, month, day of week and time of day. */
  predicate TimeMatches(q: QueryParam, a: Accident) {
    YearMatches(q.year, a) && MonthMatches(q.month, a) && DayMatches(q.dayOfWeek, a)
    && TimeOfDayMatches(q.timeOfDay, a)
  }

  /**
   * The meaning of `buildTimeFrameWhereClause`: city as a substring, state, and the time
   * filters, each only when its parameter is non-empty. Unlike the listing, "all" is taken
   * literally here for everything but the time of day.
   */
  predicate MatchesTimeFrame(q: QueryParam, a: Accident) {
    (!Truthy(q.city) || Contains(a.city, q.city.value))
    && (!Truthy(q.state) || a.state == q.state.value)
    && TimeMatches(q, a)
  }

  /**
   * The year and month are written into the query text of the hexbin and stacked-bar
   * aggregates as `parseInt` of the parameter; a parameter that does not parse writes `NaN`,
   * which the store rejects.
   */
  predicate TimeFiltersUsable(q: QueryParam) {
    (!Truthy(q.year) || ParseInt(q.year.value).Some?) && (!Truthy(q.month) || ParseInt(q.month.value).Some?)
  }

  /** One SQL condition of a where clause, with its bound parameter. */
  datatype Condition =
    | CityLike(pattern: string)
    | StateIs(state: string)
    | YearIs(year: Option<int>)
    | MonthIs(month: Option<int>)
    | DayIs(day: string)
    | Daytime
    | Nighttime

  /** Whether a record satisfies one condition; a NaN parameter compares equal to nothing. */
  predicate Holds(c: Condition, a: Accident) {
    match c
    case CityLike(p) => Contains(a.city, p)
    case StateIs(s) => a.state == s
    case YearIs(y) => y == Some(a.year)
    case MonthIs(m) => m == Some(a.month)
    case DayIs(d) => a.dayOfWeek == d
    case Daytime => 6 <= a.hour < 18
    case Nighttime => a.hour >= 18 || a.hour < 6
  }

  /** `1=1 AND c1 AND c2 ...`. */
  predicate AllHold(cs: seq<Condition>, a: Accident) {
    forall i :: 0 <= i < |cs| ==> Holds(cs[i], a)
  }

  /**
   * `buildTimeFrameWhereClause`: grows the clause one condition at a time, in the source's
   * order; the clause admits exactly the records of `MatchesTimeFrame`.
   */
  method BuildTimeFrameWhereClause(q: QueryParam) returns (clause: seq<Condition>)
    ensures forall a :: AllHold(clause, a) <==> MatchesTimeFrame(q, a)
    ensures |clause| <= 6
  {
    clause := [];
    clause := clause + CityPart(q);
    clause := clause + StatePart(q);
    clause := clause + YearPart(q);
    clause := clause + MonthPart(q);
    clause := clause + DayPart(q);
    clause := clause + TimeOfDayPart(q);
    assert [] + CityPart(q) == CityPart(q);
    TimeFrameClauseMeaning(q);
  }

  /** Each filter's condition, when its parameter asks for one: the `if` around each `+=`. */
  function CityPart(q: QueryParam): seq<Condition> {
    if Truthy(q.city) then [CityLike(q.city.value)] else []
  }

  function StatePart(q: QueryParam): seq<Condition> {
    if Truthy(q.state) then [StateIs(q.state.value)] else []
  }

  function YearPart(q: QueryParam): seq<Condition> {
    if Truthy(q.year) then [YearIs(ParseInt(q.year.value))] else []
  }

  function MonthPart(q: QueryParam): seq<Condition> {
    if Truthy(q.month) then [MonthIs(ParseInt(q.month.value))] else []
  }

  function DayPart(q: QueryParam): seq<Condition> {
    if Truthy(q.dayOfWeek) then [DayIs(q.dayOfWeek.value)] else []
  }

  function TimeOfDayPart(q: QueryParam): seq<Condition> {
    if q.timeOfDay == Some("day") then [Daytime]
    else if q.timeOfDay == Some("night") then [Nighttime]
    else []
  }

  /** The whole clause, the conditions in the order they are added. */
  function TimeFrameClause(q: QueryParam): seq<Condition> {
    CityPart(q) + StatePart(q) + YearPart(q) + MonthPart(q) + DayPart(q) + TimeOfDayPart(q)
  }

  /** The clause holds at most six conditions and admits exactly `MatchesTimeFrame`. */
  lemma TimeFrameClauseMeaning(q: QueryParam)
    ensures |TimeFrameClause(q)| <= 6
    ensures forall a :: AllHold(TimeFrameClause(q), a) <==> MatchesTimeFrame(q, a)
  {
    forall a ensures AllHold(TimeFrameClause(q), a) <==> MatchesTimeFrame(q, a) {
      ClauseHolds(q, a);
    }
  }

  lemma ClauseHolds(q: QueryParam, a: Accident)
    ensures AllHold(TimeFrameClause(q), a) <==> MatchesTimeFrame(q, a)
  {
    var c, s, y, m, d, t := CityPart(q), StatePart(q), YearPart(q), MonthPart(q), DayPart(q), TimeOfDayPart(q);
    AllHoldConcat(c, s, a);
    AllHoldConcat(c + s, y, a);
    AllHoldConcat(c + s + y, m, a);
    AllHoldConcat(c + s + y + m, d, a);
    AllHoldConcat(c + s + y + m + d, t, a);
    PartHolds(c, a);
    PartHolds(s, a);
    PartHolds(y, a);
    PartHolds(m, a);
    PartHolds(d, a);
    PartHolds(t, a);
  }

  /** A part of at most one condition holds when it is empty or its condition holds. */
  lemma PartHolds(p: seq<Condition>, a: Accident)
    requires |p| <= 1
    ensures AllHold(p, a) <==> p == [] || Holds(p[0], a)
  {
  }

  lemma AllHoldConcat(x: seq<Condition>, y: seq<Condition>, a: Accident)
    ensures AllHold(x + y, a) <==> AllHold(x, a) && AllHold(y, a)
  {
    if AllHold(x, a) && AllHold(y, a) {
      forall i | 0 <= i < |x + y| ensures Holds((x + y)[i], a) {
        if i >= |x| { assert (x + y)[i] == y[i - |x|]; }
      }
    }
    if AllHold(x + y, a) {
      forall i | 0 <= i < |x| ensures Holds(x[i], a) {
        assert (x + y)[i] == x[i];
      }
      forall i | 0 <= i < |y| ensures Holds(y[i], a) {
        assert (x + y)[|x| + i] == y[i];
      }
    }
  }

  /** Every hour of the day is either "day" or "night", never both. */
  lemma DayAndNightPartitionHours(a: Accident)
    requires 0 <= a.hour < 24
    ensures TimeOfDayMatches(Some("day"), a) != TimeOfDayMatches(Some("night"), a)
  {
  }

  /** A time of day other than "day" or "night" ("all", "") filters nothing. */
  lemma OtherTimeOfDayIgnored(q: QueryParam, a: Accident)
    requires q.timeOfDay != Some("day") && q.timeOfDay != Some("night")
    ensures TimeMatches(q, a) == TimeMatches(q.(timeOfDay := None), a)
  {
  }

  /**
   * In the time-frame clause a state of "all" is a literal: it admits only records whose state
   * is "all", unlike an absent state, which admits every state.
   */
  lemma StateAllIsLiteralInTimeFrame(q: QueryParam, a: Accident)
    requires a.state != "all"
    ensures !MatchesTimeFrame(q.(state := Some("all")), a)
  {
  }

  /** A year that is not a number ("all", "abc") matches no record at all. */
  lemma UnparsableYearMatchesNothing(q: QueryParam, a: Accident)
    requires Truthy(q.year) && ParseInt(q.year.value).None?
    ensures !TimeMatches(q, a)
  {
  }
}

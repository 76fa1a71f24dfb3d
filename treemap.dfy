/**
 * The treemap aggregate of dm-project-back/src/accident/accident.service.ts: the grouped rows
 * are filed into nested state → county → city maps, which are then folded into a tree whose
 * node values are running totals, whose average severities are count-weighted means, and
 * whose children are sorted by value and cut to 30 counties per state and 20 cities per county.
 */
module Treemap {
  import opened Wrappers
  import opened Seqs
  import opened JsObjects
  import opened Store
  import opened Grouping
  import opened JsValues
  import opened QueryFilters

  /** Counties kept per state, and cities kept per county. */
  const MaxCounties: nat := 30
  const MaxCities: nat := 20

  /** One row of `GROUP BY state, county[, city]`; `city` is "" when cities are not grouped. */
  datatype TreemapRow = TreemapRow(state: string, county: string, city: string, count: nat, avgSeverity: real)

  datatype Stat = Stat(count: nat, avgSeverity: real)

  datatype TreemapNode = TreemapNode(name: string, value: nat, avgSeverity: real, children: Option<seq<TreemapNode>>)

  datatype TreemapData = TreemapData(data: TreemapNode, totalAccidents: nat)

  /** state → county → city → (count, average severity); the county's own row sits under "". */
  type StateMap = Entries<Entries<Entries<Stat>>>

  // ---------------------------------------------------------------------------------------
  // The grouped rows
  // ---------------------------------------------------------------------------------------

  function RowItem(groupByCity: bool, a: Accident): ((string, string, string), int) {
    ((a.state, a.county, if groupByCity then a.city else ""), a.severity)
  }

  /** `COUNT(*)` and `AVG(severity)` of one group. */
  function RowOf(g: Group<(string, string, string)>): TreemapRow {
    TreemapRow(g.key.0, g.key.1, g.key.2, g.count,
      if g.count > 0 then g.sum as real / g.count as real else 0.0)
  }

  /** The grouped rows of the matching accidents, by state and county, and by city when asked. */
  function TreemapRows(matching: seq<Accident>, groupByCity: bool): seq<TreemapRow> {
    Map(GroupBy(Map(matching, a => RowItem(groupByCity, a))), RowOf)
  }

  // ---------------------------------------------------------------------------------------
  // Filing rows into the nested maps
  // ---------------------------------------------------------------------------------------

  /** The key a row is filed under in its county's map: its city, or "" for the county itself. */
  function CityKey(row: TreemapRow, groupByCity: bool): string {
    if groupByCity && row.city != "" then row.city else ""
  }

  /** One step of the `forEach` over the rows: create the state and county maps, then set the city. */
  function FileRow(m: StateMap, row: TreemapRow, groupByCity: bool): StateMap {
    var countyMap := Get(m, row.state).GetOr([]);
    var cityMap := Get(countyMap, row.county).GetOr([]);
    Set(m, row.state, Set(countyMap, row.county, Set(cityMap, CityKey(row, groupByCity), Stat(row.count, row.avgSeverity))))
  }

  function FileRows(rows: seq<TreemapRow>, groupByCity: bool): StateMap {
    if rows == [] then [] else FileRow(FileRows(rows[..|rows| - 1], groupByCity), rows[|rows| - 1], groupByCity)
  }

  /** The `forEach` that fills `stateMap`. */
  method BuildStateMap(rows: seq<TreemapRow>, groupByCity: bool) returns (stateMap: StateMap)
    ensures stateMap == FileRows(rows, groupByCity)
  {
    stateMap := [];
    var i := 0;
    while i < |rows|
      invariant 0 <= i <= |rows|
      invariant stateMap == FileRows(rows[..i], groupByCity)
    {
      assert rows[..i + 1][..i] == rows[..i];
      stateMap := FileRow(stateMap, rows[i], groupByCity);
      i := i + 1;
    }
    assert rows[..|rows|] == rows;
  }

  /** Without city grouping every county map holds only the county's own "" entry. */
  predicate CountyLevelOnly(m: StateMap) {
    forall s :: s in m ==> forall c :: c in s.1 ==> forall e :: e in c.1 ==> e.0 == ""
  }

  lemma FileRowCountyLevelOnly(m: StateMap, row: TreemapRow)
    requires CountyLevelOnly(m)
    ensures CountyLevelOnly(FileRow(m, row, false))
  {
    var countyMap := Get(m, row.state).GetOr([]);
    var cityMap := Get(countyMap, row.county).GetOr([]);
    var newCities := Set(cityMap, "", Stat(row.count, row.avgSeverity));
    var newCounties := Set(countyMap, row.county, newCities);
    assert forall c :: c in countyMap ==> forall e :: e in c.1 ==> e.0 == "";
    assert forall e :: e in cityMap ==> e.0 == "";
    SetEntries(cityMap, "", Stat(row.count, row.avgSeverity));
    SetEntries(countyMap, row.county, newCities);
    SetEntries(m, row.state, newCounties);
  }

  lemma {:induction false} FileRowsCountyLevelOnly(rows: seq<TreemapRow>)
    ensures CountyLevelOnly(FileRows(rows, false))
  {
    if rows != [] {
      FileRowsCountyLevelOnly(rows[..|rows| - 1]);
      FileRowCountyLevelOnly(FileRows(rows[..|rows| - 1], false), rows[|rows| - 1]);
    }
  }

  // ---------------------------------------------------------------------------------------
  // Sorting children by value, largest first
  // ---------------------------------------------------------------------------------------

  predicate SortedDesc(s: seq<TreemapNode>) {
    forall i, j :: 0 <= i < j < |s| ==> s[i].value >= s[j].value
  }

  /** Inserts `x` after every node at least as large, so equal values keep their order. */
  function InsertDesc(x: TreemapNode, s: seq<TreemapNode>): (r: seq<TreemapNode>)
    ensures |r| == |s| + 1
  {
    if s == [] then [x] else if s[0].value >= x.value then [s[0]] + InsertDesc(x, s[1..]) else [x] + s
  }

  /** `nodes.sort((a, b) => b.value - a.value)`, a stable sort. */
  function SortDesc(s: seq<TreemapNode>): (r: seq<TreemapNode>)
    ensures |r| == |s|
  {
    if s == [] then [] else InsertDesc(s[|s| - 1], SortDesc(s[..|s| - 1]))
  }

  function ValueSum(s: seq<TreemapNode>): nat {
    if s == [] then 0 else s[0].value + ValueSum(s[1..])
  }

  lemma {:induction false} InsertDescMembers(x: TreemapNode, s: seq<TreemapNode>)
    ensures multiset(InsertDesc(x, s)) == multiset(s) + multiset{x}
  {
    if s != [] && s[0].value >= x.value {
      InsertDescMembers(x, s[1..]);
      assert s == [s[0]] + s[1..];
    }
  }

  lemma {:induction false} InsertDescSum(x: TreemapNode, s: seq<TreemapNode>)
    ensures ValueSum(InsertDesc(x, s)) == x.value + ValueSum(s)
  {
    if s != [] && s[0].value >= x.value {
      InsertDescSum(x, s[1..]);
    }
  }

  lemma {:induction false} InsertDescSorted(x: TreemapNode, s: seq<TreemapNode>)
    requires SortedDesc(s)
    ensures SortedDesc(InsertDesc(x, s))
  {
    if s != [] && s[0].value >= x.value {
      var r := InsertDesc(x, s[1..]);
      InsertDescSorted(x, s[1..]);
      InsertDescBounded(x, s[1..], s[0].value);
      assert InsertDesc(x, s) == [s[0]] + r;
    }
  }

  /** Inserting below a bound keeps every value below it. */
  lemma {:induction false} InsertDescBounded(x: TreemapNode, s: seq<TreemapNode>, bound: int)
    requires x.value <= bound && forall k :: 0 <= k < |s| ==> s[k].value <= bound
    ensures forall j :: 0 <= j < |InsertDesc(x, s)| ==> InsertDesc(x, s)[j].value <= bound
  {
    if s != [] && s[0].value >= x.value {
      InsertDescBounded(x, s[1..], bound);
      assert InsertDesc(x, s) == [s[0]] + InsertDesc(x, s[1..]);
    }
  }

  /** The sort orders by value, keeps every node, and keeps the sum of values. */
  lemma SortDescFacts(s: seq<TreemapNode>)
    ensures SortedDesc(SortDesc(s))
    ensures multiset(SortDesc(s)) == multiset(s)
    ensures ValueSum(SortDesc(s)) == ValueSum(s)
  {
    SortDescSorted(s);
    SortDescMembers(s);
    SortDescSum(s);
  }

  lemma {:induction false} SortDescSorted(s: seq<TreemapNode>)
    ensures SortedDesc(SortDesc(s))
  {
    if s != [] {
      var init := s[..|s| - 1];
      SortDescSorted(init);
      InsertDescSorted(s[|s| - 1], SortDesc(init));
    }
  }

  lemma {:induction false} SortDescMembers(s: seq<TreemapNode>)
    ensures multiset(SortDesc(s)) == multiset(s)
  {
    if s != [] {
      var init := s[..|s| - 1];
      var last := s[|s| - 1];
      SortDescMembers(init);
      InsertDescMembers(last, SortDesc(init));
      assert s == init + [last];
    }
  }

  lemma {:induction false} SortDescSum(s: seq<TreemapNode>)
    ensures ValueSum(SortDesc(s)) == ValueSum(s)
  {
    if s != [] {
      var init := s[..|s| - 1];
      var last := s[|s| - 1];
      SortDescSum(init);
      InsertDescSum(last, SortDesc(init));
      assert s == init + [last];
      ValueSumAppend(init, [last]);
    }
  }

  lemma {:induction false} ValueSumAppend(a: seq<TreemapNode>, b: seq<TreemapNode>)
    ensures ValueSum(a + b) == ValueSum(a) + ValueSum(b)
  {
    if a == [] {
      assert a + b == b;
    } else {
      assert (a + b)[1..] == a[1..] + b;
      ValueSumAppend(a[1..], b);
    }
  }

  /** Keeping the first children never sums to more than all of them. */
  lemma PrefixValueSum(s: seq<TreemapNode>, n: nat)
    ensures ValueSum(Prefix(s, n)) <= ValueSum(s)
  {
    if n < |s| {
      assert s == s[..n] + s[n..];
      ValueSumAppend(s[..n], s[n..]);
    }
  }

  // ---------------------------------------------------------------------------------------
  // Folding the maps into nodes
  // ---------------------------------------------------------------------------------------

  /** The running total of a county: every entry's count, the county's own "" entry included. */
  function CityTotal(cities: Entries<Stat>): nat {
    Weight(cities, StatCount)
  }

  function StatCount(s: Stat): nat { s.count }

  /** The running severity sum of a county: average times count, summed. */
  function CityMass(cities: Entries<Stat>): real {
    if cities == [] then 0.0
    else CityMass(cities[..|cities| - 1]) + cities[|cities| - 1].1.avgSeverity * cities[|cities| - 1].1.count as real
  }

  /** The named entries, as leaf nodes, in map order. */
  function CityLeaves(cities: Entries<Stat>): seq<TreemapNode> {
    if cities == [] then []
    else
      var last := cities[|cities| - 1];
      CityLeaves(cities[..|cities| - 1]) + (if last.0 != "" then [TreemapNode(last.0, last.1.count, last.1.avgSeverity, None)] else [])
  }

  /** `total > 0 ? sum / total : 0`. */
  function Mean(mass: real, total: nat): real {
    if total > 0 then mass / total as real else 0.0
  }

  function CountyNodeOf(name: string, cities: Entries<Stat>): TreemapNode {
    var leaves := CityLeaves(cities);
    TreemapNode(name, CityTotal(cities), Mean(CityMass(cities), CityTotal(cities)),
      if |leaves| > 0 then Some(Prefix(SortDesc(leaves), MaxCities)) else None)
  }

  /** The `forEach` over one county's cities: leaves, running total and running severity sum. */
  method BuildCountyNode(name: string, cities: Entries<Stat>) returns (node: TreemapNode, mass: real)
    ensures node == CountyNodeOf(name, cities)
    ensures mass == CityMass(cities)
  {
    var children: seq<TreemapNode> := [];
    var total: nat := 0;
    mass := 0.0;
    var i := 0;
    while i < |cities|
      invariant 0 <= i <= |cities|
      invariant children == CityLeaves(cities[..i])
      invariant total == CityTotal(cities[..i])
      invariant mass == CityMass(cities[..i])
    {
      CityStep(cities, i);
      var (cityName, data) := cities[i];
      if cityName != "" {
        children := children + [TreemapNode(cityName, data.count, data.avgSeverity, None)];
      }
      total := total + data.count;
      mass := mass + data.avgSeverity * data.count as real;
      i := i + 1;
    }
    assert cities[..|cities|] == cities;
    if |children| > 0 {
      children := SortDesc(children);
    }
    node := TreemapNode(name, total, Mean(mass, total),
      if |children| > 0 then Some(Prefix(children, MaxCities)) else None);
  }

  /** One more city of the `forEach`: its leaf, when named, its count and its severity mass. */
  lemma CityStep(cities: Entries<Stat>, i: nat)
    requires i < |cities|
    ensures var (c, data) := cities[i];
      && CityLeaves(cities[..i + 1]) == CityLeaves(cities[..i])
           + (if c != "" then [TreemapNode(c, data.count, data.avgSeverity, None)] else [])
      && CityTotal(cities[..i + 1]) == CityTotal(cities[..i]) + data.count
      && CityMass(cities[..i + 1]) == CityMass(cities[..i]) + data.avgSeverity * data.count as real
  {
    var done := cities[..i + 1];
    assert done[..i] == cities[..i] && done[i] == cities[i];
  }

  function CountyTotal(counties: Entries<Entries<Stat>>): nat {
    Weight(counties, CityTotal)
  }

  function CountyMass(counties: Entries<Entries<Stat>>): real {
    if counties == [] then 0.0 else CountyMass(counties[..|counties| - 1]) + CityMass(counties[|counties| - 1].1)
  }

  function CountyNodes(counties: Entries<Entries<Stat>>): seq<TreemapNode> {
    if counties == [] then []
    else CountyNodes(counties[..|counties| - 1]) + [CountyNodeOf(counties[|counties| - 1].0, counties[|counties| - 1].1)]
  }

  function StateNodeOf(name: string, counties: Entries<Entries<Stat>>): TreemapNode {
    TreemapNode(name, CountyTotal(counties), Mean(CountyMass(counties), CountyTotal(counties)),
      Some(Prefix(SortDesc(CountyNodes(counties)), MaxCounties)))
  }

  /** The `forEach` over one state's counties. */
  method BuildStateNode(name: string, counties: Entries<Entries<Stat>>) returns (node: TreemapNode)
    ensures node == StateNodeOf(name, counties)
  {
    var children: seq<TreemapNode> := [];
    var total: nat := 0;
    var mass := 0.0;
    var i := 0;
    while i < |counties|
      invariant 0 <= i <= |counties|
      invariant children == CountyNodes(counties[..i])
      invariant total == CountyTotal(counties[..i])
      invariant mass == CountyMass(counties[..i])
    {
      var prefix := counties[..i + 1];
      assert prefix[..i] == counties[..i] && prefix[i] == counties[i];
      var county, countyMass := BuildCountyNode(counties[i].0, counties[i].1);
      assert CountyNodes(prefix) == CountyNodes(counties[..i]) + [county];
      assert CountyTotal(prefix) == CountyTotal(counties[..i]) + county.value;
      assert CountyMass(prefix) == CountyMass(counties[..i]) + countyMass;
      children := children + [county];
      total := total + county.value;
      mass := mass + countyMass;
      i := i + 1;
    }
    assert counties[..|counties|] == counties;
    children := SortDesc(children);
    node := TreemapNode(name, total, Mean(mass, total), Some(Prefix(children, MaxCounties)));
  }

  function StateNodes(m: StateMap): seq<TreemapNode> {
    if m == [] then [] else StateNodes(m[..|m| - 1]) + [StateNodeOf(m[|m| - 1].0, m[|m| - 1].1)]
  }

  function StateTotal(m: StateMap): nat {
    Weight(m, CountyTotal)
  }

  /** The tree: "USA" over every state, sorted, with an average severity of 0. */
  function TreeOf(m: StateMap): TreemapData {
    TreemapData(TreemapNode("USA", StateTotal(m), 0.0, Some(SortDesc(StateNodes(m)))), StateTotal(m))
  }

  /** The `forEach` over the states and the final sort. */
  method BuildTree(m: StateMap) returns (data: TreemapData)
    ensures data == TreeOf(m)
  {
    var children: seq<TreemapNode> := [];
    var total: nat := 0;
    var i := 0;
    while i < |m|
      invariant 0 <= i <= |m|
      invariant children == StateNodes(m[..i])
      invariant total == StateTotal(m[..i])
    {
      assert m[..i + 1][..i] == m[..i];
      var (stateName, counties) := m[i];
      var state := BuildStateNode(stateName, counties);
      children := children + [state];
      total := total + state.value;
      i := i + 1;
    }
    assert m[..|m|] == m;
    children := SortDesc(children);
    data := TreemapData(TreemapNode("USA", total, 0.0, Some(children)), total);
  }

  // ---------------------------------------------------------------------------------------
  // What the tree promises
  // ---------------------------------------------------------------------------------------

  lemma {:induction false} CityLeavesSum(cities: Entries<Stat>)
    ensures ValueSum(CityLeaves(cities)) <= CityTotal(cities)
  {
    if cities != [] {
      var init := cities[..|cities| - 1];
      var last := cities[|cities| - 1];
      CityLeavesSum(init);
      var extra := if last.0 != "" then [TreemapNode(last.0, last.1.count, last.1.avgSeverity, None)] else [];
      ValueSumAppend(CityLeaves(init), extra);
    }
  }

  /** A mean times its total gives back the mass it was taken from. */
  lemma MeanTimesTotal(mass: real, total: nat)
    requires total > 0
    ensures Mean(mass, total) * total as real == mass
  {
  }

  /** A node that is not empty gives back `mass` as its average times its value. */
  predicate Weighs(n: TreemapNode, mass: real) {
    n.value > 0 ==> n.avgSeverity * n.value as real == mass
  }

  /** A node built from a total and a severity sum gives the sum back from its average. */
  lemma NodeMass(name: string, total: nat, mass: real, children: Option<seq<TreemapNode>>)
    ensures Weighs(TreemapNode(name, total, Mean(mass, total), children), mass)
  {
    if total > 0 {
      MeanTimesTotal(mass, total);
    }
  }

  /**
   * A county node's value is its running total, and its average times its value is the
   * county's severity sum.
   */
  lemma CountyNodeValue(name: string, cities: Entries<Stat>)
    ensures CountyNodeOf(name, cities).value == CityTotal(cities)
    ensures CountyNodeOf(name, cities).value > 0 ==>
      CountyNodeOf(name, cities).avgSeverity * CountyNodeOf(name, cities).value as real == CityMass(cities)
  {
    var leaves := CityLeaves(cities);
    NodeMass(name, CityTotal(cities), CityMass(cities),
      if |leaves| > 0 then Some(Prefix(SortDesc(leaves), MaxCities)) else None);
  }

  /**
   * A county node has city children exactly when some city is named; the kept cities are
   * sorted by value, at most 20, and sum to no more than the county's value.
   */
  lemma CountyNodeChildren(name: string, cities: Entries<Stat>)
    ensures CountyNodeOf(name, cities).children.None? <==> forall e :: e in cities ==> e.0 == ""
    ensures CountyNodeOf(name, cities).children.Some? ==>
      var kept := CountyNodeOf(name, cities).children.value;
      SortedDesc(kept) && |kept| <= MaxCities && ValueSum(kept) <= CityTotal(cities)
  {
    var leaves := CityLeaves(cities);
    SortDescFacts(leaves);
    PrefixValueSum(SortDesc(leaves), MaxCities);
    CityLeavesSum(cities);
    CityLeavesEmpty(cities);
    var kept := Prefix(SortDesc(leaves), MaxCities);
    assert SortedDesc(kept);
  }

  lemma {:induction false} CityLeavesEmpty(cities: Entries<Stat>)
    ensures CityLeaves(cities) == [] <==> forall e :: e in cities ==> e.0 == ""
  {
    if cities != [] {
      var init := cities[..|cities| - 1];
      CityLeavesEmpty(init);
      assert cities == init + [cities[|cities| - 1]];
    }
  }

  lemma {:induction false} CountyNodesSum(counties: Entries<Entries<Stat>>)
    ensures ValueSum(CountyNodes(counties)) == CountyTotal(counties)
  {
    if counties != [] {
      var init := counties[..|counties| - 1];
      CountyNodesSum(init);
      ValueSumAppend(CountyNodes(init), [CountyNodeOf(counties[|counties| - 1].0, counties[|counties| - 1].1)]);
    }
  }

  /**
   * A state node's value is the sum of all its county nodes' values, cut counties included,
   * and its average times its value is the state's severity sum.
   */
  lemma StateNodeValue(name: string, counties: Entries<Entries<Stat>>)
    ensures StateNodeOf(name, counties).value == ValueSum(CountyNodes(counties))
    ensures StateNodeOf(name, counties).value > 0 ==>
      StateNodeOf(name, counties).avgSeverity * StateNodeOf(name, counties).value as real == CountyMass(counties)
  {
    CountyNodesSum(counties);
    StateNodeMass(name, counties);
  }

  lemma StateNodeMass(name: string, counties: Entries<Entries<Stat>>)
    ensures Weighs(StateNodeOf(name, counties), CountyMass(counties))
  {
    NodeMass(name, CountyTotal(counties), CountyMass(counties), Some(Prefix(SortDesc(CountyNodes(counties)), MaxCounties)));
  }

  /** A state's kept counties are sorted by value, at most 30, and sum to no more than its value. */
  lemma StateNodeChildren(name: string, counties: Entries<Entries<Stat>>)
    ensures StateNodeOf(name, counties).children.Some?
    ensures var kept := StateNodeOf(name, counties).children.value;
      SortedDesc(kept) && |kept| <= MaxCounties && ValueSum(kept) <= StateNodeOf(name, counties).value
  {
    CountyNodesSum(counties);
    SortDescFacts(CountyNodes(counties));
    PrefixValueSum(SortDesc(CountyNodes(counties)), MaxCounties);
    var kept := Prefix(SortDesc(CountyNodes(counties)), MaxCounties);
    assert SortedDesc(kept);
  }

  lemma {:induction false} StateNodesSum(m: StateMap)
    ensures ValueSum(StateNodes(m)) == StateTotal(m)
  {
    if m != [] {
      var init := m[..|m| - 1];
      StateNodesSum(init);
      CountyNodesSum(m[|m| - 1].1);
      ValueSumAppend(StateNodes(init), [StateNodeOf(m[|m| - 1].0, m[|m| - 1].1)]);
    }
  }

  /**
   * The root: named "USA", average severity 0, value and total both the sum of the state
   * values, and every state present, sorted by value.
   */
  lemma TreeFacts(m: StateMap)
    ensures var t := TreeOf(m);
      && t.data.name == "USA" && t.data.avgSeverity == 0.0
      && t.data.value == t.totalAccidents == ValueSum(StateNodes(m))
      && t.data.children.Some? && SortedDesc(t.data.children.value)
      && multiset(t.data.children.value) == multiset(StateNodes(m))
  {
    StateNodesSum(m);
    SortDescFacts(StateNodes(m));
  }

  /** Without a state filter no county of the tree has city children. */
  lemma NoCitiesWithoutState(rows: seq<TreemapRow>, name: string, cities: Entries<Stat>)
    requires exists s :: s in FileRows(rows, false) && (name, cities) in s.1
    ensures CountyNodeOf(name, cities).children.None?
  {
    FileRowsCountyLevelOnly(rows);
    CityLeavesEmpty(cities);
  }

  // ---------------------------------------------------------------------------------------
  // Every matching accident is counted once
  // ---------------------------------------------------------------------------------------

  /** Where a row is filed: its state, its county and its city key. */
  type Place = (string, string, string)

  function PlaceOf(row: TreemapRow, groupByCity: bool): Place {
    (row.state, row.county, CityKey(row, groupByCity))
  }

  /** The city map of one state and county, empty when either is missing. */
  function CityMapAt(m: StateMap, state: string, county: string): Entries<Stat> {
    Get(Get(m, state).GetOr([]), county).GetOr([])
  }

  predicate Filed(m: StateMap, t: Place) {
    Get(CityMapAt(m, t.0, t.1), t.2).Some?
  }

  predicate DistinctPlaces(rows: seq<TreemapRow>, groupByCity: bool) {
    forall i, j :: 0 <= i < j < |rows| ==> PlaceOf(rows[i], groupByCity) != PlaceOf(rows[j], groupByCity)
  }

  function RowCount(rows: seq<TreemapRow>): nat {
    if rows == [] then 0 else RowCount(rows[..|rows| - 1]) + rows[|rows| - 1].count
  }

  /** Filing a row adds its place and no other. */
  lemma FileRowFiled(m: StateMap, row: TreemapRow, groupByCity: bool, t: Place)
    ensures Filed(FileRow(m, row, groupByCity), t) <==> Filed(m, t) || t == PlaceOf(row, groupByCity)
  {
    var countyMap := Get(m, row.state).GetOr([]);
    var cityMap := Get(countyMap, row.county).GetOr([]);
    var key := CityKey(row, groupByCity);
    var stat := Stat(row.count, row.avgSeverity);
    var newCities := Set(cityMap, key, stat);
    var newCounties := Set(countyMap, row.county, newCities);
    SetGet(m, row.state, newCounties, t.0);
    SetGet(countyMap, row.county, newCities, t.1);
    SetGet(cityMap, key, stat, t.2);
  }

  /** Filing a row at a new place adds its count to the running total of the whole map. */
  lemma FileRowTotal(m: StateMap, row: TreemapRow, groupByCity: bool)
    requires !Filed(m, PlaceOf(row, groupByCity))
    ensures StateTotal(FileRow(m, row, groupByCity)) == StateTotal(m) + row.count
  {
    var countyMap := Get(m, row.state).GetOr([]);
    var cityMap := Get(countyMap, row.county).GetOr([]);
    var key := CityKey(row, groupByCity);
    var stat := Stat(row.count, row.avgSeverity);
    var newCities := Set(cityMap, key, stat);
    var newCounties := Set(countyMap, row.county, newCities);
    SetWeight(cityMap, key, stat, StatCount);
    assert CityTotal(newCities) == CityTotal(cityMap) + row.count;
    SetWeight(countyMap, row.county, newCities, CityTotal);
    assert CityTotal([]) == 0;
    assert CountyTotal(newCounties) == CountyTotal(countyMap) + row.count;
    SetWeight(m, row.state, newCounties, CountyTotal);
    assert CountyTotal([]) == 0;
  }

  /** The places filed are exactly the places of the rows. */
  lemma {:induction false} FileRowsPlaces(rows: seq<TreemapRow>, groupByCity: bool, t: Place)
    ensures Filed(FileRows(rows, groupByCity), t) <==>
      exists i :: 0 <= i < |rows| && PlaceOf(rows[i], groupByCity) == t
  {
    if rows == [] {
      assert !Filed([], t);
    } else {
      var init := rows[..|rows| - 1];
      FileRowsPlaces(init, groupByCity, t);
      FileRowFiled(FileRows(init, groupByCity), rows[|rows| - 1], groupByCity, t);
      PlacesStep(rows, groupByCity, t);
    }
  }

  /** A place is among the rows' places iff it is among the earlier rows' or is the last row's. */
  lemma PlacesStep(rows: seq<TreemapRow>, groupByCity: bool, t: Place)
    requires rows != []
    ensures var init := rows[..|rows| - 1];
      (exists i :: 0 <= i < |rows| && PlaceOf(rows[i], groupByCity) == t) <==>
      (exists i :: 0 <= i < |init| && PlaceOf(init[i], groupByCity) == t)
      || PlaceOf(rows[|rows| - 1], groupByCity) == t
  {
    var init := rows[..|rows| - 1];
    if exists i :: 0 <= i < |init| && PlaceOf(init[i], groupByCity) == t {
      var i :| 0 <= i < |init| && PlaceOf(init[i], groupByCity) == t;
      assert rows[i] == init[i];
    }
    if exists i :: 0 <= i < |rows| && PlaceOf(rows[i], groupByCity) == t {
      var i :| 0 <= i < |rows| && PlaceOf(rows[i], groupByCity) == t;
      if i < |init| {
        assert init[i] == rows[i];
      }
    }
  }

  /** Rows at distinct places are filed without overwriting: the map's total sums their counts. */
  lemma {:induction false} FileRowsTotal(rows: seq<TreemapRow>, groupByCity: bool)
    requires DistinctPlaces(rows, groupByCity)
    ensures StateTotal(FileRows(rows, groupByCity)) == RowCount(rows)
  {
    if rows != [] {
      var init := rows[..|rows| - 1];
      var last := rows[|rows| - 1];
      var m := FileRows(init, groupByCity);
      assert DistinctPlaces(init, groupByCity);
      FileRowsTotal(init, groupByCity);
      assert !Filed(m, PlaceOf(last, groupByCity)) by {
        FileRowsPlaces(init, groupByCity, PlaceOf(last, groupByCity));
        forall i | 0 <= i < |init| ensures PlaceOf(init[i], groupByCity) != PlaceOf(last, groupByCity) {
          assert rows[i] == init[i];
        }
      }
      FileRowTotal(m, last, groupByCity);
    }
  }

  /** The rows' counts add up to the groups' counts. */
  lemma {:induction false} RowCountOfGroups(gs: seq<Group<Place>>)
    ensures RowCount(Map(gs, RowOf)) == Sum(Counts(gs))
  {
    if gs != [] {
      var init := gs[..|gs| - 1];
      var rows, counts := Map(gs, RowOf), Counts(gs);
      RowCountOfGroups(init);
      MapPrefix(gs, RowOf, |gs| - 1);
      CountsPrefix(gs, |gs| - 1);
      assert RowCount(rows) == RowCount(Map(init, RowOf)) + rows[|gs| - 1].count;
      assert Sum(counts) == Sum(Counts(init)) + counts[|gs| - 1];
      assert rows[|gs| - 1].count == counts[|gs| - 1];
    }
  }

  /** Grouped rows are filed at distinct places, with or without cities. */
  lemma GroupedPlacesDistinct(matching: seq<Accident>, groupByCity: bool)
    ensures DistinctPlaces(TreemapRows(matching, groupByCity), groupByCity)
  {
    var items := Map(matching, a => RowItem(groupByCity, a));
    var gs := GroupBy(items);
    var rows := TreemapRows(matching, groupByCity);
    GroupByDistinct(items);
    forall i | 0 <= i < |gs| ensures PlaceOf(rows[i], groupByCity) == gs[i].key {
      if !groupByCity {
        GroupKeyOccurs(items, i);
        var j :| 0 <= j < |items| && items[j].0 == gs[i].key;
        assert items[j] == RowItem(false, matching[j]);
      }
    }
  }

  /**
   * The tree counts every matching accident exactly once: the root's value and
   * `totalAccidents` are the number of accidents matching the filters.
   */
  lemma TreemapCountsEveryAccident(matching: seq<Accident>, groupByCity: bool)
    ensures var t := TreeOf(FileRows(TreemapRows(matching, groupByCity), groupByCity));
      t.totalAccidents == t.data.value == |matching|
  {
    var items := Map(matching, a => RowItem(groupByCity, a));
    GroupedPlacesDistinct(matching, groupByCity);
    FileRowsTotal(TreemapRows(matching, groupByCity), groupByCity);
    RowCountOfGroups(GroupBy(items));
    GroupByTotals(items);
  }

  // ---------------------------------------------------------------------------------------
  // The whole aggregate
  // ---------------------------------------------------------------------------------------

  /** The treemap's where clause: the state when one is given ("all" included), and the time filters. */
  predicate TreemapMatches(state: Option<string>, q: QueryParam, a: Accident) {
    (!Truthy(state) || a.state == state.value) && TimeMatches(q, a)
  }

  /** Cities are grouped exactly when a state is given. */
  function GroupsByCity(state: Option<string>): bool {
    Truthy(state)
  }

  function TreemapOf(table: seq<Accident>, state: Option<string>, q: QueryParam): TreemapData {
    var g := GroupsByCity(state);
    TreeOf(FileRows(TreemapRows(Filter(table, (a: Accident) => TreemapMatches(state, q, a)), g), g))
  }

  /** The query, the filing of its rows and the fold into the tree. */
  method BuildTreemap(table: seq<Accident>, state: Option<string>, q: QueryParam) returns (data: TreemapData)
    ensures data == TreemapOf(table, state, q)
    ensures data.totalAccidents == |Filter(table, (a: Accident) => TreemapMatches(state, q, a))|
  {
    var groupByCity := GroupsByCity(state);
    var matching := Filter(table, (a: Accident) => TreemapMatches(state, q, a));
    var stateMap := BuildStateMap(TreemapRows(matching, groupByCity), groupByCity);
    data := BuildTree(stateMap);
    TreemapCountsEveryAccident(matching, groupByCity);
  }
}

/**
 * The stacked-bar aggregate of dm-project-back/src/accident/accident.service.ts: for each
 * point-of-interest column, the accidents with and without it, bucketed by severity 1 to 4,
 * and the column's display name.
 */
module Poi {
  import opened Wrappers
  import opened Seqs
  import opened JsValues
  import opened Store
  import opened Grouping
  import opened QueryFilters

  /** The accidents of one side (with or without the point of interest), by severity. */
  datatype Buckets = Buckets(severity1: nat, severity2: nat, severity3: nat, severity4: nat, total: nat) {

    /** `target[`severity${k}`]`: the bucket of severity `k`; no other severity has one. */
    function Bucket(k: int): nat {
      if k == 1 then severity1 else if k == 2 then severity2 else if k == 3 then severity3
      else if k == 4 then severity4 else 0
    }
  }

  const NoAccidents := Buckets(0, 0, 0, 0, 0)

  /** One row of `GROUP BY severity, <column>`: the column's value and the group's `COUNT(*)`. */
  datatype PoiRow = PoiRow(severity: int, present: int, count: nat)

  datatype PoiCategory = PoiCategory(category: string, present: Buckets, absent: Buckets)

  datatype StackedBarData = StackedBarData(data: seq<PoiCategory>)

  /** The columns charted when no `poiType` is given. */
  const DefaultPoiFields: seq<string> := ["junction", "trafficSignal", "stop", "crossing", "bump"]

  /** The severities that have a bucket. */
  predicate KnownSeverity(k: int) {
    1 <= k <= 4
  }

  /** `Number(row.present) === 1`. */
  predicate IsPresent(row: PoiRow) {
    row.present == 1
  }

  /** `target[key] = count; target.total += count`: the bucket is assigned, the total accumulates. */
  function Record(b: Buckets, severity: int, count: nat): (r: Buckets)
    requires KnownSeverity(severity)
    ensures r.Bucket(severity) == count && r.total == b.total + count
    ensures forall k :: k != severity ==> r.Bucket(k) == b.Bucket(k)
  {
    if severity == 1 then b.(severity1 := count, total := b.total + count)
    else if severity == 2 then b.(severity2 := count, total := b.total + count)
    else if severity == 3 then b.(severity3 := count, total := b.total + count)
    else b.(severity4 := count, total := b.total + count)
  }

  /** One row's effect on one side: rows of the other side and unknown severities change nothing. */
  function Step(b: Buckets, row: PoiRow, present: bool): Buckets {
    if IsPresent(row) == present && KnownSeverity(row.severity) then Record(b, row.severity, row.count) else b
  }

  /** One side's buckets after the remaining `rows`, starting from `b`. */
  function TallyFrom(b: Buckets, rows: seq<PoiRow>, present: bool): Buckets
    decreases |rows|
  {
    if rows == [] then b else TallyFrom(Step(b, rows[0], present), rows[1..], present)
  }

  /** The `forEach` that fills `present` and `absent`. */
  method Tally(rows: seq<PoiRow>) returns (present: Buckets, absent: Buckets)
    ensures present == TallyFrom(NoAccidents, rows, true)
    ensures absent == TallyFrom(NoAccidents, rows, false)
  {
    present := NoAccidents;
    absent := NoAccidents;
    var i := 0;
    assert rows[0..] == rows;
    while i < |rows|
      invariant 0 <= i <= |rows|
      invariant TallyFrom(present, rows[i..], true) == TallyFrom(NoAccidents, rows, true)
      invariant TallyFrom(absent, rows[i..], false) == TallyFrom(NoAccidents, rows, false)
    {
      var row := rows[i];
      assert rows[i..][1..] == rows[i + 1..];
      if KnownSeverity(row.severity) {
        if IsPresent(row) {
          present := Record(present, row.severity, row.count);
        } else {
          absent := Record(absent, row.severity, row.count);
        }
      }
      i := i + 1;
    }
  }

  // ---------------------------------------------------------------------------------------
  // What the buckets hold
  // ---------------------------------------------------------------------------------------

  predicate AtSlot(row: PoiRow, k: int, present: bool) {
    row.severity == k && IsPresent(row) == present
  }

  /** The counts of the rows of severity `k` on one side. */
  function RowsCount(rows: seq<PoiRow>, k: int, present: bool): nat {
    if rows == [] then 0 else (if AtSlot(rows[0], k, present) then rows[0].count else 0) + RowsCount(rows[1..], k, present)
  }

  predicate HasSlot(rows: seq<PoiRow>, k: int, present: bool) {
    exists i :: 0 <= i < |rows| && AtSlot(rows[i], k, present)
  }

  /** No two rows share a severity and a side, as the rows of one `GROUP BY` never do. */
  predicate DistinctSlots(rows: seq<PoiRow>) {
    forall i, j :: 0 <= i < j < |rows| ==>
      rows[i].severity != rows[j].severity || IsPresent(rows[i]) != IsPresent(rows[j])
  }

  lemma {:induction false} NoSlotNoCount(rows: seq<PoiRow>, k: int, present: bool)
    requires !HasSlot(rows, k, present)
    ensures RowsCount(rows, k, present) == 0
  {
    if rows != [] {
      assert !AtSlot(rows[0], k, present);
      assert !HasSlot(rows[1..], k, present) by {
        forall i | 0 <= i < |rows[1..]| ensures !AtSlot(rows[1..][i], k, present) {
          assert rows[1..][i] == rows[i + 1];
        }
      }
      NoSlotNoCount(rows[1..], k, present);
    }
  }

  /**
   * With distinct slots each bucket ends up holding the count of its one row, or keeps its
   * starting value when no row has that severity on that side.
   */
  lemma {:induction false} TallyBucket(b: Buckets, rows: seq<PoiRow>, present: bool, k: int)
    requires DistinctSlots(rows) && KnownSeverity(k)
    ensures TallyFrom(b, rows, present).Bucket(k) ==
      if HasSlot(rows, k, present) then RowsCount(rows, k, present) else b.Bucket(k)
    decreases |rows|
  {
    if rows != [] {
      var rest := rows[1..];
      assert DistinctSlots(rest) by {
        forall i, j | 0 <= i < j < |rest| ensures rest[i].severity != rest[j].severity || IsPresent(rest[i]) != IsPresent(rest[j]) {
          assert rest[i] == rows[i + 1] && rest[j] == rows[j + 1];
        }
      }
      var b' := Step(b, rows[0], present);
      TallyBucket(b', rest, present, k);
      if AtSlot(rows[0], k, present) {
        assert !HasSlot(rest, k, present) by {
          forall i | 0 <= i < |rest| ensures !AtSlot(rest[i], k, present) {
            assert rest[i] == rows[i + 1];
          }
        }
        NoSlotNoCount(rest, k, present);
      } else {
        assert HasSlot(rows, k, present) <==> HasSlot(rest, k, present) by {
          if HasSlot(rows, k, present) {
            var i :| 0 <= i < |rows| && AtSlot(rows[i], k, present);
            assert rest[i - 1] == rows[i];
          }
          if HasSlot(rest, k, present) {
            var i :| 0 <= i < |rest| && AtSlot(rest[i], k, present);
            assert rows[i + 1] == rest[i];
          }
        }
      }
    }
  }

  /** Each side's total adds up the counts of all its rows of a known severity. */
  lemma {:induction false} TallyTotal(b: Buckets, rows: seq<PoiRow>, present: bool)
    ensures TallyFrom(b, rows, present).total == b.total
      + RowsCount(rows, 1, present) + RowsCount(rows, 2, present)
      + RowsCount(rows, 3, present) + RowsCount(rows, 4, present)
    decreases |rows|
  {
    if rows != [] {
      TallyTotal(Step(b, rows[0], present), rows[1..], present);
    }
  }

  /**
   * The buckets of a side hold the counts of its rows, severity by severity, and with
   * distinct slots its total is the sum of its four buckets.
   */
  lemma TallyMeaning(rows: seq<PoiRow>, present: bool, k: int)
    requires DistinctSlots(rows) && KnownSeverity(k)
    ensures TallyFrom(NoAccidents, rows, present).Bucket(k) == RowsCount(rows, k, present)
    ensures var t := TallyFrom(NoAccidents, rows, present);
      t.total == t.severity1 + t.severity2 + t.severity3 + t.severity4
  {
    TallyBucket(NoAccidents, rows, present, k);
    if !HasSlot(rows, k, present) {
      NoSlotNoCount(rows, k, present);
    }
    TallyTotal(NoAccidents, rows, present);
    TallyBucket(NoAccidents, rows, present, 1);
    TallyBucket(NoAccidents, rows, present, 2);
    TallyBucket(NoAccidents, rows, present, 3);
    TallyBucket(NoAccidents, rows, present, 4);
    forall j | 1 <= j <= 4 && !HasSlot(rows, j, present) ensures RowsCount(rows, j, present) == 0 {
      NoSlotNoCount(rows, j, present);
    }
  }

  // ---------------------------------------------------------------------------------------
  // The grouped rows of the store
  // ---------------------------------------------------------------------------------------

  /** The item an accident adds to `GROUP BY severity, <column>`; booleans read back as 1 and 0. */
  function PoiItem(flag: PoiFlag): Accident -> ((int, int), int) {
    (a: Accident) => ((a.severity, if flag.Of(a) then 1 else 0), 0)
  }

  function PoiRowOf(g: Group<(int, int)>): PoiRow {
    PoiRow(g.key.0, g.key.1, g.count)
  }

  function PoiRows(matching: seq<Accident>, flag: PoiFlag): seq<PoiRow> {
    Map(GroupBy(Map(matching, PoiItem(flag))), PoiRowOf)
  }

  function SlotKey(k: int, present: bool): ((int, int)) -> bool {
    (key: (int, int)) => key.0 == k && (key.1 == 1) == present
  }

  /** The accidents of severity `k` that have (or lack) the point of interest. */
  function WithSlot(flag: PoiFlag, k: int, present: bool): Accident -> bool {
    (a: Accident) => a.severity == k && flag.Of(a) == present
  }

  lemma {:induction false} RowsCountOfGroups(gs: seq<Group<(int, int)>>, k: int, present: bool)
    ensures RowsCount(Map(gs, PoiRowOf), k, present) == CountWhere(gs, SlotKey(k, present))
  {
    if gs != [] {
      assert Map(gs, PoiRowOf)[1..] == Map(gs[1..], PoiRowOf);
      RowsCountOfGroups(gs[1..], k, present);
    }
  }

  /** The rows count, for each severity and side, the accidents with that severity and side. */
  lemma PoiRowsCount(matching: seq<Accident>, flag: PoiFlag, k: int, present: bool)
    ensures RowsCount(PoiRows(matching, flag), k, present) == |Filter(matching, WithSlot(flag, k, present))|
  {
    var items := Map(matching, PoiItem(flag));
    RowsCountOfGroups(GroupBy(items), k, present);
    GroupByCountWhere(items, SlotKey(k, present));
    FilterMapLength(matching, PoiItem(flag), KeyWhere(SlotKey(k, present)), WithSlot(flag, k, present));
  }

  /** The grouped rows never share a severity and a side. */
  lemma PoiRowsDistinct(matching: seq<Accident>, flag: PoiFlag)
    ensures DistinctSlots(PoiRows(matching, flag))
  {
    var items := Map(matching, PoiItem(flag));
    var gs := GroupBy(items);
    var rows := PoiRows(matching, flag);
    GroupByDistinct(items);
    forall i | 0 <= i < |gs| ensures gs[i].key.1 == 0 || gs[i].key.1 == 1 {
      GroupKeyOccurs(items, i);
    }
    forall i, j | 0 <= i < j < |rows|
      ensures rows[i].severity != rows[j].severity || IsPresent(rows[i]) != IsPresent(rows[j])
    {
      assert gs[i].key != gs[j].key;
    }
  }

  // ---------------------------------------------------------------------------------------
  // Display names
  // ---------------------------------------------------------------------------------------

  predicate IsUpper(c: char) { 'A' <= c <= 'Z' }
  predicate IsLower(c: char) { 'a' <= c <= 'z' }

  function ToUpper(c: char): char {
    if IsLower(c) then (c as int - 32) as char else c
  }

  function ToLower(c: char): char {
    if IsUpper(c) then (c as int + 32) as char else c
  }

  /** `.replace(/([A-Z])/g, ' $1')`: a space before every capital letter. */
  function SpaceCapitals(s: string): (r: string)
    ensures |r| >= |s|
  {
    if s == [] then [] else SpacedHead(s[0]) + SpaceCapitals(s[1..])
  }

  /** The characters `.` does not match. */
  predicate IsLineTerminator(c: char) {
    c == '\n' || c == '\r' || c == '\U{2028}' || c == '\U{2029}'
  }

  /** `.replace(/^./, (str) => str.toUpperCase())`. */
  function UpperFirst(s: string): string {
    if s != [] && !IsLineTerminator(s[0]) then [ToUpper(s[0])] + s[1..] else s
  }

  /** The category name of a column, "trafficSignal" becoming "Traffic Signal". */
  function Label(field: string): string {
    TrimEnd(TrimStart(UpperFirst(SpaceCapitals(field))))
  }

  /** A column name in camel case: a lower-case letter, then letters only. */
  predicate CamelCase(field: string) {
    |field| > 0 && IsLower(field[0]) && Letters(field)
  }

  function RemoveSpaces(s: string): (r: string)
    ensures |r| <= |s|
  {
    if s == [] then [] else (if s[0] == ' ' then [] else [s[0]]) + RemoveSpaces(s[1..])
  }

  function LowerFirst(s: string): string {
    if s == [] then s else [ToLower(s[0])] + s[1..]
  }

  /** The column a display name was made from, for camel-case names. */
  function Unlabel(name: string): string {
    LowerFirst(RemoveSpaces(name))
  }

  predicate Letters(s: string) {
    forall i :: 0 <= i < |s| ==> IsLower(s[i]) || IsUpper(s[i])
  }

  lemma LettersTail(s: string)
    requires s != [] && Letters(s)
    ensures Letters(s[1..])
  {
    forall i | 0 <= i < |s[1..]| ensures IsLower(s[1..][i]) || IsUpper(s[1..][i]) {
      assert s[1..][i] == s[i + 1];
    }
  }

  /** Spacing out the capitals of a word of letters only adds spaces. */
  lemma {:induction false} SpaceCapitalsUnspaced(s: string)
    requires Letters(s)
    ensures RemoveSpaces(SpaceCapitals(s)) == s
  {
    if s != [] {
      LettersTail(s);
      SpaceCapitalsUnspaced(s[1..]);
      RemoveSpacesAppend(SpacedHead(s[0]), SpaceCapitals(s[1..]));
      assert s == [s[0]] + s[1..];
    }
  }

  /** Spacing out the capitals of a word keeps its last letter last. */
  lemma {:induction false} SpaceCapitalsLast(s: string)
    requires s != []
    ensures |SpaceCapitals(s)| > 0 && SpaceCapitals(s)[|SpaceCapitals(s)| - 1] == s[|s| - 1]
  {
    if |s| == 1 {
      assert SpaceCapitals(s) == SpacedHead(s[0]) + [] by { assert s[1..] == []; }
    } else {
      SpaceCapitalsLast(s[1..]);
      assert s[1..][|s[1..]| - 1] == s[|s| - 1];
    }
  }

  /** What `SpaceCapitals` writes for one character. */
  function SpacedHead(c: char): (r: string)
    ensures |r| > 0 && r[|r| - 1] == c
    ensures RemoveSpaces(r) == if c == ' ' then [] else [c]
  {
    if IsUpper(c) then
      assert [' ', c][1..] == [c] && [c][1..] == [];
      [' ', c]
    else
      assert [c][1..] == [];
      [c]
  }

  lemma {:induction false} RemoveSpacesAppend(a: string, b: string)
    ensures RemoveSpaces(a + b) == RemoveSpaces(a) + RemoveSpaces(b)
  {
    if a == [] {
      assert a + b == b;
    } else {
      assert (a + b)[1..] == a[1..] + b;
      RemoveSpacesAppend(a[1..], b);
    }
  }

  /**
   * A camel-case column's display name is its first letter capitalised, with a space before
   * every other capital.
   */
  lemma LabelOfCamelCase(field: string)
    requires CamelCase(field)
    ensures Label(field) == [ToUpper(field[0])] + SpaceCapitals(field[1..])
  {
    var upper := [ToUpper(field[0])] + SpaceCapitals(field[1..]);
    assert SpacedHead(field[0]) == [field[0]];
    assert UpperFirst(SpaceCapitals(field)) == upper;
    assert IsUpper(upper[0]);
    NoTrim(upper, LastOfUpper(field));
  }

  /** The last character of the capitalised, spaced-out name is a letter. */
  function LastOfUpper(field: string): (c: char)
    requires CamelCase(field)
    ensures var upper := [ToUpper(field[0])] + SpaceCapitals(field[1..]);
      c == upper[|upper| - 1] && (IsLower(c) || IsUpper(c))
  {
    if |field| > 1 then
      SpaceCapitalsLast(field[1..]);
      assert field[1..][|field[1..]| - 1] == field[|field| - 1];
      field[|field| - 1]
    else
      assert field[1..] == [];
      ToUpper(field[0])
  }

  /** A string that starts with a capital and ends with a letter is its own trim. */
  lemma NoTrim(s: string, last: char)
    requires |s| > 0 && IsUpper(s[0]) && s[|s| - 1] == last && (IsLower(last) || IsUpper(last))
    ensures TrimEnd(TrimStart(s)) == s
  {
  }

  /** Removing the spaces and lowering the first letter gives a camel-case column back. */
  lemma UnlabelLabel(field: string)
    requires CamelCase(field)
    ensures Unlabel(Label(field)) == field
  {
    var head := ToUpper(field[0]);
    LabelOfCamelCase(field);
    LettersTail(field);
    SpaceCapitalsUnspaced(field[1..]);
    RemoveSpacesAppend([head], SpaceCapitals(field[1..]));
    assert RemoveSpaces([head]) == [head] by { assert [head][1..] == []; }
    CaseRoundTrip(field[0]);
    LowerHead(head, field[1..]);
    assert field == [field[0]] + field[1..];
  }

  lemma CaseRoundTrip(c: char)
    requires IsLower(c)
    ensures IsUpper(ToUpper(c)) && ToLower(ToUpper(c)) == c
  {
  }

  lemma LowerHead(c: char, rest: string)
    ensures LowerFirst([c] + rest) == [ToLower(c)] + rest
  {
    assert ([c] + rest)[1..] == rest;
  }

  // ---------------------------------------------------------------------------------------
  // The whole aggregate
  // ---------------------------------------------------------------------------------------

  /** `poiType ? [poiType] : poiFields`. */
  function TargetFields(poiType: Option<string>): (fs: seq<string>)
    ensures |fs| >= 1
    ensures Truthy(poiType) ==> fs == [poiType.value]
    ensures !Truthy(poiType) ==> fs == DefaultPoiFields
  {
    if Truthy(poiType) then [poiType.value] else DefaultPoiFields
  }

  /** The columns the names name, or nothing when one of them is no point-of-interest column. */
  function FlagsNamed(fields: seq<string>): (r: Option<seq<PoiFlag>>)
    ensures r.Some? <==> forall i :: 0 <= i < |fields| ==> FlagNamed(fields[i]).Some?
    ensures r.Some? ==> |r.value| == |fields| && forall i :: 0 <= i < |fields| ==> r.value[i].Name() == fields[i]
  {
    if fields == [] then Some([])
    else
      match FlagNamed(fields[0])
      case None => None
      case Some(flag) =>
        match FlagsNamed(fields[1..])
        case None =>
          assert exists i :: 0 <= i < |fields[1..]| && FlagNamed(fields[1..][i]).None?;
          None
        case Some(rest) => Some([flag] + rest)
  }

  function CategoryOf(flag: PoiFlag, matching: seq<Accident>): PoiCategory {
    var rows := PoiRows(matching, flag);
    PoiCategory(Label(flag.Name()), TallyFrom(NoAccidents, rows, true), TallyFrom(NoAccidents, rows, false))
  }

  /** `targetFields.map(...)`: one category per column, in order. */
  function Categories(flags: seq<PoiFlag>, matching: seq<Accident>): (cs: seq<PoiCategory>)
    ensures |cs| == |flags|
  {
    if flags == [] then [] else Categories(flags[..|flags| - 1], matching) + [CategoryOf(flags[|flags| - 1], matching)]
  }

  lemma CategoriesStep(flags: seq<PoiFlag>, matching: seq<Accident>, i: nat)
    requires i < |flags|
    ensures Categories(flags[..i + 1], matching) == Categories(flags[..i], matching) + [CategoryOf(flags[i], matching)]
  {
    var done := flags[..i + 1];
    assert done[..i] == flags[..i] && done[i] == flags[i];
  }

  lemma {:induction false} CategoriesAt(flags: seq<PoiFlag>, matching: seq<Accident>, i: nat)
    requires i < |flags|
    ensures Categories(flags, matching)[i] == CategoryOf(flags[i], matching)
  {
    if i < |flags| - 1 {
      CategoriesAt(flags[..|flags| - 1], matching, i);
    }
  }

  /** The accidents inside the request's time window. */
  function InWindow(q: QueryParam): Accident -> bool {
    (a: Accident) => TimeMatches(q, a)
  }

  function StackedBarOf(table: seq<Accident>, poiType: Option<string>, q: QueryParam): Option<StackedBarData> {
    if !TimeFiltersUsable(q) then None
    else
      match FlagsNamed(TargetFields(poiType))
      case None => None
      case Some(flags) =>
        var matching := Filter(table, InWindow(q));
        Some(StackedBarData(Categories(flags, matching)))
  }

  /** One query per target column, each tallied into its category. */
  method BuildStackedBar(table: seq<Accident>, poiType: Option<string>, q: QueryParam) returns (r: Option<StackedBarData>)
    ensures r == StackedBarOf(table, poiType, q)
  {
    if !TimeFiltersUsable(q) {
      return None;
    }
    var flags := FlagsNamed(TargetFields(poiType));
    if flags.None? {
      return None;
    }
    var matching := Filter(table, InWindow(q));
    var data: seq<PoiCategory> := [];
    var i := 0;
    while i < |flags.value|
      invariant 0 <= i <= |flags.value|
      invariant data == Categories(flags.value[..i], matching)
    {
      var flag := flags.value[i];
      var present, absent := Tally(PoiRows(matching, flag));
      CategoriesStep(flags.value, matching, i);
      data := data + [PoiCategory(Label(flag.Name()), present, absent)];
      i := i + 1;
    }
    assert flags.value[..|flags.value|] == flags.value;
    r := Some(StackedBarData(data));
  }

  /**
   * Each category is named after its column and holds, for each severity 1 to 4, the number
   * of matching accidents with the point of interest and the number without it; each side's
   * total is the sum of its four buckets.
   */
  lemma StackedBarMeaning(table: seq<Accident>, poiType: Option<string>, q: QueryParam, i: nat, k: int)
    requires StackedBarOf(table, poiType, q).Some?
    requires i < |TargetFields(poiType)| && KnownSeverity(k)
    ensures var data := StackedBarOf(table, poiType, q).value.data;
      var flag := FlagNamed(TargetFields(poiType)[i]).value;
      var matching := Filter(table, InWindow(q));
      && |data| == |TargetFields(poiType)|
      && data[i].category == Label(TargetFields(poiType)[i])
      && data[i].present.Bucket(k) == |Filter(matching, WithSlot(flag, k, true))|
      && data[i].absent.Bucket(k) == |Filter(matching, WithSlot(flag, k, false))|
      && data[i].present.total == data[i].present.severity1 + data[i].present.severity2
                                  + data[i].present.severity3 + data[i].present.severity4
      && data[i].absent.total == data[i].absent.severity1 + data[i].absent.severity2
                                 + data[i].absent.severity3 + data[i].absent.severity4
  {
    var fields := TargetFields(poiType);
    var flags := FlagsNamed(fields).value;
    var matching := Filter(table, InWindow(q));
    assert StackedBarOf(table, poiType, q).value.data == Categories(flags, matching);
    NamedByName(flags[i]);
    CategoriesAt(flags, matching, i);
    CategoryMeaning(flags[i], matching, k);
  }

  /** Each column is the one its name names. */
  lemma NamedByName(flag: PoiFlag)
    ensures FlagNamed(flag.Name()) == Some(flag)
  {
  }

  /** One column's category: its two sides count the matching accidents with and without it. */
  lemma CategoryMeaning(flag: PoiFlag, matching: seq<Accident>, k: int)
    requires KnownSeverity(k)
    ensures var c := CategoryOf(flag, matching);
      && c.category == Label(flag.Name())
      && c.present.Bucket(k) == |Filter(matching, WithSlot(flag, k, true))|
      && c.absent.Bucket(k) == |Filter(matching, WithSlot(flag, k, false))|
      && c.present.total == c.present.severity1 + c.present.severity2 + c.present.severity3 + c.present.severity4
      && c.absent.total == c.absent.severity1 + c.absent.severity2 + c.absent.severity3 + c.absent.severity4
  {
    var rows := PoiRows(matching, flag);
    PoiRowsDistinct(matching, flag);
    TallyMeaning(rows, true, k);
    TallyMeaning(rows, false, k);
    PoiRowsCount(matching, flag, k, true);
    PoiRowsCount(matching, flag, k, false);
  }

  /** A `poiType` that names no point-of-interest column fails the whole request. */
  lemma UnknownPoiTypeFails(table: seq<Accident>, poiType: Option<string>, q: QueryParam)
    requires Truthy(poiType) && FlagNamed(poiType.value).None?
    ensures StackedBarOf(table, poiType, q).None?
  {
  }

  /** Without a `poiType` the five default columns are charted, in their order. */
  lemma DefaultFieldsCharted(table: seq<Accident>, poiType: Option<string>, q: QueryParam)
    requires !Truthy(poiType) && TimeFiltersUsable(q)
    ensures StackedBarOf(table, poiType, q).Some?
    ensures |StackedBarOf(table, poiType, q).value.data| == 5
  {
    assert FlagNamed(DefaultPoiFields[0]).Some?;
    assert FlagNamed(DefaultPoiFields[1]).Some?;
    assert FlagNamed(DefaultPoiFields[2]).Some?;
    assert FlagNamed(DefaultPoiFields[3]).Some?;
    assert FlagNamed(DefaultPoiFields[4]).Some?;
  }
}

# US accidents dashboard: a Dafny model of its core

The dashboard serves a table of US road accidents through a NestJS service and charts it in a
React client. The model covers both ends of that path.

On the service side (`dm-project-back`) it models:

- the accident listing, with cursor pagination and the pagination metadata;
- the five dashboard aggregates:
  - the temporal heatmap;
  - the hexbin map;
  - the parallel-coordinates sample;
  - the regional treemap;
  - the point-of-interest stacked bars;
- the in-memory cache of time-limited entries that sits in front of them;
- the request helpers of `lib/functions.ts`.

Each SQL query is modelled by what it means for the rows of an immutable table: a predicate
per `where` clause, and relational grouping for `GROUP BY`. `AccidentService` is a class whose
only mutable state is its cache. Each of its methods promises the answer the table itself
gives, whether that answer was cached or freshly computed.

On the client side (`dm-project-front`) it models:

- the shared helpers: query strings, image URLs, the cache-invalidation predicate, and the
  error and success toasts;
- how requests for accidents are built and how the next page is chosen;
- the accidents table;
- the state and logic of four charts: the heatmap grid and colours, the treemap drill-down,
  the stacked-bar percentages and insights, and the parallel-coordinates brushes;
- the keyboard and drop handling of the file uploader.

Cross-layer lemmas connect the two ends:

- following the cursors the client sends visits every matching accident once, newest id first,
  provided no id is "" or "1" (`PagingProtocol`; see Findings for those two ids);
- every slot of the heatmap grid shows the number of matching accidents at that hour and day;
- the stacked-bar headline counts the matching accidents of a known severity.

Code that changes state step by step has imperative models. These are the service's cache,
the drill path, the brushes and the uploader's fields (classes), and the loops that build the
treemap, the stacked bars and the heatmap matrix (methods). Each such method is proved against
a function, and the properties are proved about that function. The sampling step has no loop;
its method states the sample's size, membership and distinctness directly.

## Model

| member | source | states |
|---|---|---|
| BackendFunctions.BuildPagination | DMWEBAPP/dm-project-back/lib/functions.ts:12-31 | page is clamped to at least 0 and limit to at least 1 (100 when absent or 0); `totalPage` is the ceiling of total/limit; `next` holds iff the page is before the last one |
| BackendFunctions.EmptyHasNoPages | DMWEBAPP/dm-project-back/lib/functions.ts:20-22 | an empty result has 0 pages and no next page, whatever page and limit were asked for |
| BackendFunctions.ExtractPagination | DMWEBAPP/dm-project-back/lib/functions.ts:59-70 | an absent page defaults to 1 and an absent limit to 10; a present one is `Number(...)` of its text; the cursor passes through |
| BackendFunctions.ExtractPaginationOfPrinted | DMWEBAPP/dm-project-back/lib/functions.ts:65-67 | a page and limit sent as decimal text arrive as those numbers |
| BackendFunctions.ExtractQueries | DMWEBAPP/dm-project-back/lib/functions.ts:72-82 | keeps exactly the entries that are not `page` or `limit` and have a value |
| BackendFunctions.ExtractQueriesDistinct | DMWEBAPP/dm-project-back/lib/functions.ts:72-82 | the extracted filters have distinct keys when the query had |
| BackendFunctions.ChangeDataStateUpdate | DMWEBAPP/dm-project-back/lib/functions.ts:38-57 | only `soft_delete` and `restore` produce an update; `deleted` holds iff soft-deleting, and the deletion time is set iff deleted, to the current time; any other state is rejected with "Invalid state: " and the state |
| JsValues.ParseIntOfIntToString | DMWEBAPP/dm-project-back/src/accident/accident.service.ts:156-161 | `parseInt` reads back any integer printed in decimal |
| JsValues.ToNumberOfIntToString | DMWEBAPP/dm-project-back/lib/functions.ts:65-67 | `Number` reads back any integer printed in decimal |
| Listing.SafeLimit | DMWEBAPP/dm-project-back/src/accident/accident.service.ts:133 | the page size is at most 200; a missing, zero or NaN limit gives 50, any other the smaller of it and 200 |
| Listing.ListPage | DMWEBAPP/dm-project-back/src/accident/accident.service.ts:207-213 | the page's metadata is `buildPagination` of the total, the page and the safe limit |
| Listing.ListPageShape | DMWEBAPP/dm-project-back/src/accident/accident.service.ts:175-205 | the page holds the first `safeLimit` matching rows in descending id order; `hasMore` holds iff more rows match; the next cursor is present iff `hasMore`, and is then the id of the page's last row |
| Listing.PageSelectsNoRows | DMWEBAPP/dm-project-back/src/accident/accident.service.ts:131-205 | the `page` parameter changes no row, `hasMore` or cursor of the answer; only the cursor moves through the rows |
| Listing.NegativeLimitGivesEmptyPage | DMWEBAPP/dm-project-back/src/accident/accident.service.ts:133-205 | a negative limit survives the cap: the page comes back empty, with `hasMore` set and no cursor |
| Listing.PageRowsDescend | DMWEBAPP/dm-project-back/src/accident/accident.service.ts:175-178 | a page's rows strictly descend by id, and each is a table row the `where` admits |
| TtlCache.Lookup | DMWEBAPP/dm-project-back/src/accident/accident.service.ts:112-120 | a read hits iff the key is present and its entry is no older than its time to live, and then returns the stored data |
| TtlCache.AfterLookup | DMWEBAPP/dm-project-back/src/accident/accident.service.ts:112-120 | a read removes the key it finds expired and changes nothing else |
| TtlCache.Put | DMWEBAPP/dm-project-back/src/accident/accident.service.ts:122-124 | a write stores (data, now, ttl) under the key and leaves every other key as it was |
| TtlCache.LookupPut | DMWEBAPP/dm-project-back/src/accident/accident.service.ts:112-124 | a value just written reads back until `ttl` has passed since it was stored, and not after; every other key reads as before |
| TtlCache.LookupAfterLookup | DMWEBAPP/dm-project-back/src/accident/accident.service.ts:112-120 | eviction never changes what a read at the same moment returns |
| TtlCache.EvictionIsMiss | DMWEBAPP/dm-project-back/src/accident/accident.service.ts:114-117 | a present key is evicted exactly when the read misses |
| TtlCache.MissStaysMiss | DMWEBAPP/dm-project-back/src/accident/accident.service.ts:112-124 | a key that misses at some time keeps missing at every later time, through any reads of any keys and any writes of other keys |
| QueryFilters.SeverityFilter | DMWEBAPP/dm-project-back/src/accident/accident.service.ts:156-161 | severity filters only when it is given, parses, and lies in 1..4, and then filters on the parsed value |
| QueryFilters.BuildListWhere | DMWEBAPP/dm-project-back/src/accident/accident.service.ts:137-166 | search, state, city and cursor each filter iff given (state and city not "all"), with the given value; severity as above |
| QueryFilters.StateAllIsNoFilter | DMWEBAPP/dm-project-back/src/accident/accident.service.ts:146-148 | state "all" builds the same `where` as no state |
| QueryFilters.SeverityOutOfRangeIgnored | DMWEBAPP/dm-project-back/src/accident/accident.service.ts:156-161 | a severity that does not parse or lies outside 1..4 admits the same rows as no severity |
| QueryFilters.CursorNarrows | DMWEBAPP/dm-project-back/src/accident/accident.service.ts:164-166 | a cursor only removes rows: the ones whose id is not below it |
| QueryFilters.BuildTimeFrameWhereClause | DMWEBAPP/dm-project-back/src/accident/accident.service.ts:217-256 | a row satisfies every condition of the clause iff it matches the state, city and time filters; the clause has at most 6 conditions |
| QueryFilters.TimeFrameClauseMeaning | DMWEBAPP/dm-project-back/src/accident/accident.service.ts:217-256 | the conditions the six `if`s add hold of a row iff it matches the city (as a substring), the state and the time filters; at most one condition per filter |
| QueryFilters.DayAndNightPartitionHours | DMWEBAPP/dm-project-back/src/accident/accident.service.ts:247-253 | every hour of the day is in exactly one of "day" and "night" |
| QueryFilters.OtherTimeOfDayIgnored | DMWEBAPP/dm-project-back/src/accident/accident.service.ts:247-253 | any other time of day filters nothing |
| QueryFilters.StateAllIsLiteralInTimeFrame | DMWEBAPP/dm-project-back/src/accident/accident.service.ts:226-229 | unlike the listing, the aggregates compare state "all" literally, so it admits only rows whose state is "all" |
| QueryFilters.UnparsableYearMatchesNothing | DMWEBAPP/dm-project-back/src/accident/accident.service.ts:232-235 | a year that does not parse admits no row |
| Grouping.GroupByOf | DMWEBAPP/dm-project-back/src/accident/accident.service.ts:266-273 | each key's group counts its rows and sums their values; a key has a group iff it occurs |
| Grouping.GroupByDistinct | DMWEBAPP/dm-project-back/src/accident/accident.service.ts:266-273 | one group per distinct key |
| Grouping.GroupByTotals | DMWEBAPP/dm-project-back/src/accident/accident.service.ts:266-273 | the group counts add up to the number of rows, and the sums to the sum of all values |
| Grouping.GroupByCountWhere | DMWEBAPP/dm-project-back/src/accident/accident.service.ts:709-716 | the groups whose key satisfies a predicate count exactly the rows whose key does |
| Store.IdLessTransitive | DMWEBAPP/dm-project-back/src/accident/accident.service.ts:164-166 | the id order used by the cursor is transitive |
| Store.IdLessTotal | DMWEBAPP/dm-project-back/src/accident/accident.service.ts:175-178 | any two ids are equal or ordered |
| Store.ReverseOfOrderedDescends | DMWEBAPP/dm-project-back/src/accident/accident.service.ts:175-178 | the index read backwards gives strictly descending ids |
| Store.FlagNamed | DMWEBAPP/dm-project-back/src/accident/accident.service.ts:681-689 | a name that resolves names one of the table's thirteen boolean point-of-interest columns (DMWEBAPP/dm-project-front/src/types/types.ts:27-39 lists them); any other name resolves to none |
| Poi.NamedByName | DMWEBAPP/dm-project-back/src/accident/accident.service.ts:681-689 | every point-of-interest column is found by its own name |
| Aggregates.MaxCount | DMWEBAPP/dm-project-back/src/accident/accident.service.ts:282 | the maximum of the counts and 0: at least every count, and 0 or one of them |
| Aggregates.HeatmapCellCounts | DMWEBAPP/dm-project-back/src/accident/accident.service.ts:264-280 | each heatmap cell counts the rows at its hour and day |
| Aggregates.HeatmapCellsDistinct | DMWEBAPP/dm-project-back/src/accident/accident.service.ts:264-280 | no two cells share an (hour, day) |
| Aggregates.HeatmapCovers | DMWEBAPP/dm-project-back/src/accident/accident.service.ts:264-280 | every row's (hour, day) has a cell |
| Aggregates.HeatmapTotals | DMWEBAPP/dm-project-back/src/accident/accident.service.ts:282-283 | the total is the number of rows, and the peak lies between 0 and the total |
| Aggregates.HexbinMeaning | DMWEBAPP/dm-project-back/src/accident/accident.service.ts:348-396 | the total counts the located rows; the bounds enclose every located row and each bound is reached by one; with no located row the bounds are the fallback box |
| Sampling.Sample | DMWEBAPP/dm-project-back/src/accident/accident.service.ts:446-492 | the two queries return min(limit, matching) rows, every one a matching row, led by the rows from the pivot onwards; over an index-ordered table no row is sampled twice |
| Sampling.PivotSplits | DMWEBAPP/dm-project-back/src/accident/accident.service.ts:446-492 | the rows at or after the pivot and those before it partition the matching rows |
| Sampling.SampleSize | DMWEBAPP/dm-project-back/src/accident/accident.service.ts:446-492 | the sample holds the smaller of the limit and the number of matching rows |
| Sampling.SampleNeverShortWhenEnough | DMWEBAPP/dm-project-back/src/accident/accident.service.ts:481-492 | when enough rows match, the wrap-around fills the sample to the limit |
| Sampling.SampleDistinct | DMWEBAPP/dm-project-back/src/accident/accident.service.ts:446-492 | the sample holds matching rows only, no row twice |
| Sampling.Present | DMWEBAPP/dm-project-back/src/accident/accident.service.ts:503-513 | the values of a column are exactly the non-null values of the rows |
| Sampling.MinOf | DMWEBAPP/dm-project-back/src/accident/accident.service.ts:503-513 | SQL `MIN`: null iff no value, else the least value |
| Sampling.MaxOf | DMWEBAPP/dm-project-back/src/accident/accident.service.ts:503-513 | SQL `MAX`: null iff no value, else the greatest value |
| Sampling.OrFallback | DMWEBAPP/dm-project-back/src/accident/accident.service.ts:503-513 | `x \|\| fallback`: a null or zero bound is replaced by the fallback |
| Sampling.AxisRangeMeaning | DMWEBAPP/dm-project-back/src/accident/accident.service.ts:503-513 | an axis with no value gets its fallback range; a bound that is not 0 encloses every row's value |
| Sampling.PointOf | DMWEBAPP/dm-project-back/src/accident/accident.service.ts:494-501 | a point keeps its row's severity and each of its five weather values, with 0 standing for a missing one (`Number(null)`) |
| Treemap.BuildStateMap | DMWEBAPP/dm-project-back/src/accident/accident.service.ts:572-600 | the loop that files the grouped rows computes `FileRows` |
| Treemap.FileRowsCountyLevelOnly | DMWEBAPP/dm-project-back/src/accident/accident.service.ts:557-600 | without city grouping no county holds a named city |
| Treemap.FileRowsPlaces | DMWEBAPP/dm-project-back/src/accident/accident.service.ts:572-600 | a place is filed iff some row names it |
| Treemap.FileRowsTotal | DMWEBAPP/dm-project-back/src/accident/accident.service.ts:572-600 | filing rows of distinct places keeps every row's count |
| Treemap.SortDescFacts | DMWEBAPP/dm-project-back/src/accident/accident.service.ts:633 | sorting by value gives a descending permutation with the same total |
| Treemap.BuildCountyNode | DMWEBAPP/dm-project-back/src/accident/accident.service.ts:611-644 | the loop over a county's cities computes `CountyNodeOf` and the county's severity mass |
| Treemap.BuildStateNode | DMWEBAPP/dm-project-back/src/accident/accident.service.ts:606-656 | the loop over a state's counties computes `StateNodeOf` |
| Treemap.BuildTree | DMWEBAPP/dm-project-back/src/accident/accident.service.ts:602-669 | the loop over the states computes `TreeOf` |
| Treemap.CountyNodeValue | DMWEBAPP/dm-project-back/src/accident/accident.service.ts:611-644 | a county's value is its cities' total, and its average severity is their count-weighted mean |
| Treemap.CountyNodeChildren | DMWEBAPP/dm-project-back/src/accident/accident.service.ts:631-640 | a county has no children iff it has no named city; otherwise at most 20, sorted by value, adding up to at most its value |
| Treemap.StateNodeValue | DMWEBAPP/dm-project-back/src/accident/accident.service.ts:645-656 | a state's value is the sum of its counties, and its average severity is their count-weighted mean |
| Treemap.StateNodeChildren | DMWEBAPP/dm-project-back/src/accident/accident.service.ts:647-653 | a state keeps at most 30 counties, sorted by value, adding up to at most its value |
| Treemap.TreeFacts | DMWEBAPP/dm-project-back/src/accident/accident.service.ts:658-669 | the root is "USA" with severity 0, its value is the total, and its children are every state node sorted by value |
| Treemap.NoCitiesWithoutState | DMWEBAPP/dm-project-back/src/accident/accident.service.ts:557 | without a state filter no county shows cities |
| Treemap.TreemapCountsEveryAccident | DMWEBAPP/dm-project-back/src/accident/accident.service.ts:559-669 | the tree's total and root value are the number of matching accidents |
| Treemap.BuildTreemap | DMWEBAPP/dm-project-back/src/accident/accident.service.ts:522-673 | the treemap computed step by step is `TreemapOf`, and its total is the number of accidents the filters admit |
| Poi.Record | DMWEBAPP/dm-project-back/src/accident/accident.service.ts:726-733 | recording a row adds its count to its severity's bucket and to the total, and no other bucket changes |
| Poi.Tally | DMWEBAPP/dm-project-back/src/accident/accident.service.ts:720-735 | the loop over a column's grouped rows computes both sides' tallies |
| Poi.TallyMeaning | DMWEBAPP/dm-project-back/src/accident/accident.service.ts:720-735 | each side's bucket counts its rows of that severity, and the total is the sum of the four buckets |
| Poi.PoiRowsCount | DMWEBAPP/dm-project-back/src/accident/accident.service.ts:709-716 | the grouped rows count the accidents with that severity and that flag value |
| Poi.PoiRowsDistinct | DMWEBAPP/dm-project-back/src/accident/accident.service.ts:709-716 | no two grouped rows share a (severity, flag) slot |
| Poi.LabelOfCamelCase | DMWEBAPP/dm-project-back/src/accident/accident.service.ts:737-740 | a column's label is its first letter upper-cased, then a space before each later capital |
| Poi.UnlabelLabel | DMWEBAPP/dm-project-back/src/accident/accident.service.ts:737-740 | the label of a camel-case column determines the column |
| Poi.TargetFields | DMWEBAPP/dm-project-back/src/accident/accident.service.ts:681-689 | a given point-of-interest type is charted alone; without one, the five default columns (junction, traffic signal, stop, crossing, bump) are charted |
| Poi.FlagsNamed | DMWEBAPP/dm-project-back/src/accident/accident.service.ts:681-716 | the requested columns resolve iff each is a boolean point-of-interest column of the table, and then in order |
| Poi.CategoriesAt | DMWEBAPP/dm-project-back/src/accident/accident.service.ts:708-742 | category i is the one of the i-th column |
| Poi.BuildStackedBar | DMWEBAPP/dm-project-back/src/accident/accident.service.ts:676-748 | the stacked bars computed step by step are `StackedBarOf` |
| Poi.StackedBarMeaning | DMWEBAPP/dm-project-back/src/accident/accident.service.ts:676-748 | one category per column, labelled; each side's bucket counts the matching accidents with that severity and that flag value; each total is the sum of its buckets |
| Poi.CategoryMeaning | DMWEBAPP/dm-project-back/src/accident/accident.service.ts:718-742 | one column's category is named by its display label; each side's severity bucket counts the matching accidents of that severity with (or without) the point of interest, and each side's total is the sum of its four buckets |
| Poi.UnknownPoiTypeFails | DMWEBAPP/dm-project-back/src/accident/accident.service.ts:681-716 | a name that is none of the thirteen boolean point-of-interest columns gives no data |
| Poi.DefaultFieldsCharted | DMWEBAPP/dm-project-back/src/accident/accident.service.ts:681-689 | with no column named, the five default columns are charted |
| Accidents.PcpMeaning | DMWEBAPP/dm-project-back/src/accident/accident.service.ts:402-519 | the answer counts every matching row and takes its ranges over all of them; it plots min(limit, count) points, each the weather of a matching row |
| Accidents.SampleMembers | DMWEBAPP/dm-project-back/src/accident/accident.service.ts:446-492 | every sampled row is a matching row |
| Accidents.SeverityKey | DMWEBAPP/dm-project-back/src/accident/accident.service.ts:407 | the severity key is absent iff the severity is 0 or NaN, else the severity |
| Accidents.HeatmapKeyDetermines | DMWEBAPP/dm-project-back/src/accident/accident.service.ts:259-288 | two requests with the same heatmap key get the same heatmap |
| Accidents.HexbinKeyDetermines | DMWEBAPP/dm-project-back/src/accident/accident.service.ts:316-399 | two requests with the same hexbin key get the same hexbin map |
| Accidents.PcpKeyDetermines | DMWEBAPP/dm-project-back/src/accident/accident.service.ts:402-519 | two requests with the same parallel-coordinates key get the same answer for the same pivot |
| Accidents.TreemapKeyDetermines | DMWEBAPP/dm-project-back/src/accident/accident.service.ts:522-673 | two requests with the same treemap key get the same treemap |
| Accidents.StackedBarKeyDetermines | DMWEBAPP/dm-project-back/src/accident/accident.service.ts:676-748 | two requests with the same stacked-bar key get the same bars |
| Accidents.AccidentService.constructor | DMWEBAPP/dm-project-back/src/accident/accident.service.ts:106-109 | the service starts with an empty cache |
| Accidents.AccidentService.GetCached | DMWEBAPP/dm-project-back/src/accident/accident.service.ts:112-120 | returns `Lookup` and leaves `AfterLookup`; a hit is coherent with the table |
| Accidents.AccidentService.SetCache | DMWEBAPP/dm-project-back/src/accident/accident.service.ts:122-124 | the cache becomes `Put` of the old cache; the invariant is kept |
| Accidents.AccidentService.Get | DMWEBAPP/dm-project-back/src/accident/accident.service.ts:127-214 | the page is `ListPage` of the true count of matching rows, cached or not; the count is cached for 2 minutes |
| Accidents.AccidentService.GetTemporalHeatmap | DMWEBAPP/dm-project-back/src/accident/accident.service.ts:259-288 | returns the heatmap of the matching rows, cached or not; a miss caches it for 5 minutes |
| Accidents.AccidentService.GetHexbinMapData | DMWEBAPP/dm-project-back/src/accident/accident.service.ts:316-399 | returns the hexbin map of the matching rows, cached or not; a miss caches it for 5 minutes |
| Accidents.AccidentService.GetParallelCoordinatesData | DMWEBAPP/dm-project-back/src/accident/accident.service.ts:402-519 | answers iff the limit is usable, always with `PcpOf` for some pivot; a miss uses the given pivot and caches for 3 minutes |
| Accidents.AccidentService.GetTreemapData | DMWEBAPP/dm-project-back/src/accident/accident.service.ts:522-673 | returns the treemap of the matching rows, cached or not; a miss caches it for 5 minutes |
| Accidents.AccidentService.GetStackedBarData | DMWEBAPP/dm-project-back/src/accident/accident.service.ts:676-748 | returns the stacked bars of the matching rows, cached or not; a miss caches them for 5 minutes |
| CacheKeyFindings.OrAll | DMWEBAPP/dm-project-back/src/accident/accident.service.ts:260 | `x \|\| 'all'`: the value when given and non-empty, else "all" |
| CacheKeyFindings.TextHeatmapKey | DMWEBAPP/dm-project-back/src/accident/accident.service.ts:260 | the source's heatmap key starts with "temporal-heatmap-" |
| CacheKeyFindings.TextHeatmapKeysCollide | DMWEBAPP/dm-project-back/src/accident/accident.service.ts:221-224 | city "all" and no city render the same text key, yet their heatmaps differ |
| CacheKeyFindings.TextHeatmapStateKeysCollide | DMWEBAPP/dm-project-back/src/accident/accident.service.ts:226-229 | state "all" and no state render the same text key, yet their heatmaps differ |
| ClientFunctions.EncodeComponent | DMWEBAPP/dm-project-front/src/lib/functions.ts:133-145 | the encoding holds only unreserved characters and '%', and leaves unreserved text unchanged |
| ClientFunctions.DecodeEncode | DMWEBAPP/dm-project-front/src/lib/functions.ts:133-145 | percent-decoding an encoded component gives back its UTF-8 bytes |
| ClientFunctions.QueryStringParts | DMWEBAPP/dm-project-front/src/lib/functions.ts:133-145 | splitting the query string at '&' gives back the pairs; with no pair it is empty |
| ClientFunctions.SplitPair | DMWEBAPP/dm-project-front/src/lib/functions.ts:136-142 | a pair holds no '&', and splits at '=' into its encoded key and value |
| ClientFunctions.PairsCount | DMWEBAPP/dm-project-front/src/lib/functions.ts:133-145 | one pair per sent scalar plus one per array item |
| ClientFunctions.ImageSrc | DMWEBAPP/dm-project-front/src/lib/functions.ts:5-18 | no image gives the placeholder; an Unsplash URL is used as it is; any other image is the image base followed by the image |
| ClientFunctions.InvalidatesMeaning | DMWEBAPP/dm-project-front/src/lib/functions.ts:121-129 | a query is invalidated iff its key, or one of its keys, contains the name |
| ClientFunctions.GenerateNestErrors | DMWEBAPP/dm-project-front/src/lib/functions.ts:30-89 | the loop over the error message raises the toasts of `NestErrorToasts` |
| ClientFunctions.TextToastsMeaning | DMWEBAPP/dm-project-front/src/lib/functions.ts:47-56 | a list of texts raises one "Error" toast per text |
| ClientFunctions.ItemToastsMeaning | DMWEBAPP/dm-project-front/src/lib/functions.ts:59-77 | validation items raise one error toast per message, titled with its field |
| ClientFunctions.FieldToastsMeaning | DMWEBAPP/dm-project-front/src/lib/functions.ts:68-76 | a field's toasts are errors titled with the field, one per message |
| ClientFunctions.RaiseTextToasts | DMWEBAPP/dm-project-front/src/lib/functions.ts:47-56 | the `forEach` over a list of texts raises exactly `TextToasts` |
| ClientFunctions.RaiseItemToasts | DMWEBAPP/dm-project-front/src/lib/functions.ts:59-77 | the `forEach` over validation items raises exactly `ItemToasts` |
| ClientFunctions.RaiseFieldToasts | DMWEBAPP/dm-project-front/src/lib/functions.ts:68-76 | the inner `forEach` over one field's messages raises exactly `FieldToasts` |
| ClientFunctions.RaiseIndexToasts | DMWEBAPP/dm-project-front/src/lib/functions.ts:79-88 | an array of other elements raises `IndexToasts`: one toast per element, titled with its index |
| ClientFunctions.RaiseEntryToasts | DMWEBAPP/dm-project-front/src/lib/functions.ts:79-88 | an object raises `EntryToasts`: one toast per entry, titled with its key |
| ClientFunctions.SuccessToastMeaning | DMWEBAPP/dm-project-front/src/lib/functions.ts:91-114 | no toast iff the message is loosely 1; otherwise a success toast, with the language's default text when there is no message |
| ClientRequests.SearchParams.constructor | DMWEBAPP/dm-project-front/src/lib/react-query/actions/accident.action.ts:169 | a new search string is empty |
| ClientRequests.SearchParams.Append | DMWEBAPP/dm-project-front/src/lib/react-query/actions/accident.action.ts:7-12 | appending adds one pair at the end |
| ClientRequests.FieldPair | DMWEBAPP/dm-project-front/src/lib/react-query/actions/accident.action.ts:8-11 | a filter is appended iff it is non-empty, with its value |
| ClientRequests.AddTimeFilters | DMWEBAPP/dm-project-front/src/lib/react-query/actions/accident.action.ts:7-12 | appends exactly the time-filter pairs |
| ClientRequests.TimeFilterPairsMeaning | DMWEBAPP/dm-project-front/src/lib/react-query/actions/accident.action.ts:7-12 | each time filter is sent iff it is non-empty, and no pair is empty |
| ClientRequests.NonEmpty | DMWEBAPP/dm-project-front/src/lib/react-query/query/accident.query.ts:36-44 | `value \|\| undefined`: present iff non-empty |
| ClientRequests.TimeFiltersFromState | DMWEBAPP/dm-project-front/src/lib/react-query/query/accident.query.ts:36-44 | each time filter is sent iff the URL state holds a non-empty value for it, with that value |
| ClientRequests.BuildUrl | DMWEBAPP/dm-project-front/src/lib/react-query/actions/accident.action.ts:14-22 | no queries leave the URL unchanged |
| ClientRequests.BuildUrlMeaning | DMWEBAPP/dm-project-front/src/lib/react-query/actions/accident.action.ts:14-22 | the URL is the base, then '&' if the base already has a '?' and '?' otherwise, then the query string |
| ClientRequests.PaginationQuery | DMWEBAPP/dm-project-front/src/lib/react-query/actions/accident.action.ts:33-42 | the pagination fields have distinct keys |
| ClientRequests.CleanQueries | DMWEBAPP/dm-project-front/src/lib/react-query/actions/accident.action.ts:45-50 | the loop keeps exactly the entries whose value is not empty, null, undefined or "all" |
| ClientRequests.RequestQueryGet | DMWEBAPP/dm-project-front/src/lib/react-query/actions/accident.action.ts:45-55 | a pagination field wins; any other key keeps its filter value when that was kept |
| ClientRequests.PaginationWins | DMWEBAPP/dm-project-front/src/lib/react-query/actions/accident.action.ts:52-55 | a cursor request sends that cursor and a limit of 100, whatever the filters say |
| ClientRequests.AccidentsRequest | DMWEBAPP/dm-project-front/src/lib/react-query/actions/accident.action.ts:24-58 | the request URL is `BuildUrl` of the merged query |
| ClientRequests.Normalise | DMWEBAPP/dm-project-front/src/lib/react-query/actions/accident.action.ts:60-65 | `next` is `hasMore` when sent, else whether the page came back full |
| ClientRequests.NextPageParam | DMWEBAPP/dm-project-front/src/lib/react-query/query/accident.query.ts:54-64 | there is a next page iff `hasMore` with a cursor, or `next`; a cursor is used when there is one, else the following page number |
| ClientRequests.CursorPreferred | DMWEBAPP/dm-project-front/src/lib/react-query/query/accident.query.ts:54-64 | with more rows and a cursor, the next request is by that cursor |
| ClientRequests.NoMoreEndsPaging | DMWEBAPP/dm-project-front/src/lib/react-query/query/accident.query.ts:54-64 | `hasMore: false` ends the paging |
| ClientRequests.FullPageAsksForNextNumber | DMWEBAPP/dm-project-front/src/lib/react-query/query/accident.query.ts:54-64 | without `hasMore`, a full page asks for the following page number |
| PagingProtocol.ServerPagination | DMWEBAPP/dm-project-back/lib/functions.ts:59-70 | the service reads the client's cursor, page and limit of 100 as sent; a cursor of "1" arrives as page 1 with no cursor |
| PagingProtocol.AnswerStep | DMWEBAPP/dm-project-back/src/accident/accident.service.ts:164-205 | a request by cursor gets the first 100 rows below it, and a next cursor iff more follow |
| PagingProtocol.CursorContinues | DMWEBAPP/dm-project-back/src/accident/accident.service.ts:164-166 | the rows below the i-th row's id are exactly the rows after it |
| PagingProtocol.CrawlFrom | DMWEBAPP/dm-project-front/src/lib/react-query/query/accident.query.ts:53-64 | when no id is "" or "1", following the cursors from any cursor collects every matching row below it, in order |
| PagingProtocol.CrawlVisitsAllMatchesOnce | DMWEBAPP/dm-project-front/src/lib/react-query/query/accident.query.ts:46-67 | when no id is "" or "1", starting from page 1 the client loads every matching accident once, newest id first |
| PagingProtocol.FirstPageAgain | DMWEBAPP/dm-project-front/src/lib/react-query/query/accident.query.ts:54-63 | when the first page's last id is "" or "1", a request without a cursor gets the first page, and the request that follows it carries no cursor either, so it gets the first page again |
| PagingProtocol.CursorOneIsFirstPage | DMWEBAPP/dm-project-front/src/lib/react-query/actions/accident.action.ts:33-39 | when the first page's last id is "1", the client asks for the cursor "1", which is answered as page 1 |
| PagingProtocol.CrawlRepeats | DMWEBAPP/dm-project-front/src/lib/react-query/query/accident.query.ts:50-64 | when the first page's last id is "1", the crawl from page 1 is the first page repeated once per request |
| PagingProtocol.StuckCrawlNeverAdvances | DMWEBAPP/dm-project-front/src/lib/react-query/actions/accident.action.ts:33-39 | when the first page's last id is "1", the crawl from page 1 loads the first page twice and never the 101st matching row |
| AccidentsTable.ListedRows | DMWEBAPP/dm-project-front/src/components/table/AccidentsTable.tsx:63-74 | the rows shown are exactly the loaded rows that have an id |
| AccidentsTable.LoadingAppends | DMWEBAPP/dm-project-front/src/components/table/AccidentsTable.tsx:63-74 | loading a page appends its rows to those shown |
| AccidentsTable.ReceivedPageShown | DMWEBAPP/dm-project-front/src/components/table/AccidentsTable.tsx:63-74 | a page the service sent is shown whole, in order |
| AccidentsTable.TotalCount | DMWEBAPP/dm-project-front/src/components/table/AccidentsTable.tsx:77-81 | the first loaded page's `total` when it has one; 0 before any page has loaded and when the first page or its total is missing |
| AccidentsTable.TotalIsMatchCount | DMWEBAPP/dm-project-front/src/components/table/AccidentsTable.tsx:77-81 | once the service's first page has loaded, the header shows the number of accidents matching the filters, whatever pages follow |
| AccidentsTable.TotalFixedByFirstPage | DMWEBAPP/dm-project-front/src/components/table/AccidentsTable.tsx:77-81 | the total shown is the first page's, whatever loads after it |
| AccidentsTable.NextLoadCount | DMWEBAPP/dm-project-front/src/components/table/AccidentsTable.tsx:236 | the next load brings 100 rows, or the rest when fewer remain |
| AccidentsTable.LoadedPercentage | DMWEBAPP/dm-project-front/src/components/table/AccidentsTable.tsx:213-216 | the percentage shown is `loaded * 100 / total`, and lies in [0, 100) |
| AccidentsTable.AutoLoadFetches | DMWEBAPP/dm-project-front/src/components/table/AccidentsTable.tsx:54-61 | the next page is fetched iff auto-load is on, one exists, and none is being fetched |
| AccidentsTable.AutoLoadStopsAtLastPage | DMWEBAPP/dm-project-front/src/components/table/AccidentsTable.tsx:54-61 | a page without more rows stops the auto-load |
| HeatmapChart.FormatHour | DMWEBAPP/dm-project-front/src/components/charts/TemporalHeatmap.tsx:115-120 | 0 is 12AM, 12 is 12PM, other morning hours are nAM and afternoon hours n-12 PM |
| HeatmapChart.FormatHourInjective | DMWEBAPP/dm-project-front/src/components/charts/TemporalHeatmap.tsx:115-120 | no two hours of the day share a label |
| HeatmapChart.HourLabel | DMWEBAPP/dm-project-front/src/components/charts/TemporalHeatmap.tsx:324 | a label shows iff the hour is a multiple of 3 |
| HeatmapChart.ColorForValue | DMWEBAPP/dm-project-front/src/components/charts/TemporalHeatmap.tsx:89-112 | colour 0 iff the slot or the peak is 0; the text is dark except on the two lightest colours |
| HeatmapChart.ColorBands | DMWEBAPP/dm-project-front/src/components/charts/TemporalHeatmap.tsx:98-111 | colour k holds the intensities in [0.2(k-1), 0.2k) |
| HeatmapChart.ColorMonotone | DMWEBAPP/dm-project-front/src/components/charts/TemporalHeatmap.tsx:89-112 | a larger count never gets a lighter colour |
| HeatmapChart.PeakIsDarkest | DMWEBAPP/dm-project-front/src/components/charts/TemporalHeatmap.tsx:108-111 | the peak slot is drawn in the darkest colour |
| HeatmapChart.DayIndex | DMWEBAPP/dm-project-front/src/components/charts/TemporalHeatmap.tsx:27 | a day's index in the order Monday..Sunday, none for any other string |
| HeatmapChart.BuildMatrix | DMWEBAPP/dm-project-front/src/components/charts/TemporalHeatmap.tsx:201-222 | the 7 × 24 matrix holds, in each slot, the count of the last cell for it, else 0 |
| HeatmapChart.MatrixCountsRows | DMWEBAPP/dm-project-front/src/components/charts/TemporalHeatmap.tsx:201-222 | drawn from the service's heatmap, each slot shows the number of matching rows at that hour and day |
| HeatmapChart.StoredSelection | DMWEBAPP/dm-project-front/src/components/charts/TemporalHeatmap.tsx:187-193 | choosing "all" stores "", anything else itself |
| HeatmapChart.ShownSelection | DMWEBAPP/dm-project-front/src/components/charts/TemporalHeatmap.tsx:176-177 | "" shows as "all", anything else as itself |
| HeatmapChart.SelectionShownBack | DMWEBAPP/dm-project-front/src/components/charts/TemporalHeatmap.tsx:176-193 | a selector shows back whatever non-empty value was selected |
| TreemapChart.SeverityColorKey | DMWEBAPP/dm-project-front/src/components/charts/RegionalTreemap.tsx:61-68 | the rounded severity clamped to 1..4 |
| TreemapChart.SeverityColorMonotone | DMWEBAPP/dm-project-front/src/components/charts/RegionalTreemap.tsx:61-68 | a higher average severity never gets a milder colour |
| TreemapChart.SortByValueMeaning | DMWEBAPP/dm-project-front/src/components/charts/RegionalTreemap.tsx:93 | the layout order is a permutation of the nodes sorted by value, largest first |
| TreemapChart.Squarify | DMWEBAPP/dm-project-front/src/components/charts/RegionalTreemap.tsx:80-140 | no rectangles for no nodes, a canvas below the minimum size or a zero total; otherwise one per node, in value-descending order |
| TreemapChart.DrillDownKeepsChain | DMWEBAPP/dm-project-front/src/components/charts/RegionalTreemap.tsx:265-269 | drilling into a child with children extends a valid drill path |
| TreemapChart.ChainPrefix | DMWEBAPP/dm-project-front/src/components/charts/RegionalTreemap.tsx:271-273 | drilling up or clicking a crumb leaves a valid drill path |
| TreemapChart.TreemapView.constructor | DMWEBAPP/dm-project-front/src/components/charts/RegionalTreemap.tsx:245-248 | the view starts at the root |
| TreemapChart.TreemapView.CurrentNode | DMWEBAPP/dm-project-front/src/components/charts/RegionalTreemap.tsx:245-248 | the node in view is the root before any drill, else the last drilled node |
| TreemapChart.TreemapView.Breadcrumb | DMWEBAPP/dm-project-front/src/components/charts/RegionalTreemap.tsx:281-285 | "USA", then one crumb per drilled node |
| TreemapChart.TreemapView.DrillDown | DMWEBAPP/dm-project-front/src/components/charts/RegionalTreemap.tsx:265-269 | a node with children is pushed; any other click changes nothing |
| TreemapChart.TreemapView.DrillUp | DMWEBAPP/dm-project-front/src/components/charts/RegionalTreemap.tsx:271-273 | the last drilled node is dropped |
| TreemapChart.TreemapView.ClickCrumb | DMWEBAPP/dm-project-front/src/components/charts/RegionalTreemap.tsx:357-361 | a click on crumb i, unless the last one, keeps the first i drilled nodes and the breadcrumb up to it |
| TreemapChart.TreemapView.ChangeState | DMWEBAPP/dm-project-front/src/components/charts/RegionalTreemap.tsx:275-278 | a new state is stored ("" for all) and the drill path is cleared |
| PoiChart.BarOf | DMWEBAPP/dm-project-front/src/components/charts/POIStackedBarChart.tsx:131-153 | a bar is named "category - Present" or "category - Absent" and carries that side's four severity counts and its total |
| PoiChart.ChartDataShape | DMWEBAPP/dm-project-front/src/components/charts/POIStackedBarChart.tsx:131-153 | two bars per category, in category order, Present first |
| PoiChart.Share | DMWEBAPP/dm-project-front/src/components/charts/POIStackedBarChart.tsx:156-162 | a share is `count * 100 / total` for a non-empty bar, and 0 for an empty one |
| PoiChart.PercentBar | DMWEBAPP/dm-project-front/src/components/charts/POIStackedBarChart.tsx:156-162 | the percentage view keeps each bar's name, category, side and total, and shows each severity as `severity * 100 / total` (all 0 for an empty bar) |
| PoiChart.SharesAddUp | DMWEBAPP/dm-project-front/src/components/charts/POIStackedBarChart.tsx:156-162 | a non-empty bar's shares add up to 100 |
| PoiChart.ServiceBarsAddUp | DMWEBAPP/dm-project-front/src/components/charts/POIStackedBarChart.tsx:156-162 | every non-empty bar of the service's data shows shares adding up to 100 |
| PoiChart.TotalAccidents | DMWEBAPP/dm-project-front/src/components/charts/POIStackedBarChart.tsx:177-186 | 0 without data |
| PoiChart.TotalAccidentsCountsMatches | DMWEBAPP/dm-project-front/src/components/charts/POIStackedBarChart.tsx:177-186 | the headline, and each category's two bars together, count the matching accidents of a known severity |
| PoiChart.HighShare | DMWEBAPP/dm-project-front/src/components/charts/POIStackedBarChart.tsx:335-349 | the high-severity share is `(severity 3 + severity 4) * 100 / total`, and 0 for an empty side |
| PoiChart.Insights | DMWEBAPP/dm-project-front/src/components/charts/POIStackedBarChart.tsx:335-349 | insights for the first three categories only, in order |
| PoiChart.InsightsArePercentages | DMWEBAPP/dm-project-front/src/components/charts/POIStackedBarChart.tsx:335-349 | for the service's data each insight is a percentage in [0, 100] |
| PoiChart.RequestedPoi | DMWEBAPP/dm-project-front/src/components/charts/POIStackedBarChart.tsx:126-128 | no column is requested iff the selection is "" or "all" |
| PoiChart.SelectingAllRequestsDefaults | DMWEBAPP/dm-project-front/src/components/charts/POIStackedBarChart.tsx:203-208 | choosing "all" in the selector requests the default columns |
| PcpChart.Scale | DMWEBAPP/dm-project-front/src/components/charts/ParallelCoordinatesPlot.tsx:89-96 | each of the five axes takes its own range from the loaded data; every axis is 0..100 before the data has loaded |
| PcpChart.FindAxis | DMWEBAPP/dm-project-front/src/components/charts/ParallelCoordinatesPlot.tsx:146 | the first brush on the axis, or -1 when there is none |
| PcpChart.BrushUpdate | DMWEBAPP/dm-project-front/src/components/charts/ParallelCoordinatesPlot.tsx:141-160 | the full range removes the axis' brush; otherwise the new brush replaces it where it stands, or is appended |
| PcpChart.BrushUpdateMeaning | DMWEBAPP/dm-project-front/src/components/charts/ParallelCoordinatesPlot.tsx:141-160 | at most one brush per axis is kept; the axis ends with no brush or the new one, and the other axes keep theirs |
| PcpChart.FilteredData | DMWEBAPP/dm-project-front/src/components/charts/ParallelCoordinatesPlot.tsx:129-138 | the lines drawn are exactly the loaded lines every brush admits |
| PcpChart.NoBrushesKeepAll | DMWEBAPP/dm-project-front/src/components/charts/ParallelCoordinatesPlot.tsx:129-138 | with no brush every line is drawn |
| PcpChart.FullRangeWidens | DMWEBAPP/dm-project-front/src/components/charts/ParallelCoordinatesPlot.tsx:141-160 | resetting an axis to its full range never hides a line |
| PcpChart.BrushState.constructor | DMWEBAPP/dm-project-front/src/components/charts/ParallelCoordinatesPlot.tsx:69 | no brushes at first |
| PcpChart.BrushState.HandleBrush | DMWEBAPP/dm-project-front/src/components/charts/ParallelCoordinatesPlot.tsx:141-160 | the brushes become `BrushUpdate` of the old ones, keeping one brush per axis |
| PcpChart.BrushState.ClearBrushes | DMWEBAPP/dm-project-front/src/components/charts/ParallelCoordinatesPlot.tsx:162 | all brushes are removed |
| FileUpload.DirectionOf | DMWEBAPP/dm-project-front/src/components/ui/file-upload.tsx:90 | right-to-left iff `dir` is "rtl" |
| FileUpload.ReSelectAll | DMWEBAPP/dm-project-front/src/components/ui/file-upload.tsx:89 | a drop replaces the selection iff at most one file is allowed or `reSelect` is set |
| FileUpload.NextKey | DMWEBAPP/dm-project-front/src/components/ui/file-upload.tsx:125-130 | ArrowDown when vertical; ArrowRight, or ArrowLeft right-to-left, when horizontal |
| FileUpload.PrevKey | DMWEBAPP/dm-project-front/src/components/ui/file-upload.tsx:118-123 | ArrowUp when vertical; ArrowLeft, or ArrowRight right-to-left, when horizontal |
| FileUpload.KeysMirror | DMWEBAPP/dm-project-front/src/components/ui/file-upload.tsx:118-130 | the two keys differ, and right-to-left swaps them when horizontal |
| FileUpload.MoveNext | DMWEBAPP/dm-project-front/src/components/ui/file-upload.tsx:108-111 | the next index, wrapping from the last to 0 |
| FileUpload.MovePrev | DMWEBAPP/dm-project-front/src/components/ui/file-upload.tsx:113-116 | the previous index, wrapping from the first to the last |
| FileUpload.MovesStayInList | DMWEBAPP/dm-project-front/src/components/ui/file-upload.tsx:108-116 | from a valid selection of a non-empty list both moves select a file |
| FileUpload.MovesInverse | DMWEBAPP/dm-project-front/src/components/ui/file-upload.tsx:108-116 | moving forward then back, or back then forward, returns to the file selected |
| FileUpload.RemoveAt | DMWEBAPP/dm-project-front/src/components/ui/file-upload.tsx:92-99 | removes the file at an index in range and leaves the list alone otherwise |
| FileUpload.DeleteFirstSelectsPastEnd | DMWEBAPP/dm-project-front/src/components/ui/file-upload.tsx:140-148 | as written, deleting the first of two or more files selects an index past the end of the remaining list |
| FileUpload.DeleteSelected | DMWEBAPP/dm-project-front/src/components/ui/file-upload.tsx:140-148 | Delete removes the selected file, and nothing without a selection; deleting from a one-file list clears the selection |
| FileUpload.DeleteKeepsSelection | DMWEBAPP/dm-project-front/src/components/ui/file-upload.tsx:140-148 | after a deletion the selection is valid, -1 iff the list is empty, and it moves to the file before the deleted one (to the last when the first was deleted) |
| FileUpload.KeyStepKeepsSelection | DMWEBAPP/dm-project-front/src/components/ui/file-upload.tsx:101-155 | on a non-empty list with a valid selection, every key leaves a list and a valid selection |
| FileUpload.DropIntoMeaning | DMWEBAPP/dm-project-front/src/components/ui/file-upload.tsx:166-176 | a drop appends the dropped files in order until `maxFiles` is reached |
| FileUpload.DropIntoBound | DMWEBAPP/dm-project-front/src/components/ui/file-upload.tsx:166-176 | a drop never goes past `maxFiles` and never loses a file already there |
| FileUpload.FileUploader.constructor | DMWEBAPP/dm-project-front/src/components/ui/file-upload.tsx:70-90 | nothing selected and the limit flag down; `reSelectAll` and the direction derived from the props |
| FileUpload.FileUploader.RemoveFileFromSet | DMWEBAPP/dm-project-front/src/components/ui/file-upload.tsx:92-99 | the file at the index is removed; no files stay no files |
| FileUpload.FileUploader.HandleKeyDown | DMWEBAPP/dm-project-front/src/components/ui/file-upload.tsx:101-155 | files, selection and the file picker follow `KeyStep`; the limit flag is unchanged |
| FileUpload.FileUploader.OnDrop | DMWEBAPP/dm-project-front/src/components/ui/file-upload.tsx:157-178 | the loop leaves the kept files (none when re-selecting) followed by the dropped files up to `maxFiles`; no accepted files change nothing |
| FileUpload.FileUploader.SyncLimit | DMWEBAPP/dm-project-front/src/components/ui/file-upload.tsx:199-206 | the limit flag is up iff the list holds `maxFiles` files; with no list it is unchanged |

## Left out

- SQL text, parameter escaping and Prisma: each query is its meaning over an immutable table.
  `Promise.all` ordering and the database's own concurrency are not modelled.
- `LIKE` matching is a case-sensitive substring test. Database collations and `%`/`_`
  wildcards inside the search text are not modelled.
- `Date.now()` and `randomUUID()` are parameters (`now`, `pivot`). One `now` serves a
  lookup and the store that follows it.
- Floating point: coordinates, weather values and percentages are reals. The hexbin grid
  uses exact arithmetic. `toFixed` formatting is not modelled.
- `getFilterOptions` (accident.service.ts:291-313) is a cached `SELECT DISTINCT` with no logic
  beyond the cache, which is modelled once for all the aggregates.
- `Number(...)` is modelled on optionally signed decimal integers with surrounding spaces.
  Fractions, hexadecimal and exponents read as NaN here.
- JavaScript `trim` and `toUpperCase` are modelled on ASCII only.
- The treemap does not distinguish a NULL city from ''.
- The listing's count cache key is `JSON.stringify(where)`. The model keys it by the `where`
  value itself, which assumes that serialisation is injective.
- The server is assumed to decode what `encodeURIComponent` produced.
- Accidents.AccidentService.GetParallelCoordinatesData: a cache hit returns the sample drawn
  for an earlier pivot. The contract therefore promises `PcpOf` for some pivot, not for the
  one given.
- ClientFunctions.InvalidatesMeaning: query keys whose head is neither a string nor an array
  of strings are not modelled.
- TreemapChart.Squarify: rectangle geometry (the row-aspect heuristic and pixel coordinates)
  is left out. The model keeps which nodes are laid out and in what order.
- PcpChart.Scale: pixel scales are left out.
- PagingProtocol.CrawlFrom: holds only for tables in which no id is "" or "1" (`UsableIds`).
  The client cannot hand either id back as a cursor; see Findings.
- PagingProtocol.CrawlVisitsAllMatchesOnce: holds only for tables in which no id is "" or "1"
  (`UsableIds`), for the same reason.
- Sampling.Sample: the two sampling `SELECT`s have no `ORDER BY`
  (accident.service.ts:449-453, 484-488), so the database may return any matching rows. The
  model fixes ascending id order, the order of the id index.
- Poi.UnknownPoiTypeFails: the service puts the requested name into the SQL as a column
  (accident.service.ts:689, 709-714). A column that is not a boolean flag, such as `severity`,
  is charted there (a value of 1 counts as present), and a name that is no column makes the database reject the
  query. The model knows only the thirteen boolean point-of-interest columns and gives no data
  for every other name.
- Store.FlagNamed: resolves only the thirteen boolean point-of-interest columns, for the
  reason given for Poi.UnknownPoiTypeFails.
- JsValues.ParseInt: reads decimal digits only. JavaScript's `parseInt` also reads a "0x"
  prefix as hexadecimal, so "0x3" is 0 here but 3 in JavaScript. This affects the severity,
  year and month parameters.
- HeatmapChart.BuildMatrix: cells whose hour lies outside 0..23, or whose day is not a
  weekday name, are skipped. Their count never reaches the grid, and the model does not
  capture JavaScript writing them onto the row object as extra properties. A null `data`
  is not modelled.
- React timers, effects and state batching are not modelled. This covers the table's 500 ms
  auto-load delay and the uploader's `isLOF` effect, which is modelled as `SyncLimit` called
  after a change.
- Toasts shown by `onDrop` for rejected files are not modelled. Neither are the `maxSize` and
  `accept` checks of the drop zone, which belong to the drop library.
- The uploader's Enter/Space opening of the file picker is modelled as an `opensPicker`
  result.
- The uploader's key name "Space" is kept as written, although browsers report the space bar
  as " ".
- The uploader's `value` belongs to its parent. The model stores in the uploader whatever
  `onValueChange` receives.
- The plot's parsing of `severity` and `date_limit` from the URL is not modelled.
- Rendering is not modelled: JSX, charts, tooltips, icons and themes.
- FileUpload.FileUploader.HandleKeyDown models the corrected Delete key (see Findings), not
  the code as written.
- Accidents.AccidentService: the cache is keyed by the fields each answer depends on (see
  Findings), not by the source's strings.

## Findings

| source | as written | input that shows it | evidently intended | confidence | as-written member | corrected member |
|---|---|---|---|---|---|---|
| DMWEBAPP/dm-project-back/src/accident/accident.service.ts:260 | the heatmap cache key writes an absent city as "all", but the where clause (lines 221-224) treats city "all" as the pattern `%all%`; an absent state and state "all" collide the same way (lines 226-229), as do the hexbin key's states (line 317 against lines 326-328) | city "all" vs no city, over one accident in Boston: both render the same key, but the heatmaps hold 0 and 1 accidents, so the second request is served the first one's result | keys that tell apart every pair of requests the query tells apart | not executed | CacheKeyFindings.TextHeatmapKeysCollide | Accidents.HeatmapKeyDetermines |
| DMWEBAPP/dm-project-front/src/components/ui/file-upload.tsx:140-148 | Delete computes the new selection with `movePrev` against the length before the removal | files [f1, f2] with f1 selected: Delete leaves [f2] with index 1 selected, past the end | the selection moves to a file of the remaining list, or to -1 when it is empty | not executed | FileUpload.DeleteFirstSelectsPastEnd | FileUpload.DeleteKeepsSelection |
| DMWEBAPP/dm-project-front/src/lib/react-query/query/accident.query.ts:56-62 | the next cursor is dropped when it is falsy, and a string cursor of "1" is sent as page 1 (accident.action.ts:33-39) | more than 100 matching rows, the 100th newest of which has id "1": the next request is page 1 again, and so is every further one. With id "" instead, the next request is a page number, which the service ignores, so it too returns the first page | the client walks on through the rows below the 100th; the model proves that it does for every table whose ids are never "" or "1" (`UsableIds`), which is the condition the corrected member states | not executed | PagingProtocol.StuckCrawlNeverAdvances | PagingProtocol.CrawlVisitsAllMatchesOnce |

# Trade-shipment dashboard API, modelled in Dafny

This project models the read-only JSON handlers of a trade-shipment dashboard.
The handlers query one table of shipment records. Each record gives:

- an importer: name, country and website;
- an exporter: name, country and website;
- a commodity name;
- a weight in metric tonnes;
- a shipment date.

Every handler is a pure computation over the sequence of shipment records. The model states each SQL query as functions over `seq<Shipment>`:

- **`GET /api/companies`** (`Companies.ListCompanies`). Each shipment is projected into an importer row and an exporter row. The rows are grouped by (name, country, role), with a shipment count and a weight sum. The groups are filtered by the optional search, role and country criteria. They are ranked by shipment count and served one page at a time. The total comes from a separate count query.
- **`GET /api/companies/countries`** (`Countries.CountryList`). The distinct importer and exporter countries, in ascending order, with empty names dropped.
- **`GET /api/analytics/stats`** (`Stats.GetStats`). The number of distinct importer names and of distinct exporter names.
- **`GET /api/analytics/commodities`** (`Commodities.TopCommodities`). The five commodities with the most kilograms shipped.
- **`GET /api/analytics/monthly`** (`Monthly.MonthlySeries`). Kilograms per month label such as "Jan 2024", in order of each month's earliest shipment.

## Shared modules

- **`Grouping`** is SQL `GROUP BY` as a fold. It produces one bucket per key, in first-seen order, with a row count and a sum.
- **`Sorting`** is a stable insertion sort keyed by an ordering relation. It stands for every `ORDER BY` in the handlers.
- **`Paging`** holds the page and limit arithmetic, and `LIMIT … OFFSET`.
- **`Filters`** holds the `WHERE` conditions built from the query string.
- **`Text`** holds trimming, ASCII lower-casing, substring search, code-point string order, and JavaScript `parseInt`.

A group is identified by its (name, country, role), so a name that appears in both roles yields two rows. SQL leaves the order of tied rows open. The model fixes it: the sort is stable (`Sorting.SortStable`), the filter keeps the order of the groups (`Companies.FilterKeepsOrder`), and the grouped list puts all importer groups before all exporter groups (`Companies.ProjectedGroups`), so tied rows keep that order (`Companies.RankedKeepsTies`). Within one role the groups come in the order their first shipment appears; that follows from how the grouping fold is built, and no lemma states it.

## Model

| member | source | states |
|---|---|---|
| Paging.EffectivePage | pages/api/companies/index.ts:22 | the page is at least 1. A parsed value of 1 or more is kept. An absent, unparsable, zero or negative value gives 1 |
| Paging.EffectiveLimit | pages/api/companies/index.ts:23 | the limit is between 1 and 100. An absent, unparsable or zero value gives 20. A negative value gives 1. A value above 100 gives 100. Any other value is kept |
| Paging.PageRoundTrip | pages/api/companies/index.ts:22 | a page number written in decimal reads back unchanged. A negative page reads as 1. An absent page reads as 1 and an absent limit as 20 |
| Paging.LimitRoundTrip | pages/api/companies/index.ts:23 | a decimal limit in 1..100 reads back unchanged. A larger limit is capped at 100. A limit of "0" falls back to 20 |
| Paging.Offset | pages/api/companies/index.ts:24 | the offset is a non-negative multiple of the limit, and offset / limit = page - 1 |
| Paging.PagesApart | pages/api/companies/index.ts:24 | a later page starts at or after the end of an earlier one, so pages never share a row |
| Paging.TotalPages | pages/api/companies/index.ts:98 | `Math.ceil(total / limit)`: it is 0 exactly when total is 0. Otherwise (pages - 1) * limit < total <= pages * limit |
| Paging.Slice | pages/api/companies/index.ts:90 | `LIMIT/OFFSET` yields at most `limit` rows: the rows from `offset` on, or none once the offset passes the end |
| Paging.PageInRange | pages/api/companies/index.ts:90-98 | a page is empty exactly when its number exceeds the page count |
| Paging.PagesUpToPrefix | pages/api/companies/index.ts:90 | pages 1..n put together are the first n * limit rows |
| Paging.PagesCover | pages/api/companies/index.ts:90-98 | pages 1..totalPages put together give back every row once, in order |
| Text.TrimCutsWhitespace | pages/api/companies/index.ts:26 | `trim()` returns a contiguous piece of the text, and everything it removes before and after that piece is whitespace |
| Text.TrimEnds | pages/api/companies/index.ts:26 | the trimmed text is empty, or starts and ends with a non-whitespace character |
| Text.TrimEmpty | pages/api/companies/index.ts:26 | the trimmed text is empty exactly when the text is all whitespace, so a blank search counts as no search |
| Text.TrimIdempotent | pages/api/companies/index.ts:26 | trimming twice is trimming once |
| Text.Trim | pages/api/companies/index.ts:26 | definition of `trim()`: leading, then trailing whitespace removed; its meaning is stated by `Text.TrimCutsWhitespace`, `Text.TrimEnds` and `Text.TrimEmpty` |
| Text.Contains | pages/api/companies/index.ts:34 | substring search is true exactly when the needle occurs at some position |
| Text.ParseIntNegated | pages/api/companies/index.ts:22-23 | a minus sign before a text that reads as v gives -v |
| Text.ParseIntDecimal | pages/api/companies/index.ts:22-23 | `parseInt` reads back any decimal numeral, and any negated decimal numeral |
| Text.ParseIntNoDigits | pages/api/companies/index.ts:22-23 | a text with no decimal digit at all (empty, blank, a bare sign, a word) parses to NaN |
| Text.ParseInt | pages/api/companies/index.ts:22-23 | definition of `parseInt(s)` with no radix: skip leading whitespace, an optional sign, a `0x` prefix for base 16, then the longest digit run; `None` for `NaN`. Stated by `Text.ParseIntDecimal`, `Text.ParseIntNegated` and `Text.ParseIntNoDigits` |
| Text.StrLeTotal | pages/api/companies/countries.ts:20 | code-point order on strings is total |
| Text.StrLeTransitive | pages/api/companies/countries.ts:20 | code-point order on strings is transitive |
| Text.StrLeAntisymmetric | pages/api/companies/countries.ts:20 | code-point order on strings is antisymmetric |
| Filters.ConditionsMeaning | pages/api/companies/index.ts:30-44 | the pushed conditions hold exactly when all of these hold: a blank search, or the name contains the search ignoring case; role "importer" or "exporter" restricts the role, and any other role text restricts nothing; a blank country, or an equal country |
| Filters.BuildConditions | pages/api/companies/index.ts:30-44 | definition of `buildWhereClause`: a search condition, then a role condition, then a country condition, each only when its criterion calls for it. Stated by `Filters.ConditionsMeaning` |
| Filters.Criteria | pages/api/companies/index.ts:26-28 | definition of the criteria from the raw parameters: an absent parameter is "", and only the search is trimmed. Stated by `Filters.ConditionsMeaning` and `Filters.NoCriteriaSelectsAll` |
| Filters.SearchConditionMeaning | pages/api/companies/index.ts:32-35 | the search condition exists only for a non-empty search, and then holds exactly when the name contains the search ignoring case |
| Filters.RoleConditionMeaning | pages/api/companies/index.ts:36-38 | a role condition exists only for exactly "importer" or "exporter", and then selects that role |
| Filters.CountryConditionMeaning | pages/api/companies/index.ts:39-42 | the country condition exists only for a non-empty country, and then requires equality |
| Filters.MatchesAllConcat | pages/api/companies/index.ts:43 | conditions joined with AND: the joined list holds exactly when both parts hold |
| Filters.NoCriteriaSelectsAll | pages/api/companies/index.ts:43 | with no criteria there is no condition and every row passes |
| Filters.LikeLeadingPercent | pages/api/companies/index.ts:34 | a leading `%` in a `LIKE` pattern lets the rest match any suffix |
| Filters.LikeLiteralPrefix | pages/api/companies/index.ts:34 | a wildcard-free literal followed by `%` matches exactly the texts it prefixes |
| Filters.LikeIsSubstringWithoutWildcards | pages/api/companies/index.ts:34 | `LIKE '%s%'` is substring search when `s` has no wildcard |
| Filters.Like | pages/api/companies/index.ts:34 | definition of SQL `LIKE`: `%` matches any run of characters, `_` any one character, anything else itself. Stated by `Filters.LikeLeadingPercent` and `Filters.LikeLiteralPrefix` |
| Filters.SearchAsWritten | pages/api/companies/index.ts:34 | definition of the clause as written, `LOWER(name) LIKE LOWER('%search%')`. Stated by `Filters.SearchAsWrittenAgrees` and `Filters.UnderscoreMatchesAnyCharacter` |
| Filters.SearchAsWrittenAgrees | pages/api/companies/index.ts:34 | the `LIKE` clause agrees with the intended case-insensitive substring condition when the search has no `%` or `_` |
| Filters.UnderscoreLikeMatches | pages/api/companies/index.ts:34 | `LOWER('ABC Corp') LIKE LOWER('%a_c%')` holds |
| Filters.UnderscoreNotContained | pages/api/companies/index.ts:34 | "abc corp" does not contain "a_c" as a substring |
| Filters.UnderscoreMatchesAnyCharacter | pages/api/companies/index.ts:33-34 | searching "a_c" selects "ABC Corp" through `LIKE`, though the name does not contain "a_c" (see Findings) |
| Grouping.GroupBySpec | pages/api/companies/index.ts:86 | grouping gives distinct keys: a group exists exactly for each key that occurs. Each group's count and sum are those of its key's rows, every count is positive, and the counts add up to the number of rows |
| Grouping.GroupBy | pages/api/companies/index.ts:86 | definition of `GROUP BY` with `COUNT(*)` and `SUM`, as a fold that opens a bucket for a new key and adds to the bucket of a known one. Stated by `Grouping.GroupBySpec` |
| Grouping.GroupAt | pages/api/companies/index.ts:79-80 | the i-th group has count = rows with its key (at least 1) and sum = their summed value |
| Grouping.GroupByAppendDisjoint | pages/api/companies/index.ts:82-86 | grouping a concatenation of two row lists with disjoint keys is grouping each and concatenating |
| Grouping.GroupCountIsDistinctKeys | pages/api/companies/index.ts:57-60 | there are as many groups as distinct keys |
| Grouping.Distinct | pages/api/companies/countries.ts:15-19 | `DISTINCT`/`UNION` keeps each value once and no other value |
| Sorting.Sort | pages/api/companies/index.ts:89 | sorting returns a permutation of its input |
| Sorting.SortSorted | pages/api/companies/index.ts:89 | for a total, transitive ordering relation, the result is ordered |
| Sorting.SortSameElements | pages/api/companies/index.ts:89 | sorting keeps exactly the elements it was given |
| Sorting.SortDistinct | pages/api/companies/index.ts:89 | sorting keeps distinct keys distinct |
| Sorting.SortStable | pages/api/companies/index.ts:89 | an element that is ordered no later than a later element stays ahead of it, so tied elements keep their order |
| Companies.RoleRows | pages/api/companies/index.ts:82-84 | each shipment projects to one row in the role, carrying its name, country, role and tonnes |
| Companies.CompaniesOf | pages/api/companies/index.ts:75-86 | each group becomes one company row with its name, country, role, count and weight |
| Companies.FilterCompanies | pages/api/companies/index.ts:88 | `WHERE` keeps exactly the rows that meet every condition, and no more rows than it was given |
| Companies.FilterKeepsOrder | pages/api/companies/index.ts:88 | of two passing rows, the one that came first still comes first after `WHERE` |
| Companies.ListCompanies | pages/api/companies/index.ts:22-98 | the response has the normalised page and limit. Its rows are the window `LIMIT limit OFFSET (page - 1) * limit` of the ranked passing groups: at most `limit` whole groups that pass the filter, in non-increasing shipment count. `total` counts all passing groups. `totalPages` is the ceiling of total / limit, and is 0 when total is 0. The page is empty exactly when its number exceeds `totalPages` |
| Companies.ListPageRows | pages/api/companies/index.ts:86-90 | a page holds at most `limit` rows, in non-increasing shipment count, each a whole group that passes the filter |
| Companies.ListPageCounts | pages/api/companies/index.ts:49-98 | `total` is the number of passing groups, and the page is empty exactly when its number exceeds `totalPages` |
| Companies.ListPageTotals | pages/api/companies/index.ts:98 | `totalPages` is the ceiling of total / limit: 0 exactly when total is 0, otherwise (totalPages - 1) * limit < total <= totalPages * limit |
| Companies.ListPageSpec | pages/api/companies/index.ts:49-98 | the same promises, including the exact window of ranked groups, hold for every normalised page and limit |
| Companies.RankedSpec | pages/api/companies/index.ts:86-89 | the ranked list is a permutation of the passing groups, in non-increasing shipment count, and as long as the count query's total |
| Companies.RankedKeepsTies | pages/api/companies/index.ts:89 | of two passing groups with the same shipment count, the one formed first is listed first |
| Companies.ListPageSize | pages/api/companies/index.ts:90 | a page holds `limit` rows, or the total minus the offset when fewer remain, or none once the offset reaches the total |
| Companies.EarlierPagesRankHigher | pages/api/companies/index.ts:89-90 | every row on an earlier page has at least as many shipments as every row on a later page |
| Companies.GroupTotals | pages/api/companies/index.ts:79-80 | each group's `total_shipments` is the number of shipments naming its party, name and country in its role (at least 1). `total_weight` is their summed tonnes |
| Companies.GroupOf | pages/api/companies/index.ts:82-86 | every shipment's importer, and its exporter, heads a group with that name, country and role |
| Companies.GroupPartiesDistinct | pages/api/companies/index.ts:86 | no two groups share a (name, country, role) |
| Companies.GroupPartySound | pages/api/companies/index.ts:82-86 | every group's name and country belong to some shipment's party in that role |
| Companies.ProjectedGroups | pages/api/companies/index.ts:82-86 | importer rows and exporter rows never share a key, so grouping the `UNION ALL` is grouping each role and placing the importer groups first |
| Companies.ShipmentCountsSumToTwiceRecords | pages/api/companies/index.ts:82-86 | with no filter, the shipment counts add up to twice the number of shipments, since each shipment counts once per role |
| Companies.BothRolesListedSeparately | pages/api/companies/index.ts:82-86 | a name that both imports and exports yields two distinct rows |
| Companies.CountQueryIsGroupCount | pages/api/companies/index.ts:49-65 | the count query's total, grouping each role by name and country, equals the number of listing groups that pass the filter |
| Companies.CountQuery | pages/api/companies/index.ts:49-65 | definition of the count query: distinct (name, country) per role, importers then exporters, filtered, counted. Stated by `Companies.CountQueryIsGroupCount` |
| Companies.Ranked | pages/api/companies/index.ts:86-89 | definition of the passing groups in `ORDER BY total_shipments DESC` order. Stated by `Companies.RankedSpec` and `Companies.RankedKeepsTies` |
| Companies.ListPage | pages/api/companies/index.ts:49-98 | definition of the two queries for a normalised page and limit. Stated by `Companies.ListPageSpec`, `Companies.ListPageSize` and `Companies.EarlierPagesRankHigher` |
| Companies.FilterKeepsGroups | pages/api/companies/index.ts:88 | a group passes exactly when it matches every condition. Without conditions every group passes |
| Companies.PagesListEveryGroupOnce | pages/api/companies/index.ts:88-98 | pages 1..totalPages together list `total` rows: every passing group exactly once, in non-increasing shipment count |
| Countries.CountryColumn | pages/api/companies/countries.ts:15-19 | the `UNION` input holds a country exactly when some shipment has it as importer or exporter country |
| Countries.DropEmpty | pages/api/companies/countries.ts:24 | `filter(Boolean)` keeps exactly the non-empty names |
| Countries.DropEmptyKeepsOrder | pages/api/companies/countries.ts:24 | filtering keeps the order of the names it keeps |
| Countries.SortedCountriesAscending | pages/api/companies/countries.ts:15-20 | the distinct countries in `ORDER BY` order are strictly ascending |
| Countries.CountryListSpec | pages/api/companies/countries.ts:14-25 | a country is listed exactly when it is non-empty and some shipment has it as importer or exporter country. The list is strictly ascending and holds no empty name |
| Countries.CountryListedOnce | pages/api/companies/countries.ts:15 | no country is listed twice |
| Countries.CountryList | pages/api/companies/countries.ts:14-24 | definition of the handler: the `UNION` of both country columns, distinct, in `ORDER BY country` order, empty names dropped. Stated by `Countries.CountryListSpec` |
| Stats.GetStats | pages/api/analytics/stats.ts:20-30 | each total is the number of distinct importer or exporter names. It is at most the number of shipments, and at least 1 when there is one |
| Stats.NamesAppend | pages/api/analytics/stats.ts:22-23 | one more shipment adds its name to the set of names seen |
| Stats.KnownImporterUnchanged | pages/api/analytics/stats.ts:22 | one more shipment from an importer already seen leaves the importer total unchanged |
| Stats.NewImporterAddsOne | pages/api/analytics/stats.ts:22 | one more shipment from an importer not seen before adds exactly 1 to the importer total |
| Stats.ImportersIndependentOfExporters | pages/api/analytics/stats.ts:22 | the importer total depends on importer names only |
| Stats.SelfTradeCountsInBothTotals | pages/api/analytics/stats.ts:22-23 | one more shipment from a new party trading with itself adds 1 to the importer total and 1 to the exporter total |
| Stats.StatsIgnoreOrder | pages/api/analytics/stats.ts:20-25 | the totals do not depend on the order of the shipments |
| Commodities.CommodityRowsSum | pages/api/analytics/commodities.ts:23 | summing tonnes × 1000 per row is 1000 times a commodity's total tonnes |
| Commodities.RankedOrder | pages/api/analytics/commodities.ts:25-26 | the groups in `ORDER BY kg DESC` order are heaviest first, and no commodity has two groups |
| Commodities.RankedSize | pages/api/analytics/commodities.ts:25 | there are as many groups as distinct commodity names |
| Commodities.RankedWeight | pages/api/analytics/commodities.ts:22-25 | each group is a commodity that occurs, and its `kg` is 1000 times that commodity's total tonnes |
| Commodities.RankedCovers | pages/api/analytics/commodities.ts:25 | every commodity that occurs has a group |
| Commodities.TopIsPrefix | pages/api/analytics/commodities.ts:26-34 | the answer is the first min(5, number of groups) groups, each renamed to `{commodity, kg}` |
| Commodities.TopCommoditiesOrdered | pages/api/analytics/commodities.ts:26-27 | at most 5 rows, `kg` non-increasing, no commodity named twice |
| Commodities.TopCommodityWeight | pages/api/analytics/commodities.ts:22-34 | each returned row names a commodity that occurs, and its `kg` is 1000 times that commodity's total tonnes |
| Commodities.TopCommoditiesAreHeaviest | pages/api/analytics/commodities.ts:26-27 | every commodity is either returned, or 5 rows are returned and it weighs no more than the fifth |
| Commodities.FewCommoditiesAllReturned | pages/api/analytics/commodities.ts:27 | with at most 5 commodities, every one of them is returned |
| Commodities.TopCommodities | pages/api/analytics/commodities.ts:20-34 | definition of the handler: group by commodity summing tonnes × 1000, order by `kg` descending, keep 5, rename. Stated by the `Commodities.TopCommodities…` and `Commodities.TopIsPrefix` lemmas |
| Monthly.YearText | pages/api/analytics/monthly.ts:23 | `%Y` renders the year as four decimal digits |
| Monthly.YearTextValue | pages/api/analytics/monthly.ts:23 | the four digits read back as the year |
| Monthly.MonthLabel | pages/api/analytics/monthly.ts:23 | definition of `strftime(…, '%b %Y')`: English month abbreviation, a space, the four-digit year. Stated by `Monthly.LabelRoundTrip` and `Monthly.LabelsIdentifyMonths` |
| Monthly.LabelRoundTrip | pages/api/analytics/monthly.ts:23 | a `'%b %Y'` label reads back as its date's year and month |
| Monthly.LabelsIdentifyMonths | pages/api/analytics/monthly.ts:23-27 | two dates share a label exactly when they share year and month, so each group is one calendar month |
| Monthly.EarliestOccurs | pages/api/analytics/monthly.ts:25 | `MIN(shipment_date)` of a month is the date of one of that month's shipments |
| Monthly.EarliestIsLeast | pages/api/analytics/monthly.ts:25 | no shipment of the month is dated earlier than `MIN(shipment_date)` |
| Monthly.EarliestStep | pages/api/analytics/monthly.ts:25 | one more shipment never moves a month's `MIN(shipment_date)` later |
| Monthly.Earliest | pages/api/analytics/monthly.ts:25 | definition of `MIN(shipment_date)` over a month's shipments. Stated by `Monthly.EarliestOccurs` and `Monthly.EarliestIsLeast` |
| Monthly.MonthRowsSum | pages/api/analytics/monthly.ts:24 | summing tonnes × 1000 per row is 1000 times the month's total tonnes |
| Monthly.MonthGroupAt | pages/api/analytics/monthly.ts:22-27 | each group is a month that occurs, with `kg` 1000 times its tonnes and `min_date` its earliest date |
| Monthly.MonthGroupsCover | pages/api/analytics/monthly.ts:27 | every shipment's month has a group |
| Monthly.MonthGroupsDistinct | pages/api/analytics/monthly.ts:27 | no two groups share a label |
| Monthly.SeriesRowIsGroup | pages/api/analytics/monthly.ts:31-35 | each returned row is a group with its `min_date` dropped |
| Monthly.MonthlySeriesWeights | pages/api/analytics/monthly.ts:24-35 | each returned month occurs, and its `kg` is 1000 times its tonnes |
| Monthly.MonthlySeriesCovers | pages/api/analytics/monthly.ts:27-35 | every shipment's month appears in the series |
| Monthly.MonthlySeriesOrdered | pages/api/analytics/monthly.ts:28 | rows come in strictly increasing earliest-date order, and no label repeats |
| Monthly.MonthlySeriesChronological | pages/api/analytics/monthly.ts:23-28 | each row's label reads back as a (year, month) strictly after the previous row's |
| Monthly.SeriesIsChronological | pages/api/analytics/monthly.ts:23-28 | every label in the series reads back as a (year, month), each strictly after all earlier rows' |
| Monthly.EarlierMonthFirst | pages/api/analytics/monthly.ts:28 | in chronological rows, a row whose label reads as an earlier month comes first |
| Monthly.DecemberBeforeJanuary | pages/api/analytics/monthly.ts:28 | a "Dec 2023" row always comes before a "Jan 2024" row |
| Monthly.MonthlySeries | pages/api/analytics/monthly.ts:21-35 | definition of the handler: group by label summing tonnes × 1000 and taking the earliest date, order by that date, drop it. Stated by the `Monthly.MonthlySeries…` lemmas and `Monthly.SeriesIsChronological` |

## Left out

- HTTP plumbing is not modelled: the 405 answer to non-GET methods, the 500 answer when the store query fails, logging, and JSON encoding.
- The record store's loading and SQL engine are not modelled. The queries are modelled by what they compute, not by SQL text or a parser.
- SQL `NULL` is not modelled. Every text column is a string, and an empty country stands for what `filter(Boolean)` drops.
- Text.ParseInt: reads an exact integer, while JavaScript's `parseInt` returns a double. A numeral above 2^53 is rounded in the handler (`?page=9007199254740993` answers `page` 9007199254740992), and this rounding is not modelled.
- Text.ParseIntDecimal: holds of the model; the handler's `parseInt` reads back numerals only up to 2^53 exactly, because of the rounding above.
- Paging.PageRoundTrip: holds of the model; in the handler a page number above 2^53 comes back rounded, because of the same rounding. An offset of 10^21 or more, which JavaScript writes in exponent form (`1e+21`) inside the SQL text, is not modelled either.
- Weights are whole tonnes (`nat`). Fractional weights, floating-point rounding of sums, and `Number(...)` conversion of large sums are not modelled.
- Dates are (year 0..9999, month, day) triples. Parsing the stored date text, time zones, and years outside four digits are not modelled.
- `toLowerCase`/`LOWER` is ASCII-only here. `trim()` and `parseInt` treat a fixed set of whitespace characters. Unicode case folding and the full Unicode whitespace class are not modelled.
- `ORDER BY country` is modelled as code-point order. Locale collation is not modelled.
- A query parameter repeated in the URL (an array value) is not modelled. Each parameter is absent or one string.
- A minimum of one page is not modelled. With no matching rows the handler computes `Math.ceil(0 / limit)` and returns `totalPages` 0 (pages/api/companies/index.ts:98). The dashboard shows `totalPages || 1` (pages/companies.tsx:94), but that is display code; the model follows the handler.
- The order of rows with equal sort keys: SQL leaves it open. The model fixes one order, the first-seen order of the groups.
- The quote escaping in the search and country clauses is not modelled. The model compares the raw text, which is what the escaping achieves for `'`.
- Company websites are carried in the record but no modelled handler reads them.
- The company-detail handler `pages/api/companies/[name].ts` is not part of this model.
- The dashboard page `pages/companies.tsx` is not part of this model.

## Findings

| source | as written | input that shows it | evidently intended | confidence | as-written member | corrected member |
|---|---|---|---|---|---|---|
| pages/api/companies/index.ts:33-34 | The search text is escaped only for quotes and pasted into `LIKE '%…%'`, so `_` and `%` typed by the user act as wildcards | search "a_c" lists a company named "ABC Corp", whose name does not contain "a_c" | the name contains the search text literally, ignoring case | not executed | Filters.UnderscoreMatchesAnyCharacter | Filters.ConditionsMeaning |

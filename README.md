# EV registration dashboard: a Dafny model

This project models the data side of a small electric-vehicle dashboard. It has two parts:

* `MockDataGenerator` (`data/mockData.js`) makes random vehicle-registration
  records. Each record gets a weighted-random manufacturer and vehicle type, a
  year from 2015 to the current year, a model from the manufacturer's catalog,
  a region, a price rounded to the nearest thousand, and a jittered battery
  capacity and range.
* `EVDashboard` (`script.js`) holds those records and a filtered view of them.
  The view is chosen by three dropdowns and a search box. The dashboard also
  computes the insight tallies (`getTopItems`), the page of ten rows the table
  shows, the pagination buttons, and the dropdown option lists.

Files:

* `seqs.dfy` (module `Seqs`): general sequence vocabulary. It has counting,
  duplicate removal in first-occurrence order (what spreading a `Set` gives),
  subsequences, sums, and a stable insertion sort by an integer rank.
* `text.dfy` (module `Text`): the string operations the dashboard relies on.
  These are ASCII `toLowerCase`, `includes`, and the decimal `toString` of
  integers together with its inverse.
* `mock_data.dfy` (module `MockData`): the generator, as shown below.
  * Each `Math.random()` call is an explicit draw `u` with `0 <= u < 1`. A
    `Draws` value holds the seven draws one record uses.
  * Arithmetic is on exact reals. `Math.round(x)` is `floor(x + 0.5)`.
  * The price is computed in integer fixed point: tenths for the
    manufacturer and type multipliers, hundredths for the year multiplier.
  * `weightedRandom` is a loop that subtracts weights from the scaled draw.
    It is proved equal to an inverse-CDF rule on cumulative weights.
  * `generateData` is a loop. Record `i` comes from `draws[i]` and `ids[i]`.
* `dashboard.dfy` (module `Dashboard`): the dashboard, as shown below.
  * The filter predicate, the tallies, paging and the option lists are pure
    functions.
  * `getTopItems` is a method. It counts into a map with a loop, lists the
    map's properties in `Object.entries` order (array-index names ascending,
    then the other names in creation order), sorts by descending count and
    slices. The method is proved equal to a functional specification, and
    the properties of the result are lemmas about that specification.
  * The class `EVDashboard` keeps the fields the handlers update. Its
    methods modify those fields. `Valid()` is the invariant they keep: the
    page cursor is in range, and the view is an order-preserving selection
    of the records.

## Model

| member | source | states |
|---|---|---|
| Seqs.Unique | script.js:85-86 | `[...new Set(values)]` has no duplicates and has exactly the members of `values` |
| Seqs.UniqueInFirstOccurrenceOrder | script.js:85-86 | the `Set` spread lists values in the order they first appear |
| Seqs.SortBy | script.js:165 | the sort returns a permutation of its input, ordered by the rank |
| Seqs.SortByStable | script.js:165 | the sort is stable: an input ordered by a second key comes out ordered by the rank, and equal ranks by that key |
| Seqs.SumPermutation | script.js:164-165 | reordering the entries leaves the sum of their counts unchanged |
| Text.LowerAscii | script.js:114 | `toLowerCase` keeps the length, maps each character and leaves no upper-case letter |
| Text.ContainsIffOccursAt | script.js:114 | `includes(term)` holds exactly when `term` occupies some position of the text |
| Text.LowerContainsIffOccursIgnoringCase | script.js:114 | the lower-cased text includes the lower-cased term exactly when the term occupies some position of the text up to letter case |
| Text.ContainsLowered | script.js:114 | a term the text includes as typed is still included after both are lower-cased |
| Text.IntToString | script.js:111 | `toString()` of an integer is non-empty and begins with `-` exactly for negatives |
| Text.IntToStringRoundTrip | script.js:111 | parsing the rendering of an integer gives back that integer |
| Text.IntToStringInjective | script.js:111 | two integers render equally exactly when they are equal, so the year dropdown compares years |
| MockData.Round | data/mockData.js:110 | `Math.round(x)` is the integer `n` with `n - 1/2 <= x < n + 1/2` (halves round up) |
| MockData.RoundRatio | data/mockData.js:99 | `Math.round(n / d)` computed on integers lies within half a unit of `n / d` |
| MockData.WeightedRandom | data/mockData.js:46-55 | the subtracting loop returns `Pick(items, u)`, and `undefined` (None) for an empty list |
| MockData.Pick | data/mockData.js:46-55 | the picked item is one of the items |
| MockData.PickIndexIsFirstReaching | data/mockData.js:50-54 | the pick is the first item whose cumulative weight reaches the scaled draw; only if none does is it the first item |
| MockData.NonNegativeWeightsNeverFallBack | data/mockData.js:47-54 | with non-negative weights and a draw below 1 the `items[0]` fallback never decides |
| MockData.NonPositiveTargetPicksFirst | data/mockData.js:51-52 | a draw of 0 picks the first item by the threshold itself, not by the fallback |
| MockData.CatalogWeightsSumToOne | data/mockData.js:3-18 | both weight tables are non-negative and sum to 1 |
| MockData.UniformIndex | data/mockData.js:39 | `Math.floor(u * n)` is a valid index into a list of length `n` |
| MockData.RandomYear | data/mockData.js:57-59 | from 2015 on, the year lies between 2015 and the current year |
| MockData.GenerateModel | data/mockData.js:61-74 | the model comes from the manufacturer's catalog, and is `Generic Model` for an unknown manufacturer |
| MockData.GenerateModelIgnoresType | data/mockData.js:61 | the vehicle-type argument does not influence the model |
| MockData.ManufacturerMultiplier | data/mockData.js:80-85 | the multiplier is between 0.8 and 1.4, and 1 for an unlisted manufacturer |
| MockData.TypeMultiplier | data/mockData.js:88-93 | the multiplier is between 1 and 2.5, and 1 for an unlisted type |
| MockData.MultiplierProduct | data/mockData.js:98 | the product of the two multipliers is between 0.8 and 3.5 |
| MockData.GeneratePriceRounds | data/mockData.js:76-100 | the price is a multiple of 1000, and price/1000 is the rounding of the multiplied price over 1000 |
| MockData.PriceSign | data/mockData.js:96-99 | the price is positive from 2015 on, and non-negative exactly from 1982 on |
| MockData.PriceNonDecreasingInYear | data/mockData.js:96-99 | for a fixed manufacturer and type a later year is never cheaper |
| MockData.TeslaTruckPrice2015 | data/mockData.js:76-100 | a 2015 Tesla truck costs 35000 * 1.4 * 1.4 = 68600, which rounds to 69000 |
| MockData.PriceWellFormed | data/mockData.js:76-100 | from 2015 on a price is a positive multiple of 1000 |
| MockData.BaseCapacity | data/mockData.js:103-108 | the base capacity is between 60 and 150 kWh, and 60 for an unlisted type |
| MockData.BaseRange | data/mockData.js:114-119 | the base range is between 150 and 250 miles, and 200 for an unlisted type |
| MockData.JitterBounds | data/mockData.js:110 | jittering by `0.9 + u * 0.2` keeps a value between 0.9 and 1.1 times itself |
| MockData.GenerateBatteryCapacity | data/mockData.js:102-111 | the capacity lies between the rounded 0.9 and 1.1 multiples of the base, and is at least 54 |
| MockData.GenerateRangeBounds | data/mockData.js:113-125 | the range lies between the rounded 0.9 and 1.1 multiples of the year-adjusted base range |
| MockData.RangePositive | data/mockData.js:113-125 | from 2015 on the range is at least 135 miles |
| MockData.RangeNonDecreasingInYear | data/mockData.js:121-124 | for a fixed type and draw a newer vehicle never has less range |
| MockData.BusBoundsExamples | data/mockData.js:102-125 | a bus has 135 to 165 kWh; its range is 135 to 165 miles in 2015 and 189 to 231 in 2023 |
| MockData.RangeWellFormed | data/mockData.js:113-125 | from 2015 on the range is positive and inside its jitter interval |
| MockData.EntryWellFormed | data/mockData.js:28-44 | a record built from valid draws has catalog names, a model of its maker, an in-range year, a listed region, and a price, capacity and range within their bounds |
| MockData.GenerateEntry | data/mockData.js:28-44 | the method builds the record `Entry` describes, and it is well formed from 2015 on |
| MockData.GenerateData | data/mockData.js:24-26 | the loop yields `max(count, 0)` records; record `i` comes from the i-th draws and id, and each is well formed |
| MockData.EntriesWellFormed | data/mockData.js:24-26 | every generated record is well formed |
| Dashboard.FilterRecords | script.js:107-118 | the view holds exactly the records that pass all four tests, and is no longer than the data |
| Dashboard.FilterIsSubsequence | script.js:108 | filtering keeps the records in their original order |
| Dashboard.FilterAppend | script.js:108 | filtering a concatenation is the concatenation of the filtered parts |
| Dashboard.NoFiltersKeepAll | script.js:109-117 | with empty dropdowns and an empty search the view is the whole data |
| Dashboard.FilterIdempotent | script.js:107-118 | filtering the view again changes nothing |
| Dashboard.YearFilterSelectsYear | script.js:111 | the year dropdown set to a year's rendering keeps exactly that year's records |
| Dashboard.SearchFindsAnyCase | script.js:112-115 | a record matches the lower-cased input exactly when one of its property values holds the input up to letter case, in particular whenever one contains it as typed |
| Dashboard.SearchKeepsMatchingRecords | script.js:107-118 | with the lower-cased input as search term, every record that passes the dropdowns and holds the input up to case in some property stays in the view |
| Dashboard.ObjectKeyOrder | script.js:164 | `Object.entries` lists each property name exactly once |
| Dashboard.YearTallyKeysAscending | script.js:164 | the year tally's names are array indices, so they come out in ascending numeric order |
| Dashboard.TopYearsTiesAscending | script.js:158-167 | in the year insights, years with equal counts are listed in ascending order |
| Dashboard.TalliesIncrement | script.js:160 | `acc[k] = acc[k] + 1` for a counted key keeps the tally exact for the values seen so far |
| Dashboard.TalliesInsert | script.js:160 | `acc[k] = 0 + 1` for a new key adds it as the newest property with count 1 |
| Dashboard.CountKeys | script.js:159-162 | the `reduce` loop maps each value to its number of occurrences and lists the names in creation order |
| Dashboard.TalliesCoverReordering | script.js:164 | `Object.entries(counts)` pairs each property name, in whatever order the names are listed, with its number of occurrences |
| Dashboard.TopItems | script.js:158-167 | the count, entries, sort and slice method equals `TopItemsOf`, the specification the next lemmas are about |
| Dashboard.SortedTallyCounts | script.js:159-165 | every sorted entry names a key from the data together with its exact count |
| Dashboard.SortedTallyComplete | script.js:159-165 | a key has an entry exactly when it occurs in the data |
| Dashboard.SortedTallySum | script.js:159-165 | the counts of all entries add up to the number of records |
| Dashboard.TopItemsCounts | script.js:158-167 | every reported entry has the exact count of a key present in the data, and the count is at least 1 |
| Dashboard.TopItemsDistinctKeys | script.js:158-167 | no key is reported twice |
| Dashboard.TopItemsDescending | script.js:165 | counts never increase along the result |
| Dashboard.TopItemsLength | script.js:166 | the result has `limit` entries, or one per distinct key if there are fewer |
| Dashboard.TopItemsWithoutLimit | script.js:158-166 | without a limit every key is reported, and the counts add up to the number of records |
| Dashboard.TopItemsAreTop | script.js:165-166 | a key cut off by the limit occurs no more often than any reported key |
| Dashboard.Take | script.js:166 | `slice(0, limit)` is the whole list without a limit, and otherwise its first `limit` entries |
| Dashboard.TypeOptionsPresent | script.js:85 | the type options have no duplicates and are exactly the vehicle types in the data |
| Dashboard.TypeOptionsInFirstAppearanceOrder | script.js:85 | the type options follow the order in which the types first appear in the data |
| Dashboard.ManufacturerOptionsPresent | script.js:86 | the manufacturer options have no duplicates and are exactly the manufacturers in the data |
| Dashboard.ManufacturerOptionsInFirstAppearanceOrder | script.js:86 | the manufacturer options follow the order in which the manufacturers first appear in the data |
| Dashboard.YearOptionsPresent | script.js:87 | the year options are exactly the years in the data |
| Dashboard.YearOptionsAscending | script.js:87 | the year options are strictly ascending |
| Dashboard.TotalPages | script.js:280 | `Math.ceil(n / 10)` is the least page count whose pages hold `n` rows |
| Dashboard.RelativeIndex | script.js:251 | `slice` clamps a non-negative argument to the length, and a negative one counts from the end |
| Dashboard.PageSlice | script.js:248-251 | page `p` shows rows `10(p-1)` up to `10p` clamped to the view: at most 10 rows, and some rows for every existing page |
| Dashboard.PagesUpToIsPrefix | script.js:248-251 | pages 1 to `k` together are the first `10k` rows, without gap or overlap |
| Dashboard.PagesCoverRows | script.js:248-251 | paging through all pages shows every row exactly once, in order |
| Dashboard.PreviousPageStep | script.js:287-292 | `previousPage` moves back by one exactly when not on page 1 |
| Dashboard.NextPageStep | script.js:294-300 | `nextPage` moves forward by one exactly when a later page exists |
| Dashboard.PageStepsStayInRange | script.js:287-300 | both steps keep the cursor between 1 and the largest page |
| Dashboard.PaginationAsWritten | script.js:279-285 | the label shows the current page and `Math.ceil(n / 10)` |
| Dashboard.PaginationAsWrittenMatchesSteps | script.js:279-285 | on a non-empty view each button is disabled exactly when clicking it does nothing |
| Dashboard.NextEnabledOnEmptyView | script.js:279-285 | on an empty view Next stays enabled although `nextPage` does nothing |
| Dashboard.Pagination | script.js:279-285 | Previous is disabled exactly on page 1, and on a non-empty view the controls equal the code as written |
| Dashboard.PaginationMatchesSteps | script.js:279-285 | in every valid state, empty view included, each button is disabled exactly when clicking it does nothing |
| Dashboard.EVDashboard.constructor | script.js:62-68 | the constructor with `loadData` generates 1000 records and shows them all on page 1, with no filters, no search and light theme |
| Dashboard.EVDashboard.ApplyFilters | script.js:107-122 | the view becomes the filtered records, the cursor returns to page 1, and the invariant holds |
| Dashboard.EVDashboard.SelectOption | script.js:36-38 | a dropdown change sets that dropdown only, then applies the filters |
| Dashboard.EVDashboard.ResetFilters | script.js:124-131 | the dropdowns are cleared, the view is all records on page 1, and the search term is kept |
| Dashboard.EVDashboard.PreviousPage | script.js:287-292 | the cursor takes `PreviousPageStep` and stays valid |
| Dashboard.EVDashboard.NextPage | script.js:294-300 | the cursor takes `NextPageStep` and stays valid |
| Dashboard.EVDashboard.ToggleTheme | script.js:302-303 | the dark-mode flag flips |
| Dashboard.EVDashboard.HandleSearch | script.js:326-329 | the lower-cased input becomes the search term, then the filters are applied |
| Dashboard.EVDashboard.PageData | script.js:248-251 | the table shows at most 10 rows, all from the view, and some row whenever the view is non-empty |
| Dashboard.EVDashboard.Controls | script.js:279-285 | the rendered controls, with the `===` test as written: Previous is disabled exactly when clicking it does nothing; on a non-empty view so is Next, and on an empty view Next stays enabled |

## Left out

- The page itself is not modelled: DOM lookups, event wiring, HTML rendering, Chart.js charts and their theme colours (`updateInsights`, `updateCharts`, `createOrUpdateChart`, `updateChartTheme`, `populateSelect`). What they compute from the data (`getTopItems`, the option lists, the page slice, the pagination flags) is modelled. These are I/O.
- `initializeElements`'s early return when an element is missing is not modelled. The model assumes every element exists.
- `showModal`, `closeModal`, `generateModalContent` and `selectedEntry` are not modelled. They only render a record.
- `console` logging, `toLocaleString` and the `try`/`catch` around `loadData` are not modelled. They are output only.
- `Math.random()` is not called. Its results are the caller's `Draws`.
- `crypto.randomUUID()` is not called. Its results are the caller's `ids`.
- `new Date().getFullYear()` is not called. It is the `currentYear` parameter.
- Arithmetic is on exact reals, not IEEE-754 doubles. A product that a double rounds onto or off an exact `.5` can round differently. Weight sums such as 0.3 + 0.15 + … are exactly 1 here.
- MockData.RandomYear: the bound `year <= currentYear` holds for exact reals only. Under doubles, a draw within about 2^-46 of 1 makes `2015 + u * (currentYear - 2014)` round up to `currentYear + 1` before `Math.floor` (data/mockData.js:58), giving a year one past the current one.
- The tie order of equal counts is proved for the year insights only. For manufacturer and type names the same stability lemma applies, with creation order as the second key, but that instance is not stated.
- `toLowerCase` is modelled for ASCII letters only. Full Unicode case mapping is not modelled.
- `toString` is modelled for integers only. These are the only numbers a record holds.
- Property lookups in object literals are modelled as plain maps. A name inherited from `Object.prototype`, such as `constructor`, used as a manufacturer or vehicle type is not modelled. The same holds for the tally accumulator.
- `|| 1` and `|| 60` fall back on any falsy lookup, but every table value is non-zero. The model falls back only on a missing key, which is the same result.
- Dashboard.YearOptionsAscending: the model sorts years numerically, while `sort()` with no comparator compares their strings. The two orders agree for the four-digit years the generator produces.
- Dashboard.TopItems: `limit` is either absent or a natural number, which covers the calls in the source. A negative or fractional `slice` end is not modelled.
- MockData.GenerateData: `count` is an integer. A fractional or non-numeric length for `Array.from` is not modelled.
- Dashboard.EVDashboard.constructor: `rowsPerPage` is the constant 10 and `charts` is not kept. Neither is ever changed in a way the data view relies on.

## Findings

| source | as written | input that shows it | evidently intended | confidence | as-written member | corrected member |
|---|---|---|---|---|---|---|
| script.js:279-285 | Next is disabled only when `currentPage === totalPages` | a filter or search that matches no record: `totalPages` is 0 and `currentPage` is 1, so Next stays enabled (and the label reads "Page 1 of 0") while `nextPage` does nothing | Next disabled whenever no later page exists (`currentPage >= totalPages`) | not executed | Dashboard.NextEnabledOnEmptyView | Dashboard.PaginationMatchesSteps |

`Dashboard.EVDashboard.Controls` renders the controls as the program does, so its contract states the empty-view case as written. `Dashboard.Pagination` is the corrected rule, and `Dashboard.PaginationMatchesSteps` proves it.

# Shopping Behavior Dashboard: a verified model of its data core

This project models the data side of the Shopping Behavior Dashboard. The
dashboard is a single-page Shiny app that loads a spreadsheet of retail
transactions. Users narrow the data with three selectors (Season, Gender,
Category), and the app shows counts and charts computed from the filtered
rows. The model covers:

- **Loading.** The `State_Abbrev` column is derived from `Location` through
  the 50-entry `state_map`. Rows without a code are then dropped.
- **Selector choices.** Each selector offers `"All"`, then the sorted
  distinct values of its column.
- **`get_filtered`.** The base table is narrowed by every selection other
  than `"All"`. Row order is kept.
- **Derived columns.**
  - The age group comes from `pd.cut` with edges `[0,20,30,40,50,60,100]`
    and `right=False`.
  - The discount status comes from the `replace` table.
- **The integer aggregations behind the cards and charts:**
  - the purchase count and the distinct customer and category counts, with
    their `f"{n:,}"` rendering
  - group-by counts (item, color, category × item, gender × category,
    discount status, payment method, category × discount status)
  - the ten most frequent (age group, item) pairs
  - the most popular shipping type per state

Rows are `Records.Record` values, and every cell is an `Option`. A table is
a `seq<Record>`. Group-by results are `seq<Group<K>>` (key, count) with
distinct keys. `Tables.IsCountTable(groups, keys)` says what a group-by
result means:

- every group's count equals the number of occurrences of its key, and is
  at least 1
- every observed key has a group
- the counts add up to the number of rows grouped

The loader and `get_filtered` rebind a table variable step by step, so they
are methods. The rest are functions over values, with lemmas that tie them
to their meaning.

The modules follow the program's structure:

| file | module | contents |
|---|---|---|
| `wrappers.dfy` | `Wrappers` | `Option` |
| `strings.dfy` | `Strings` | Python string order, sorted-unique, `f"{n:,}"` |
| `records.dfy` | `Records` | the row type and `state_map` |
| `tables.dfy` | `Tables` | boolean-mask selection, `dropna`, group-by counts, sorting by count, `head(n)` |
| `loader.dfy` | `Loader` | the loader and the selector choices |
| `filter.dfy` | `Filter` | `get_filtered` |
| `derived.dfy` | `Derived` | age groups and discount status |
| `aggregates.dfy` | `Aggregates` | the cards and charts |
| `shipping.dfy` | `Shipping` | the shipping map |

**The sentinel is not filtered from the data.** The choices are `"All"`
prepended to the sorted distinct values of a column (app.py lines 43-45).
Nothing removes a data value equal to `"All"`, so a column holding that text
would offer it twice. `Loader.Choices` follows the code: `r[1..]` is every
observed value, whatever it is.

## Model

| member | source | states |
|---|---|---|
| Records.StateMapRoundTrip | app.py:10-25 | the 50 names and codes of `state_map`: every code is two upper-case letters and names its state back through the reverse table |
| Records.StateNameRoundTrip | app.py:10-25 | every name the reverse table gives maps back to its code, so `state_map` has a code for exactly those 50 names and none for any other name |
| Records.StateCode | app.py:27 | a row gets a code exactly when its location is one of the 50 state names in `state_map`, and that code names the location back |
| Records.StateMapInjective | app.py:10-25 | no two state names share a code, so grouping by (Location, State_Abbrev) is grouping by State_Abbrev alone |
| Loader.WithStateCodes | app.py:27 | the column assignment keeps the row count and sets each row's code from its own location |
| Loader.DeriveThenDrop | app.py:27-28 | deriving the code and then dropping rows without one gives the same table as dropping unmapped rows first |
| Loader.SurvivesIffMappable | app.py:27-28 | a raw row is in the loaded table, tagged, exactly when its location maps |
| Loader.KeptFromMappable | app.py:27-28 | every loaded row is the tagged form of a raw row whose location maps |
| Loader.SameCodeSameLocation | app.py:10-28 | two loaded rows with the same state code have the same location |
| Loader.Load | app.py:27-28 | every retained row has a mapped location and the code `state_map` gives it; a raw row survives iff its location maps; rows keep their order (a subsequence of the tagged table) |
| Loader.ColumnValues | app.py:43-45 | the non-missing values of a selector column are exactly the values some row holds |
| Loader.Choices | app.py:43-45 | the choices start with "All", then list every observed value exactly once (no two entries after "All" are equal), in strictly ascending Python string order, and nothing else |
| Strings.LessIrreflexive | app.py:43 | Python's `<` on strings is irreflexive |
| Strings.LessTransitive | app.py:43 | Python's `<` on strings is transitive |
| Strings.LessTotal | app.py:43 | any two different strings are ordered one way or the other |
| Strings.InsertUnique | app.py:43 | inserting into a strictly sorted list keeps it strictly sorted and adds exactly that value |
| Strings.SortedDistinct | app.py:43 | `sorted(unique(values))` is strictly ascending and holds exactly the values given |
| Strings.DecimalDigitsCanonical | app.py:55 | `str(n)` is all digits, non-empty, reads back as n, and starts with '0' only for 0 |
| Strings.InsertCommasShape | app.py:55 | inserting separators into a numeral gives groups of three after a 1-3 digit head, and removing the commas restores the numeral |
| Strings.StripAppend | app.py:55 | removing commas distributes over concatenation |
| Strings.FormatThousands | app.py:55 | `f"{n:,}"` is thousands-grouped, and stripping its commas gives exactly the decimal digits of n, whose value is n |
| Tables.Keep | app.py:33 | a boolean mask keeps exactly the rows that satisfy it, each as many times as the table holds it, and drops every other row |
| Tables.KeepIsSubsequence | app.py:33 | masking keeps rows in their original order |
| Tables.KeepAll | app.py:31-38 | a mask every row satisfies keeps the whole table |
| Tables.KeepCongruent | app.py:32-37 | masks that agree on every row select the same table |
| Tables.KeepKeep | app.py:32-37 | two masks applied in turn equal their conjunction applied once |
| Tables.KeepIdempotent | app.py:30-38 | applying a mask twice equals applying it once |
| Tables.Present | app.py:67 | `dropna` on a key keeps exactly the key values some row holds |
| Tables.PresentLength | app.py:67 | `dropna` yields one key value per row whose key is present |
| Tables.PresentCounts | app.py:67 | each key value occurs once per row holding it, so counts over the key column are counts of rows |
| Tables.Bump | app.py:104 | counting one more occurrence raises that key's count by one and leaves the other groups unchanged |
| Tables.Tally | app.py:104 | the group-by size table is a count table of its keys |
| Tables.CountTableLookup | app.py:104 | looking a key up in a count table gives its number of occurrences, 0 if absent |
| Tables.CountTableSize | app.py:68 | a count table has one group per distinct key (`nunique`) |
| Tables.SortByCountDesc | app.py:105 | `sort_values("Count", ascending=False)` gives non-increasing counts and a permutation of the groups |
| Tables.SortedCountTable | app.py:105 | sorting a count table by count keeps it a count table of the same keys |
| Tables.TopByCount | app.py:188-189 | `sort_values(...).head(n)`: min(n, groups) groups, non-increasing, drawn from the table; every left-out group has a count no larger than any kept one; the whole table when it has at most n groups |
| Tables.TopObserved | app.py:186-189 | every kept pair was observed, with its true count |
| Tables.TopLeftOut | app.py:186-189 | no observed key left out of the top n has a larger count than a kept one |
| Tables.TopDistinct | app.py:186-189 | `head(n)` of a table with distinct keys has distinct keys |
| Tables.TopCoversFew | app.py:186-189 | when there are at most n keys, each of them is kept |
| Tables.TakeSorted | app.py:188-189 | a prefix of a sorted table is sorted, and no element after it has a larger count |
| Tables.MaxGroup | app.py:253-254 | the first row after sorting by count, largest first, is a group whose count no other group exceeds |
| Filter.Where | app.py:33 | `d[d[c] == v]` keeps exactly the rows whose cell is v, every copy of each, in order; a missing cell matches nothing |
| Filter.NarrowKeeps | app.py:32-37 | each step keeps exactly the rows passing that column's selection; "All" keeps everything |
| Filter.NarrowThree | app.py:32-37 | the three steps together keep exactly the rows the whole selection admits |
| Filter.GetFiltered | app.py:30-38 | the result is a subsequence of the table; each of its rows meets every non-"All" selection; no matching row is left out; all-"All" returns the whole table |
| Filter.FilterIdempotent | app.py:30-38 | filtering the filtered table again with the same selection changes nothing |
| Derived.AgeGroupOf | app.py:181-185 | an age gets group b iff it lies in [left edge, right edge) of b's bin, and no group iff it is below 0 or at least 100 |
| Derived.LabelsDistinct | app.py:184 | the six labels are pairwise different |
| Derived.AgeGroupBoundaries | app.py:181-185 | 19 is "<20", 20 is "20-29", 59 is "50-59", 60 and 99 are "60+", 0 is "<20", and -1 and 100 fall outside |
| Derived.NormalizeDiscount | app.py:204-208 | 0, "No" and "False" become "No Discount"; 1, "Yes" and "True" become "Discount Applied"; anything else is unchanged |
| Derived.NoDiscountExactly | app.py:233-237 | a cell counts as "No Discount" iff it is one of its three spellings or already that text |
| Derived.DiscountAppliedExactly | app.py:233-237 | a cell counts as "Discount Applied" iff it is one of its three spellings or already that text |
| Derived.NormalizeIdempotent | app.py:204-208 | replacing twice equals replacing once |
| Aggregates.TotalPurchases | app.py:55 | the card text is thousands-grouped, and its digits spell the row count |
| Aggregates.DistinctCount | app.py:68 | `nunique` is the number of distinct values |
| Aggregates.UniqueCustomers | app.py:66-68 | the card text is thousands-grouped, and with its commas removed it is the decimal numeral (no leading zero) of the number of distinct non-missing customer ids |
| Aggregates.NumCategories | app.py:80-82 | the card text is thousands-grouped, and with its commas removed it is the decimal numeral (no leading zero) of the number of distinct non-missing categories |
| Aggregates.ItemCounts | app.py:90-91 | `value_counts` of items is a count table of the non-missing items |
| Aggregates.ColorCounts | app.py:103-105 | a count table of the non-missing colours, in non-increasing count order |
| Aggregates.CategoryItemCounts | app.py:117-118 | a count table of the (category, item) pairs where both are present |
| Aggregates.GenderCategoryCounts | app.py:152-153 | a count table of the (gender, category) pairs after dropping rows missing either |
| Aggregates.TopItemsByAge | app.py:180-189 | at most 10 rows, min(10, distinct pairs) of them, with pairwise different keys, non-increasing, each an observed (age group, item) pair with its true count, none left out with a larger count, all pairs when there are at most 10 |
| Aggregates.DiscountCounts | app.py:203-209 | a count table of the normalised discount statuses of rows that have one |
| Aggregates.PaymentCounts | app.py:220-221 | a count table of the non-missing payment methods |
| Aggregates.CategoryDiscountCounts | app.py:232-238 | a count table of the (category, normalised discount) pairs where both are present |
| Shipping.ShippingOfCounts | app.py:252 | the count of a shipping type among one state's rows equals the count of the (state, type) pair |
| Shipping.ModeOf | app.py:252-254 | a state's row holds a shipping type of that state, with its true count (at least 1), and no other type of the state has a larger count |
| Shipping.TopPerState | app.py:253-254 | one row per listed state, in order, each a maximum count for its state |
| Shipping.ShippingByState | app.py:251-254 | each map row's count is the true count of its (state, shipping) pair, and no shipping type of that state has a larger count |
| Shipping.ShippingStatesAscending | app.py:253-254 | the map rows list the state codes in strictly ascending order, so each state has exactly one row |
| Shipping.ShippingStatesCovered | app.py:251-254 | a state has a map row iff some filtered row has that code and a shipping type |
| Shipping.RowsFollowStates | app.py:253-254 | rows built state by state inherit the states' order and membership |
| Shipping.StatesOfPairs | app.py:251-253 | the listed states are exactly the codes of rows that have a shipping type |

## Left out

- The Shiny layout, the selectors' widgets, and the reactive re-evaluation. Also the Plotly figures: axis ranges, colours, chart types and the choropleth scatter labels (app.py lines 40-47 and the `fig` code). A selection is passed to `Filter.GetFiltered` as a parameter.
- Reading the Excel file (app.py line 6). The raw table is a parameter of `Loader.Load`.
- The floating-point routines: total revenue, average rating, the sum and mean of purchase amounts per age group, the average rating by category and by age group, and the rating-vs-previous-purchases scatter (app.py lines 58-62, 73-76, 130-144, 163-175, 289-298, 302-315, 319-331). They need real arithmetic and rounding, which the model does not have.
- The treemap's `Label` text column (app.py line 119). It is presentation only.
- Tables.Tally: the group order is left open. The model happens to list groups by last occurrence, from the end of the column back. Pandas' `groupby` and `value_counts` put them in key order or count order. This order also decides which of two tied shipping types `Tables.MaxGroup` picks. Only the contents are stated; `ColorCounts`, `TopItemsByAge` and `ShippingByState` state the orders the code imposes explicitly.
- Tables.SortByCountDesc: for equal counts, the tie order of pandas' unstable sort is not modelled. Only non-increasing counts and the permutation are stated.
- Aggregates.TopItemsByAge: pandas groups a categorical key with `observed=False`. That can add zero-count (age group, item) rows, which appear only when fewer than ten pairs were observed. The model lists only observed pairs.
- Shipping.ShippingByState: when two shipping types tie for the top count in a state, pandas keeps the alphabetically first. The model states only that the chosen type has a maximal count. The `Location` column is dropped from the grouping key. On loaded rows this forms the same groups, by `Loader.SameCodeSameLocation`. `ShippingByState` itself accepts any rows; the dashboard only ever passes it rows of the loaded table, where every row is `Loader.Loaded` and has a location. The `Location` hover text is not kept.
- Derived.NormalizeDiscount: the raw cell is an integer or a text. Python's `True`/`False` (equal to 1/0 for `replace`) and float cells such as `0.0` are not modelled.
- Derived.AgeGroupOf: ages are integers. Fractional ages are not modelled.
- Records.Record: only the columns the modelled routines read are kept. The purchase amount, review rating and other columns are omitted.

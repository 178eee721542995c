# Sales dashboard analysis core, modelled in Dafny

This project models `analyze_data` of the sales dashboard (`dashboard10.py`).
It is the function that turns the cleaned sales table and the sidebar's
filter choices into everything the dashboard displays:

- **The filter.** A boolean mask starts all true. It is narrowed by each
  categorical filter that is not on its sentinel: `"Todas"` for the product
  line, `"Todos"` for product, channel (Giro), client and salesperson. It is
  then narrowed by an inclusive date range compared on the calendar date only.
  The rows it keeps, in table order, are the filtered table.
- **The metrics.** Total sales, total quantity, the number of transactions
  and the average ticket, which is 0 on an empty selection.
- **Six breakdowns.** Group by line, channel or salesperson, then sum and sort
  by amount, descending. The product and client breakdowns do the same but
  keep only the first 10 rows. The product breakdown also counts distinct unit
  prices. The day breakdown groups by day of the month in ascending day order,
  so the same day in different months falls into one group.
- **The price-variation report.** Products sold at two or more distinct unit
  prices, with their set of prices and their row count. The report is sorted by
  count, descending, and keeps the first 10.

Modules:

- `Sales`: rows, dates (proleptic Gregorian, `NextDay`) and the filter value.
- `Filtering`: the mask.
  - `Filter` is the specification.
  - `FilterRows` is the imperative version: a `bool` array narrowed in place by
    `Narrow`, then used to select rows.
- `Grouping`: the split into one bucket per key, in order of first appearance,
  and column sums.
- `Ranking`: `sort_values` (an insertion sort), `head(n)`, and their
  properties.
- `Analysis`:
  - the metrics, the breakdowns and the variation report;
  - the method `AnalyzeData`, with `DetectPriceVariation`, which writes the
    `num_precios` column into the grouped table in place;
  - the lemmas about the whole result.
- `Scenarios`: concrete tables, evaluated by lemmas.

Money (`Importe_Venta`, `Precio_Unitario`) and quantities are integers,
counted in cents for money, so every sum is exact. The average ticket is a
`real`.

## Model

| member | source | states |
|---|---|---|
| Filtering.FilterRows | dashboard10.py:210-226 | The mask built by narrowing an all-true array once per active filter and once per end of the date range selects exactly `Filter(table, s)` |
| Filtering.Narrow | dashboard10.py:213-224 | `mask &= cond`: each entry becomes its old value and the condition on its row; nothing else changes |
| Filtering.FilterMembership | dashboard10.py:212-226 | A row is in the filtered table iff it is in the table and every non-sentinel filter equals its column and its date lies in the inclusive range |
| Filtering.FilterCounts | dashboard10.py:226 | Each matching row is kept exactly as many times as it occurs, and no other row is kept |
| Filtering.FilterIsSubsequence | dashboard10.py:226 | The filtered table is a subsequence of the table: original rows, unchanged, in original order |
| Filtering.FilterIdempotent | dashboard10.py:210-226 | Filtering the filtered table again with the same filter changes nothing |
| Filtering.NoConstraintKeepsAll | dashboard10.py:212-221 | With every filter on its sentinel and a range covering all dates, the whole table is kept |
| Filtering.InvertedRangeKeepsNothing | dashboard10.py:223-224 | A range whose end precedes its start keeps no row |
| Filtering.RangeEndsIncluded | dashboard10.py:223-224 | A row dated exactly on the start or on the end date passes the date conditions |
| Filtering.DayBeforeStartExcluded | dashboard10.py:223 | A row dated the calendar day before the start date is excluded |
| Filtering.TimeOfDayIgnored | dashboard10.py:223-224 | Only `Fecha.dt.date` is compared: changing a row's time of day never changes whether it is kept |
| Filtering.Filter | dashboard10.py:226 | The filtered table is never longer than the table |
| Sales.NextDay | dashboard10.py:223 | The day after a valid date is a valid date strictly later in date order |
| Sales.NextDayIsAdjacent | dashboard10.py:223 | No valid date lies strictly between a date and the next day |
| Sales.DaysInMonth | dashboard10.py:223-224 | Month lengths are 28..31, and a month has 29 days exactly when it is February of a Gregorian leap year |
| Analysis.ComputeMetrics | dashboard10.py:228-233 | Total sales and quantity are the column sums, the transaction count is the row count, and the average ticket is 0 on no rows and otherwise the total divided by the count |
| Grouping.Split | dashboard10.py:235 | `groupby`: buckets have distinct keys, the bucket of key k holds exactly the rows with key k in table order, and a key has a bucket iff some row carries it |
| Grouping.Place | dashboard10.py:235 | Filing one row adds it to its key's bucket (opening one if needed), leaves all other buckets alone and keeps keys distinct |
| Grouping.SplitCountsKeys | dashboard10.py:235 | `groupby` yields exactly as many groups as the table has distinct key values |
| Grouping.SplitConserves | dashboard10.py:235-238 | The buckets' column sums add up to the table's column sum |
| Grouping.RowsWithKeyNonEmpty | dashboard10.py:235 | A key's group is non-empty iff some row carries that key |
| Analysis.AggregateIsGroupBy | dashboard10.py:235-238 | `agg(sum, sum)`: each entry sums exactly its key's rows, every row's key has an entry, no key repeats, and both column totals are conserved |
| Analysis.RankedByAmount | dashboard10.py:235-238 | The line breakdown (also channel and salesperson) is a correct group-by table, sorted by amount descending, with one row per group and both totals conserved |
| Analysis.PermutationIsGroupBy | dashboard10.py:238 | Reordering a group-by table (as `sort_values` does) keeps it a correct group-by table |
| Analysis.TopByAmount | dashboard10.py:251-254 | The client breakdown has min(10, number of groups) rows, sorted descending, distinct, each a correct group, and every client left out sold no more than every client kept |
| Analysis.BreakdownSizes | dashboard10.py:235-259 | The client breakdown has min(10, number of distinct clients) rows (so 15 clients give exactly 10), and the line, channel and salesperson breakdowns one row per distinct value |
| Analysis.ProductBreakdownSize | dashboard10.py:240-244 | The product breakdown has min(10, number of distinct (product, description) pairs) rows |
| Analysis.TopSumBounded | dashboard10.py:251-254 | With non-negative amounts, the 10 kept clients sum to at most the total sales |
| Analysis.SalesByProduct | dashboard10.py:240-244 | The product breakdown has min(10, number of groups) rows, sorted descending, with distinct keys; each row sums its (product, description) rows and counts their distinct unit prices; every product left out sold no more than every product kept |
| Analysis.ProductTableCorrect | dashboard10.py:240-244 | Before sorting, every product row is its key's group with its count of distinct prices, every (product, description) pair of the rows has a product row, and keys are distinct |
| Analysis.SalesByDay | dashboard10.py:261-264 | The day breakdown is a correct group-by table on day of month, strictly ascending by day, conserving both totals |
| Analysis.DayKeysAreDays | dashboard10.py:261-264 | In a day breakdown sorted by day, day numbers are strictly ascending, so no day appears twice |
| Analysis.DayNumbersInRange | dashboard10.py:261 | With valid dates, every day of a day breakdown lies in 1..31 |
| Analysis.DayGroupSpansMonths | dashboard10.py:261 | Two rows with the same day of the month share one entry of a day breakdown whatever their month or year |
| Analysis.SharedGroup | dashboard10.py:235-264 | Two rows with the same key share one entry of a group-by table and are both among its rows |
| Analysis.VariationTableCorrect | dashboard10.py:269-274 | Each row of the grouped variation table holds its product's set of unit prices, its row count and num_precios = number of prices; every product has a row; no key repeats |
| Analysis.KeepVarying | dashboard10.py:275-276 | The `num_precios > 1` selection keeps exactly the rows with more than one price and keeps keys distinct |
| Analysis.VaryingProductsComplete | dashboard10.py:269-276 | Every product sold at two or more distinct unit prices is among the varying products |
| Analysis.VaryingProductsCount | dashboard10.py:269-276 | There are exactly as many varying products as distinct (product, description) pairs sold at two or more distinct unit prices |
| Analysis.VariationReportSize | dashboard10.py:269-277 | The report has min(10, number of products sold at two or more distinct unit prices) rows |
| Analysis.PriceVariationReport | dashboard10.py:269-277 | The report has min(10, number of varying products) rows, sorted by row count descending, with distinct keys; each row is its product's prices and count with at least two prices; every varying product left out has no larger count than every product kept |
| Analysis.AddNumPrices | dashboard10.py:274 | Writes num_precios = number of prices into every row of the grouped table in place |
| Analysis.DetectPriceVariation | dashboard10.py:269-277 | The in-place computation of the report gives exactly `PriceVariationReport` |
| Analysis.AnalyzeData | dashboard10.py:206-289 | The step-by-step analysis returns exactly `Analyze(table, s)`, the bundle of filtered table, metrics, six breakdowns and report |
| Analysis.EmptySelection | dashboard10.py:228-277 | When nothing passes the filter, all metrics are 0 (average ticket included) and every breakdown and the report are empty |
| Analysis.BreakdownsConserveTotals | dashboard10.py:228-264 | The line, channel, salesperson and day breakdowns each sum to the total sales and the total quantity of the metrics |
| Analysis.ReanalysisIsStable | dashboard10.py:206-289 | Analysing the filtered table again with the same filter gives the same result |
| Ranking.SortBy | dashboard10.py:238 | `sort_values`: a permutation of its input, of the same length, ordered by the rank column |
| Ranking.Head | dashboard10.py:244 | `head(n)`: the first min(n, length) elements |
| Ranking.TopAreLargest | dashboard10.py:244 | After a descending sort, everything `head(n)` drops ranks no higher than everything it keeps |
| Ranking.SortBySum | dashboard10.py:238 | Sorting does not change any column total |
| Ranking.PermutationKeepsDistinct | dashboard10.py:238 | Reordering keeps keys distinct |
| Scenarios.TwoRowMetrics | dashboard10.py:210-233 | Two P1 sales (100.00 for 10 units at 10.00, 220.00 for 20 units at 11.00) both pass an unconstrained filter; total 320.00, quantity 30, 2 transactions, average ticket 160.00 |
| Scenarios.TwoRowProducts | dashboard10.py:240-244 | On those two rows the product breakdown is the single row (P1, 320.00, 30) with two distinct prices |
| Scenarios.TwoRowVariation | dashboard10.py:269-277 | On those two rows the report is one P1 entry with prices {10.00, 11.00} and count 2 |
| Scenarios.VariationDetected | dashboard10.py:269-277 | P1 at 100.00, 100.00, 101.00 and P2 at 50.00: the report is exactly one P1 entry with two prices and count 3, and P2 is excluded |

## Left out

- `load_and_clean_data`, `create_sample_data`, the chart and formatting helpers, `main` and the Streamlit page are not part of this model. The table arrives already cleaned, with its unit prices already computed.
- Caching (`st.cache_data`): it does not change results.
- Floating point: amounts and prices are integers in cents.
  - The product breakdown counts distinct unrounded prices (`nunique`), while the report rounds prices to 2 decimals first. With prices given in cents, both count the same set of prices.
  - The average ticket is an exact `real`, not a float.
- Analysis.RankedByAmount: the order among groups with equal amounts is not stated. `sort_values` uses an unstable sort, and pandas first orders string keys. The model takes one admissible order and proves sortedness and permutation only.
- Analysis.TopByAmount: when amounts tie at the cut, which tied clients are kept is not stated. The model proves only that no client left out sold more than any client kept.
- Analysis.SalesByProduct: when amounts tie at the cut, which tied products are kept is not stated, as for clients.
- Analysis.PriceVariationReport: when counts tie at the cut, which tied products are kept is not stated, as for clients.
- Missing values (NaN, None) in keys or measures: pandas drops null group keys. The model has no nulls.
- A filter without the date range, and a filter value whose type differs from the column's: the filter value here always carries both dates and string values, so these error paths do not arise.
- Python `date` year bounds (1..9999): years are unbounded above.
- The returned tables' column renames and index resets (`reset_index`, `rename(columns=...)`) carry no content and are not modelled.

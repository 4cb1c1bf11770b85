# Device fault dashboard: the filter-and-aggregate pipeline

The dashboard loads a table of device fault events. Each event has a device
name, a vendor, a role and an `event_time`. The model covers the data
pipeline that runs on every re-run of the script:

1. **Cleaning.** Each `event_time` is coerced to a timestamp, and rows whose
   timestamp is invalid are dropped. The coercion itself is not modelled: a
   raw row carries an `Option<Timestamp>`. Cleaning (`Table.Clean`) keeps
   exactly the `Some` rows, in their original order.
2. **Option lists.** For each of device, vendor and role the options are the
   sentinel `"All"`, then the distinct observed values in order of first
   appearance (`FilterOptions.Options`, built on `FilterOptions.Distinct`;
   `FilterOptions.DeviceOptions`, `FilterOptions.VendorOptions` and
   `FilterOptions.RoleOptions` apply it to one column each).
3. **Filter engine.** Three exact-match filters are applied in turn. Each one
   applies only when its selection is not `"All"`. Then comes a date filter,
   which applies only when the range picker holds exactly two dates
   (`FilterEngine.FilterRecords`). Each filter step is a boolean-mask
   selection (`Seqs.Select`). The whole cascade is proved equal to one selection by the conjunction
   `Matches` of the active criteria. Every other filter property follows from
   that equality.
4. **Monthly aggregation.** Each timestamp is truncated to its month, the rows
   are grouped by month, and each group is counted. The result lists only
   months that have rows, in ascending order (`Monthly.MonthlyCounts`).

`Dashboard.Recompute` puts the four steps together. It also models the guard
that shows nothing when the load produced no rows. The guard looks at the
loaded rows before cleaning, so a file with rows but no readable timestamp
still shows the page, with only `All` options and an empty chart
(`Dashboard.NothingParsedShowsEmpty`).

Timestamps (`Time`) have a calendar day and a time of day in nanoseconds, and
are compared chronologically. A picked date becomes the timestamp of its
midnight.

**The date range.** The picker asks for a date range, but the end bound is
`pd.Timestamp(end_date)`: the midnight at the start of the end day. Faults
later on the end day are therefore excluded. For example, with the range
2024-01-15 to 2024-03-10, a fault at 2024-03-10T23:59:59 is dropped
(`FilterEngine.RangeExample`, `FilterEngine.LaterOnEndDayExcluded`). The
model keeps this midnight bound.

**Option order.** The option lists come from `unique()`, which keeps the
values in order of first appearance. The model keeps that order too.

## Model

| member | source | states |
|---|---|---|
| `Seqs.Select` | streamlit_app.py:38-48 | A mask selection never grows the table. Everything it keeps is in the input and passes the mask. Every input element that passes the mask is kept. |
| `Seqs.SelectEmbeds` | streamlit_app.py:38-48 | A selection is an order-preserving subsequence. Its k-th element comes from the k-th recorded position, and the positions strictly ascend. |
| `Seqs.SelectIndicesExact` | streamlit_app.py:38-48 | The recorded positions are exactly the positions whose element passes the mask. |
| `Seqs.SelectKeepsAll` | streamlit_app.py:36-45 | A selection returns the whole input if and only if every element passes the mask. |
| `Seqs.SelectSelect` | streamlit_app.py:37-48 | Selecting by one mask and then by another equals selecting once by their conjunction. |
| `Seqs.SelectIdempotent` | streamlit_app.py:37-48 | Selecting twice by the same mask equals selecting once. |
| `Time.Midnight` | streamlit_app.py:47-48 | A date converts to the timestamp at time of day 0 on that same date. |
| `Time.AtOrBefore` | streamlit_app.py:47-48 | Chronological `<=` on timestamps; `Time.AtOrBeforeTotalOrder` states that it is a total order. |
| `Time.AtOrBeforeTotalOrder` | streamlit_app.py:47-48 | Timestamp comparison is reflexive, antisymmetric, transitive and total. |
| `Time.MonthBeforeStrictOrder` | streamlit_app.py:52 | The order of month keys is irreflexive, transitive and total. |
| `Time.MonthOf` | streamlit_app.py:51 | A timestamp's month key is its year and month; `Time.MonthOfMonotone` states that it preserves order. |
| `Time.MonthOfMonotone` | streamlit_app.py:51 | Truncating timestamps to months preserves their order. |
| `Time.AfterMidnight` | streamlit_app.py:47 | A timestamp is at or after a date's midnight if and only if it falls on that day or a later one. |
| `Time.BeforeMidnight` | streamlit_app.py:48 | A timestamp is at or before a date's midnight if and only if it falls on an earlier day or is exactly that midnight. |
| `Table.Clean` | streamlit_app.py:16-17 | The cleaned table has exactly as many records as the input has rows with a parsed timestamp; `Table.CleanSelectsParsed` says which records they are. |
| `Table.CleanSelectsParsed` | streamlit_app.py:16-17 | Read back as raw rows, the cleaned table equals the selection of the rows whose timestamp parsed. |
| `Table.CleanKeepsExactlyParsed` | streamlit_app.py:16-17 | Cleaning keeps every parsed row and no other, in the original relative order. |
| `Table.CleanIgnoresUnparsed` | streamlit_app.py:16-17 | Removing the unparsed rows beforehand does not change the cleaned table. |
| `Table.CleanNothingParsed` | streamlit_app.py:16-17 | An input in which no timestamp parsed cleans to the empty table. |
| `FilterOptions.Distinct` | streamlit_app.py:24-26 | The distinct values contain exactly the elements of the column, each once. |
| `FilterOptions.DistinctFirstAppearance` | streamlit_app.py:24-26 | The distinct values are ordered by the position of their first occurrence in the column. |
| `FilterOptions.OptionList` | streamlit_app.py:24-26 | An option list starts with `"All"`. The rest lists every observed value and nothing else, each once. |
| `FilterOptions.OptionListOrder` | streamlit_app.py:24-26 | After `"All"`, the options are ordered by first appearance in the column. |
| `FilterOptions.Options` | streamlit_app.py:24-26 | The options of a column are `"All"`, then exactly the values that occur in that column, each once, ordered by their first occurrence in the column. |
| `FilterOptions.DeviceOptions` | streamlit_app.py:24 | The device options are `"All"`, then exactly the device names that occur in the table, each once. |
| `FilterOptions.VendorOptions` | streamlit_app.py:25 | The vendor options are `"All"`, then exactly the vendors that occur in the table, each once. |
| `FilterOptions.RoleOptions` | streamlit_app.py:26 | The role options are `"All"`, then exactly the roles that occur in the table, each once. |
| `FilterEngine.InRange` | streamlit_app.py:47-48 | A timestamp passes the range test if and only if it falls on the start day or later, and either on a day before the end day or exactly at the end day's midnight. |
| `FilterEngine.ByColumn` | streamlit_app.py:37-42 | One categorical step never grows the table. It keeps exactly the rows of its input whose column equals the selection; with the selection `"All"` it keeps every row. |
| `FilterEngine.ByDates` | streamlit_app.py:45-48 | The date step never grows the table. With exactly two picked dates it keeps exactly the rows that pass the range test; otherwise it keeps every row. |
| `FilterEngine.FilterRecords` | streamlit_app.py:36-48 | The filtered table is never longer than the cleaned table. It holds a record if and only if the cleaned table holds it and the record meets every active criterion (`Matches`). |
| `FilterEngine.ColumnsAreConjunction` | streamlit_app.py:36-42 | The three conditional categorical filters together equal one selection by their conjunction. |
| `FilterEngine.FilterIsConjunction` | streamlit_app.py:36-48 | The whole filter cascade, date step included, equals one selection by `Matches`. |
| `FilterEngine.FilterKeepsExactlyMatching` | streamlit_app.py:36-48 | The filtered table is an order-preserving subsequence of the cleaned table. It keeps exactly the positions whose row matches the criteria. |
| `FilterEngine.FilterMembership` | streamlit_app.py:36-48 | A record is kept if and only if it is in the cleaned table, equals each selection that is not `"All"`, and lies in the range when two dates are picked. |
| `FilterEngine.FilterAllKeepsEverything` | streamlit_app.py:36-45 | With every selection `"All"` and no two-date range, the output equals the input. |
| `FilterEngine.FilterIdempotent` | streamlit_app.py:36-48 | Filtering an already filtered table with the same criteria leaves it unchanged. |
| `FilterEngine.DateFilterNeedsTwoDates` | streamlit_app.py:45 | When the range does not hold exactly two dates, the result ignores the dates and equals the categorical filtering alone. |
| `FilterEngine.AllLeavesColumnFree` | streamlit_app.py:37-42 | When a column's selection is `"All"`, two rows that differ only in that column are both kept or both dropped. |
| `FilterEngine.KeptRowsWithinRange` | streamlit_app.py:45-48 | With two dates, a kept row lies between midnight of the start date and midnight of the end date, both included. At the day level: on the start day or later, and either before the end day or exactly at its midnight. |
| `FilterEngine.RangeBoundsIncluded` | streamlit_app.py:47-48 | A matching row stamped exactly at either bound's midnight is kept, when the end date is not before the start date. |
| `FilterEngine.LaterOnEndDayExcluded` | streamlit_app.py:48 | A row on the end date later than its midnight is dropped. |
| `FilterEngine.ReversedRangeKeepsNothing` | streamlit_app.py:45-48 | A range whose end date is before its start date keeps no rows. |
| `FilterEngine.RangeExample` | streamlit_app.py:45-48 | With the range 2024-01-15 to 2024-03-10, a fault at 2024-01-15T00:00:00 is kept. Faults at 2024-03-10T23:59:59 and 2024-03-11T00:00:01 are dropped. |
| `Monthly.MonthlyCounts` | streamlit_app.py:51-52 | Month keys strictly ascend and every count is at least 1. The lookup of each month equals the number of rows in it, and the counts sum to the number of rows. |
| `Monthly.MonthlyCountsCorrect` | streamlit_app.py:51-52 | Month keys strictly ascend and every count is at least 1. The lookup of each month equals the number of rows in it. A month is listed if and only if it has rows. The counts sum to the number of rows. |
| `Monthly.EntryCounts` | streamlit_app.py:51-52 | Each entry's count equals the number of rows in its month, and is at least 1. |
| `Monthly.MonthlyCountsEmpty` | streamlit_app.py:51-52 | The series is empty if and only if the filtered table is empty. |
| `Monthly.SeriesDeterminedByCounts` | streamlit_app.py:52 | Two strictly ascending series of positive counts with the same lookups are equal. |
| `Monthly.MonthlyCountsUnique` | streamlit_app.py:51-52 | Any strictly ascending series of positive counts whose lookups equal the per-month row counts is the aggregated series. |
| `Monthly.ThreeMonthExample` | streamlit_app.py:51-52 | Rows in months 2024-01, 2024-01, 2024-02, 2024-03, 2024-03, 2024-03 give exactly the series (2024-01, 2), (2024-02, 1), (2024-03, 3). |
| `Dashboard.Recompute` | streamlit_app.py:14-52 | Nothing is shown if and only if the load produced no rows. |
| `Dashboard.RecomputeThroughClean` | streamlit_app.py:16-52 | Two non-empty loads with the same cleaned table show the same view: everything after the load depends only on the cleaned table. |
| `Dashboard.NothingParsedShowsEmpty` | streamlit_app.py:14-52 | For a non-empty load with no parsed timestamp, the option lists are just `"All"` and the series is empty. |
| `Dashboard.UnparsedRowsIgnored` | streamlit_app.py:16-17 | If at least one row parsed, removing the unparsed rows up front leaves the whole view unchanged. |
| `Dashboard.CleanColumn` | streamlit_app.py:16-17 | For each of device, vendor and role, a value occurs in that column of the cleaned table if and only if some input row with a parsed timestamp carries it there. |
| `Dashboard.OptionsFromParsedRows` | streamlit_app.py:16-26 | For each of device, vendor and role, a value is offered as an option of that column if and only if some row with a parsed timestamp carries it there. |
| `Dashboard.FaultsCountMatchingRows` | streamlit_app.py:36-52 | The displayed count for each month is the number of cleaned rows in that month that match the criteria. The counts sum to the filtered length, which is at most the number of parsed rows. |

## Left out

- Loading the CSV file, skipping malformed lines, and the parser-error fallback with its message (streamlit_app.py:6-11): these are file I/O and a foreign parser. The model starts from the loaded rows as a given, possibly empty, sequence. The model assumes the loaded table has the four columns; without one the script stops with an error at streamlit_app.py:16 or 24-26.
- The string-to-timestamp conversion (streamlit_app.py:16): this is a foreign library call. Each raw row already carries its result as `Option<Timestamp>`. Calendar validity (such as February 30), time zones and the timestamp type's year range are therefore not modelled.
- Missing values in the device, vendor and role columns: pandas lists a missing value once among the options, and selecting it keeps no row because a missing value equals nothing. The model has no missing values; every categorical value is a string.
- The sidebar widgets, the page title and the text line naming the selection (streamlit_app.py:20-33, 55): this is UI. The selections and the picked dates are parameters of `Recompute`, and they are not restricted to the offered options.
- Plotting and the per-point labels (streamlit_app.py:56-67): rendering only.
- Re-running the script on each interaction: `Recompute` is a single run.

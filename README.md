# AdSense-to-BigQuery loader, modelled in Dafny

The job fetches yesterday's and today's AdSense reports for every account reachable under four OAuth
credentials. It merges all rows into one table. It then loads that table into a BigQuery table: rows dated
on or after yesterday are deleted first, then the new rows are appended. `Adsense.py` and `main.py` are
the same script, line for line. This model covers both, and the table below cites whichever file is
clearer for a row.

The model has four parts:

- **AdSense side** (`AdSense.dfy`). An API response is a value. `ListAccounts` turns the listing into
  account names. `FetchReport` turns one report response into rows. `BuildRow` and `MetricDict` are the
  `row_data` record and the metrics dict comprehension over `zip(headers[3:], cells[3:])`. Any exception
  in `list_accounts` or `fetch_report` gives the empty result.
- **Consolidation** (`Consolidation.dfy`). `Consolidate` and `AppendSourceRows` are the nested loops of
  `process_reports`. They are proved equal to `Consolidated`: source by source, and within a source
  account by account, the account tables are concatenated with `Flatten`.
- **Sink** (`BigQuery.dfy`). The class `BigQueryClient` holds the warehouse table as a `seq<Row>` and
  logs every delete and append request it sends, in order. `PushToBigQuery` first coerces the seven count
  columns (`CoerceRow`), then renames `AD_REQUESTS_CTR`/`COST_PER_CLICK` (`RenameRow`). After that it
  runs `DeleteYesterdayData`, which keeps exactly the rows dated before the cutoff (`Keep`), and then
  appends the new rows.
- **Dates** (`Calendar.dfy`, `DateText.dfy`). `PrevDay` is "today minus one day", written with month
  and year rollover and leap years. It is proved equal to Python's own way of doing that subtraction,
  which steps the proleptic ordinal back by one (`Ordinal`, CPython's `toordinal` formula). `Format` is
  `strftime('%Y-%m-%d')`. `LexLess` is string order. `FormatOrder` proves that, for valid dates, string
  order on formatted dates is calendar order. So the SQL condition `date >= cutoff` means "on or after
  yesterday".

`Processor.dfy` holds `AdSenseReportProcessor`. Its `ProcessReports` runs the consolidation and calls
the sink only when the table is not empty.

Inputs from outside the program are parameters:

- `today`: one clock reading (`datetime.now()`).
- The `AdSenseService` values: what each credential's API returns. `generate` is a function from the
  request sent to the response.
- `toFloat`: Python's `float()` on a cell value. `None` means it raised.

Three behaviours of the code shape the contracts:

- Absent count values become 0 row by row, but only for a column that some row of the frame has. If no
  row has a count column, `df[int_cols]` raises `KeyError` before any delete (main.py:109).
  `PushToBigQuery` returns `MissingColumns` in that case and leaves the table untouched.
- `list_accounts` returns account names only (Adsense.py:181). It still reads `displayName`
  (Adsense.py:179), so an account without one makes the whole listing empty.
- Both days of the window are sent: start date `PrevDay(today)` and end date `today`
  (Adsense.py:207-212). The model passes these dates in the request.

## Model

| member | source | states |
|---|---|---|
| Calendar.PrevDay | main.py:82-83 | the day before a valid date is a valid date, earlier in calendar order, and itself has a successor |
| Calendar.PrevDayOrdinal | main.py:83 | `PrevDay` steps the proleptic ordinal back by exactly one, as `datetime - timedelta(days=1)` does, across month ends, year ends and 29 February |
| Calendar.NextDayOrdinal | main.py:83 | the successor steps the ordinal forward by one (partner of `PrevDay`) |
| Calendar.NextOfPrev | main.py:83 | the day after the previous day is the day itself |
| Calendar.PrevOfNext | main.py:83 | the previous day of the next day is the day itself |
| Calendar.YearStep | main.py:83 | consecutive years start one year length apart (365, or 366 in a leap year) under the closed ordinal formula |
| Calendar.OrdinalOrder | main.py:83 | on valid dates, calendar order and ordinal order coincide, and equal ordinals mean equal dates |
| Calendar.PrevDayUnique | main.py:83 | the previous day is the only valid date whose ordinal is one less |
| Calendar.PrevDayAdjacent | main.py:83 | a date is before `d` exactly when it is `PrevDay(d)` or before it: nothing lies between |
| DateText.Format | main.py:83 | `strftime('%Y-%m-%d')` gives 10 characters with dashes at positions 4 and 7 |
| DateText.Digits | main.py:83 | a zero-padded numeral has exactly the requested width and only digit characters |
| DateText.DigitsOrder | main.py:86 | zero-padded numerals of one width are equal, or string-less, exactly when the numbers are |
| DateText.LexLessConcat | main.py:86 | string order on concatenations whose first parts have equal length compares the first parts, then the rest |
| DateText.FormatOrder | main.py:86 | formatted dates are equal exactly when the dates are, and string-less exactly when calendar-earlier |
| AdSense.ListAccounts | Adsense.py:170-188 | returns the account names in response order; empty when the request fails, when the `accounts` key is absent, or when any account lacks `name` or `displayName` |
| AdSense.ReportRequestFor | Adsense.py:200-219 | the request names the account, range `CUSTOM`, the eleven metrics and three dimensions; its start date is the calendar day before its end date `today` |
| AdSense.MetricPairs | Adsense.py:233 | `zip(headers[3:], cells[3:])` pairs header `k + 3` with cell `k + 3` for every position past the three dimensions that both lists have, and no others; it is empty when either list has three entries or fewer |
| AdSense.MetricDict | Adsense.py:231-234 | the comprehension succeeds exactly when every zipped header has a name and every zipped cell has a value that parses as a float |
| AdSense.MetricDictKeys | Adsense.py:231-234 | the metric names are exactly the names of the zipped headers |
| AdSense.MetricDictValues | Adsense.py:231-234 | each zipped header not repeated later maps to the parsed value of its cell |
| AdSense.BuildRow | Adsense.py:228-241 | a record exists exactly when `cells` has at least three readable cells, `headers` is present and the metrics can be read; it then carries the account id, cells 0/1/2 as date/domain/country, and the zip of `headers[3:]` with `cells[3:]` |
| AdSense.ThreeCellRowHasNoMetrics | Adsense.py:231-234 | a row of only the three dimension cells builds, with no metric columns |
| AdSense.FetchReport | Adsense.py:203-247 | one row per report row, in order, each the `BuildRow` of its report row, or no rows at all: a failed request, an absent `rows` key or any unbuildable row gives the empty result |
| AdSense.BuildReportRows | Adsense.py:226-244 | the loop over the report rows builds exactly the fetch result `ReportRows`: every record in report order, or none once a row cannot be built |
| AdSense.ReportRowsShape | Adsense.py:203-247 | a fetch result is empty on a failed request or an absent `rows` key, and otherwise has all rows, each built from its report row, or none |
| AdSense.ReportRowsAllBuilt | Adsense.py:226-244 | when every report row builds, the result is exactly those records in report order |
| AdSense.ReportRowsOneFails | Adsense.py:227-247 | one report row that cannot be built discards the whole report |
| Consolidation.FlattenLength | Adsense.py:275 | the merged row count is the sum of the tables' row counts |
| Consolidation.FlattenAppend | Adsense.py:275 | merging two runs of tables is concatenating their merges |
| Consolidation.FlattenPrefixStep | Adsense.py:275 | appending one more table to the merge appends exactly its rows |
| Consolidation.AppendOneTable | Adsense.py:275 | concatenating one account's table onto the merge so far gives the merge including that table |
| Consolidation.MergeTwo | Adsense.py:275 | merging R1 and R2 gives every row of R1 followed by every row of R2 |
| Consolidation.FlattenOfEmpties | Adsense.py:275 | merging only empty tables, or no tables, gives the empty table |
| Consolidation.FlattenSkipsEmpty | Adsense.py:275 | an empty table in the middle drops out while all tables around it stay, in order |
| Consolidation.FlattenMembers | Adsense.py:275 | a row is in the merge exactly when it is in one of the tables: no drops, no invented rows |
| Consolidation.SourceTables | Adsense.py:273-275 | one table per listed account |
| Consolidation.SourceTableAt | Adsense.py:273-274 | a source's `k`-th table is the fetch result of its `k`-th listed account |
| Consolidation.AccountTablesAppend | Adsense.py:271-293 | the account tables of two runs of sources are those of the first followed by those of the second |
| Consolidation.SourcesInOrder | Adsense.py:271-293 | the consolidated table of two runs of sources is the first run's rows followed by the second's |
| Consolidation.SingleSource | Adsense.py:272-275 | one source's block contributes exactly that source's rows |
| Consolidation.FourSources | Adsense.py:271-293 | the table is the rows of credential set 1, then 2, then 3, then 4 |
| Consolidation.ConsolidatedLength | Adsense.py:269-293 | the consolidated row count is the sum of the per-account row counts, with no dedup |
| Consolidation.NoAccountsNoRows | Adsense.py:269-293 | when no source lists an account, the consolidated table is empty |
| Consolidation.FailedFetchIsolated | Adsense.py:273-275 | an account whose fetch gave nothing leaves the merge equal to every other account's rows, in order |
| Consolidation.AppendSourceRows | Adsense.py:272-275 | one credential block appends that source's rows to `all_data` |
| Consolidation.Consolidate | Adsense.py:269-293 | the fetch loop builds exactly `Consolidated`: sources in order, accounts in listing order |
| BigQuery.Trunc | main.py:109 | `astype(int)` truncates toward zero: the result lies within one of the value, on the side of zero |
| BigQuery.CoerceRow | main.py:105-109 | each of the seven count columns becomes an integer: 0 when absent, else the truncated value; key columns and every other column are unchanged |
| BigQuery.RenameRow | main.py:112 | `AD_REQUESTS_CTR` moves to `ctr` and `COST_PER_CLICK` to `cpc` with their values; key columns and all other columns and values are unchanged, and no other column appears |
| BigQuery.RenameLossless | main.py:112 | renaming back restores the row: the rename loses nothing |
| BigQuery.PrepareSucceedsIff | main.py:105-109 | the frame can be coerced exactly when each of the seven count columns appears in at least one row; otherwise selecting `df[int_cols]` fails |
| BigQuery.PreparedRow | main.py:105-109 | in every appended row, each count column holds the row's own value truncated to an integer, or 0 when the row lacks it |
| BigQuery.PreparedRates | main.py:112 | in every appended row, `ctr` and `cpc` hold the row's `AD_REQUESTS_CTR` and `COST_PER_CLICK` values, and the old names are gone |
| BigQuery.PrepareKeepsKeys | main.py:109-112 | preparation keeps every row's account id, date, domain and country |
| BigQuery.Cutoff | main.py:82-83 | the cutoff is the previous day rendered in 10 characters |
| BigQuery.KeepMembers | main.py:84-90 | the delete keeps exactly the rows dated before the cutoff |
| BigQuery.KeepAppend | main.py:84-90 | deleting from two parts of a table is deleting from each, in order |
| BigQuery.KeepAllEarlier | main.py:84-90 | a table of earlier rows only is left exactly as it was, order included |
| BigQuery.KeepNoneLater | main.py:84-90 | a table of rows dated on or after the cutoff only is emptied |
| BigQuery.KeepIdempotent | main.py:84-90 | deleting twice removes nothing more |
| BigQuery.LoadReplacesWindow | main.py:114-119 | after the load, the kept old rows come first, in order, then all new rows; every row dated on or after the cutoff is a new one |
| BigQuery.LoadIdempotent | main.py:114-119 | when all new rows date on or after the cutoff, loading them twice leaves the table of loading them once |
| BigQuery.CutoffMeaning | main.py:82-86 | a row dated by a calendar date is deleted exactly when that date is yesterday or later, that is, when its ordinal is at least today's minus one |
| BigQuery.WindowDatesDeleted | main.py:82-86 | both days of the report window, yesterday and today, fall in the deleted range |
| BigQuery.PushIdempotent | main.py:114-119 | pushing the same frame twice equals pushing it once when every row dates on or after the cutoff |
| BigQuery.WindowPushIdempotent | main.py:79-119 | a frame dated within the report window is pushed idempotently |
| BigQuery.BigQueryClient.constructor | main.py:67-75 | the client starts on the given table with no request sent |
| BigQuery.BigQueryClient.DeleteYesterdayData | main.py:77-91 | the table becomes its rows dated before the cutoff, and one delete request is sent |
| BigQuery.BigQueryClient.PushToBigQuery | main.py:93-120 | an empty frame changes nothing; a frame missing a count column everywhere raises before any request; otherwise the table becomes the kept old rows followed by the prepared rows, after exactly one delete followed by one append |
| Processor.RunIdempotent | Adsense.py:264-304 | two runs on the same day against the same answers leave the table of one run, when every fetched row dates on or after yesterday |
| Processor.NoAccountsNoLoad | Adsense.py:301-304 | when no source lists an account, a run leaves the table as it was |
| Processor.AdSenseReportProcessor.constructor | Adsense.py:254-262 | four sources, in the order of the credential sets, and one BigQuery client |
| Processor.AdSenseReportProcessor.ProcessReports | Adsense.py:264-304 | the table after a run is the push of the consolidated rows; with no rows nothing is sent at all; otherwise one delete then one append of the prepared rows |

## Left out

- OAuth (`authenticate`), the credential files, and building the API and BigQuery clients: these are
  library calls and file I/O. A source is given as the responses it returns.
- PrettyTable output and every `print`: they only produce log text.
- Floating point. `float()` on a cell is the parameter `toFloat`. `astype(int)` is exact truncation of a
  real number, so NaN, infinities and int64 overflow are not modelled.
- Failures of the delete or append requests, and the table left empty when the append fails after the
  delete: in the model, warehouse requests always succeed.
- The two separate `datetime.now()` readings in `fetch_report` and the third in
  `delete_yesterday_data`: one `today` serves all of them, so a run crossing midnight is not modelled.
- AdSense.FetchReport: requires `today` to be later than 0001-01-01. On that date `datetime - timedelta`
  raises `OverflowError`, outside the `try`.
- AdSense.ReportRequestFor: requires the same of `today`, for the same reason.
- BigQuery.Cutoff: requires the same of `today`, for the same reason.
- BigQuery.BigQueryClient.DeleteYesterdayData: requires the same of `today`, for the same reason.
- BigQuery.BigQueryClient.PushToBigQuery: requires the same of `today`, for the same reason.
- Processor.AdSenseReportProcessor.ProcessReports: requires the same of `today`, for the same reason.
- DateText.Format: always pads the year to four digits. Python's `strftime` on some platforms does not pad years
  below 1000.
- BigQuery.BigQueryClient.PushToBigQuery: works on a copy of the frame. The source's `df[int_cols] = ...` also changes the
  caller's `all_data` in place, but nothing reads it afterwards.
- AdSense.BuildRow: a metric header named like a key column (`date`, ...) would overwrite that key through
  `**metrics` in the source. The model keeps key columns apart. The headers after the first three are
  the eleven requested metric names, none of which clashes.
- BigQuery.RenameRow: if a frame already had a `ctr` or `cpc` column, pandas would keep two columns of that
  name. A row is a map, so the model keeps one.
- The SQL text of the delete: it is modelled as the filter `Keep` on the `date` column, compared as
  strings. `FormatOrder` shows this is calendar order for well-formed dates.
- The commented-out fifth credential set, module constants and paths.
- Concurrent runs against the same table, which the delete-then-append design does not protect against.

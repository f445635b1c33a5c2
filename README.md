# Fastly billing report: window resolution and usage aggregation

This project models the computational core of a scheduled job that reports CDN
usage. Once a month the job does the following:

- It picks the previous calendar month as its reporting window.
- It fetches usage per region and per service from the vendor's usage API.
- It adds up bandwidth and requests per service, and the total bandwidth of all services.
- It fetches each service's name and type once.
- It prepares one warehouse row per service, dated with the window's last day.

The model has five modules:

- `Calendar` (calendar.dfy): Python's proleptic Gregorian `date` as used by the
  job. `replace(day=1)` is `FirstOfMonth`. Subtracting one day is `SubtractDay`,
  proved to be exactly "the valid date whose `toordinal()` is one less". Python
  computes it that way, with CPython's month tables and closed-form year count.
- `ReportWindow` (window.dfy): the window as the job computes it, step by step.
  It is proved equal to the closed form "day 1 to the last day of the previous
  month, January going back to December of the year before". The lemmas also
  prove the window's shape and that it covers that month and no other day.
- `UsageReport` (usage.dfy): the `data` object of the usage response, as regions
  holding (service id, usage) entries in iteration order. It also holds the
  reference definitions: per-service sums, the total, and the distinct ids in
  order of first appearance. Lemmas relate them: per-region sums, independence from the order of
  regions and of services within them, and per-service bandwidths adding up to
  the total.
- `Aggregation` (aggregation.dfy): the nested loops that update the `services`
  memo, the `final_results` totals and `total_bytes_delivered`. They are
  imperative methods with loop invariants. The invariant says the state equals
  `MemoOf`, `TotalsOf`, `TotalBandwidth` and `FirstSeen` of the entries visited so
  far, and lemmas prove what those definitions hold. It also has the loop that
  builds the rows.
- `BillingJob` (job.dfy): one run, from today's date to the prepared rows, or to
  the date overflow or division by zero that ends it early.

The HTTP requests are parameters of the model. `fetchUsage` gives the usage
report for a window and `getService` gives a service's metadata. The ids passed
to `getService` are returned, in call order, so "one call per distinct service"
is a property of the result.

## Model

| member | source | states |
|---|---|---|
| `Calendar.FirstOfMonth` | main.py:57 | `replace(day=1)` yields a valid date of the same year and month, on day 1, never after the original date |
| `Calendar.SubtractDay` | main.py:58 | subtracting one day fails (Python's OverflowError) exactly at 0001-01-01 |
| `Calendar.SubtractDayIsOrdinalPredecessor` | main.py:58 | for every valid date other than 0001-01-01, the calendar predecessor is valid and is the one valid date whose ordinal is one lower, which is Python's definition of subtracting `timedelta(days=1)` |
| `Calendar.OrdinalOne` | main.py:58 | a valid date has ordinal 1 exactly when it is 0001-01-01, so the subtraction fails exactly where Python's `fromordinal(0)` would |
| `Calendar.OrdinalMonotone` | main.py:58 | day numbers strictly increase in calendar order, so the year and month tables are consistent |
| `Calendar.OrdinalInjective` | main.py:58 | two valid dates with the same day number are the same date |
| `ReportWindow.ResolveWindow` | main.py:56-62 | the window fails only for a run in January of year 1; otherwise both ends are valid, the end is the last day of its month and the start is day 1 of that month |
| `ReportWindow.ResolveWindowClosedForm` | main.py:57-62 | the computed window is day 1 to day DaysInMonth of the previous month, with January going back to December of the previous year |
| `ReportWindow.WindowShape` | main.py:57-62 | start and end share year and month; start is day 1; end is 28/29 in February by leap year, else 30/31; start is not after end; end is the day immediately before the first of today's month |
| `ReportWindow.WindowCoversPreviousMonth` | main.py:56-62 | a valid date lies between the window's ends exactly when it falls in the previous calendar month |
| `ReportWindow.ExampleMarch2025` | main.py:56-62 | a run on 2025-03-15 covers 2025-02-01 to 2025-02-28 |
| `ReportWindow.ExampleJanuary2025` | main.py:56-62 | a run on 2025-01-10 covers 2024-12-01 to 2024-12-31 |
| `ReportWindow.ExampleLeapFebruary` | main.py:56-62 | a run on 2024-03-01 covers 2024-02-01 to 2024-02-29 |
| `UsageReport.FirstSeen` | main.py:76-77 | the ids in order of first appearance are distinct and are exactly the ids of the report |
| `UsageReport.ListedUnderSomeRegion` | main.py:74-75 | a service id is among the ids the nested loops meet exactly when some region of the report lists it |
| `UsageReport.AbsentServiceIsZero` | main.py:78-84 | a service not listed anywhere has zero bandwidth and zero requests |
| `UsageReport.TotalsAreRegionSums` | main.py:74-84 | a service's bandwidth and requests (edge plus compute) over the report are the sums over regions; regions not listing it add nothing |
| `UsageReport.EntryOrderIrrelevant` | main.py:74-84 | any rearrangement of the same entries (same multiset) lists the same services and gives every service the same bandwidth and requests, and the same total bandwidth |
| `UsageReport.ReportOrderIrrelevant` | main.py:74-84 | two reports whose regions hold the same entries, in any order of regions and of services within a region, give the same service ids, per-service totals and total bandwidth |
| `UsageReport.RegionOrderIrrelevant` | main.py:74-84 | in particular, swapping two groups of regions changes no service's totals |
| `Aggregation.TablesIgnoreEntryOrder` | main.py:74-84 | the final `services` memo and `final_results` table are the same maps for any order of the same entries; only their key order depends on it |
| `UsageReport.ServiceBandwidthsPartitionTotal` | main.py:82-83 | each distinct service's bandwidth, summed, equals the total bandwidth of all entries |
| `UsageReport.ExampleTwoRegions` | main.py:74-84 | svcA at 100/10/5 and 50/2/0 in two regions totals 150 bytes and 17 requests; the global total is 150; svcA is fetched once |
| `Aggregation.SumBandwidthOfTotals` | main.py:82 | summing totals that hold each service's bandwidth gives the sum of those bandwidths |
| `Aggregation.MemoHoldsMetadataOfEachService` | main.py:76-77 | after any prefix of the entries, the memo has a key for exactly the ids met and holds each one's lookup result |
| `Aggregation.TotalsAreExactSums` | main.py:78-84 | after any prefix of the entries, the table has a key for exactly the ids met, and each entry holds that service's bandwidth and edge plus compute requests summed over the prefix, with `compute_requests` at 0 |
| `Aggregation.KeysAgree` | main.py:76-79 | an id is in the memo exactly when it is in the table, and exactly when it is in the call order, so the two `not in` tests of the loop body always agree |
| `Aggregation.StepKeepsAccumulated` | main.py:76-84 | the loop's invariant (memo, table, accumulator and call order equal to their definitions over the entries seen) survives one entry, updated as the body updates it |
| `Aggregation.Visit` | main.py:76-84 | one run of the inner loop body takes the state for the entries seen to the state for those entries plus one; it calls the lookup only when the id is not yet in the memo |
| `Aggregation.Aggregate` | main.py:64-84 | one lookup per distinct id in order of first appearance; memo and totals keyed by exactly the ids present; per-service bandwidth and requests (edge plus compute) are exact sums; compute_requests stays 0; the accumulator is the total bandwidth and equals the sum of per-service bandwidths |
| `Aggregation.BuildRows` | main.py:87-98 | fails (ZeroDivisionError) exactly when there is at least one service and `total_bytes_delivered` is 0; otherwise one row per key of `final_results` in key order, dated with the window end, with the service's name, id and type and its totals copied unchanged, and the rows' bandwidths sum to the summed totals |
| `BillingJob.Run` | main.py:56-98 | a run ends in date overflow exactly in January of year 1, and in division by zero exactly when the report lists entries whose bandwidths add up to 0; otherwise the metadata calls are the distinct ids in order of first appearance, one row per call in that order, each carrying the window end, the metadata and the exact per-service sums, and the rows' bandwidths sum to `total_bytes_delivered` |

## Left out

- `make_api_call`, `get_service` and the HTTP client (main.py:9-26, 37-38) are network I/O. They are the parameters `fetchUsage` and `getService`, and each always returns an answer.
- `get_service` failing: a non-200 answer ends the process with `exit()` (main.py:17-21). The model has no error path for it.
- The primary usage request passes `allowErrors=True` (main.py:70). On a non-200 answer it returns an empty list, and indexing that with `'data'` raises a TypeError outside the `try` (main.py:74). This failure is not modelled, because `fetchUsage` always answers with a report.
- Malformed JSON (a missing `data`, `bandwidth`, `requests`, `compute_requests`, `name` or `type` key) raises `KeyError` in the source. The model's datatypes always carry these fields.
- Usage figures are unbounded integers, as Python's are. The model does not require them to be non-negative, and no property depends on that.
- `convert_size` (main.py:28-35) uses floating-point logarithms and rounding and only feeds console output. Its own failures are not modelled: a negative figure makes `math.log` raise ValueError, and a figure of 1000^9 bytes or more indexes past its unit names. The model's outcome for such a report is the one the job would have if `convert_size` never raised.
- `percentage_of_total` (main.py:89, 97) is float division and rounding, so it is not a column of the model's `Row`. Only its failure is modelled: the division by a zero `total_bytes_delivered` aborts the run at main.py:89, before any row exists (`Aggregation.BuildRows`, `BillingJob.DivisionByZero`).
- The `date` column is kept as a `Date`, not as the `strftime('%Y-%m-%d')` string (main.py:91).
- Reading `FASTLY_KEY` and exiting when it is missing (main.py:46-50), building the URL (main.py:68) and every `print` are left out.
- The BigQuery client, the parameterised DELETE of the end date's rows and `insert_rows_json` (main.py:101-133) are external warehouse calls. The model stops at the rows handed to the insert.
- The commented-out fixed window (main.py:53-54) is not part of this model.

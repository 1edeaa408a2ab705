# Clover dashboard: the reshaping layer, modelled in Dafny

This project models the data-shaping core of the Clover Marketing dashboard
API (`api/clover-dashboard.js`). It covers:

- **`formatDate` and `getDateRange`.** The requested start and end days become
  RFC 3339 `full-date` strings (section 5.6 of RFC 3339). When comparing, a
  second range follows: it has the same inclusive length and ends the day
  before the requested range starts.
  - A JavaScript Date at UTC midnight is a day ordinal: day 0 is 1970-01-01.
    `Calendar` converts ordinals to and from proleptic Gregorian dates,
    stepping a year at a time.
  - `IsoDate` writes an ordinal the way `toISOString` writes its date part,
    and reads full-date text back.
  - `DateRange.JsDate` is a class whose `time` field is mutated by `setDate`.
    `GetDateRange` builds the ranges the way the source does: `new Date`
    copies, `getDate`/`setDate` and an array `push`.
- **`calculatePercentChange` and `processOverviewData`.** These produce seven
  headline cards from report row 0 (current period) and row 1 (previous
  period).
- **`processChartData`.**
  - A loop files each row into one of two `Map` objects (`Chart.JsMap`, a
    class with insertion-ordered keys).
  - The sorted dates then index the session and page-view series.
  - `ProcessChartData` is proved equal to the function `ChartOf`, and the
    lemmas state what `ChartOf` guarantees.
- **`processTableData`.** Each row maps to a pages or sources record with
  default strings, and the first 20 records are kept.

### Modelling choices

- A report `Response` is `Failure`, or `Success` carrying an optional row list
  and the length of `dateRanges` (0 when that field is absent).
- A row has optional `dimensionValues` (texts) and optional `metricValues`.
  Each metric cell is the number its text spells, or None when the text is
  absent or empty.
- `parseInt` is truncation toward zero (`Report.Trunc`). `parseFloat` is the
  number itself.
- A `TypeError` thrown by reading a missing array is an `Err(TypeError)`
  result. A `RangeError` from `toISOString` on an invalid Date is an
  `Err(RangeError)` result.

### Chart filing test

The chart's "is previous" test (line 221) does not depend on the row. When
comparing against a response declaring more than one date range, every row is
filed as previous data. The labels and current series are then empty, and the
previous series are empty arrays (`Chart.ChartAllPrevious`). Otherwise nothing
is filed as previous data, and the previous series are all zeros when
comparing (`Chart.ChartCurrentSeries`). The model keeps this behaviour as
written.

## Model

| member | source | states |
|---|---|---|
| Calendar.CivilFromDaysValid | api/clover-dashboard.js:24-26 | every day ordinal names a valid calendar date whose ordinal is that day |
| Calendar.CivilRoundTrip | api/clover-dashboard.js:24-26 | converting a valid date to its ordinal and back gives the same date |
| Calendar.DaysFromCivilInjective | api/clover-dashboard.js:24-26 | distinct valid dates have distinct day ordinals |
| Calendar.MonthStartPlusDay | api/clover-dashboard.js:40-42 | the first of a day's month plus its day of month minus one is the day, which is what `getDate`/`setDate` rely on |
| IsoDate.FormatDate | api/clover-dashboard.js:24-26 | a day in years 0000–9999 is written in the `YYYY-MM-DD` full-date shape |
| IsoDate.FormatTimeValue | api/clover-dashboard.js:24-26 | formatting fails with a RangeError exactly when the Date is invalid |
| IsoDate.FourDigitYearBounds | api/clover-dashboard.js:24-26 | four-digit years are exactly the days from 0000-01-01 to 9999-12-31, all valid Date days |
| IsoDate.ParseFormat | api/clover-dashboard.js:24-26 | a formatted four-digit-year day reads back as the same day |
| IsoDate.FormatParse | api/clover-dashboard.js:24-26 | a full-date text that names a real date is exactly how that date is formatted |
| DateRange.JsDate.GetDate | api/clover-dashboard.js:40 | the day of month is 1..31 and locates the day within its month; NaN for an invalid Date |
| DateRange.JsDate.SetDate | api/clover-dashboard.js:40 | the new time is the first of the old month plus the day minus one, clipped; invalid stays invalid |
| DateRange.InclusiveDays | api/clover-dashboard.js:38 | start plus the day count minus one is the end |
| DateRange.PreviousRange | api/clover-dashboard.js:38-47 | the only failure is the RangeError of a shifted end leaving the Date range |
| DateRange.DateRanges | api/clover-dashboard.js:28-51 | every failure is a RangeError; success needs both Dates valid and gives one range without comparison, two with it, the first being the formatted inputs |
| DateRange.ShiftRange | api/clover-dashboard.js:38-47 | the `new Date`/`getDate`/`setDate` steps give the comparison range of `PreviousRange` |
| DateRange.GetDateRange | api/clover-dashboard.js:28-51 | the method with its `push` computes exactly `DateRanges` |
| DateRange.SingleRangeVerbatim | api/clover-dashboard.js:28-35 | without comparison, full-date inputs come back unchanged as the single range |
| DateRange.ComparedRanges | api/clover-dashboard.js:37-47 | when the shifted ends stay valid, the result is the current range then the range shifted back by the inclusive day count |
| DateRange.PreviousRangeAdjacent | api/clover-dashboard.js:37-47 | read as dates, the previous range ends the day before the current start and spans the same number of days |
| DateRange.RangeParses | api/clover-dashboard.js:32-35 | a range written from two four-digit-year days reads back as those two days |
| DateRangeExample.WeekExample | api/clover-dashboard.js:28-51 | 2024-01-01..2024-01-07 compared gives 2024-01-01..07 then 2023-12-25..31 |
| Report.Trunc | api/clover-dashboard.js:146 | `parseInt` of a number lies within one of it, toward zero, with its sign |
| Overview.PercentChange | api/clover-dashboard.js:191-199 | 0 when previous is 0 or missing; otherwise result × previous = ±100 × (current − previous), minus for inverse |
| Overview.PercentChangeInverse | api/clover-dashboard.js:198 | the inverse flag exactly negates the result |
| Overview.PercentChangeGrowth | api/clover-dashboard.js:195-197 | against a positive previous value the change is positive iff the value grew and zero iff unchanged |
| Overview.ProcessOverviewData | api/clover-dashboard.js:135-189 | `[]` on failure or absent rows, otherwise seven cards titled Page Views … Engagement Rate in order |
| Overview.OverviewValues | api/clover-dashboard.js:140-182 | each card's value is row 0's metric at its position (truncated for counts), 0 when missing |
| Overview.OverviewEmptyRows | api/clover-dashboard.js:140-186 | an empty rows list gives seven zero cards without change |
| Overview.OverviewChangePresence | api/clover-dashboard.js:141-184 | `change` and `changeDiff` are present iff comparing and row 1 has metric values |
| Overview.OverviewChanges | api/clover-dashboard.js:147-184 | only Bounce Rate's change is negated; every `changeDiff` is the plain current − previous |
| Overview.BounceRateSigns | api/clover-dashboard.js:163-166 | for Bounce Rate, a positive `changeDiff` comes with a negative `change` |
| StringSort.SortAscending | api/clover-dashboard.js:231 | sorting distinct strings gives them in strictly ascending order, each exactly once |
| Chart.JsMap.Get | api/clover-dashboard.js:235-238 | `get` gives an entry exactly for the keys `keys()` lists, and `undefined` otherwise |
| Chart.ReadSessions | api/clover-dashboard.js:235-238 | the session series read through `get`, with 0 for a missing date, is the series over the Map's entries |
| Chart.ReadPageviews | api/clover-dashboard.js:235-238 | the page-view series read through `get`, with 0 for a missing date, is the series over the Map's entries |
| Chart.JsMap.Set | api/clover-dashboard.js:224-226 | `set` overwrites the entry, appends only a new key to the key order, and keeps every key listed once |
| Chart.ChartOf | api/clover-dashboard.js:201-240 | the only failure is a TypeError; series have the labels' length; both previous series are present together |
| Chart.FileRow | api/clover-dashboard.js:215-227 | filing one more readable row keeps the Map equal to the last point per date, keys in first-seen order |
| Chart.FileRows | api/clover-dashboard.js:212-228 | the `forEach` throws exactly when some row is unreadable; otherwise the Map the line-221 test picks holds every row filed in order and the other stays empty |
| Chart.ProcessChartData | api/clover-dashboard.js:201-240 | the loop over rows with two Maps computes exactly `ChartOf` |
| Chart.DateOrderKeys | api/clover-dashboard.js:212-231 | the Map's keys are the rows' dates, each once |
| Chart.BucketsLastRowWins | api/clover-dashboard.js:215-228 | a date's entry is the point of the last row with that date |
| Chart.ChartThrows | api/clover-dashboard.js:215-218 | the call throws iff some row lacks a date or one of the two metrics |
| Chart.ChartFailure | api/clover-dashboard.js:202-209 | failure or absent rows: five empty arrays, the previous ones not null |
| Chart.ChartLabels | api/clover-dashboard.js:221-231 | labels ascend strictly and are exactly the rows' dates, or empty when rows are filed as previous |
| Chart.ChartCurrentSeries | api/clover-dashboard.js:233-238 | each series entry comes from the last row with that label's date; previous series are zero |
| Chart.ChartPreviousPresence | api/clover-dashboard.js:237-238 | the previous series are null exactly when not comparing |
| Chart.ChartAllPrevious | api/clover-dashboard.js:221-238 | comparing with more than one declared range: empty labels and series, previous series `[]` |
| Table.MapRows | api/clover-dashboard.js:247-267 | one record per row in order, or a TypeError iff some row's callback throws |
| Table.ProcessTableData | api/clover-dashboard.js:242-268 | `[]` on failure or absent rows; the only failure is a TypeError |
| Table.TableRows | api/clover-dashboard.js:247-268 | min(n, 20) records, record j from row j |
| Table.TableThrows | api/clover-dashboard.js:247-268 | throws iff the type is pages or sources and some row, even past the 20th, lacks dimensions or metrics |
| Table.PageEntry | api/clover-dashboard.js:248-257 | page is dimension 1 and title dimension 0, "(not set)" when missing or empty; pageviews, sessions, users, bounce rate and average duration are metrics 0 to 4 |
| Table.SourceEntry | api/clover-dashboard.js:258-266 | source defaults to "(direct)" and medium to "(none)", also for empty strings; sessions, users, pageviews and bounce rate are metrics 0 to 3 |
| Table.OtherKindEntries | api/clover-dashboard.js:247-268 | any other type gives `undefined` records and never throws |

## Left out

- The HTTP `handler` is not modelled: CORS headers, request and response objects, the `Promise.all` fan-out and the `lastUpdated` clock reading.
- `getAuth` and its environment JSON parsing are not modelled; they are credential loading through the OAuth client.
- `getGA4Data`, `getOverviewMetrics`, `getChartData`, `getTopPages` and `getTrafficSources` are not modelled; they wrap the remote `runReport` call. Their result enters the model as a `Response` value.
- `api/dashboard.js` is not part of this model: it is a configuration lookup plus network calls and a clock reading.
- `new Date(text)` parsing is not modelled. `getDateRange` takes already-parsed time values, which lie within the TimeClip bound. `ParseFullDate` reads only strict `YYYY-MM-DD` text, not the other formats V8 accepts.
- DateRange.SingleRangeVerbatim: covers only text naming a real calendar date. V8 also accepts a day of 29 to 31 in a shorter month and rolls it over (`2024-02-30` is 2024-03-01), so the source does not echo such text back; `ParseFullDate` rejects it.
- Times of day and time zones are not modelled. Dates are at UTC midnight, and the process time zone is taken to be UTC, so `getDate`/`setDate` act on the UTC calendar.
- `parseInt`/`parseFloat` on text are not modelled. A cell holds the number its text spells, and NaN results, exponent notation and IEEE-754 rounding are not represented: numbers are exact reals, and there is no `-0`.
- A dimension entry without a `value` field is treated as the empty string.
- `Array.prototype.sort` compares UTF-16 code units, while the model compares Unicode scalar values. The two orders differ only for characters outside the Basic Multilingual Plane.
- IsoDate.ParseFormat: only covers years 0000 to 9999. The signed six-digit year form that `toISOString` uses outside that span has no reader in the model.
- DateRange.PreviousRangeAdjacent: requires all four dates to lie in years 0000 to 9999, so that the full-date texts read back.

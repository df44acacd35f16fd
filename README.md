# Activity flags per product — a Dafny model

`transform_script.py` is the worker of an Airflow job. For one product `p` it reads a
profit table: one row per customer `id` and month `date`, with the columns `sum_<p>`
(profit) and `count_<p>` (number of transactions). It then computes a customer activity
flag `flag_<p>`. A customer is active when, over the months around the calculation date,
both their total profit and their transaction count are non-zero.

This project models the worker's core, `transform` (lines 14-63), as pure functions and
proves what it computes:

- **The month window (lines 30-36).**
  - The calculation date is shifted two months back and one month forward, as
    `pd.DateOffset` does it: the day is clamped to the end of the target month.
  - The window takes every month whose last day lies between those two dates, as
    `pd.date_range(..., freq='M')` does.
  - Each window month is written as `YYYY-MM-01`.
- **The filter (line 40).** Only rows whose `date` text is one of the window strings are
  kept.
- **The grouping (lines 41-44).** Per-id totals, in ascending id order. Empty cells count as
  zero.
- **The flag rule (lines 51-56).** The flag is 1 iff the total profit and the transaction
  count are both non-zero.
- **The missing-column fallback (lines 47-49).** It returns a column-less empty frame.
- **The result (line 59).** The result has the columns `id` and `flag_<p>`.

Two more pieces are modelled:

- The decisions `main` takes once the CSV text is parsed (lines 120-143).
- The in-memory part of widening the stored flag table (lines 81-87): the table gains the
  `flag_<p>` column, by a left merge on `id`, unless it already has one.

Modules:

- `Wrappers`: `Option` and `Result`.
- `Calendar`: the Gregorian calendar, month indices, first and last days, `AddMonths`.
- `IsoDate`: `YYYY-MM-DD` formatting and parsing, and their round trips.
- `MonthWindow`: the month-end range and the window of a date.
- `FlagTransform`: `transform` itself.
- `ProductWorker`: the logic of `main`.
- `StoreWiden`: the widening merge.

**The window is usually three months.** Read as "two months back to one month forward",
the window for `2024-03-01` might be expected to hold four months. The code takes the
month-ends between `2024-01-01` and `2024-04-01`, which are the ends of January, February
and March. That is three months, `2024-01-01`, `2024-02-01` and `2024-03-01`. The model
computes the same three months (`MonthWindow.TargetWindowMonths`,
`ProductWorker.TargetDateAccepted`). In general the window has four months only when the
date's day of the month is at least the number of days in the next month, as for
2024-01-31 (`MonthWindow.WindowShape`).

**Dates outside the Timestamp range fail.** pandas holds a date as a nanosecond
`Timestamp`. A calculation date, or one of its two shifted dates, outside
1677-09-22 .. 2262-04-11 raises an error; `Transform` returns `Err` for it. The dates
`transform` accepts are exactly the valid ISO dates from 1677-11-22 to 2262-03-11
(`FlagTransform.AcceptedDateRange`).

## Model

| member | source | states |
|---|---|---|
| Calendar.DaysInMonth | transform_script.py:30-31 | a month has 28 to 31 days, and February has 29 exactly in leap years |
| Calendar.AddMonths | transform_script.py:30-31 | `DateOffset(months=n)` gives a valid date that keeps the day of the month, or clamps it to the target month's last day, and never exceeds it |
| Calendar.AddMonthsMonth | transform_script.py:30-31 | shifting by `n` months moves the month index by exactly `n` |
| Calendar.AddMonthsInverse | transform_script.py:30-31 | for days up to the 28th, shifting by `n` months and back by `n` restores the date |
| Calendar.MonthIndexInjective | transform_script.py:34-36 | year and month are recovered from the month index |
| Calendar.MonthBounds | transform_script.py:34-36 | the first and the last day of month `k` both belong to month `k` |
| Calendar.BeforeLastDay | transform_script.py:34-36 | a date is on or before the last day of month `j` iff its month is at most `j` |
| IsoDate.ParseIsoDate | transform_script.py:30 | a parsed date is a valid date with a four-digit year |
| IsoDate.ParseFormat | transform_script.py:36 | parsing a formatted date gives the date back |
| IsoDate.FormatParse | transform_script.py:36 | formatting a parsed date gives the text back |
| IsoDate.FormatMonthStart | transform_script.py:36 | `strftime('%Y-%m-01')` of a month is ten characters long; `MonthWindow.MonthStartShape` and `MonthWindow.MonthStartParses` give its `-01` ending and that it parses as the month's first day |
| IsoDate.Pad2Number | transform_script.py:36 | two digits read as a number and padded back give the same two characters |
| IsoDate.Pad4Number | transform_script.py:36 | four digits read as a number and padded back give the same four characters |
| IsoDate.FormatMonthStartInjective | transform_script.py:36 | distinct months are written as distinct `YYYY-MM-01` strings |
| MonthWindow.MonthEndsFrom | transform_script.py:34-35 | the month-end range is the consecutive months from the start month, none after the end date's month |
| MonthWindow.MonthEndRange | transform_script.py:34-35 | `date_range(start, end, freq='M')` is consecutive months from the start date's month; `MonthEndRangeMembers` says which months it holds |
| MonthWindow.MonthEndsFromMembers | transform_script.py:34-35 | a month is in the range iff it is not before the start month and its last day is on or before the end |
| MonthWindow.MonthEndRangeMembers | transform_script.py:34-35 | `date_range(start, end, freq='M')` holds month `j` iff `start <= LastDay(j) <= end` |
| MonthWindow.WindowStart | transform_script.py:30 | the date two months back is a valid date whose day of the month is at most the date's own; `Calendar.AddMonthsMonth` places it two months back |
| MonthWindow.WindowEnd | transform_script.py:31 | the date one month forward is a valid date whose day of the month is at most the date's own; `Calendar.AddMonthsMonth` places it one month forward |
| MonthWindow.WindowMonths | transform_script.py:30-35 | the window is consecutive months from the month of the shifted start; `WindowMembers` and `WindowShape` say exactly which |
| MonthWindow.WindowMembers | transform_script.py:30-35 | a month is in the window iff its last day lies between the date shifted two months back and one month forward |
| MonthWindow.WindowShape | transform_script.py:30-35 | the window is the date's month and the two before it, plus the next month iff the day reaches that month's length |
| MonthWindow.WindowContiguous | transform_script.py:30-35 | the window holds 3 or 4 consecutive months starting at the month of the shifted start |
| MonthWindow.WindowDatesAreMonthStarts | transform_script.py:36 | every window string has 10 characters, ends in `-01` and parses as a first of the month |
| MonthWindow.MonthStartParses | transform_script.py:36 | a month's `YYYY-MM-01` string parses as that month's first day |
| MonthWindow.FirstOfMonth | transform_script.py:36 | a date on day 1 is the first day of its own month |
| MonthWindow.WindowDatesMembers | transform_script.py:34-36 | a string is in the window iff it parses as the first day of a window month |
| MonthWindow.TargetWindowMonths | transform_script.py:129 | the window of 2024-03-01 is January, February and March 2024 |
| MonthWindow.FormatMonthStart2024 | transform_script.py:36 | months 1 to 9 of 2024 are written `2024-0m-01` |
| MonthWindow.FirstQuarter2024 | transform_script.py:36 | January to March 2024 are written `2024-01-01`, `2024-02-01` and `2024-03-01` |
| MonthWindow.MonthStartShape | transform_script.py:36 | a month's `YYYY-MM-01` string has 10 characters and ends in `-01` |
| MonthWindow.WindowYears | transform_script.py:30-36 | for an accepted date every window month lies in a four-digit year, so its string can be formatted |
| MonthWindow.ThreeMonthWindowDates | transform_script.py:34-36 | a three-month window is written as the three month-start strings of its months, in order |
| MonthWindow.FirstQuarter2024Text | transform_script.py:36 | the month-start strings of January to March 2024 are `2024-01-01`, `2024-02-01`, `2024-03-01` |
| MonthWindow.FirstQuarterWindowDates | transform_script.py:34-36 | a window of January to March 2024 is written as exactly `2024-01-01`, `2024-02-01`, `2024-03-01` |
| FlagTransform.AcceptedDate | transform_script.py:30-31 | an accepted date parses and its window can be formatted |
| FlagTransform.StartBound | transform_script.py:30 | the date shifted two months back is on or after 1677-09-22 iff the date is on or after 1677-11-22 |
| FlagTransform.EndBound | transform_script.py:31 | the date shifted one month forward is on or before 2262-04-11 iff the date is on or before 2262-03-11 |
| FlagTransform.AcceptedDateRange | transform_script.py:30-31 | `transform` accepts a date iff it is a valid ISO date from 1677-11-22 to 2262-03-11 |
| FlagTransform.SelectWindow | transform_script.py:40 | the kept rows are exactly the table's rows whose date is a window string |
| FlagTransform.SelectWindowTotal | transform_script.py:40-43 | summing the kept rows equals the reference sum over in-window rows |
| FlagTransform.TotalAppend | transform_script.py:43 | a column total over two row blocks is the sum of their totals |
| FlagTransform.SelectWindowAppend | transform_script.py:40 | filtering distributes over concatenating row blocks |
| FlagTransform.GroupIdsMembers | transform_script.py:42 | an id is among the groups iff some group carries it |
| FlagTransform.Find | transform_script.py:42-43 | looking an id up gives its group, or a zero group when it has none |
| FlagTransform.FindInAscending | transform_script.py:42 | in ascending groups, looking up a group's id gives that group |
| FlagTransform.Insert | transform_script.py:42-43 | adding to an id keeps the groups ascending and adds just that id |
| FlagTransform.InsertFindFirst | transform_script.py:42-43 | adding to an id below every group puts a new group with exactly the added totals in front |
| FlagTransform.InsertFindSame | transform_script.py:42-43 | adding to the first group's id adds the totals to that group and leaves every other group unchanged |
| FlagTransform.InsertFindLater | transform_script.py:42-43 | adding to an id above the first group keeps the first group and adds within the rest |
| FlagTransform.InsertFind | transform_script.py:42-43 | after adding to id `x`, `x`'s group has the added totals and every other group is unchanged |
| FlagTransform.InsertTotals | transform_script.py:41-43 | adding one row's totals to the groups of the other rows gives every id the totals of all the rows |
| FlagTransform.GroupSum | transform_script.py:41-44 | `groupby('id').sum()` has one group per id in the rows, in ascending order, each holding that id's column totals |
| FlagTransform.Flag | transform_script.py:51-56 | the flag is 0 or 1, and 1 iff both the profit total and the transaction count are non-zero |
| FlagTransform.FlagRows | transform_script.py:51-59 | one row per group, with the group's id and a 0/1 flag; `FlagRowsIds` and `TransformFlags` state the ids and the flags of the result |
| FlagTransform.Transform | transform_script.py:14-63 | it fails iff the date is unparsable or out of range, returns the empty frame when a product column is missing, and otherwise returns the columns `id`, `flag_<p>` |
| FlagTransform.FlagRowsIds | transform_script.py:51-59 | flagging ascending groups gives one row per group, with the same ids in the same ascending order |
| FlagTransform.SelectWindowIds | transform_script.py:40 | the ids of the kept rows are exactly the ids of in-window rows |
| FlagTransform.TransformIds | transform_script.py:41-59 | the result's ids are strictly ascending and are exactly the ids of in-window rows |
| FlagTransform.TransformFlags | transform_script.py:51-56 | every flag is 0 or 1, and it is 1 iff the id's in-window profit and count totals are both non-zero |
| FlagTransform.OutOfWindowRowIgnored | transform_script.py:40 | appending a row dated outside the window does not change the result |
| ProductWorker.TargetDateText | transform_script.py:129 | 1 March 2024 is written `2024-03-01` |
| ProductWorker.TargetDateParses | transform_script.py:129 | `2024-03-01` parses as 1 March 2024 |
| ProductWorker.MarchFirstAccepted | transform_script.py:30-31 | a text parsing as 1 March 2024 lies inside the Timestamp range and is accepted |
| ProductWorker.MarchFirstWindow | transform_script.py:30-36 | the window of a text parsing as 1 March 2024 is `2024-01-01`, `2024-02-01`, `2024-03-01` |
| ProductWorker.TargetDateAccepted | transform_script.py:129 | the target date is accepted and its window is January to March 2024 |
| ProductWorker.ProductSlice | transform_script.py:126 | the slice keeps every row with its id and date; `SliceTotals` and `SliceIds` show it keeps the in-window totals and ids |
| ProductWorker.RunWorker | transform_script.py:120-143 | a table missing `sum_<p>` or `count_<p>` makes the worker fail, and a written frame has rows and the columns `id`, `flag_<p>`; `WorkerFailure`, `WorkerNoOutput` and `WorkerFrame` give the exact conditions and contents |
| ProductWorker.SliceTotals | transform_script.py:126 | slicing the table to the product keeps every in-window product total |
| ProductWorker.SliceWindowTotals | transform_script.py:126 | for every id, the slice's in-window profit and count totals equal the table's |
| ProductWorker.SliceIds | transform_script.py:126 | slicing the table to the product keeps the ids of in-window rows |
| ProductWorker.WorkerTransform | transform_script.py:126-134 | with both product columns present, `transform` on the slice succeeds and the worker writes its result unless it is empty |
| ProductWorker.WorkerFailure | transform_script.py:121-129 | the worker fails iff the table lacks `sum_<p>` or `count_<p>`, so `transform`'s own fallback is never reached from `main` |
| ProductWorker.WorkerNoOutput | transform_script.py:129-134 | nothing is written iff no row of the table is dated in the window |
| ProductWorker.WorkerFrameIds | transform_script.py:126-143 | the written frame has the columns `id`, `flag_<p>` and one row per in-window id of the table, ascending |
| ProductWorker.WorkerFrameFlags | transform_script.py:126-143 | each written flag is 0 or 1, and 1 iff the id's in-window profit and count totals in the original table are both non-zero |
| ProductWorker.WorkerFrame | transform_script.py:126-143 | the written frame has the columns `id`, `flag_<p>`, one ascending row per in-window id, and flags computed from the original table's in-window totals |
| StoreWiden.Matches | transform_script.py:83 | an id has no more matches than the batch has rows |
| StoreWiden.MatchesMembers | transform_script.py:83 | the matches of an id are exactly the batch rows with that id |
| StoreWiden.JoinRow | transform_script.py:83 | a left merge makes at least one row of every stored row |
| StoreWiden.WithFlags | transform_script.py:83 | one merged row per matching batch row, each with the stored row's id and that batch row's flag |
| StoreWiden.LeftJoin | transform_script.py:83 | the merge loses no stored row |
| StoreWiden.WidenIfAbsent | transform_script.py:81-87 | a store with the flag column is unchanged; otherwise it fails iff the batch lacks `id` or `flag_<p>`, and succeeds with the flag column appended and no row lost |
| StoreWiden.MatchesDistinct | transform_script.py:83 | with distinct batch ids, an id matches nothing or exactly its one batch row |
| StoreWiden.LeftJoinDistinct | transform_script.py:83 | with distinct batch ids, the merge keeps the stored rows one for one, and each gains the batch flag of its id or an empty cell |
| StoreWiden.JoinRowHead | transform_script.py:83 | the first row a stored row makes keeps its id and all its cells other than the flag |
| StoreWiden.LeftJoinKeepsRows | transform_script.py:83 | every stored row reappears, at the position of its first merged row, with its id and all its other cells |
| StoreWiden.WidenIdempotent | transform_script.py:81-87 | widening an already widened store changes nothing |
| StoreWiden.WidenWithTransformResult | transform_script.py:81-85 | widening with a result of `transform` adds the one flag column and keeps the stored rows one for one |

## Left out

- Logging, reading stdin, parsing CSV text, the command-line argument check (lines 105-107)
  and writing to stdout are I/O and are not modelled. `main` is modelled from a parsed
  table onward.
- `write_to_file_with_lock`: opening the file, the `fcntl` lock, `os.path.exists` and
  `to_csv` (lines 72-79, 85, 88-93) are file I/O and are not modelled. Only the decision
  and the merge of lines 81-87 are. `main` never calls this function.
- Line 85 writes the widened table by appending to the file it was read from. That
  appended output is not modelled.
- Lines 88-90 cannot run, because the file was opened for appending and therefore exists.
  They are not modelled.
- The exception handler of lines 97-98 is not modelled; `StoreWiden.WidenIfAbsent` returns
  its `Err` instead.
- Dates are parsed only in the `YYYY-MM-DD` form. `pd.to_datetime` accepts many other
  formats and times of day. The model treats every other text as unparsable.
- Profit and count values are integers. Floating-point sums, and `NaN` other than an empty
  cell, are not modelled.
- Ids are integers, so the grouping order is numeric order.
- Value columns other than `sum_<p>` and `count_<p>` are not grouped, because nothing in
  the result depends on them. A table without an `id` or `date` column raises in pandas;
  here every row has both.
- Sub-day times of `Timestamp` and its exact nanosecond bounds are not modelled. The range
  is modelled by whole days, and a day's midnight must fit.
- A stored table without an `id` column raises in `merge`. Here every stored row has an id.
- FlagTransform.GroupSum: totals are unbounded integers. The int64 wrap-around of pandas
  sums, and a flag changed by it, are not modelled.
- The model assumes pandas 2.x. With no row in the window, `apply(axis=1)` on the empty
  grouped frame is taken to give an empty column, so the result is an empty frame with
  the columns `id` and `flag_<p>`; a pandas release that raises on that assignment is not
  modelled. `freq='M'` is read as month-ends, as before pandas 2.2, which deprecates it in
  favour of `'ME'` with the same dates.

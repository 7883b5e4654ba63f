# Tenant rent bookkeeping: a verified model

This project models the rent-payment bookkeeping inside `app2.py`, the
Streamlit page of the tenant rent prediction tool. The core has four parts:

- **due dates**: `calculate_due_date`, and the copy of it computed inline in
  `main`. Each adds the payment frequency in days to the previous payment
  date and writes the result as ISO 8601 text `YYYY-MM-DD` (section 5.2.1.1
  of ISO 8601);
- **the frequency selector**: Monthly is 30 days, Quarterly 90, Custom
  1 to 365;
- **`get_payment_status`**: the label of a due date relative to today;
- **the history table**: the column migration on load, appending an entry,
  recomputing the status column, the per-status counts and deleting a row
  by position.

Dates are proleptic Gregorian y/m/d values numbered from 0001-01-01
(`Calendar.DayNumber`, the same as Python's `toordinal() - 1`).
`Calendar.FromDayNumber` is proved to be its inverse. Adding days is done on
day numbers, and Python's limits `0001-01-01 .. 9999-12-31` become the
OverflowError case. `calculate_due_date` and `get_payment_status` go through
`pd.to_datetime`. That call only holds a nanosecond pandas Timestamp, so for
midnight dates the range is 1677-09-22 to 2262-04-11
(`DueDates.InTimestampRange`). Text outside that range raises inside the
`try` and is swallowed into `""` or `Unknown`. The inline computation in
`main` works on a Python `date` and has no such bound. Inside the Timestamp
range the two computations agree (`DueDates.InlineAgreesWithCalculate`).
Before 1677-09-22 they do not (`DueDates.InlineDiffersBeforeTimestampRange`).
`calculate_due_date` is never called by `main`, so this is not a defect of
the page.

The history table is the class `History.HistoryTable`. It holds a sequence
of column names and a sequence of rows, each row a map from column name to
cell. A cell is `Missing` (pandas' NaN) or text. Each method states its new
state in terms of the old one. The lemmas beside them state what this means:
- the migration keeps existing values and fills only the added columns with `""`;
- recomputing changes only the status column and is idempotent for a fixed day;
- after a recompute the five per-status counts add up to the number of rows;
- a delete shifts the later rows down by one.

`History.Session` is a client of the class. It records one prediction whose
due date has passed. `History.ViewOverdue` then shows that row as Overdue,
and `History.DeleteTwice` deletes it twice: the second delete fails.

The modules, one file each: `Wrappers` (Option, Result), `Calendar`,
`IsoDate`, `Cells`, `Frequency`, `DueDates`, `Status` and `History`.

## Model

| member | source | states |
|---|---|---|
| Calendar.DayNumber | app2.py:65-69 | the ordinal behind the date comparisons here and `timedelta` at lines 51 and 129: a date's number is at least 0 and lies within its own year's block of days (see DayNumberOrder and FromDayNumberOfDayNumber for order and inverse) |
| Calendar.FromDayNumber | app2.py:51 | every day number from 0001-01-01 to 9999-12-31 names a valid date, and that date's number is the given one |
| Calendar.FromDayNumberOfDayNumber | app2.py:51 | date to day number to date is the identity on valid dates |
| Calendar.DayNumberOrder | app2.py:65-67 | day numbers follow calendar order (year, then month, then day), and two dates share a number only if they are equal |
| Calendar.AddDays | app2.py:129 | `date + timedelta(days=k)` has a result iff the sum stays within 0001-01-01..9999-12-31, and the result is exactly k days later |
| Calendar.AddDaysIff | app2.py:129 | adding k days to d gives e exactly when e's day number is d's plus k |
| Calendar.AddDaysZero | app2.py:129 | adding zero days gives the same date |
| Calendar.AddDaysCompose | app2.py:129 | adding j days and then k days is adding j + k days |
| Calendar.AddDaysForward | app2.py:129 | adding a positive number of days moves strictly later in the calendar |
| Calendar.AddDaysWithinMonth | app2.py:129 | 2024-05-01 plus 30 days is 2024-05-31 |
| Calendar.AddDaysAcrossLeapFebruary | app2.py:129 | 2024-01-31 plus 30 days is 2024-03-01 (leap February) |
| Calendar.AddDaysAcrossCommonFebruary | app2.py:129 | 2023-01-31 plus 30 days is 2023-03-02 (common February) |
| Calendar.AddDaysAcrossYearEnd | app2.py:129 | 2023-12-15 plus 30 days is 2024-01-14 |
| Calendar.AddQuarterAcrossYearEnd | app2.py:129 | 2024-11-15 plus 90 days is 2025-02-13 |
| Calendar.EndOfFebruary | app2.py:129 | in every year, the day after 02-28 is 02-29 in a leap year and 03-01 otherwise |
| Calendar.AddDaysCenturyLeapRule | app2.py:129 | in a century year, the day after 02-28 is 02-29 when 400 divides the year (2000) and 03-01 otherwise (1900) |
| Calendar.AddDaysOverflow | app2.py:129 | there is no day after 9999-12-31 (Python raises OverflowError) |
| IsoDate.Format | app2.py:52 | `strftime("%Y-%m-%d")` here and at line 130, and `str(date)` at line 159, write ten characters: four digits, a dash, two digits, a dash, two digits (ParseFormat and FormatParse make it the inverse of Parse) |
| IsoDate.Parse | app2.py:50 | only well-shaped `YYYY-MM-DD` text naming an existing date parses, and what it yields is a valid date |
| IsoDate.ParseFormat | app2.py:50-52 | parsing the `%Y-%m-%d` text of a date gives back that date |
| IsoDate.FormatParse | app2.py:50-52 | text that parses is canonical: formatting the parsed date reproduces it |
| IsoDate.FormatInjective | app2.py:52 | distinct dates have distinct ISO texts |
| IsoDate.FormatExample | app2.py:52 | 2024-05-31 is written `2024-05-31`, and that text parses back to it |
| IsoDate.ParseRejectsInvalidDate | app2.py:50 | well-shaped text naming a date that does not exist, such as 2023-02-29, fails to parse |
| IsoDate.ParseRejectsOtherShapes | app2.py:50 | text in another shape, and the empty text, fail to parse |
| DueDates.ToTimestamp | app2.py:50 | a successful `pd.to_datetime` yields a date inside the Timestamp bounds whose ISO text is exactly the input |
| DueDates.ToTimestampOfFormat | app2.py:50 | conversely, the ISO text of every date inside the bounds converts to that date |
| DueDates.TimestampBounds | app2.py:50 | the Timestamp range runs from day number 612411 (1677-09-22) to 825913 (2262-04-11), inside the range of Python dates |
| DueDates.CellDate | app2.py:47-50 | a cell yields a date only when it holds that date's ISO text and the date lies inside the Timestamp bounds |
| DueDates.CellDateOfFormat | app2.py:47-50 | conversely, a cell holding the ISO text of a date inside the bounds yields that date |
| DueDates.CalculateDueDate | app2.py:45-54 | a non-empty result is ISO text exactly `frequency_days` after the previous date. "" only when the previous date is missing, empty or not a date, or the sum leaves the Timestamp range |
| DueDates.CalculateDueDateOfDate | app2.py:45-52 | for a previous date in range, the result is the ISO text of that date advanced by exactly the frequency |
| DueDates.CalculateDueDateNoPrevious | app2.py:47-48 | a missing (NaN) or empty previous date gives "" |
| DueDates.CalculateDueDateOutOfRange | app2.py:49-54 | a sum outside the Timestamp range gives "" (the swallowed exception) |
| DueDates.InlineDueDate | app2.py:127-130 | no date picked gives ""; past 9999-12-31 the addition fails; otherwise the text parses to the previous date plus the frequency |
| DueDates.InlineAgreesWithCalculate | app2.py:127-130 | inside the Timestamp range, the inline computation returns exactly what `calculate_due_date` returns on the date's text |
| DueDates.InlineDiffersBeforeTimestampRange | app2.py:127-130 | a date before 1677-09-22 still gets a due date inline, but `calculate_due_date` gives "" for it |
| Frequency.FrequencyDays | app2.py:115-124 | for every option of the select box, the frequency lies in 1..365, so it is positive |
| Frequency.FrequencyOfEachChoice | app2.py:118-124 | Monthly gives 30, Quarterly gives 90 (its label does not contain "Monthly"), Custom gives the entered number |
| Status.Label | app2.py:59-74 | every status is stored as non-empty text, so a recomputed status is never read back as a missing value (LabelRoundTrip proves the five texts distinct) |
| Status.StatusOfLabel | app2.py:217 | a cell read back as a status holds exactly that status's label |
| Status.LabelRoundTrip | app2.py:59-74 | the five labels are distinct: each reads back as its own status |
| Status.GetPaymentStatus | app2.py:56-74 | Unknown exactly when the due cell is missing, empty or unparsable (or today is not a Timestamp) |
| Status.StatusPartition | app2.py:65-72 | for a parsed due date: Overdue iff it is before today; Due Today iff it is today; Due Soon iff it is after today and at most 7 days ahead; Upcoming iff it is more than 7 days ahead |
| Status.StatusOfDayNumbers | app2.py:65-72 | the status of an ISO due date is read off the day numbers: earlier, the same day, at most 7 days later, or more |
| Status.StatusOfOffset | app2.py:65-72 | the due date k days after today (as ISO text) is Overdue for k < 0, Due Today for 0, Due Soon for 1..7 and Upcoming beyond |
| Status.DueSoonBoundary | app2.py:69-72 | today + 7 days is Due Soon and today + 8 days is Upcoming |
| Status.StatusOfNoDate | app2.py:58-74 | a missing, empty or invalid due date is Unknown |
| Status.StatusExamples | app2.py:65-72 | with today 2024-06-10, the dates 06-09, 06-10, 06-15 and 06-20 are Overdue, Due Today, Due Soon and Upcoming |
| History.AddColumns | app2.py:34-36 | the migrated column list: the old columns first and unchanged, then every required column, nothing else, no duplicates |
| History.MigratedAddColumn | app2.py:36 | adding a new column keeps the original values and puts "" only in the added column |
| History.WithColumn | app2.py:36 | `history_df[col] = ""` on every row: same number of rows, each row gains the column with the given value, and every other cell keeps its value |
| History.Migrate | app2.py:34-36 | the migration loop as a recursion over the required columns; it keeps the number of rows |
| History.MigrateCorrect | app2.py:34-36 | the column loop produces exactly the AddColumns column list, keeps every row holding exactly the table's columns, and keeps the rows migrated |
| History.Conform | app2.py:163 | the appended row has the table's columns, the entry's values, and NaN in any column the entry lacks |
| History.WithStatuses | app2.py:185 | `.apply(get_payment_status)` into the status column: same number of rows, and each row's status cell reads back as the status of its own due-date cell |
| History.RemoveAt | app2.py:238-239 | one element fewer, earlier positions unchanged, and each later element one position down |
| History.CountStatus | app2.py:217 | a label's count never exceeds the number of rows |
| History.CountStatusZero | app2.py:217-227 | a label's count is zero exactly when no row holds that label (the `.get(label, 0)` default) |
| History.RecomputeChangesOnlyStatus | app2.py:185 | the recompute keeps the row count and every other column, and puts in each row the status of its due date |
| History.RecomputeIdempotent | app2.py:185 | recomputing twice on the same day equals recomputing once |
| History.RecomputeLabelsEveryRow | app2.py:185 | after a recompute every row holds one of the five labels |
| History.CountsSumToRows | app2.py:217-227 | when every row is labelled, the five per-status counts sum to the row count |
| History.CountsAfterRecompute | app2.py:185-227 | after a recompute, the five counts sum to the row count |
| History.NewEntry | app2.py:155-161 | an entry has exactly the seventeen required columns, with the predicted rent, tenant name, telephone, previous date, due date and status it was given |
| History.HistoryTable.Empty | app2.py:38-42 | without a history file, the table has exactly the required columns and no rows |
| History.HistoryTable.Load | app2.py:26-36 | a loaded table ends up with the migrated columns and migrated rows |
| History.HistoryTable.AddMissingColumns | app2.py:34-36 | the loop appends each missing required column; old values stay and added cells hold "" |
| History.HistoryTable.Append | app2.py:163 | the table gets one more row, the entry conformed to its columns, and all earlier rows stay |
| History.HistoryTable.RecordPrediction | app2.py:127-163 | fails only where the inline due date overflows. Otherwise exactly one row is appended and earlier rows stay; the new row is the complete entry (property details, predicted rent, tenant, telephone, previous date text, due-date text and that due date's status) conformed to the table's columns |
| History.HistoryTable.RecomputeStatuses | app2.py:183-185 | the rows become the recomputed rows for the given day; columns do not change |
| History.HistoryTable.CountStatuses | app2.py:217-227 | each returned count is the number of rows with that label, and on a labelled table they total the row count |
| History.HistoryTable.DeleteRow | app2.py:236-239 | succeeds iff the index is a position of the table, and then removes exactly that row and compacts the rest; otherwise nothing changes |
| History.ViewOverdue | app2.py:183-185 | viewing a one-row table on a day after its due date marks that row Overdue |

## Left out

- The Streamlit page: widgets, page configuration, HTML, the styling of the status column and its colours (app2.py:79-108, 166-178, 199-213). Only the bounds the widgets put on the frequency and the delete index are kept.
- The rent model: `load_model`, `joblib.load` and `model.predict` (app2.py:15-21, 149) are an opaque foreign function. The predicted rent is an uninterpreted text value of the entry.
- The `predicted_rent > 90000` message (app2.py:175-178). It is a floating-point comparison that drives only a message.
- File I/O: `read_csv`, `to_csv`, the existence test of the history file and the download button (app2.py:26-27, 164, 240, 245-252). `HistoryTable.Load` receives the columns and rows the reader produced. There is no export or snapshot operation, because export is CSV serialisation.
- The clock: `datetime.now()` (app2.py:63, 250) is replaced by a `today` parameter.
- `st.rerun` and the session lifecycle.
- Lenient parsing: `pd.to_datetime` accepts many other spellings of a date. Here only `YYYY-MM-DD` parses, and anything else counts as a failed parse. In particular, text such as `NaT`, which `read_csv` does not read as missing, becomes NaT in pandas instead of raising. By pandas' NaT comparison rules `get_payment_status` would then return "Upcoming", while the model returns Unknown. This follows from reading pandas' documented behaviour and was not executed.
- CellDate: a number in the due-date column would be read by `pd.to_datetime` as nanoseconds since 1970. All cells are carried as text, so this reading is not modelled.
- DueDates.InTimestampRange: follows the nanosecond Timestamp bounds of pandas before version 3. A pandas that infers coarser resolutions would accept a wider range.
- DueDates.InlineDueDate: years below 1000 are written with four digits. `strftime` on some platforms writes fewer. The date picker's default range is ten years around today, so such years do not arise.
- HistoryTable.Append: takes an entry whose columns the table already has. `pd.concat` with an entry that brings new columns would add them, but the seventeen columns of every entry are always present after loading.
- Column order and the dtypes pandas infers are not modelled. Rows are maps from column name to cell, and the column list keeps only the order of the names.

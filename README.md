# Time-tracking calendar: month grid, per-day totals and settings save

A Dafny model of the two pieces of logic in a personal time-tracking web
calendar:

- **Calendar view** (`src/components/Calendar/Calendar.tsx`).
  - It builds a 42-cell grid of dates for the displayed month: the last days of the previous month, every day of the month, then the first days of the next month.
  - Its handlers move between months, wrapping December into January and January back into December.
  - For each day it selects the time entries that start on it and totals their durations.
  - A cell shows a "tracked" marker when its day has an entry, and a "< 8 hours" warning when that day's total is below eight hours.
- **Settings form** (`src/components/SettingsForm.tsx`). Saving looks up the Clockify user for the submitted API key.
  - On success it replaces the whole stored settings record.
  - On failure it leaves the record untouched and reports either "Clockify API key is invalid" (error code 4003) or "Failed to save settings".
  - The "fetching" flag is cleared in every case.

Files:

- `wrappers.dfy` (module `Wrappers`): the `Option` type shared by the other modules, standing for a JavaScript value that may be `undefined`.
- `gregorian.dfy` (module `Gregorian`): the proleptic Gregorian calendar as JavaScript's `Date` exposes it.
  - Months are 0-based. Leap years follow the 4/100/400 rule.
  - `MakeDate` is `new Date(y, m, d)`. A year argument from 0 to 99 is read as 1900 to 1999 (`FullYear`). Out-of-range months and days are then normalised (`DateOf`). Day 0 is the last day of the previous month.
  - `Weekday` is `getDay()` (0 = Sunday). `NextDay` is the following day.
  - `DayNumber` is an independent count of days. It is used to state what each of these means.
- `month_grid.dfy` (module `MonthGrid`): the grid builder `BuildDates`, with one method per loop of the source. It is proved equal to the specification `Grid`. Lemmas prove:
  - The shape of the grid: leading cells, month days and trailing cells.
  - The 42 cells are consecutive days.
  - Where each cell sits under the Monday-first header.
  - The corrected `AlignedGrid` (see Findings).
- `time_entries.dfy` (module `TimeEntries`): the per-day filter, the duration total and the cell markers, as functions with lemmas.
- `calendar_view.dfy` (module `CalendarView`): the view state as a class.
  - Fields: `month`, `year`, `selectedDate`, `timeEntryFormOpened` and the loaded entries.
  - Methods: the navigation, selection and form handlers.
- `settings_form.dfy` (module `SettingsForm`): `fetchCurrentUser` with the HTTP exchange as an input, the error classification, and a class with the `settings`, form-field and `isFetchingUser` state. `EditFields` is typing into the inputs, and `HandleSubmit` is the save transition.

The Monday-first header calls for a grid whose first cell is a Monday. The
code delivers that for every month except those that begin on a Sunday; the
model follows the code and records the discrepancy under Findings.

## Model

| member | source | states |
|---|---|---|
| `Gregorian.MakeDate` | src/components/Calendar/Calendar.tsx:56-58 | `new Date(year, month, day)` always denotes a valid calendar date, whatever the year, month and day arguments |
| `Gregorian.DateOfDayNumber` | src/components/Calendar/Calendar.tsx:61-75 | normalising the fields is day arithmetic: the date is `day - 1` days after the 1st of the normalised month, for every integer `day`, including 0, negatives and overflow |
| `Gregorian.MakeDateDayNumber` | src/components/Calendar/Calendar.tsx:61-75 | `new Date(year, month, day)` is `day - 1` days after the 1st of the month it falls in, with a two-digit year read as 19xx |
| `Gregorian.TwoDigitYears` | src/components/Calendar/Calendar.tsx:56-75 | a year argument from 0 to 99 gives the same date as 1900 + year. For every other year, and a day within 1..28, the date's year is the argument's year plus the months carried over |
| `Gregorian.MakeDateInRange` | src/components/Calendar/Calendar.tsx:66-69 | for a day within the month's length, `new Date` yields exactly that day of the month it falls in |
| `Gregorian.MakeDateDayZero` | src/components/Calendar/Calendar.tsx:57-58 | day 0 of a month is the last day of the previous month, so January gives 31 December of `year - 1`, and `new Date(year, month + 1, 0).getDate()` is the month's length |
| `Gregorian.DaysInMonth` | src/components/Calendar/Calendar.tsx:57 | a month has 28 to 31 days, and February has 29 exactly in leap years |
| `Gregorian.Weekday` | src/components/Calendar/Calendar.tsx:56 | the weekday lies in 0..6. `NextDay` advances it by one modulo 7, and `JanuaryGridExample` pins 1 January 2024 to 1 (Monday). Together these fix `getDay()` numbering, with 0 = Sunday |
| `Gregorian.NextDay` | src/components/Calendar/Calendar.tsx:71-75 | the following date is valid, one day number later, and one weekday later modulo 7, across month and year ends |
| `MonthGrid.BuildDates` | src/components/Calendar/Calendar.tsx:54-78 | the three push loops produce exactly `Grid(year, month)` |
| `MonthGrid.BuilderInputs` | src/components/Calendar/Calendar.tsx:56-58 | `dayOne` is the weekday of the displayed month's 1st, `lastDate` is that month's length, and `prevMonthLastDate` is the previous month's length |
| `MonthGrid.PushPrevMonthDates` | src/components/Calendar/Calendar.tsx:61-64 | the first loop appends the last `getDay() - 1` days of the previous month in ascending order. It appends none when the 1st is a Sunday or a Monday |
| `MonthGrid.PushMonthDates` | src/components/Calendar/Calendar.tsx:66-69 | the second loop appends days 1 to `lastDate` of the displayed month, in order |
| `MonthGrid.PushNextMonthDates` | src/components/Calendar/Calendar.tsx:71-75 | the third loop appends days 1 to `nextMonthDays` of the next month |
| `MonthGrid.Grid` | src/components/Calendar/Calendar.tsx:72-77 | the grid always has exactly 42 cells |
| `MonthGrid.LeadingCount` | src/components/Calendar/Calendar.tsx:56-64 | at most 5 previous-month cells are emitted |
| `MonthGrid.GridLeading` | src/components/Calendar/Calendar.tsx:56-64 | the 1st is at cell `getDay() - 1`, or at cell 0 when it is a Sunday. The cells before it all belong to the previous month, and the last of them is day 0 of the displayed month |
| `MonthGrid.GridMonthDays` | src/components/Calendar/Calendar.tsx:57-69 | every day 1..month length appears at cell `lead + d - 1`, and a cell belongs to the displayed month iff it lies in that range, so each day appears exactly once and in order |
| `MonthGrid.GridTrailing` | src/components/Calendar/Calendar.tsx:71-75 | at least 6 cells are left for the next month, and they are its days 1, 2, ..., rolling December into January of `year + 1` |
| `MonthGrid.GridConsecutive` | src/components/Calendar/Calendar.tsx:54-78 | each cell is followed by the next calendar day, so the 42 cells are one run of consecutive days |
| `MonthGrid.GridDayNumbers` | src/components/Calendar/Calendar.tsx:80-83 | cell `k` is `k` days after the first cell |
| `MonthGrid.MonthShift` | src/components/Calendar/Calendar.tsx:63-74 | the month arguments `month - 1` and `month + 1` name the previous and next month, with year rollover |
| `MonthGrid.GridColumnsMondayToSaturday` | src/components/Calendar/Calendar.tsx:159-167 | when the 1st is Monday to Saturday, every cell sits under the header letter of its own weekday |
| `MonthGrid.GridColumnsSundayStart` | src/components/Calendar/Calendar.tsx:61-64 | when the 1st is a Sunday, it is cell 0, under "M". Every date then sits one column to the right of its weekday's header letter: Monday 2 September 2024 is cell 1, under "T" |
| `MonthGrid.SundayStartExample` | src/components/Calendar/Calendar.tsx:61-64 | September 2024 starts on a Sunday, and its grid puts 1 September in the Monday column |
| `MonthGrid.AlignedGrid` | src/components/Calendar/Calendar.tsx:159-167 | the Monday-first grid also has 42 cells |
| `MonthGrid.AlignedGridColumns` | src/components/Calendar/Calendar.tsx:159-167 | in the corrected grid, every cell sits under its weekday, the days are consecutive, and the 1st is at its Monday-first column |
| `MonthGrid.AlignedGridAgrees` | src/components/Calendar/Calendar.tsx:56-64 | the corrected grid equals the code's grid iff the 1st is not a Sunday |
| `MonthGrid.JanuaryGridExample` | src/components/Calendar/Calendar.tsx:54-78 | 1 January 2024 is a Monday, and the January 2024 grid runs from 1 January to 11 February 2024 |
| `MonthGrid.LeapFebruaryExample` | src/components/Calendar/Calendar.tsx:66-69 | the February 2024 grid holds the 29th |
| `MonthGrid.TwoDigitYearExample` | src/components/Calendar/Calendar.tsx:54-78 | displayed year 50 shows the January 1950 grid, which opens on Sunday 1 January 1950 |
| `TimeEntries.EntriesOn` | src/components/Calendar/Calendar.tsx:89-92 | an entry is in the result iff it is in the input and starts on the day; the result is no longer than the input |
| `TimeEntries.EntriesOnCounts` | src/components/Calendar/Calendar.tsx:89-92 | each entry of the day occurs in the result as often as in the input, and other entries do not occur |
| `TimeEntries.TimeEntriesOfDate` | src/components/Calendar/Calendar.tsx:85-95 | the result is empty while no entries are loaded, and otherwise it holds exactly the loaded entries of that day |
| `TimeEntries.SelectedTimeEntries` | src/components/Calendar/Calendar.tsx:97-103 | the result is empty when no entries are loaded or no day is selected, and otherwise it holds exactly the selected day's entries |
| `TimeEntries.EntriesOnAppend` | src/components/Calendar/Calendar.tsx:89-92 | filtering distributes over concatenation, so the input order is kept |
| `TimeEntries.EntriesOnIdempotent` | src/components/Calendar/Calendar.tsx:89-92 | filtering a day's entries by that day again changes nothing |
| `TimeEntries.EntriesOnOtherDay` | src/components/Calendar/Calendar.tsx:89-92 | a day's entries contain none of another day's |
| `TimeEntries.TotalWorkingHours` | src/components/Calendar/Calendar.tsx:105-112 | hours times 3,600,000 equals the summed milliseconds |
| `TimeEntries.TotalOfNone` | src/components/Calendar/Calendar.tsx:105-112 | the total of an empty list is 0 |
| `TimeEntries.TotalMillisAppend` | src/components/Calendar/Calendar.tsx:105-112 | the total, in milliseconds and in hours, is additive over concatenation |
| `TimeEntries.TotalSplitsByDay` | src/components/Calendar/Calendar.tsx:105-112 | the total of a list is one day's total plus the total of the other entries |
| `TimeEntries.DayTotalBounded` | src/components/Calendar/Calendar.tsx:105-112 | with non-negative durations, a day's total lies between 0 and the total of all entries |
| `TimeEntries.Marks` | src/components/Calendar/Calendar.tsx:195-207 | the tracked marker shows iff an entry starts on the day. The warning shows iff the day is tracked and its total is below 8 × 3,600,000 ms |
| `CalendarView.NavigationSteps` | src/components/Calendar/Calendar.tsx:114-132 | "next" and "prev" keep the month in 0..11, move the absolute month count by +1 and -1, and undo each other |
| `CalendarView.NavigationIsNormalization` | src/components/Calendar/Calendar.tsx:114-132 | the navigated month equals `Normalize(year, month ± 1)`, the month carry-over `new Date` performs on its month argument |
| `CalendarView.Calendar.constructor` | src/components/Calendar/Calendar.tsx:47-52 | the view opens on today's month and year, with no selection, the form closed and no entries loaded |
| `CalendarView.Calendar.SelectPrevMonth` | src/components/Calendar/Calendar.tsx:114-122 | from month 0 it goes to month 11 of `year - 1`, and otherwise to `month - 1` with the year unchanged |
| `CalendarView.Calendar.SelectNextMonth` | src/components/Calendar/Calendar.tsx:124-132 | from month 11 it goes to month 0 of `year + 1`, and otherwise to `month + 1` with the year unchanged |
| `CalendarView.Calendar.SelectToday` | src/components/Calendar/Calendar.tsx:134-137 | it sets the month and year of today and leaves `selectedDate` as it was |
| `CalendarView.Calendar.SelectDate` | src/components/Calendar/Calendar.tsx:174-177 | a click selects the cell's date and does not change the displayed month |
| `CalendarView.Calendar.ToggleTimeEntryForm` | src/components/Calendar/Calendar.tsx:230 | the entry form flips between open and closed |
| `CalendarView.Calendar.CloseTimeEntryForm` | src/components/Calendar/Calendar.tsx:248 | the close button closes the form |
| `CalendarView.Calendar.ReceiveTimeEntries` | src/components/Calendar/Calendar.tsx:80-83 | the loaded entries become the query's data |
| `CalendarView.Calendar.Dates` | src/components/Calendar/Calendar.tsx:54-78 | the memoised grid for the current state has 42 consecutive days |
| `CalendarView.Calendar.FetchRange` | src/components/Calendar/Calendar.tsx:80-83 | the fetched range runs from the first cell of the displayed grid to its last cell, 41 days later |
| `CalendarView.Calendar.CellMarksOf` | src/components/Calendar/Calendar.tsx:195-207 | a cell is marked as tracked iff a loaded entry starts on its date. It shows the warning iff it is tracked and that day's total is below 8 × 3,600,000 ms |
| `CalendarView.Calendar.SelectedEntries` | src/components/Calendar/Calendar.tsx:97-103 | the detail list is empty without a selection or without loaded entries. Otherwise an entry is listed iff it is loaded and starts on the selected day |
| `CalendarView.PrevAfterNextRestores` | src/components/Calendar/Calendar.tsx:114-132 | "prev" after "next" restores month and year and leaves the rest of the view state alone |
| `SettingsForm.FetchCurrentUser` | src/components/SettingsForm.tsx:18-27 | the lookup returns the response body iff the response is ok. Otherwise it throws that same body, or a code-less error when there is no response |
| `SettingsForm.ErrorMessage` | src/components/SettingsForm.tsx:72-77 | the message is "Clockify API key is invalid" iff the thrown value has code 4003, and otherwise it is "Failed to save settings" |
| `SettingsForm.SavedSettings` | src/components/SettingsForm.tsx:58-69 | the saved record holds the submitted tokens, the user snapshot and `workspaceId = activeWorkspace`. Resetting the form from it gives back the submitted values |
| `SettingsForm.Snapshot` | src/components/SettingsForm.tsx:61-67 | the snapshot carries the five user fields the form reads |
| `SettingsForm.Form.constructor` | src/components/SettingsForm.tsx:29-42 | the form opens on the stored record, with its tokens in the fields and the flag down |
| `SettingsForm.Form.SetSettings` | src/components/SettingsForm.tsx:44-49 | storing a record resets the form fields to its `clickup` and `clockify` |
| `SettingsForm.Form.EditFields` | src/components/SettingsForm.tsx:88-100 | typing into the two inputs sets the form fields to the typed values |
| `SettingsForm.FailedSaveKeepsTypedValues` | src/components/SettingsForm.tsx:44-84 | after typing a new key and a save without a response, the stored record keeps the old key, the field keeps the typed key, the flag is down and "Failed to save settings" is reported |
| `SettingsForm.Form.HandleSubmit` | src/components/SettingsForm.tsx:51-84 | the values submitted are those the fields hold. The flag is up during the lookup and down afterwards. On success the record is replaced wholesale by the one built from the submitted values. On failure the record is unchanged and the classified error is reported. Either way the fields still show the submitted values |

## Findings

| source | as written | input that shows it | evidently intended | confidence | as-written member | corrected member |
|---|---|---|---|---|---|---|
| src/components/Calendar/Calendar.tsx:61-64 | the first loop emits `getDay() - 1` previous-month cells, and none when the 1st is a Sunday (`getDay() == 0`) | September 2024: 1 September 2024 is a Sunday and lands in cell 0, under the "M" of the Monday-first header. Every date sits one column to the right of its weekday's letter, e.g. Monday 2 September under "T" | six previous-month cells, so that the 1st sits under the last "S" | high; not executed | `MonthGrid.SundayStartExample` | `MonthGrid.AlignedGridColumns` |

The calendar view (`BuildDates`, `Calendar.Dates`) models the code as
written. `AlignedGrid` is the corrected grid. It has the same three parts,
with `(getDay() + 6) % 7` leading cells. `AlignedGridAgrees` shows that it
differs from the code's grid only for months that start on a Sunday.

## Left out

- Time of day and time zones: dates are calendar days, and `getTime()` instants are not modelled. The local-time conversion of an entry's epoch-millisecond `start` string is also left out. An entry carries its local start day directly (`TimeEntry.startDay`).
- `areDatesEqual` is not part of this model. Days are compared by equality of (year, month, day).
- `Number(...)` parsing, `NaN` and floating-point rounding: durations are integer milliseconds, and `TotalWorkingHours` is the exact rational quotient.
- JavaScript's `Date` range limit (about ±275,760 years): years are unbounded here.
- Network I/O is left out. This covers `useGetTimeEntriesQuery`, `refetch` and the Clockify `fetch`. The query result arrives through `ReceiveTimeEntries`, and the HTTP exchange is the `response` parameter of `HandleSubmit`. The API key is not passed to the lookup, because its answer is the input.
- Rendering is left out. This covers JSX, the CSS classes for today, selected, inactive and weekend cells, the month label array, `formatDuration`, `formatDate` and `sendAnalytics`. Only the tracked and warning marker rule is modelled.
- Toasts are returned as a value rather than shown.
- `useLocalStorage` and `useForm` mechanics are left out. `DEFAULT_APP_SETTINGS` is not part of this model: the form starts from a given stored record. The source's `ClockifyUser` type is reduced to the five fields the form reads.
- `SettingsForm.Form.HandleSubmit`: the flag being up "while in progress" is stated at the single moment of the lookup, through a ghost out-parameter, because the asynchronous wait itself is not modelled.
- Concurrency is left out. Overlapping submits and stale or racing fetches are not modelled, and the code does no fencing.
- `src/components/ClockInButton.tsx`, `src/app/provider.tsx`, `src/app/page.tsx` and the sign-in page are left out. They are a network POST wrapper and component wiring, with no statable logic beyond a one-line disabled predicate.

/**
 * The state of the calendar view (`Calendar` in
 * src/components/Calendar/Calendar.tsx): the displayed month and year, the
 * selected day, whether the entry form is open and the loaded time entries,
 * with the event handlers that update them. The current date is a parameter.
 */
module CalendarView {
  import opened Gregorian
  import opened MonthGrid
  import opened TimeEntries
  import opened Wrappers

  /** Absolute month count: month navigation moves it by one. */
  function MonthIndex(ym: YearMonth): int {
    12 * ym.year + ym.month
  }

  /** "Next" and "prev" move the displayed month by one and keep it in 0..11. */
  lemma NavigationSteps(ym: YearMonth)
    requires ValidMonth(ym)
    ensures ValidMonth(NextMonth(ym)) && MonthIndex(NextMonth(ym)) == MonthIndex(ym) + 1
    ensures ValidMonth(PrevMonth(ym)) && MonthIndex(PrevMonth(ym)) == MonthIndex(ym) - 1
    ensures PrevMonth(NextMonth(ym)) == ym && NextMonth(PrevMonth(ym)) == ym
  {
    NextPrevMonth(ym);
  }

  /** Navigating agrees with the month carry-over of JavaScript's `Date`: the
    * month after (before) the displayed one is `Normalize(year, month + 1)`
    * (`month - 1`), the carry-over `new Date` performs on its month argument. */
  lemma NavigationIsNormalization(ym: YearMonth)
    requires ValidMonth(ym)
    ensures NextMonth(ym) == Normalize(ym.year, ym.month + 1)
    ensures PrevMonth(ym) == Normalize(ym.year, ym.month - 1)
  {
    NormalizeSucc(ym);
  }

  class Calendar {
    var month: int
    var year: int
    var selectedDate: Option<Date>
    var timeEntryFormOpened: bool
    /** The query's data; `None` until the entries are loaded. */
    var timeEntries: Option<seq<TimeEntry>>

    ghost predicate Valid()
      reads this
    {
      0 <= month < 12
    }

    function Displayed(): YearMonth
      reads this
    {
      YearMonth(year, month)
    }

    /** Opens on the month of `today`, with no day selected and the form closed. */
    constructor (today: Date)
      requires Gregorian.Valid(today)
      ensures Valid()
      ensures month == today.month && year == today.year
      ensures selectedDate == None && !timeEntryFormOpened && timeEntries == None
    {
      month := today.month;
      year := today.year;
      selectedDate := None;
      timeEntryFormOpened := false;
      timeEntries := None;
    }

    method SelectPrevMonth()
      requires Valid()
      modifies this`month, this`year
      ensures Valid()
      ensures old(month) == 0 ==> month == 11 && year == old(year) - 1
      ensures old(month) != 0 ==> month == old(month) - 1 && year == old(year)
      ensures Displayed() == PrevMonth(old(Displayed()))
    {
      var prevMonth := month - 1;
      if prevMonth < 0 {
        month := 11;
        year := year - 1;
      } else {
        month := prevMonth;
      }
    }

    method SelectNextMonth()
      requires Valid()
      modifies this`month, this`year
      ensures Valid()
      ensures old(month) == 11 ==> month == 0 && year == old(year) + 1
      ensures old(month) != 11 ==> month == old(month) + 1 && year == old(year)
      ensures Displayed() == NextMonth(old(Displayed()))
    {
      var nextMonth := month + 1;
      if nextMonth > 11 {
        month := 0;
        year := year + 1;
      } else {
        month := nextMonth;
      }
    }

    /** "Today" moves to the current month; the selection is untouched. */
    method SelectToday(today: Date)
      requires Gregorian.Valid(today)
      modifies this`month, this`year
      ensures Valid()
      ensures month == today.month && year == today.year
      ensures selectedDate == old(selectedDate)
    {
      month := today.month;
      year := today.year;
    }

    /** Clicking a cell selects its date, whatever month it belongs to. */
    method SelectDate(d: Date)
      modifies this`selectedDate
      ensures selectedDate == Some(d)
    {
      selectedDate := Some(d);
    }

    method ToggleTimeEntryForm()
      modifies this`timeEntryFormOpened
      ensures timeEntryFormOpened == !old(timeEntryFormOpened)
    {
      timeEntryFormOpened := !timeEntryFormOpened;
    }

    method CloseTimeEntryForm()
      modifies this`timeEntryFormOpened
      ensures !timeEntryFormOpened
    {
      timeEntryFormOpened := false;
    }

    /** The entries query delivers its data (a fetch, or a re-fetch after an
      * entry is created or deleted). */
    method ReceiveTimeEntries(entries: seq<TimeEntry>)
      modifies this`timeEntries
      ensures timeEntries == Some(entries)
    {
      timeEntries := Some(entries);
    }

    /** The grid shown for the current state. */
    method Dates() returns (dates: seq<Date>)
      requires Valid()
      ensures |dates| == GridSize
      ensures forall k :: 0 <= k < GridSize - 1 ==> Gregorian.Valid(dates[k]) && dates[k + 1] == NextDay(dates[k])
      ensures dates == Grid(year, month)
    {
      dates := BuildDates(year, month);
      GridConsecutive(year, month);
    }

    /** The first and last cell of the grid bound the fetched range. */
    method FetchRange() returns (first: Date, last: Date)
      requires Valid()
      ensures Gregorian.Valid(first) && Gregorian.Valid(last)
      ensures first == Grid(year, month)[0] && last == Grid(year, month)[GridSize - 1]
      ensures DayNumber(last) == DayNumber(first) + GridSize - 1
    {
      var dates := Dates();
      GridDayNumbers(year, month);
      first, last := dates[0], dates[|dates| - 1];
    }

    function CellMarksOf(d: Date): (m: CellMarks)
      reads this
      ensures m.tracked <==> timeEntries.Some? && exists e :: e in timeEntries.value && e.startDay == d
      ensures m.lowHours <==>
        m.tracked && TotalMillis(TimeEntriesOfDate(timeEntries, d)) < TargetHours * MillisPerHour
    {
      Marks(timeEntries, d)
    }

    function SelectedEntries(): (r: seq<TimeEntry>)
      reads this
      ensures selectedDate.None? || timeEntries.None? ==> r == []
      ensures selectedDate.Some? && timeEntries.Some? ==>
        forall e :: e in r <==> e in timeEntries.value && e.startDay == selectedDate.value
    {
      SelectedTimeEntries(timeEntries, selectedDate)
    }
  }

  /** Navigation is reversible: "prev" after "next" restores the displayed
    * month and year and leaves the rest of the state alone. */
  method PrevAfterNextRestores(c: Calendar)
    requires c.Valid()
    modifies c
    ensures c.Valid()
    ensures c.month == old(c.month) && c.year == old(c.year)
    ensures c.selectedDate == old(c.selectedDate) && c.timeEntries == old(c.timeEntries)
    ensures c.timeEntryFormOpened == old(c.timeEntryFormOpened)
  {
    c.SelectNextMonth();
    c.SelectPrevMonth();
    NextPrevMonth(old(c.Displayed()));
  }
}

/**
 * Per-day selection and hour totals of time entries, as the calendar view
 * computes them (`getTimeEntriesOfDate`, `selectedTimeEntries`,
 * `totalWorkingHours` and the tracked / low-hours markers of a grid cell).
 */
module TimeEntries {
  import opened Gregorian
  import opened Wrappers

  /** A time entry as fetched from the time-tracking service. `startDay` is the
    * local calendar day of its start timestamp; `durationMs` its duration in
    * milliseconds. */
  datatype TimeEntry = TimeEntry(id: string, startDay: Date, durationMs: int)

  const MillisPerHour := 3_600_000
  /** Days with fewer tracked hours than this get a warning marker. */
  const TargetHours := 8

  /** The entries of `entries` that start on day `d`, in their input order. */
  function EntriesOn(entries: seq<TimeEntry>, d: Date): (r: seq<TimeEntry>)
    ensures |r| <= |entries|
    ensures forall e :: e in r ==> e in entries && e.startDay == d
    ensures forall e :: e in entries && e.startDay == d ==> e in r
  {
    if entries == [] then []
    else
      var rest := EntriesOn(entries[1..], d);
      if entries[0].startDay == d then [entries[0]] + rest else rest
  }

  /** `getTimeEntriesOfDate`: nothing while no entries are loaded. */
  function TimeEntriesOfDate(timeEntries: Option<seq<TimeEntry>>, d: Date): (r: seq<TimeEntry>)
    ensures timeEntries.None? ==> r == []
    ensures timeEntries.Some? ==> forall e :: e in r <==> e in timeEntries.value && e.startDay == d
  {
    if timeEntries.None? then [] else EntriesOn(timeEntries.value, d)
  }

  /** `selectedTimeEntries`: nothing while no entries are loaded or no day is selected. */
  function SelectedTimeEntries(timeEntries: Option<seq<TimeEntry>>, selectedDate: Option<Date>): (r: seq<TimeEntry>)
    ensures timeEntries.None? || selectedDate.None? ==> r == []
    ensures timeEntries.Some? && selectedDate.Some? ==>
      forall e :: e in r <==> e in timeEntries.value && e.startDay == selectedDate.value
  {
    if timeEntries.None? || selectedDate.None? then []
    else EntriesOn(timeEntries.value, selectedDate.value)
  }

  /** Sum of the durations, in milliseconds (the `reduce` of `totalWorkingHours`). */
  function TotalMillis(entries: seq<TimeEntry>): int
  {
    if entries == [] then 0 else entries[0].durationMs + TotalMillis(entries[1..])
  }

  /** `totalWorkingHours`: milliseconds / 1000 / 3600, as an exact quotient. */
  function TotalWorkingHours(entries: seq<TimeEntry>): (h: real)
    ensures h * (MillisPerHour as real) == TotalMillis(entries) as real
  {
    (TotalMillis(entries) as real / 1000.0) / 3600.0
  }

  /** The markers of one grid cell. */
  datatype CellMarks = CellMarks(tracked: bool, lowHours: bool)

  /** A cell shows the tracked indicator when the day has an entry, and then the
    * "< 8 hours" warning when the day's total is under eight hours. */
  function Marks(timeEntries: Option<seq<TimeEntry>>, d: Date): (m: CellMarks)
    ensures m.tracked <==> timeEntries.Some? && exists e :: e in timeEntries.value && e.startDay == d
    ensures m.lowHours <==>
      m.tracked && TotalMillis(TimeEntriesOfDate(timeEntries, d)) < TargetHours * MillisPerHour
  {
    var entries := TimeEntriesOfDate(timeEntries, d);
    if |entries| > 0 then
      assert entries[0] in entries;
      CellMarks(true, TotalWorkingHours(entries) < TargetHours as real)
    else
      CellMarks(false, false)
  }

  // ---------------------------------------------------------------------
  // Lemmas

  /** Each entry of the day is kept as many times as it occurs in the input;
    * every other entry is dropped. */
  lemma {:induction false} EntriesOnCounts(entries: seq<TimeEntry>, d: Date)
    ensures forall e :: multiset(EntriesOn(entries, d))[e] == if e.startDay == d then multiset(entries)[e] else 0
  {
    if entries != [] {
      EntriesOnCounts(entries[1..], d);
      assert entries == [entries[0]] + entries[1..];
    }
  }

  /** Selecting a day commutes with concatenation: the order of the input is kept. */
  lemma {:induction false} EntriesOnAppend(a: seq<TimeEntry>, b: seq<TimeEntry>, d: Date)
    ensures EntriesOn(a + b, d) == EntriesOn(a, d) + EntriesOn(b, d)
  {
    if a == [] {
      assert a + b == b;
    } else {
      assert (a + b)[0] == a[0];
      assert (a + b)[1..] == a[1..] + b;
      EntriesOnAppend(a[1..], b, d);
      if a[0].startDay == d {
        assert EntriesOn(a + b, d) == [a[0]] + EntriesOn(a[1..] + b, d);
      } else {
        assert EntriesOn(a + b, d) == EntriesOn(a[1..] + b, d);
      }
    }
  }

  /** Filtering a day's entries by the same day again changes nothing. */
  lemma {:induction false} EntriesOnIdempotent(entries: seq<TimeEntry>, d: Date)
    ensures EntriesOn(EntriesOn(entries, d), d) == EntriesOn(entries, d)
  {
    if entries != [] {
      EntriesOnIdempotent(entries[1..], d);
    }
  }

  /** Entries of different days never mix. */
  lemma {:induction false} EntriesOnOtherDay(entries: seq<TimeEntry>, d: Date, d': Date)
    requires d != d'
    ensures EntriesOn(EntriesOn(entries, d), d') == []
  {
    if entries != [] {
      EntriesOnOtherDay(entries[1..], d, d');
    }
  }

  /** The total of an empty list is zero. */
  lemma TotalOfNone()
    ensures TotalWorkingHours([]) == 0.0
  {
  }

  /** The total is additive over concatenation. */
  lemma {:induction false} TotalMillisAppend(a: seq<TimeEntry>, b: seq<TimeEntry>)
    ensures TotalMillis(a + b) == TotalMillis(a) + TotalMillis(b)
    ensures TotalWorkingHours(a + b) == TotalWorkingHours(a) + TotalWorkingHours(b)
  {
    if a == [] {
      assert a + b == b;
    } else {
      assert (a + b)[1..] == a[1..] + b;
      TotalMillisAppend(a[1..], b);
    }
  }

  /** The total of an entry list is the sum over the days of its entries: one
    * day's entries plus everything else. */
  lemma {:induction false} TotalSplitsByDay(entries: seq<TimeEntry>, d: Date)
    ensures TotalMillis(entries) == TotalMillis(EntriesOn(entries, d)) + TotalMillis(EntriesOff(entries, d))
  {
    if entries != [] {
      TotalSplitsByDay(entries[1..], d);
      var rest := entries[1..];
      if entries[0].startDay == d {
        assert EntriesOn(entries, d) == [entries[0]] + EntriesOn(rest, d);
        assert ([entries[0]] + EntriesOn(rest, d))[1..] == EntriesOn(rest, d);
      } else {
        assert EntriesOff(entries, d) == [entries[0]] + EntriesOff(rest, d);
        assert ([entries[0]] + EntriesOff(rest, d))[1..] == EntriesOff(rest, d);
      }
    }
  }

  /** The entries of `entries` that do not start on day `d`. */
  function EntriesOff(entries: seq<TimeEntry>, d: Date): (r: seq<TimeEntry>)
    ensures forall e :: e in r ==> e in entries && e.startDay != d
  {
    if entries == [] then []
    else
      var rest := EntriesOff(entries[1..], d);
      if entries[0].startDay != d then [entries[0]] + rest else rest
  }

  /** With non-negative durations, a day's total never exceeds the total of all entries. */
  lemma DayTotalBounded(entries: seq<TimeEntry>, d: Date)
    requires forall e :: e in entries ==> e.durationMs >= 0
    ensures 0 <= TotalMillis(EntriesOn(entries, d)) <= TotalMillis(entries)
  {
    TotalSplitsByDay(entries, d);
    NonNegativeTotal(EntriesOn(entries, d));
    NonNegativeTotal(EntriesOff(entries, d));
  }

  lemma {:induction false} NonNegativeTotal(entries: seq<TimeEntry>)
    requires forall e :: e in entries ==> e.durationMs >= 0
    ensures TotalMillis(entries) >= 0
  {
    if entries != [] {
      assert entries[0] in entries;
      NonNegativeTotal(entries[1..]);
    }
  }
}

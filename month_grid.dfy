/**
 * The 42-cell month grid of the calendar view (`dates` in
 * src/components/Calendar/Calendar.tsx): the trailing days of the previous
 * month, every day of the displayed month, then the leading days of the next
 * month, shown under a Monday-first header (M T W T F S S).
 */
module MonthGrid {
  import opened Gregorian

  /** Number of cells of the grid: six rows of seven. */
  const GridSize := 42

  function FirstOfMonth(ym: YearMonth): (d: Date)
    requires ValidMonth(ym)
    ensures Valid(d)
  {
    Date(ym.year, ym.month, 1)
  }

  /** Column of `d` under the Monday-first header: 0 = Monday, ..., 6 = Sunday. */
  function MondayColumn(d: Date): (c: int)
    requires Valid(d)
    ensures 0 <= c < 7
    ensures c == 6 <==> Weekday(d) == 0
  {
    (Weekday(d) + 6) % 7
  }

  /** How many previous-month cells the code emits: its first loop counts
    * `i` down from `getDay()` of the 1st while `i > 1`. */
  function LeadingCount(ym: YearMonth): (n: nat)
    requires ValidMonth(ym)
    ensures n <= 5
  {
    var dayOne := Weekday(FirstOfMonth(ym));
    if dayOne > 1 then dayOne - 1 else 0
  }

  /** The previous-month cells: the last `lead` days of the month before `ym`. */
  function LeadingCells(ym: YearMonth, lead: nat): (s: seq<Date>)
    requires ValidMonth(ym) && lead <= 6
    ensures |s| == lead
  {
    var before := PrevMonth(ym);
    var beforeLast := DaysInMonth(before.year, before.month);
    seq(lead, k => Date(before.year, before.month, beforeLast - lead + 1 + k))
  }

  /** Every day of the month `ym`, in order. */
  function MonthCells(ym: YearMonth): (s: seq<Date>)
    requires ValidMonth(ym)
    ensures |s| == DaysInMonth(ym.year, ym.month)
  {
    seq(DaysInMonth(ym.year, ym.month), k => Date(ym.year, ym.month, k + 1))
  }

  /** The first `count` days of the month after `ym`. */
  function TrailingCells(ym: YearMonth, count: nat): (s: seq<Date>)
    requires ValidMonth(ym)
    ensures |s| == count
  {
    var after := NextMonth(ym);
    seq(count, k => Date(after.year, after.month, k + 1))
  }

  /** A grid for month `ym` that opens with `lead` previous-month cells and is
    * padded with next-month cells up to `GridSize`. */
  function Cells(ym: YearMonth, lead: nat): (g: seq<Date>)
    requires ValidMonth(ym) && lead <= 6
    ensures |g| == GridSize
  {
    LeadingCells(ym, lead) + MonthCells(ym)
      + TrailingCells(ym, GridSize - lead - DaysInMonth(ym.year, ym.month))
  }

  /** The grid the code builds for `(year, month)`; `month` may lie outside
    * 0..11, as `new Date` normalises it, and a year from 0 to 99 shows the
    * same month of 1900 to 1999. */
  function Grid(year: int, month: int): (g: seq<Date>)
    ensures |g| == GridSize
  {
    var ym := MonthOf(year, month);
    Cells(ym, LeadingCount(ym))
  }

  /** The grid builder: three counting loops pushing `new Date(...)` values
    * onto an initially empty list. */
  method BuildDates(year: int, month: int) returns (dates: seq<Date>)
    ensures dates == Grid(year, month)
  {
    ghost var ym := MonthOf(year, month);
    BuilderInputs(year, month);
    dates := [];
    var dayOne := Weekday(MakeDate(year, month, 1));
    var lastDate := MakeDate(year, month + 1, 0).day;
    var prevMonthLastDate := MakeDate(year, month, 0).day;
    dates := PushPrevMonthDates(dates, year, month, dayOne, prevMonthLastDate);
    assert dates == LeadingCells(ym, LeadingCount(ym));
    dates := PushMonthDates(dates, year, month, lastDate);
    var nextMonthDays := 42 - |dates|;
    dates := PushNextMonthDates(dates, year, month, nextMonthDays);
  }

  /** What the grid builder reads off `new Date` before its loops: the weekday
    * of the 1st, and the lengths of the displayed and the previous month as
    * the date of their day 0. */
  lemma BuilderInputs(year: int, month: int)
    ensures Weekday(MakeDate(year, month, 1)) == Weekday(FirstOfMonth(MonthOf(year, month)))
    ensures MakeDate(year, month + 1, 0).day == DaysInMonth(MonthOf(year, month).year, MonthOf(year, month).month)
    ensures var before := PrevMonth(MonthOf(year, month));
      MakeDate(year, month, 0).day == DaysInMonth(before.year, before.month)
  {
    var ym := MonthOf(year, month);
    MakeDateInRange(year, month, 1);
    MakeDateDayZero(year, month + 1);
    MonthShift(year, month);
    NextPrevMonth(ym);
    MakeDateDayZero(year, month);
  }

  /** First loop of the grid builder: for `i` from `dayOne` down to 2, push
    * day `prevMonthLastDate - (i - 1) + 1` of month `month - 1`. */
  method PushPrevMonthDates(dates: seq<Date>, year: int, month: int, dayOne: int, prevMonthLastDate: int)
    returns (r: seq<Date>)
    requires 0 <= dayOne < 7
    requires prevMonthLastDate == DaysInMonth(PrevMonth(MonthOf(year, month)).year, PrevMonth(MonthOf(year, month)).month)
    ensures r == dates + LeadingCells(MonthOf(year, month), if dayOne > 1 then dayOne - 1 else 0)
  {
    ghost var before := PrevMonth(MonthOf(year, month));
    ghost var lead := if dayOne > 1 then dayOne - 1 else 0;
    assert MonthOf(year, month - 1) == before by {
      MonthShift(year, month);
    }
    r := dates;
    var i := dayOne;
    while i > 1
      invariant 1 <= i <= dayOne || i == dayOne <= 1
      invariant |r| == |dates| + lead - (if i > 1 then i - 1 else 0)
      invariant r[..|dates|] == dates
      invariant forall k :: |dates| <= k < |r| ==>
        r[k] == Date(before.year, before.month, prevMonthLastDate - lead + 1 + (k - |dates|))
    {
      var d := prevMonthLastDate - (i - 1) + 1;
      var cell := MakeDate(year, month - 1, d);
      assert cell == Date(before.year, before.month, d) by {
        MakeDateInRange(year, month - 1, d);
      }
      r := r + [cell];
      i := i - 1;
    }
    assert r == r[..|dates|] + r[|dates|..];
  }

  /** Second loop: push days 1 to `lastDate` of the displayed month. */
  method PushMonthDates(dates: seq<Date>, year: int, month: int, lastDate: int) returns (r: seq<Date>)
    requires lastDate == DaysInMonth(MonthOf(year, month).year, MonthOf(year, month).month)
    ensures r == dates + MonthCells(MonthOf(year, month))
  {
    ghost var ym := MonthOf(year, month);
    r := dates;
    var i := 1;
    while i <= lastDate
      invariant 1 <= i <= lastDate + 1
      invariant |r| == |dates| + i - 1
      invariant r[..|dates|] == dates
      invariant forall k :: |dates| <= k < |r| ==> r[k] == Date(ym.year, ym.month, k - |dates| + 1)
    {
      var cell := MakeDate(year, month, i);
      assert cell == Date(ym.year, ym.month, i) by {
        MakeDateInRange(year, month, i);
      }
      r := r + [cell];
      i := i + 1;
    }
    assert r == r[..|dates|] + r[|dates|..];
  }

  /** Third loop: push days 1 to `nextMonthDays` of month `month + 1`. */
  method PushNextMonthDates(dates: seq<Date>, year: int, month: int, nextMonthDays: int) returns (r: seq<Date>)
    requires 0 <= nextMonthDays <= 28
    ensures r == dates + TrailingCells(MonthOf(year, month), nextMonthDays)
  {
    ghost var after := NextMonth(MonthOf(year, month));
    assert MonthOf(year, month + 1) == after by {
      MonthShift(year, month);
    }
    r := dates;
    var i := 1;
    while i <= nextMonthDays
      invariant 1 <= i <= nextMonthDays + 1
      invariant |r| == |dates| + i - 1
      invariant r[..|dates|] == dates
      invariant forall k :: |dates| <= k < |r| ==> r[k] == Date(after.year, after.month, k - |dates| + 1)
    {
      var cell := MakeDate(year, month + 1, i);
      assert cell == Date(after.year, after.month, i) by {
        MakeDateInRange(year, month + 1, i);
      }
      r := r + [cell];
      i := i + 1;
    }
    assert r == r[..|dates|] + r[|dates|..];
  }

  /** The month indices `month - 1` and `month + 1` that the code hands to
    * `new Date` name the months before and after the displayed one. */
  lemma MonthShift(year: int, month: int)
    ensures MonthOf(year, month + 1) == NextMonth(MonthOf(year, month))
    ensures MonthOf(year, month - 1) == PrevMonth(MonthOf(year, month))
  {
    var ym := MonthOf(year, month);
    SameMonthIndex(MonthOf(year, month + 1), NextMonth(ym));
    SameMonthIndex(MonthOf(year, month - 1), PrevMonth(ym));
  }

  lemma SameMonthIndex(a: YearMonth, b: YearMonth)
    requires ValidMonth(a) && ValidMonth(b)
    requires 12 * a.year + a.month == 12 * b.year + b.month
    ensures a == b
  {
  }

  // ---------------------------------------------------------------------
  // What any grid built by Cells is: 42 consecutive calendar days.

  /** Cell `k` lies `k - lead` days after the 1st of the displayed month. */
  lemma CellsDayNumber(ym: YearMonth, lead: nat)
    requires ValidMonth(ym) && lead <= 6
    ensures forall k :: 0 <= k < GridSize ==>
      Valid(Cells(ym, lead)[k]) && DayNumber(Cells(ym, lead)[k]) == MonthStart(ym) - lead + k
  {
    var g := Cells(ym, lead);
    var before, after := PrevMonth(ym), NextMonth(ym);
    var last := DaysInMonth(ym.year, ym.month);
    NextPrevMonth(ym);
    MonthStep(before);
    MonthStep(ym);
    forall k | 0 <= k < GridSize
      ensures Valid(g[k]) && DayNumber(g[k]) == MonthStart(ym) - lead + k
    {
      if k < lead {
        assert g[k] == LeadingCells(ym, lead)[k];
      } else if k < lead + last {
        assert g[k] == MonthCells(ym)[k - lead];
      } else {
        assert g[k] == TrailingCells(ym, GridSize - lead - last)[k - lead - last];
      }
    }
  }

  /** Each cell is followed by the next calendar day: the grid is one run of
    * 42 consecutive days, across both month boundaries. */
  lemma CellsConsecutive(ym: YearMonth, lead: nat)
    requires ValidMonth(ym) && lead <= 6
    ensures forall k :: 0 <= k < GridSize - 1 ==>
      Valid(Cells(ym, lead)[k]) && Cells(ym, lead)[k + 1] == NextDay(Cells(ym, lead)[k])
  {
    var g := Cells(ym, lead);
    var before, after := PrevMonth(ym), NextMonth(ym);
    var last := DaysInMonth(ym.year, ym.month);
    NextPrevMonth(ym);
    forall k | 0 <= k < GridSize - 1
      ensures Valid(g[k]) && g[k + 1] == NextDay(g[k])
    {
      if k + 1 < lead {
        assert g[k] == LeadingCells(ym, lead)[k];
        assert g[k + 1] == LeadingCells(ym, lead)[k + 1];
      } else if k + 1 == lead {
        assert g[k] == LeadingCells(ym, lead)[k];
        assert g[k + 1] == MonthCells(ym)[0];
      } else if k + 1 < lead + last {
        assert g[k] == MonthCells(ym)[k - lead];
        assert g[k + 1] == MonthCells(ym)[k + 1 - lead];
      } else if k + 1 == lead + last {
        assert g[k] == MonthCells(ym)[k - lead];
        assert g[k + 1] == TrailingCells(ym, GridSize - lead - last)[0];
      } else {
        assert g[k] == TrailingCells(ym, GridSize - lead - last)[k - lead - last];
        assert g[k + 1] == TrailingCells(ym, GridSize - lead - last)[k + 1 - lead - last];
      }
    }
  }

  /** Day `d` of the displayed month sits in cell `lead + d - 1`, and no other
    * cell belongs to the displayed month. */
  lemma CellsMonthDays(ym: YearMonth, lead: nat)
    requires ValidMonth(ym) && lead <= 6
    ensures forall k :: 0 <= k < GridSize ==>
      ((Cells(ym, lead)[k].year == ym.year && Cells(ym, lead)[k].month == ym.month)
       <==> lead <= k < lead + DaysInMonth(ym.year, ym.month))
    ensures forall d :: 1 <= d <= DaysInMonth(ym.year, ym.month) ==>
      Cells(ym, lead)[lead + d - 1] == Date(ym.year, ym.month, d)
  {
    var g := Cells(ym, lead);
    var last := DaysInMonth(ym.year, ym.month);
    forall k | 0 <= k < GridSize
      ensures g[k].year == ym.year && g[k].month == ym.month <==> lead <= k < lead + last
    {
      if k < lead {
        assert g[k] == LeadingCells(ym, lead)[k];
      } else if k < lead + last {
        assert g[k] == MonthCells(ym)[k - lead];
      } else {
        assert g[k] == TrailingCells(ym, GridSize - lead - last)[k - lead - last];
      }
    }
    forall d | 1 <= d <= last
      ensures g[lead + d - 1] == Date(ym.year, ym.month, d)
    {
      assert g[lead + d - 1] == MonthCells(ym)[d - 1];
    }
  }

  /** With `lead` equal to the Monday-first column of the 1st, every cell
    * sits under the header letter of its own weekday. */
  lemma CellsColumns(ym: YearMonth)
    requires ValidMonth(ym)
    ensures var lead := MondayColumn(FirstOfMonth(ym));
      forall k :: 0 <= k < GridSize ==>
        Valid(Cells(ym, lead)[k]) && MondayColumn(Cells(ym, lead)[k]) == k % 7
  {
    var lead := MondayColumn(FirstOfMonth(ym));
    var g := Cells(ym, lead);
    CellsDayNumber(ym, lead);
    assert lead == (MonthStart(ym) % 7 + 6) % 7;
    forall k | 0 <= k < GridSize
      ensures Valid(g[k]) && MondayColumn(g[k]) == k % 7
    {
      assert DayNumber(g[k]) == MonthStart(ym) - lead + k;
      ColumnArithmetic(MonthStart(ym), k);
    }
  }

  lemma ColumnArithmetic(start: int, k: int)
    requires 0 <= k
    ensures ((start - ((start % 7 + 6) % 7) + k) % 7 + 6) % 7 == k % 7
  {
    var w := start % 7;
    var lead := (w + 6) % 7;
    var q' := if w == 0 then start / 7 - 1 else start / 7;
    assert start - lead + k == 7 * q' + (k + 1) by {
      assert start == 7 * (start / 7) + w;
      assert lead == if w == 0 then 6 else w - 1;
    }
    ModMultiple(q', k + 1);
    ShiftBack(k);
  }

  /** One day back in the Monday-first column is one column back. */
  lemma ShiftBack(k: int)
    requires 0 <= k
    ensures ((k + 1) % 7 + 6) % 7 == k % 7
  {
    var c := k % 7;
    assert k + 1 == 7 * (k / 7) + (c + 1);
    ModMultiple(k / 7, c + 1);
  }

  lemma ModMultiple(q: int, x: int)
    ensures (7 * q + x) % 7 == x % 7
  {
    var r := x % 7;
    assert x == 7 * (x / 7) + r;
    assert 7 * q + x == 7 * (q + x / 7) + r;
  }

  // ---------------------------------------------------------------------
  // The grid as the code builds it.

  /** The cells before the 1st are the last `getDay() - 1` days of the
    * previous month (none when the 1st is a Sunday or a Monday), ending on
    * day 0 of the displayed month, i.e. `new Date(year, month, 0)`. */
  lemma GridLeading(year: int, month: int)
    ensures var ym := MonthOf(year, month);
      var dayOne := Weekday(FirstOfMonth(ym));
      var lead := if dayOne == 0 then 0 else dayOne - 1;
      var g := Grid(year, month);
      && g[lead] == MakeDate(year, month, 1)
      && (lead > 0 ==> g[lead - 1] == MakeDate(year, month, 0))
      && (forall k :: 0 <= k < lead ==>
            g[k].year == PrevMonth(ym).year && g[k].month == PrevMonth(ym).month)
  {
    var ym := MonthOf(year, month);
    var lead := LeadingCount(ym);
    var g := Grid(year, month);
    MakeDateInRange(year, month, 1);
    MakeDateDayZero(year, month);
    assert g[lead] == MonthCells(ym)[0];
    forall k | 0 <= k < lead
      ensures g[k] == LeadingCells(ym, lead)[k]
    {
    }
  }

  /** Day `d` (1 to the month's length, 29 for a leap February) of the
    * displayed month appears exactly once, at cell `lead + d - 1`. */
  lemma GridMonthDays(year: int, month: int)
    ensures var ym := MonthOf(year, month);
      var lead := LeadingCount(ym);
      var last := DaysInMonth(ym.year, ym.month);
      var g := Grid(year, month);
      && (forall d :: 1 <= d <= last ==> g[lead + d - 1] == MakeDate(year, month, d))
      && (forall k :: 0 <= k < GridSize ==>
            (g[k].year == ym.year && g[k].month == ym.month <==> lead <= k < lead + last))
  {
    var ym := MonthOf(year, month);
    CellsMonthDays(ym, LeadingCount(ym));
    forall d | 1 <= d <= DaysInMonth(ym.year, ym.month)
      ensures MakeDate(year, month, d) == Date(ym.year, ym.month, d)
    {
      MakeDateInRange(year, month, d);
    }
  }

  /** At least six cells are left for the next month (at most 5 leading cells
    * plus at most 31 days), and they are its days 1, 2, ... as built by
    * `new Date(year, month + 1, i)`. */
  lemma GridTrailing(year: int, month: int)
    ensures var ym := MonthOf(year, month);
      var shown := LeadingCount(ym) + DaysInMonth(ym.year, ym.month);
      var g := Grid(year, month);
      && GridSize - shown >= 6
      && (forall k :: shown <= k < GridSize ==> g[k] == MakeDate(year, month + 1, k - shown + 1))
  {
    var ym := MonthOf(year, month);
    var lead := LeadingCount(ym);
    var shown := lead + DaysInMonth(ym.year, ym.month);
    var g := Grid(year, month);
    MonthShift(year, month);
    forall k | shown <= k < GridSize
      ensures g[k] == MakeDate(year, month + 1, k - shown + 1)
    {
      assert g[k] == TrailingCells(ym, GridSize - shown)[k - shown];
      MakeDateInRange(year, month + 1, k - shown + 1);
    }
  }

  /** The code's grid is 42 consecutive days. */
  lemma GridConsecutive(year: int, month: int)
    ensures forall k :: 0 <= k < GridSize - 1 ==>
      Valid(Grid(year, month)[k]) && Grid(year, month)[k + 1] == NextDay(Grid(year, month)[k])
  {
    var ym := MonthOf(year, month);
    CellsConsecutive(ym, LeadingCount(ym));
  }

  /** Cell `k` is `k` days after the first cell. */
  lemma GridDayNumbers(year: int, month: int)
    ensures forall k :: 0 <= k < GridSize ==>
      Valid(Grid(year, month)[k]) && Valid(Grid(year, month)[0])
      && DayNumber(Grid(year, month)[k]) == DayNumber(Grid(year, month)[0]) + k
  {
    var ym := MonthOf(year, month);
    CellsDayNumber(ym, LeadingCount(ym));
  }

  /** When the 1st is not a Sunday, the code's grid puts every day under the
    * header letter of its weekday. */
  lemma GridColumnsMondayToSaturday(year: int, month: int)
    requires Weekday(FirstOfMonth(MonthOf(year, month))) != 0
    ensures forall k :: 0 <= k < GridSize ==>
      Valid(Grid(year, month)[k]) && MondayColumn(Grid(year, month)[k]) == k % 7
  {
    var ym := MonthOf(year, month);
    assert LeadingCount(ym) == MondayColumn(FirstOfMonth(ym));
    CellsColumns(ym);
  }

  /** When the 1st is a Sunday the first loop emits nothing, the 1st lands in
    * the "M" column, and every cell sits one column to the right of its
    * weekday's header letter (a Monday under "T", a Sunday wrapped round
    * under "M"). */
  lemma GridColumnsSundayStart(year: int, month: int)
    requires Weekday(FirstOfMonth(MonthOf(year, month))) == 0
    ensures Grid(year, month)[0] == FirstOfMonth(MonthOf(year, month))
    ensures forall k :: 0 <= k < GridSize ==>
      Valid(Grid(year, month)[k]) && MondayColumn(Grid(year, month)[k]) == (k + 6) % 7
  {
    var ym := MonthOf(year, month);
    var g := Grid(year, month);
    assert g[0] == MonthCells(ym)[0];
    CellsDayNumber(ym, 0);
    forall k | 0 <= k < GridSize
      ensures Valid(g[k]) && MondayColumn(g[k]) == (k + 6) % 7
    {
      SundayArithmetic(MonthStart(ym), k);
    }
  }

  lemma SundayArithmetic(start: int, k: int)
    requires start % 7 == 0 && 0 <= k
    ensures ((start + k) % 7 + 6) % 7 == (k + 6) % 7
  {
    assert start == 7 * (start / 7);
    assert k == 7 * (k / 7) + k % 7;
  }

  /** September 2024 starts on a Sunday: the code's grid opens with
    * 1 September under "M". */
  lemma SundayStartExample()
    ensures Weekday(Date(2024, 8, 1)) == 0
    ensures Grid(2024, 8)[0] == Date(2024, 8, 1)
    ensures MondayColumn(Grid(2024, 8)[0]) == 6
  {
    assert LeapDays(2023) == 490;
    assert DayNumber(Date(2024, 8, 1)) == 739494;
    assert MonthOf(2024, 8) == YearMonth(2024, 8);
    GridColumnsSundayStart(2024, 8);
  }

  // ---------------------------------------------------------------------
  // The grid with Monday alignment restored.

  /** The Monday-first grid the header calls for: the 1st is preceded by as
    * many previous-month days as its Monday-first column, 6 for a Sunday. */
  function AlignedGrid(year: int, month: int): (g: seq<Date>)
    ensures |g| == GridSize
  {
    var ym := MonthOf(year, month);
    Cells(ym, MondayColumn(FirstOfMonth(ym)))
  }

  /** Every cell of the aligned grid sits under its own weekday, the days are
    * consecutive, and the 1st is at its Monday-first column. */
  lemma AlignedGridColumns(year: int, month: int)
    ensures var ym := MonthOf(year, month);
      AlignedGrid(year, month)[MondayColumn(FirstOfMonth(ym))] == FirstOfMonth(ym)
    ensures forall k :: 0 <= k < GridSize ==>
      Valid(AlignedGrid(year, month)[k]) && MondayColumn(AlignedGrid(year, month)[k]) == k % 7
    ensures forall k :: 0 <= k < GridSize - 1 ==>
      AlignedGrid(year, month)[k + 1] == NextDay(AlignedGrid(year, month)[k])
  {
    var ym := MonthOf(year, month);
    var lead := MondayColumn(FirstOfMonth(ym));
    assert AlignedGrid(year, month)[lead] == MonthCells(ym)[0];
    CellsColumns(ym);
    CellsConsecutive(ym, lead);
  }

  /** The aligned grid differs from the code's only for months starting on a Sunday. */
  lemma AlignedGridAgrees(year: int, month: int)
    ensures AlignedGrid(year, month) == Grid(year, month)
      <==> Weekday(FirstOfMonth(MonthOf(year, month))) != 0
  {
    var ym := MonthOf(year, month);
    var first := FirstOfMonth(ym);
    if Weekday(first) == 0 {
      assert MondayColumn(first) == 6 && LeadingCount(ym) == 0;
      var aligned, grid := AlignedGrid(year, month), Grid(year, month);
      assert grid[0] == MonthCells(ym)[0];
      assert aligned[0] == LeadingCells(ym, 6)[0];
      assert aligned[0].month != grid[0].month;
    } else {
      assert LeadingCount(ym) == MondayColumn(first);
    }
  }

  /** 1 January 2024 is a Monday: the grid for January 2024 starts on it and
    * ends on 11 February 2024. */
  lemma JanuaryGridExample()
    ensures Weekday(Date(2024, 0, 1)) == 1
    ensures Grid(2024, 0)[0] == Date(2024, 0, 1) && Grid(2024, 0)[41] == Date(2024, 1, 11)
  {
    var ym := YearMonth(2024, 0);
    assert MonthOf(2024, 0) == ym && MonthOf(2024, 1) == YearMonth(2024, 1);
    assert LeapDays(2023) == 490;
    assert DayNumber(Date(2024, 0, 1)) == 739250;
    assert LeadingCount(ym) == 0;
    GridLeading(2024, 0);
    MakeDateInRange(2024, 0, 1);
    GridTrailing(2024, 0);
    MakeDateInRange(2024, 1, 11);
    assert Grid(2024, 0)[41] == MakeDate(2024, 1, 11);
  }

  /** The February 2024 grid holds the leap day. */
  lemma LeapFebruaryExample()
    ensures Date(2024, 1, 29) in Grid(2024, 1)
  {
    assert MonthOf(2024, 1) == YearMonth(2024, 1);
    GridMonthDays(2024, 1);
    MakeDateInRange(2024, 1, 29);
    assert Grid(2024, 1)[LeadingCount(MonthOf(2024, 1)) + 28] == Date(2024, 1, 29);
  }

  /** A displayed year of 50 shows January 1950, which starts on a Sunday:
    * its grid is the January 1950 grid and opens on 1 January 1950. */
  lemma TwoDigitYearExample()
    ensures Weekday(Date(1950, 0, 1)) == 0
    ensures Grid(50, 0) == Grid(1950, 0)
    ensures Grid(50, 0)[0] == Date(1950, 0, 1)
  {
    assert LeapDays(1949) == 472;
    assert DayNumber(Date(1950, 0, 1)) == 712222;
    assert MonthOf(50, 0) == YearMonth(1950, 0);
    assert LeadingCount(YearMonth(1950, 0)) == 0;
    GridLeading(50, 0);
    MakeDateInRange(50, 0, 1);
  }
}

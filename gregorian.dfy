/**
 * The proleptic Gregorian calendar, written out as the calendar component
 * uses it through the JavaScript `Date` object: a date is a
 * (year, month 0..11, day 1..31) triple, `MakeDate` is the constructor
 * `new Date(year, month, day)` with its reading of two-digit years and its
 * normalisation of out-of-range months and days, and `Weekday` is `getDay()`
 * (0 = Sunday ... 6 = Saturday).
 */
module Gregorian {

  /** A calendar date; `month` is 0-based as in JavaScript. */
  datatype Date = Date(year: int, month: int, day: int)

  /** A displayed month: the pair of state fields of the calendar view. */
  datatype YearMonth = YearMonth(year: int, month: int)

  predicate IsLeapYear(y: int) {
    (y % 4 == 0 && y % 100 != 0) || y % 400 == 0
  }

  function DaysInMonth(y: int, m: int): (n: int)
    requires 0 <= m < 12
    ensures 28 <= n <= 31
    ensures n == 29 <==> m == 1 && IsLeapYear(y)
    ensures n == 28 <==> m == 1 && !IsLeapYear(y)
  {
    if m == 1 then (if IsLeapYear(y) then 29 else 28)
    else if m == 3 || m == 5 || m == 8 || m == 10 then 30
    else 31
  }

  predicate ValidMonth(ym: YearMonth) {
    0 <= ym.month < 12
  }

  predicate Valid(d: Date) {
    0 <= d.month < 12 && 1 <= d.day <= DaysInMonth(d.year, d.month)
  }

  /** The month a `Date` with these (possibly out-of-range) fields falls in. */
  function Normalize(year: int, month: int): (ym: YearMonth)
    ensures ValidMonth(ym)
    ensures 12 * ym.year + ym.month == 12 * year + month
  {
    YearMonth(year + month / 12, month % 12)
  }

  /** The month after `ym`, rolling December into January of the next year. */
  function NextMonth(ym: YearMonth): YearMonth
    requires ValidMonth(ym)
  {
    if ym.month == 11 then YearMonth(ym.year + 1, 0) else YearMonth(ym.year, ym.month + 1)
  }

  /** The month before `ym`, rolling January back to December of the previous year. */
  function PrevMonth(ym: YearMonth): YearMonth
    requires ValidMonth(ym)
  {
    if ym.month == 0 then YearMonth(ym.year - 1, 11) else YearMonth(ym.year, ym.month - 1)
  }

  /** The year `new Date(year, month, day)` works in: an argument from 0 to 99
    * is read as 1900 + year, before the month is normalised. */
  function FullYear(year: int): int {
    if 0 <= year <= 99 then 1900 + year else year
  }

  /** The month `new Date(year, month, ...)` falls in. */
  function MonthOf(year: int, month: int): (ym: YearMonth)
    ensures ValidMonth(ym)
  {
    Normalize(FullYear(year), month)
  }

  /** The date with these fields: out-of-range months move the year, and
    * out-of-range days (0 and below included) spill into the neighbouring months. */
  function DateOf(year: int, month: int, day: int): (d: Date)
    ensures Valid(d)
    decreases if day < 1 then 32 - day else day
  {
    var ym := Normalize(year, month);
    if day < 1 then
      var before := PrevMonth(ym);
      DateOf(before.year, before.month, day + DaysInMonth(before.year, before.month))
    else if day <= DaysInMonth(ym.year, ym.month) then
      Date(ym.year, ym.month, day)
    else
      DateOf(ym.year, ym.month + 1, day - DaysInMonth(ym.year, ym.month))
  }

  /** `new Date(year, month, day)`: the fields, with a two-digit year read
    * as 19xx, name a valid date. */
  function MakeDate(year: int, month: int, day: int): (d: Date)
    ensures Valid(d)
  {
    DateOf(FullYear(year), month, day)
  }

  // ---------------------------------------------------------------------
  // Day numbers: a count of days from 1 January of year 0, independent of
  // the month-by-month stepping above; used to state what DateOf, NextDay
  // and Weekday mean.

  /** Leap years among 1..y (for y >= 0; the same closed form below 0). */
  function LeapDays(y: int): int {
    y / 4 - y / 100 + y / 400
  }

  function DaysBeforeYear(y: int): int {
    365 * y + LeapDays(y - 1)
  }

  function DaysBeforeMonth(y: int, m: int): int
    requires 0 <= m < 12
  {
    [0, 31, 59, 90, 120, 151, 181, 212, 243, 273, 304, 334][m]
      + (if m >= 2 && IsLeapYear(y) then 1 else 0)
  }

  function MonthStart(ym: YearMonth): int
    requires ValidMonth(ym)
  {
    DaysBeforeYear(ym.year) + DaysBeforeMonth(ym.year, ym.month)
  }

  function DayNumber(d: Date): int
    requires Valid(d)
  {
    MonthStart(YearMonth(d.year, d.month)) + d.day - 1
  }

  /** `getDay()`: 0 = Sunday, 1 = Monday, ..., 6 = Saturday. */
  function Weekday(d: Date): (w: int)
    requires Valid(d)
    ensures 0 <= w < 7
  {
    DayNumber(d) % 7
  }

  /** The day after `d`. */
  function NextDay(d: Date): (r: Date)
    requires Valid(d)
    ensures Valid(r)
    ensures DayNumber(r) == DayNumber(d) + 1
    ensures Weekday(r) == (Weekday(d) + 1) % 7
  {
    if d.day < DaysInMonth(d.year, d.month) then
      ModSucc(DayNumber(d));
      Date(d.year, d.month, d.day + 1)
    else
      MonthStep(YearMonth(d.year, d.month));
      ModSucc(DayNumber(d));
      var n := NextMonth(YearMonth(d.year, d.month));
      Date(n.year, n.month, 1)
  }

  // ---------------------------------------------------------------------
  // Lemmas

  lemma LeapDaysStep(y: int)
    ensures LeapDays(y) - LeapDays(y - 1) == if IsLeapYear(y) then 1 else 0
  {
    DivStep(y, 4);
    DivStep(y, 100);
    DivStep(y, 400);
    if y % 400 == 0 {
      DivisorMultiple(y, 100, 4);
      DivisorMultiple(y, 4, 100);
    } else if y % 100 == 0 {
      DivisorMultiple(y, 4, 25);
    }
  }

  /** A multiple of `a * b` is a multiple of `a`. */
  lemma DivisorMultiple(y: int, a: int, b: int)
    requires (a == 100 && b == 4) || (a == 4 && b == 100) || (a == 4 && b == 25)
    requires y % (a * b) == 0
    ensures y % a == 0
  {
    var q := y / (a * b);
    assert y == (a * b) * q;
    assert y == a * (b * q);
  }

  lemma DivStep(y: int, k: int)
    requires k == 4 || k == 100 || k == 400
    ensures y / k - (y - 1) / k == if y % k == 0 then 1 else 0
  {
    if k == 4 {
      assert y == 4 * (y / 4) + y % 4;
    } else if k == 100 {
      assert y == 100 * (y / 100) + y % 100;
    } else {
      assert y == 400 * (y / 400) + y % 400;
    }
  }

  /** Adding one to a day number adds one to the weekday, modulo 7. */
  lemma ModSucc(x: int)
    ensures (x + 1) % 7 == (x % 7 + 1) % 7
  {
    assert x == 7 * (x / 7) + x % 7;
  }

  /** A year holds 365 days, 366 in a leap year. */
  lemma YearLength(y: int)
    ensures DaysBeforeYear(y + 1) - DaysBeforeYear(y) == if IsLeapYear(y) then 366 else 365
  {
    LeapDaysStep(y);
  }

  /** The next month starts right after the last day of this one. */
  lemma MonthStep(ym: YearMonth)
    requires ValidMonth(ym)
    ensures MonthStart(NextMonth(ym)) == MonthStart(ym) + DaysInMonth(ym.year, ym.month)
  {
    if ym.month == 11 {
      YearLength(ym.year);
    }
  }

  lemma NextPrevMonth(ym: YearMonth)
    requires ValidMonth(ym)
    ensures ValidMonth(NextMonth(ym)) && PrevMonth(NextMonth(ym)) == ym
    ensures ValidMonth(PrevMonth(ym)) && NextMonth(PrevMonth(ym)) == ym
  {
  }

  /** `DateOf` places day `day` of the (normalised) month `day - 1` days
    * after that month's 1st, whatever the value of `day`: the normalisation
    * JavaScript performs is day arithmetic on the calendar. */
  lemma {:induction false} DateOfDayNumber(year: int, month: int, day: int)
    ensures DayNumber(DateOf(year, month, day)) == MonthStart(Normalize(year, month)) + day - 1
    decreases if day < 1 then 32 - day else day
  {
    var ym := Normalize(year, month);
    if day < 1 {
      var before := PrevMonth(ym);
      var day' := day + DaysInMonth(before.year, before.month);
      assert DateOf(year, month, day) == DateOf(before.year, before.month, day');
      DateOfDayNumber(before.year, before.month, day');
      NormalizeValid(before);
      NextPrevMonth(ym);
      MonthStep(before);
    } else if day <= DaysInMonth(ym.year, ym.month) {
    } else {
      var day' := day - DaysInMonth(ym.year, ym.month);
      assert DateOf(year, month, day) == DateOf(ym.year, ym.month + 1, day');
      DateOfDayNumber(ym.year, ym.month + 1, day');
      NormalizeSucc(ym);
      MonthStep(ym);
    }
  }

  /** `new Date(year, month, day)` is `day - 1` days after the 1st of the
    * month it falls in, for every integer `day`. */
  lemma MakeDateDayNumber(year: int, month: int, day: int)
    ensures DayNumber(MakeDate(year, month, day)) == MonthStart(MonthOf(year, month)) + day - 1
  {
    DateOfDayNumber(FullYear(year), month, day);
  }

  lemma NormalizeValid(ym: YearMonth)
    requires ValidMonth(ym)
    ensures Normalize(ym.year, ym.month) == ym
  {
  }

  lemma NormalizeSucc(ym: YearMonth)
    requires ValidMonth(ym)
    ensures Normalize(ym.year, ym.month + 1) == NextMonth(ym)
    ensures Normalize(ym.year, ym.month - 1) == PrevMonth(ym)
  {
  }

  /** Within the month's length, `MakeDate` builds exactly the date asked for. */
  lemma MakeDateInRange(year: int, month: int, day: int)
    requires 1 <= day <= DaysInMonth(MonthOf(year, month).year, MonthOf(year, month).month)
    ensures MakeDate(year, month, day) == Date(MonthOf(year, month).year, MonthOf(year, month).month, day)
  {
  }

  /** Day 0 of a month is the last day of the month before it; this is how
    * `new Date(year, month + 1, 0).getDate()` yields the month's length. */
  lemma MakeDateDayZero(year: int, month: int)
    ensures var before := PrevMonth(MonthOf(year, month));
      MakeDate(year, month, 0) == Date(before.year, before.month, DaysInMonth(before.year, before.month))
  {
    var before := PrevMonth(MonthOf(year, month));
    assert Normalize(before.year, before.month) == before;
  }

  /** Years 0 to 99 are read as 1900 to 1999 (the first clause restates that
    * rule of JavaScript's `Date`), and no other year is moved: elsewhere the
    * date's year is the argument plus the months carried over. */
  lemma TwoDigitYears(year: int, month: int, day: int)
    ensures 0 <= year <= 99 ==> MakeDate(year, month, day) == MakeDate(1900 + year, month, day)
    ensures 1 <= day <= 28 ==>
      (MakeDate(year, month, day).year == year + month / 12 <==> !(0 <= year <= 99))
  {
    if 1 <= day <= 28 {
      MakeDateInRange(year, month, day);
    }
  }
}

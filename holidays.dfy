/**
  The holiday rule of RentalService.isHoliday: Independence Day (July 4, and
  the Friday July 3 or Monday July 5 on which it is observed when it falls on
  a weekend) and Labor Day (the first Monday of September).
 */
module Holidays {
  import opened Calendar

  /**
    The rule as the service evaluates it, from the three calendar fields it
    reads: the month, the day of the month and the day of the week. July 4 is
    a holiday whatever weekday it falls on.
   */
  predicate IsHoliday(month: int, dayOfMonth: int, weekday: Weekday)
    ensures month == July && dayOfMonth == 4 ==> IsHoliday(month, dayOfMonth, weekday)
    ensures IsHoliday(month, dayOfMonth, weekday) ==>
      || (month == July && 3 <= dayOfMonth <= 5)
      || (month == September && dayOfMonth <= 7 && weekday == Monday)
  {
    if month == July && (dayOfMonth == 4 || (weekday == Friday && dayOfMonth == 3) || (weekday == Monday && dayOfMonth == 5)) then
      true
    else if month == September && weekday == Monday && dayOfMonth <= 7 then
      true
    else
      false
  }

  predicate IsHolidayDate(d: Date)
    requires ValidDate(d)
  {
    IsHoliday(d.month, d.day, WeekdayOfDate(d))
  }

  function IndependenceDay(y: int): Date {
    Date(y, July, 4)
  }

  /** The first Monday of September of year `y`, found from the weekday of September 1. */
  function LaborDay(y: int): (d: Date)
    ensures ValidDate(d) && d.year == y && d.month == September
    ensures 1 <= d.day <= 7 && WeekdayOfDate(d) == Monday
  {
    var first := Date(y, September, 1);
    var w := WeekdayIndex(WeekdayOfDate(first));
    var d := Date(y, September, 1 + (8 - w) % 7);
    FirstMondayShift(ToDayNumber(first));
    assert ToDayNumber(d) == ToDayNumber(first) + (8 - w) % 7;
    d
  }

  /** Moving on from day `n` to the next Monday takes 0 to 6 days, and lands on a Monday. */
  lemma FirstMondayShift(n: int)
    ensures 0 <= (8 - (n + 6) % 7) % 7 <= 6
    ensures WeekdayOf(n + (8 - (n + 6) % 7) % 7) == Monday
  {
    var k := (8 - (n + 6) % 7) % 7;
    assert (n + k + 6) % 7 == 1;
  }

  /** Two Mondays less than a week apart are the same day. */
  lemma MondaysAWeekApart(n: int, m: int)
    requires n - 7 < m < n + 7
    ensures WeekdayOf(n) == Monday && WeekdayOf(m) == Monday ==> n == m
  {
  }

  /** The day before a Saturday is a Friday, and the day after a Sunday is a Monday. */
  lemma WeekendNeighbours(n: int)
    ensures WeekdayOf(n) == Friday <==> WeekdayOf(n + 1) == Saturday
    ensures WeekdayOf(n + 1) == Monday <==> WeekdayOf(n) == Sunday
  {
    WeekdayOfNext(n);
  }

  /**
    The holidays of a year as a list of dates: July 4; July 3 when July 4 is
    a Saturday; July 5 when July 4 is a Sunday; and the first Monday of
    September.
   */
  predicate ListedHoliday(d: Date) {
    || d == IndependenceDay(d.year)
    || (d == Date(d.year, July, 3) && WeekdayOfDate(IndependenceDay(d.year)) == Saturday)
    || (d == Date(d.year, July, 5) && WeekdayOfDate(IndependenceDay(d.year)) == Sunday)
    || d == LaborDay(d.year)
  }

  /** The rule picks out exactly the listed holidays: nothing else is a holiday. */
  lemma HolidaysOfYear(d: Date)
    requires ValidDate(d)
    ensures IsHolidayDate(d) <==> ListedHoliday(d)
  {
    var y := d.year;
    WeekendNeighbours(ToDayNumber(Date(y, July, 3)));
    WeekendNeighbours(ToDayNumber(Date(y, July, 4)));
    var labor := LaborDay(y);
    if d.month == September && d.day <= 7 {
      MondaysAWeekApart(ToDayNumber(d), ToDayNumber(labor));
    }
  }

  /** July 3 is a holiday exactly in the years in which July 4 is a Saturday. */
  lemma July3HolidayIffJuly4Saturday(y: int)
    ensures IsHolidayDate(Date(y, July, 3)) <==> WeekdayOfDate(IndependenceDay(y)) == Saturday
  {
    HolidaysOfYear(Date(y, July, 3));
  }

  /** July 5 is a holiday exactly in the years in which July 4 is a Sunday. */
  lemma July5HolidayIffJuly4Sunday(y: int)
    ensures IsHolidayDate(Date(y, July, 5)) <==> WeekdayOfDate(IndependenceDay(y)) == Sunday
  {
    HolidaysOfYear(Date(y, July, 5));
  }

  /** Labor Day holds for exactly one date of September: the first Monday. */
  lemma LaborDayUnique(y: int)
    ensures IsHolidayDate(LaborDay(y))
    ensures forall d :: ValidDate(d) && d.year == y && d.month == September ==>
      (IsHolidayDate(d) <==> d == LaborDay(y))
  {
    forall d | ValidDate(d) && d.year == y && d.month == September
      ensures IsHolidayDate(d) <==> d == LaborDay(y)
    {
      HolidaysOfYear(d);
    }
  }

  /**
    July 4 is itself a holiday on every weekday, so in a year in which it falls
    on a weekend two July dates are holidays: July 3 and 4, or July 4 and 5.
   */
  lemma WeekendIndependenceDayTwice(y: int)
    ensures IsHolidayDate(IndependenceDay(y))
    ensures WeekdayOfDate(IndependenceDay(y)) == Saturday ==> IsHolidayDate(Date(y, July, 3))
    ensures WeekdayOfDate(IndependenceDay(y)) == Sunday ==> IsHolidayDate(Date(y, July, 5))
  {
    July3HolidayIffJuly4Saturday(y);
    July5HolidayIffJuly4Sunday(y);
  }

  /** 2026: July 4 is a Saturday, so Friday July 3 is a holiday. */
  lemma IndependenceDay2026()
    ensures WeekdayOfDate(IndependenceDay(2026)) == Saturday
    ensures IsHolidayDate(Date(2026, July, 3)) && IsHolidayDate(Date(2026, July, 4))
  {
    assert DaysBeforeYear(2026) == 9497;
    assert ToDayNumber(Date(2026, July, 4)) == 9681;
  }

  /** 2021: July 4 is a Sunday, so Monday July 5 is a holiday. */
  lemma IndependenceDay2021()
    ensures WeekdayOfDate(IndependenceDay(2021)) == Sunday
    ensures IsHolidayDate(Date(2021, July, 5)) && !IsHolidayDate(Date(2021, July, 3))
  {
    assert DaysBeforeYear(2021) == 7671;
    assert ToDayNumber(Date(2021, July, 4)) == 7855;
  }

  /** Labor Day 2024 is Monday, September 2; September 9 is not a holiday. */
  lemma LaborDay2024()
    ensures LaborDay(2024) == Date(2024, September, 2)
    ensures IsHolidayDate(Date(2024, September, 2)) && !IsHolidayDate(Date(2024, September, 9))
  {
    assert DaysBeforeYear(2024) == 8766;
    assert ToDayNumber(Date(2024, September, 1)) == 9010;
  }
}

/**
  The calendar arithmetic behind the rental service. A date is a
  proleptic-Gregorian (year, month, day), numbered by an integer day number
  (day 0 is Saturday, 1 January 2000) that also gives its weekday. A
  java.util.Calendar is the pair of fields the service reads (the date and
  DAY_OF_WEEK); adding one day rolls both over, and `Date.before` is
  calendar order, which agrees with the order of day numbers.
 */
module Calendar {

  /** A calendar date; `month` runs from 1 (January) to 12 (December). */
  datatype Date = Date(year: int, month: int, day: int)

  /** Weekdays in the order of java.util.Calendar's DAY_OF_WEEK (SUNDAY = 1 .. SATURDAY = 7). */
  datatype Weekday = Sunday | Monday | Tuesday | Wednesday | Thursday | Friday | Saturday

  const July := 7
  const September := 9
  const December := 12

  /** Days in one 400-year Gregorian cycle. */
  const DaysPerEra := 146097

  predicate IsLeapYear(y: int) {
    y % 4 == 0 && (y % 100 != 0 || y % 400 == 0)
  }

  function DaysInYear(y: int): int {
    if IsLeapYear(y) then 366 else 365
  }

  function DaysInMonth(y: int, m: int): (n: int)
    ensures 28 <= n <= 31
  {
    if m == 2 then (if IsLeapYear(y) then 29 else 28)
    else if m == 4 || m == 6 || m == 9 || m == 11 then 30
    else 31
  }

  predicate ValidDate(d: Date) {
    1 <= d.month <= 12 && 1 <= d.day <= DaysInMonth(d.year, d.month)
  }

  /** Days of year `y` that lie before the first of month `m`. */
  function DaysBeforeMonth(y: int, m: int): int
    requires 1 <= m <= 12
  {
    var common :=
      if m == 1 then 0 else if m == 2 then 31 else if m == 3 then 59
      else if m == 4 then 90 else if m == 5 then 120 else if m == 6 then 151
      else if m == 7 then 181 else if m == 8 then 212 else if m == 9 then 243
      else if m == 10 then 273 else if m == 11 then 304 else 334;
    if m > 2 && IsLeapYear(y) then common + 1 else common
  }

  /** Day number of 1 January of year `y` (negative before 2000). */
  function DaysBeforeYear(y: int): int {
    var a := y - 2000;
    365 * a + (a + 3) / 4 - (a + 99) / 100 + (a + 399) / 400
  }

  /** The day number of a date. */
  function ToDayNumber(d: Date): int
    requires ValidDate(d)
  {
    DaysBeforeYear(d.year) + DaysBeforeMonth(d.year, d.month) + d.day - 1
  }

  /** The month table agrees with the month lengths, and the twelve months fill the year. */
  lemma MonthStep(y: int, m: int)
    requires 1 <= m <= 12
    ensures m < 12 ==> DaysBeforeMonth(y, m + 1) == DaysBeforeMonth(y, m) + DaysInMonth(y, m)
    ensures m == 12 ==> DaysBeforeMonth(y, m) + DaysInMonth(y, m) == DaysInYear(y)
  {
  }

  /** Months are laid out in order: month `m1` ends no later than month `m2` starts. */
  lemma {:induction false} MonthsOrdered(y: int, m1: int, m2: int)
    requires 1 <= m1 <= 12 && 1 <= m2 <= 12
    ensures m1 < m2 ==> DaysBeforeMonth(y, m1) + DaysInMonth(y, m1) <= DaysBeforeMonth(y, m2)
    decreases m2
  {
    if m1 < m2 {
      MonthStep(y, m2 - 1);
      MonthsOrdered(y, m1, m2 - 1);
    }
  }

  /** Every month ends within its year. */
  lemma MonthInYear(y: int, m: int)
    requires 1 <= m <= 12
    ensures DaysBeforeMonth(y, m) + DaysInMonth(y, m) <= DaysInYear(y)
  {
    MonthsOrdered(y, m, 12);
    MonthStep(y, 12);
  }

  /** The ceiling of `a / k` grows by one exactly when `a` is a multiple of `k`. */
  lemma CeilStep4(a: int)
    ensures (a + 4) / 4 - (a + 3) / 4 == if a % 4 == 0 then 1 else 0
  {
  }

  lemma CeilStep100(a: int)
    ensures (a + 100) / 100 - (a + 99) / 100 == if a % 100 == 0 then 1 else 0
  {
  }

  lemma CeilStep400(a: int)
    ensures (a + 400) / 400 - (a + 399) / 400 == if a % 400 == 0 then 1 else 0
  {
  }

  /** Divisibility by 400 implies divisibility by 100, which implies divisibility by 4. */
  lemma DivisorChain(a: int)
    ensures a % 400 == 0 ==> a % 100 == 0
    ensures a % 100 == 0 ==> a % 4 == 0
  {
    if a % 400 == 0 {
      MultipleOfMultiple(a, 100, 4);
    }
    if a % 100 == 0 {
      MultipleOfMultiple(a, 4, 25);
    }
  }

  /** A multiple of `m * k` is a multiple of `m`. */
  lemma MultipleOfMultiple(a: int, m: int, k: int)
    requires 0 < m && 0 < k && a % (m * k) == 0
    ensures a % m == 0
  {
    var q := a / (m * k);
    assert a == (m * k) * q;
    assert a == m * (k * q);
  }

  /** Shifting a year by 2000 keeps its leap-year status. */
  lemma LeapShift(y: int)
    ensures IsLeapYear(y) <==> (y - 2000) % 4 == 0 && ((y - 2000) % 100 != 0 || (y - 2000) % 400 == 0)
  {
    assert y % 4 == (y - 2000) % 4;
    assert y % 100 == (y - 2000) % 100;
    assert y % 400 == (y - 2000) % 400;
  }

  /** Leap-year counting: consecutive years differ by the length of the earlier one. */
  lemma YearStep(y: int)
    ensures DaysBeforeYear(y + 1) == DaysBeforeYear(y) + DaysInYear(y)
  {
    var a := y - 2000;
    CeilStep4(a);
    CeilStep100(a);
    CeilStep400(a);
    LeapShift(y);
    DivisorChain(a);
    var leap := if IsLeapYear(y) then 1 else 0;
    var d4 := (a + 4) / 4 - (a + 3) / 4;
    var d100 := (a + 100) / 100 - (a + 99) / 100;
    var d400 := (a + 400) / 400 - (a + 399) / 400;
    assert d4 - d100 + d400 == leap;
    calc {
      DaysBeforeYear(y + 1);
      365 * (a + 1) + (a + 4) / 4 - (a + 100) / 100 + (a + 400) / 400;
      DaysBeforeYear(y) + 365 + d4 - d100 + d400;
    }
  }

  /** Every 400-year cycle starting in 2000 + 400q begins on day 146097 q. */
  lemma EraStart(q: int)
    ensures DaysBeforeYear(2000 + 400 * q) == DaysPerEra * q
  {
    var a := 400 * q;
    assert (a + 3) / 4 == 100 * q;
    assert (a + 99) / 100 == 4 * q;
    assert (a + 399) / 400 == q;
  }

  /** Years are laid out in order: year `y1` ends no later than year `y2` starts. */
  lemma {:induction false} YearsOrdered(y1: int, y2: int)
    ensures y1 < y2 ==> DaysBeforeYear(y1 + 1) <= DaysBeforeYear(y2)
    decreases if y1 < y2 then y2 - y1 else 0
  {
    if y1 + 1 < y2 {
      YearsOrdered(y1, y2 - 1);
      YearStep(y2 - 1);
    }
  }

  /** The year whose days contain day number `n`, searched upwards from year `y`. */
  function YearContaining(n: int, y: int): (r: int)
    requires DaysBeforeYear(y) <= n
    ensures DaysBeforeYear(r) <= n < DaysBeforeYear(r + 1)
    decreases n - DaysBeforeYear(y)
  {
    YearStep(y);
    if n < DaysBeforeYear(y + 1) then y else YearContaining(n, y + 1)
  }

  /** The month of year `y` holding its day `doy` (0-based), searched upwards from month `m`. */
  function MonthContaining(y: int, doy: int, m: int): (r: int)
    requires 1 <= m <= 12
    requires DaysBeforeMonth(y, m) <= doy < DaysInYear(y)
    ensures 1 <= r <= 12
    ensures DaysBeforeMonth(y, r) <= doy < DaysBeforeMonth(y, r) + DaysInMonth(y, r)
    decreases 12 - m
  {
    MonthStep(y, m);
    if m == 12 || doy < DaysBeforeMonth(y, m + 1) then m else MonthContaining(y, doy, m + 1)
  }

  /** The calendar date of day number `n`: a valid date that maps back to `n`. */
  function FromDayNumber(n: int): (d: Date)
    ensures ValidDate(d) && ToDayNumber(d) == n
  {
    EraStart(n / DaysPerEra);
    var y := YearContaining(n, 2000 + 400 * (n / DaysPerEra));
    var doy := n - DaysBeforeYear(y);
    YearStep(y);
    var m := MonthContaining(y, doy, 1);
    Date(y, m, doy - DaysBeforeMonth(y, m) + 1)
  }

  /** A valid date lies inside its year's range of day numbers. */
  lemma DayNumberInYear(d: Date)
    requires ValidDate(d)
    ensures DaysBeforeYear(d.year) <= ToDayNumber(d) < DaysBeforeYear(d.year + 1)
  {
    MonthInYear(d.year, d.month);
    YearStep(d.year);
  }

  /** Calendar order of dates: by year, then month, then day of the month. */
  predicate DateBefore(d1: Date, d2: Date) {
    || d1.year < d2.year
    || (d1.year == d2.year && d1.month < d2.month)
    || (d1.year == d2.year && d1.month == d2.month && d1.day < d2.day)
  }

  /** Calendar order is a strict total order: irreflexive, asymmetric, transitive and total. */
  lemma DateOrderIsStrictTotal(d1: Date, d2: Date, d3: Date)
    ensures !DateBefore(d1, d1)
    ensures DateBefore(d1, d2) ==> !DateBefore(d2, d1)
    ensures DateBefore(d1, d2) && DateBefore(d2, d3) ==> DateBefore(d1, d3)
    ensures d1 != d2 ==> DateBefore(d1, d2) || DateBefore(d2, d1)
  {
  }

  lemma EarlierYearFirst(d1: Date, d2: Date)
    requires ValidDate(d1) && ValidDate(d2) && d1.year < d2.year
    ensures ToDayNumber(d1) < ToDayNumber(d2)
  {
    DayNumberInYear(d1);
    DayNumberInYear(d2);
    YearsOrdered(d1.year, d2.year);
  }

  lemma EarlierMonthFirst(d1: Date, d2: Date)
    requires ValidDate(d1) && ValidDate(d2) && d1.year == d2.year && d1.month < d2.month
    ensures ToDayNumber(d1) < ToDayNumber(d2)
  {
    MonthsOrdered(d1.year, d1.month, d2.month);
  }

  /** Day numbers follow calendar order: a date comes first exactly when its day number is smaller. */
  lemma DayNumberOrder(d1: Date, d2: Date)
    requires ValidDate(d1) && ValidDate(d2)
    ensures DateBefore(d1, d2) <==> ToDayNumber(d1) < ToDayNumber(d2)
    ensures d1 == d2 <==> ToDayNumber(d1) == ToDayNumber(d2)
  {
    if d1.year < d2.year {
      EarlierYearFirst(d1, d2);
    } else if d2.year < d1.year {
      EarlierYearFirst(d2, d1);
    } else if d1.month < d2.month {
      EarlierMonthFirst(d1, d2);
    } else if d2.month < d1.month {
      EarlierMonthFirst(d2, d1);
    }
  }

  /** Distinct valid dates have distinct day numbers. */
  lemma ToDayNumberInjective(d1: Date, d2: Date)
    requires ValidDate(d1) && ValidDate(d2)
    ensures ToDayNumber(d1) == ToDayNumber(d2) ==> d1 == d2
  {
    DayNumberOrder(d1, d2);
  }

  /** Converting a valid date to its day number and back gives the date itself. */
  lemma ToDayNumberRoundTrip(d: Date)
    requires ValidDate(d)
    ensures FromDayNumber(ToDayNumber(d)) == d
  {
    ToDayNumberInjective(FromDayNumber(ToDayNumber(d)), d);
  }

  /** The date after `d`, rolling the day over into the next month and the month into the next year. */
  function NextDate(d: Date): (r: Date)
    ensures ValidDate(d) ==> ValidDate(r) && DateBefore(d, r)
  {
    if d.day < DaysInMonth(d.year, d.month) then Date(d.year, d.month, d.day + 1)
    else if d.month < December then Date(d.year, d.month + 1, 1)
    else Date(d.year + 1, 1, 1)
  }

  /** Stepping a date by one calendar field-wise is adding one to its day number. */
  lemma NextDateIsNextDay(d: Date)
    requires ValidDate(d)
    ensures ValidDate(NextDate(d)) && ToDayNumber(NextDate(d)) == ToDayNumber(d) + 1
  {
    MonthStep(d.year, d.month);
    YearStep(d.year);
  }

  /** Day number `n + 1` is the date after that of day number `n`. */
  lemma FromDayNumberNext(n: int)
    ensures FromDayNumber(n + 1) == NextDate(FromDayNumber(n))
  {
    var d := FromDayNumber(n);
    NextDateIsNextDay(d);
    assert ToDayNumber(NextDate(d)) == n + 1;
    ToDayNumberRoundTrip(NextDate(d));
  }

  /** Position of a weekday in DAY_OF_WEEK order, 0 for Sunday. */
  function WeekdayIndex(w: Weekday): (i: int)
    ensures 0 <= i < 7
  {
    match w
    case Sunday => 0
    case Monday => 1
    case Tuesday => 2
    case Wednesday => 3
    case Thursday => 4
    case Friday => 5
    case Saturday => 6
  }

  function WeekdayAt(i: int): (w: Weekday)
    requires 0 <= i < 7
    ensures WeekdayIndex(w) == i
  {
    if i == 0 then Sunday else if i == 1 then Monday else if i == 2 then Tuesday
    else if i == 3 then Wednesday else if i == 4 then Thursday else if i == 5 then Friday
    else Saturday
  }

  /** The weekday of day number `n`; day 0 (1 January 2000) is a Saturday. */
  function WeekdayOf(n: int): (w: Weekday)
    ensures WeekdayIndex(w) == (n + 6) % 7
  {
    WeekdayAt((n + 6) % 7)
  }

  /** The weekday after `w` in the cycle Sunday .. Saturday, Sunday. */
  function NextWeekday(w: Weekday): (r: Weekday)
    ensures WeekdayIndex(r) == (WeekdayIndex(w) + 1) % 7
  {
    match w
    case Sunday => Monday
    case Monday => Tuesday
    case Tuesday => Wednesday
    case Wednesday => Thursday
    case Thursday => Friday
    case Friday => Saturday
    case Saturday => Sunday
  }

  /** Consecutive days have consecutive weekdays, Saturday wrapping to Sunday. */
  lemma WeekdayOfNext(n: int)
    ensures WeekdayOf(n + 1) == NextWeekday(WeekdayOf(n))
  {
    var w, w' := WeekdayOf(n), WeekdayOf(n + 1);
    assert WeekdayIndex(w') == (WeekdayIndex(w) + 1) % 7;
    assert WeekdayIndex(w') == WeekdayIndex(NextWeekday(w));
  }

  /** The weekday of a calendar date. */
  function WeekdayOfDate(d: Date): Weekday
    requires ValidDate(d)
  {
    WeekdayOf(ToDayNumber(d))
  }

  /** Gregorian leap years among the years 1 to `x` (a negative count when `x` is below 0). */
  function LeapYearsThrough(x: int): int {
    x / 4 - x / 100 + x / 400
  }

  /** The first day of year `y` counted from the leap years before it. */
  lemma DaysBeforeYearByLeapYears(y: int)
    ensures DaysBeforeYear(y) == 365 * (y - 2000) + LeapYearsThrough(y - 1) - 484
  {
    var a := y - 2000;
    assert (a + 3) / 4 == (y - 1) / 4 - 499;
    assert (a + 99) / 100 == (y - 1) / 100 - 19;
    assert (a + 399) / 400 == (y - 1) / 400 - 4;
  }

  /** The leap-year count goes up by one exactly at a leap year. */
  lemma LeapYearsThroughStep(y: int)
    ensures LeapYearsThrough(y) == LeapYearsThrough(y - 1) + if IsLeapYear(y) then 1 else 0
  {
    DivisorChain(y);
    assert y / 4 - (y - 1) / 4 == if y % 4 == 0 then 1 else 0;
    assert y / 100 - (y - 1) / 100 == if y % 100 == 0 then 1 else 0;
    assert y / 400 - (y - 1) / 400 == if y % 400 == 0 then 1 else 0;
  }

  /** Sakamoto's month table: the weekday shift of the first of each month. */
  function SakamotoMonthOffset(m: int): int {
    if m == 1 then 0 else if m == 2 then 3 else if m == 3 then 2
    else if m == 4 then 5 else if m == 5 then 0 else if m == 6 then 3
    else if m == 7 then 5 else if m == 8 then 1 else if m == 9 then 4
    else if m == 10 then 6 else if m == 11 then 2 else 4
  }

  /**
    Sakamoto's weekday formula, an independent reference: January and
    February count as months of the previous year, and the result is 0 for
    Sunday through 6 for Saturday.
   */
  function SakamotoWeekday(d: Date): int {
    var y := if d.month < 3 then d.year - 1 else d.year;
    (y + LeapYearsThrough(y) + SakamotoMonthOffset(d.month) + d.day) % 7
  }

  /** Whole weeks between the day count before month `m` and Sakamoto's offset for it. */
  function MonthWeeks(m: int): int {
    if m == 1 then 0 else if m == 2 then 4 else if m == 3 then 8
    else if m == 4 then 12 else if m == 5 then 17 else if m == 6 then 21
    else if m == 7 then 25 else if m == 8 then 30 else if m == 9 then 34
    else if m == 10 then 38 else if m == 11 then 43 else 47
  }

  /** The day count before each month and Sakamoto's table differ by whole weeks. */
  lemma MonthTablesAgree(y: int, m: int)
    requires 1 <= m <= 12
    ensures DaysBeforeMonth(y, m) - (if m > 2 && IsLeapYear(y) then 1 else 0)
      == SakamotoMonthOffset(m) + (if m > 2 then 1 else 0) + 7 * MonthWeeks(m)
  {
  }

  /** Numbers a whole number of weeks apart have the same weekday position. */
  lemma SameModSeven(a: int, b: int, q: int)
    requires a == b + 7 * q
    ensures a % 7 == b % 7
  {
  }

  /** The weekday of every valid date agrees with Sakamoto's formula. */
  lemma WeekdayMatchesSakamoto(d: Date)
    requires ValidDate(d)
    ensures WeekdayIndex(WeekdayOfDate(d)) == SakamotoWeekday(d)
  {
    var y, m := d.year, d.month;
    DaysBeforeYearByLeapYears(y);
    MonthTablesAgree(y, m);
    var k := MonthWeeks(m);
    var n := ToDayNumber(d);
    var s;
    if m < 3 {
      s := (y - 1) + LeapYearsThrough(y - 1) + SakamotoMonthOffset(m) + d.day;
    } else {
      LeapYearsThroughStep(y);
      s := y + LeapYearsThrough(y) + SakamotoMonthOffset(m) + d.day;
    }
    assert n + 6 == s + 7 * (52 * y - 104354 + k);
    SameModSeven(n + 6, s, 52 * y - 104354 + k);
  }

  predicate IsWeekend(w: Weekday) {
    w == Saturday || w == Sunday
  }

  /**
    The fields a java.util.Calendar shows for the day it is set to: the date
    (YEAR, MONTH, DAY_OF_MONTH) and DAY_OF_WEEK.
   */
  datatype CalendarFields = CalendarFields(date: Date, weekday: Weekday)

  /** The weekday field is the one the date falls on. */
  predicate Consistent(c: CalendarFields) {
    ValidDate(c.date) && c.weekday == WeekdayOfDate(c.date)
  }

  /** A calendar set to date `d`. */
  function FieldsOf(d: Date): CalendarFields
    requires ValidDate(d)
  {
    CalendarFields(d, WeekdayOfDate(d))
  }

  /** Adding one day: the date rolls over, the weekday moves on. */
  function Tomorrow(c: CalendarFields): (r: CalendarFields)
    ensures ValidDate(c.date) ==> ValidDate(r.date) && DateBefore(c.date, r.date)
  {
    CalendarFields(NextDate(c.date), NextWeekday(c.weekday))
  }

  /** Adding `k` days, one day at a time. */
  function Advance(c: CalendarFields, k: nat): CalendarFields {
    if k == 0 then c else Tomorrow(Advance(c, k - 1))
  }

  /** Moving consistent fields to the next day keeps them consistent and adds one to the day number. */
  lemma TomorrowConsistent(c: CalendarFields)
    requires Consistent(c)
    ensures Consistent(Tomorrow(c))
    ensures ToDayNumber(Tomorrow(c).date) == ToDayNumber(c.date) + 1
  {
    NextDateIsNextDay(c.date);
    WeekdayOfNext(ToDayNumber(c.date));
  }

  /** Adding days keeps the fields consistent and adds as many days to the day number. */
  lemma {:induction false} AdvanceConsistent(c: CalendarFields, k: nat)
    requires Consistent(c)
    ensures Consistent(Advance(c, k))
    ensures ToDayNumber(Advance(c, k).date) == ToDayNumber(c.date) + k
  {
    if k > 0 {
      var prev := Advance(c, k - 1);
      AdvanceConsistent(c, k - 1);
      TomorrowConsistent(prev);
    }
  }

  /** Adding `a` days and then `b` days is adding `a + b` days. */
  lemma {:induction false} AdvanceCompose(c: CalendarFields, a: nat, b: nat)
    ensures Advance(Advance(c, a), b) == Advance(c, a + b)
  {
    if b > 0 {
      AdvanceCompose(c, a, b - 1);
      var previous := Advance(c, a + (b - 1));
      assert Advance(Advance(c, a), b) == Tomorrow(previous);
      assert Advance(c, a + b) == Tomorrow(previous);
    }
  }
}

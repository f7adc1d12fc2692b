/**
  RentalService: the tool catalog, the checkout validation and due-date
  computation, and the charge-day counter that walks the rental period one
  calendar day at a time, as java.util.Calendar fields (see module Calendar).
 */
module Rental {
  import opened Calendar
  import opened Holidays

  /** A catalog entry, with the three flags that say which kinds of day are charged. */
  datatype Tool = Tool(
    code: string,
    toolType: string,
    brand: string,
    dailyCharge: real,
    weekdayCharge: bool,
    weekendCharge: bool,
    holidayCharge: bool)

  /** The catalog the service is constructed with, keyed by tool code. */
  function DefaultCatalog(): (tools: map<string, Tool>)
    ensures tools.Keys == {"CHNS", "LADW", "JAKD", "JAKR"}
    ensures forall code :: code in tools ==> tools[code].code == code
    ensures forall code :: code in tools ==> tools[code].weekdayCharge
  {
    map[
      "CHNS" := Tool("CHNS", "Chainsaw", "Stihl", 1.49, true, false, true),
      "LADW" := Tool("LADW", "Ladder", "Werner", 1.99, true, true, false),
      "JAKD" := Tool("JAKD", "Jackhammer", "DeWalt", 2.99, true, false, false),
      "JAKR" := Tool("JAKR", "Jackhammer", "Ridgid", 2.99, true, false, false)
    ]
  }

  /** The single category a day falls in: a holiday overrides its weekday or weekend status. */
  datatype DayKind = WeekdayDay | WeekendDay | HolidayDay

  function KindOf(c: CalendarFields): DayKind {
    if IsHoliday(c.date.month, c.date.day, c.weekday) then HolidayDay
    else if IsWeekend(c.weekday) then WeekendDay
    else WeekdayDay
  }

  /**
    The kind of each valid date: a holiday exactly when it is a listed
    holiday, whatever its weekday; otherwise a weekend day exactly when it is
    a Saturday or Sunday; otherwise a weekday.
   */
  lemma KindOfDay(d: Date)
    requires ValidDate(d)
    ensures KindOf(FieldsOf(d)) == HolidayDay <==> ListedHoliday(d)
    ensures KindOf(FieldsOf(d)) == WeekendDay <==>
      !ListedHoliday(d) && (WeekdayOfDate(d) == Saturday || WeekdayOfDate(d) == Sunday)
    ensures KindOf(FieldsOf(d)) == WeekdayDay <==>
      !ListedHoliday(d) && WeekdayOfDate(d) != Saturday && WeekdayOfDate(d) != Sunday
  {
    HolidaysOfYear(d);
  }

  /** Whether the tool's flags charge for a day of kind `k`. */
  predicate Charges(tool: Tool, k: DayKind) {
    match k
    case WeekdayDay => tool.weekdayCharge
    case WeekendDay => tool.weekendCharge
    case HolidayDay => tool.holidayCharge
  }

  /**
    What one visited day adds to the count: the three independent tests of
    the counter, summed. At most one of them fires, the one for the day's
    kind, so a day adds one exactly when its kind is charged.
   */
  function DayCharge(tool: Tool, c: CalendarFields): (n: nat)
    ensures n == if Charges(tool, KindOf(c)) then 1 else 0
  {
    var isWeekend := IsWeekend(c.weekday);
    var isHoliday := IsHoliday(c.date.month, c.date.day, c.weekday);
    (if tool.weekdayCharge && !isWeekend && !isHoliday then 1 else 0)
    + (if tool.weekendCharge && isWeekend && !isHoliday then 1 else 0)
    + (if tool.holidayCharge && isHoliday then 1 else 0)
  }

  /** Charge days among the `days` calendar days that follow `start` (`start` itself excluded). */
  function ChargeDays(tool: Tool, start: CalendarFields, days: nat): (n: nat)
    ensures n <= days
  {
    if days == 0 then 0 else ChargeDays(tool, start, days - 1) + DayCharge(tool, Advance(start, days))
  }

  /** Number of calendar days after `start` up to and including `end`. */
  function DaysBetween(start: Date, end: Date): nat
    requires ValidDate(start) && ValidDate(end)
  {
    if ToDayNumber(start) < ToDayNumber(end) then ToDayNumber(end) - ToDayNumber(start) else 0
  }

  /**
    The counter: a calendar set to the checkout date is moved forward one
    day at a time while it is before the due date, and each day it reaches is
    classified; so the checkout date is never counted and the due date is.
   */
  method CalculateChargeDays(tool: Tool, startDate: Date, endDate: Date)
    returns (chargeDays: int)
    requires ValidDate(startDate) && ValidDate(endDate)
    ensures chargeDays == ChargeDays(tool, FieldsOf(startDate), DaysBetween(startDate, endDate))
    ensures 0 <= chargeDays <= DaysBetween(startDate, endDate)
  {
    chargeDays := 0;
    var calendar := FieldsOf(startDate);
    ghost var first := calendar;
    ghost var total := DaysBetween(startDate, endDate);
    ghost var steps: nat := 0;
    while DateBefore(calendar.date, endDate)
      invariant ValidDate(calendar.date) && steps <= total && calendar == Advance(first, steps)
      invariant chargeDays == ChargeDays(tool, first, steps)
      decreases total - steps
    {
      AdvanceConsistent(first, steps);
      DayNumberOrder(calendar.date, endDate);
      ghost var before := chargeDays;
      calendar := Tomorrow(calendar);
      steps := steps + 1;
      assert calendar == Advance(first, steps);
      var isWeekend := calendar.weekday == Saturday || calendar.weekday == Sunday;
      var isHoliday := IsHoliday(calendar.date.month, calendar.date.day, calendar.weekday);
      if tool.weekdayCharge && !isWeekend && !isHoliday {
        chargeDays := chargeDays + 1;
      }
      if tool.weekendCharge && isWeekend && !isHoliday {
        chargeDays := chargeDays + 1;
      }
      if tool.holidayCharge && isHoliday {
        chargeDays := chargeDays + 1;
      }
      assert chargeDays == before + DayCharge(tool, calendar);
    }
    AdvanceConsistent(first, steps);
    DayNumberOrder(calendar.date, endDate);
    assert steps == total;
  }

  /**
    The days the counter visits are the `DaysBetween` days after the start
    date, and when the start is before the end the last of them is the end
    date itself.
   */
  lemma LastCountedDayIsEndDate(startDate: Date, endDate: Date)
    requires ValidDate(startDate) && ValidDate(endDate)
    requires ToDayNumber(startDate) < ToDayNumber(endDate)
    ensures Advance(FieldsOf(startDate), DaysBetween(startDate, endDate)).date == endDate
  {
    var last := Advance(FieldsOf(startDate), DaysBetween(startDate, endDate));
    AdvanceConsistent(FieldsOf(startDate), DaysBetween(startDate, endDate));
    ToDayNumberInjective(last.date, endDate);
  }

  /** The days among the `days` after `start`, by their distance from `start`, whose kind the tool charges for. */
  function ChargedDaysIn(tool: Tool, start: CalendarFields, days: nat): set<nat> {
    set i: nat | 1 <= i <= days && Charges(tool, KindOf(Advance(start, i)))
  }

  /** Extending the period by one day adds that day to the charged days exactly when its kind is charged. */
  lemma ChargedDaysInStep(tool: Tool, start: CalendarFields, days: nat)
    requires days > 0
    ensures days !in ChargedDaysIn(tool, start, days - 1)
    ensures ChargedDaysIn(tool, start, days) ==
      ChargedDaysIn(tool, start, days - 1) + (if Charges(tool, KindOf(Advance(start, days))) then {days} else {})
  {
  }

  /** The count is the number of days in the period whose kind the tool's flags charge for. */
  lemma {:induction false} ChargeDaysCountsChargedDays(tool: Tool, start: CalendarFields, days: nat)
    ensures ChargeDays(tool, start, days) == |ChargedDaysIn(tool, start, days)|
  {
    if days > 0 {
      ChargeDaysCountsChargedDays(tool, start, days - 1);
      ChargedDaysInStep(tool, start, days);
    } else {
      assert ChargedDaysIn(tool, start, days) == {};
    }
  }

  /** A tool charged for every kind of day is charged for every day of the period. */
  lemma {:induction false} AllFlagsChargeEveryDay(tool: Tool, start: CalendarFields, days: nat)
    requires tool.weekdayCharge && tool.weekendCharge && tool.holidayCharge
    ensures ChargeDays(tool, start, days) == days
  {
    if days > 0 {
      AllFlagsChargeEveryDay(tool, start, days - 1);
    }
  }

  /** A tool charged for no kind of day is never charged. */
  lemma {:induction false} NoFlagsChargeNothing(tool: Tool, start: CalendarFields, days: nat)
    requires !tool.weekdayCharge && !tool.weekendCharge && !tool.holidayCharge
    ensures ChargeDays(tool, start, days) == 0
  {
    if days > 0 {
      NoFlagsChargeNothing(tool, start, days - 1);
    }
  }

  /** A holiday is charged exactly when the holiday flag is set, whether or not it is on a weekend. */
  lemma HolidayChargedOnlyByHolidayFlag(tool: Tool, d: Date)
    requires ValidDate(d) && IsHolidayDate(d)
    ensures DayCharge(tool, FieldsOf(d)) == if tool.holidayCharge then 1 else 0
    ensures DayCharge(tool.(holidayCharge := false), FieldsOf(d)) == 0
  {
  }

  /** Renting for `a` days and then for `b` more days from the new date is charged as one rental of `a + b` days. */
  lemma {:induction false} ChargeDaysSplit(tool: Tool, start: CalendarFields, a: nat, b: nat)
    ensures ChargeDays(tool, start, a + b) == ChargeDays(tool, start, a) + ChargeDays(tool, Advance(start, a), b)
  {
    var middle := Advance(start, a);
    if b > 0 {
      ChargeDaysSplit(tool, start, a, b - 1);
      AdvanceCompose(start, a, b);
      var last := Advance(start, a + b);
      var before, after := ChargeDays(tool, start, a + (b - 1)), ChargeDays(tool, middle, b - 1);
      assert ChargeDays(tool, start, a + b) == before + DayCharge(tool, last);
      assert ChargeDays(tool, middle, b) == after + DayCharge(tool, last);
    } else {
      assert ChargeDays(tool, middle, 0) == 0;
    }
  }

  /** Charging for more kinds of day never lowers the count. */
  lemma {:induction false} MoreFlagsNeverChargeLess(t1: Tool, t2: Tool, start: CalendarFields, days: nat)
    requires t1.weekdayCharge ==> t2.weekdayCharge
    requires t1.weekendCharge ==> t2.weekendCharge
    requires t1.holidayCharge ==> t2.holidayCharge
    ensures ChargeDays(t1, start, days) <= ChargeDays(t2, start, days)
  {
    if days > 0 {
      MoreFlagsNeverChargeLess(t1, t2, start, days - 1);
    }
  }

  /** Why a checkout is refused; each is an IllegalArgumentException in the service. */
  datatype CheckoutError = InvalidRentalDays | InvalidDiscountPercent | InvalidToolCode {
    function Message(): string {
      match this
      case InvalidRentalDays => "Rental day count must be 1 or greater."
      case InvalidDiscountPercent => "Discount percent must be between 0 and 100."
      case InvalidToolCode => "Invalid tool code."
    }
  }

  datatype Result<T> = Success(value: T) | Failure(error: CheckoutError)

  /** The day-count part of a rental agreement (the monetary fields are not modelled). */
  datatype RentalAgreement = RentalAgreement(
    tool: Tool,
    rentalDays: int,
    checkoutDate: Date,
    discountPercent: int,
    dueDate: Date,
    chargeDays: int)

  /**
    Checkout: validate the rental day count, then the discount, then the tool
    code; on success the due date is `rentalDays` calendar days after checkout
    and the charge days are counted over the days after checkout up to the
    due date.
   */
  method Checkout(tools: map<string, Tool>, toolCode: string, rentalDays: int, discountPercent: int, checkoutDate: Date)
    returns (result: Result<RentalAgreement>)
    requires ValidDate(checkoutDate)
    ensures rentalDays < 1 ==> result == Failure(InvalidRentalDays)
    ensures rentalDays >= 1 && (discountPercent < 0 || discountPercent > 100) ==>
      result == Failure(InvalidDiscountPercent)
    ensures rentalDays >= 1 && 0 <= discountPercent <= 100 && toolCode !in tools ==>
      result == Failure(InvalidToolCode)
    ensures result.Success? <==> rentalDays >= 1 && 0 <= discountPercent <= 100 && toolCode in tools
    ensures result.Success? ==>
      && result.value.tool == tools[toolCode]
      && result.value.rentalDays == rentalDays
      && result.value.checkoutDate == checkoutDate
      && result.value.discountPercent == discountPercent
      && ValidDate(result.value.dueDate)
      && ToDayNumber(result.value.dueDate) - ToDayNumber(checkoutDate) == rentalDays
      && result.value.dueDate == FromDayNumber(ToDayNumber(checkoutDate) + rentalDays)
      && result.value.chargeDays == ChargeDays(tools[toolCode], FieldsOf(checkoutDate), rentalDays)
      && 0 <= result.value.chargeDays <= rentalDays
  {
    if rentalDays < 1 {
      return Failure(InvalidRentalDays);
    }
    if discountPercent < 0 || discountPercent > 100 {
      return Failure(InvalidDiscountPercent);
    }
    if toolCode !in tools {
      return Failure(InvalidToolCode);
    }
    var tool := tools[toolCode];
    var calendar := FieldsOf(checkoutDate);
    AdvanceConsistent(calendar, rentalDays);
    calendar := Advance(calendar, rentalDays);
    var dueDate := calendar.date;
    ToDayNumberRoundTrip(dueDate);
    var chargeDays := CalculateChargeDays(tool, checkoutDate, dueDate);
    return Success(RentalAgreement(tool, rentalDays, checkoutDate, discountPercent, dueDate, chargeDays));
  }

  /**
    In a year in which July 4 is a Saturday, the ladder rented on July 2 for
    3 days is due on July 5 and charged for 1 day only: Friday July 3 and
    Saturday July 4 are both holidays, which the ladder is not charged for,
    and Sunday July 5 is a weekend day, which it is.
   */
  lemma LadderOverSaturdayIndependenceDay(y: int)
    ensures Advance(FieldsOf(Date(y, July, 2)), 3).date == Date(y, July, 5)
    ensures WeekdayOfDate(IndependenceDay(y)) == Saturday ==>
      ChargeDays(DefaultCatalog()["LADW"], FieldsOf(Date(y, July, 2)), 3) == 1
  {
    var ladder := DefaultCatalog()["LADW"];
    var start := FieldsOf(Date(y, July, 2));
    AdvanceConsistent(start, 1);
    AdvanceConsistent(start, 2);
    AdvanceConsistent(start, 3);
    assert Advance(start, 1).date == Date(y, July, 3);
    assert Advance(start, 2).date == Date(y, July, 4);
    assert Advance(start, 3).date == Date(y, July, 5);
    if WeekdayOfDate(IndependenceDay(y)) == Saturday {
      assert ladder.weekendCharge && !ladder.holidayCharge;
      July3HolidayIffJuly4Saturday(y);
      July5HolidayIffJuly4Sunday(y);
      WeekdayOfNext(ToDayNumber(IndependenceDay(y)));
      assert ToDayNumber(Date(y, July, 5)) == ToDayNumber(IndependenceDay(y)) + 1;
      assert Advance(start, 3).weekday == Sunday;
      assert DayCharge(ladder, Advance(start, 1)) == 0;
      assert DayCharge(ladder, Advance(start, 2)) == 0;
      assert DayCharge(ladder, Advance(start, 3)) == 1;
      assert ChargeDays(ladder, start, 1) == 0;
      assert ChargeDays(ladder, start, 2) == 0;
      assert ChargeDays(ladder, start, 3) == 1;
    }
  }

  /** The ladder rented on Thursday 2 July 2020 for 3 days is charged for 1 day. */
  lemma LadderOverIndependenceDay2020()
    ensures ChargeDays(DefaultCatalog()["LADW"], FieldsOf(Date(2020, July, 2)), 3) == 1
  {
    assert WeekdayOfDate(IndependenceDay(2020)) == Saturday;
    LadderOverSaturdayIndependenceDay(2020);
  }

  /**
    A one-day rental due on Labor Day, a Monday: the chainsaw (charged on
    holidays) is charged for it, the jackhammer (charged on weekdays only) is
    not, although the day is a weekday.
   */
  lemma OneDayRentalDueOnLaborDay(y: int, checkout: Date)
    ensures ValidDate(checkout) && NextDate(checkout) == LaborDay(y) ==>
      && ChargeDays(DefaultCatalog()["CHNS"], FieldsOf(checkout), 1) == 1
      && ChargeDays(DefaultCatalog()["JAKR"], FieldsOf(checkout), 1) == 0
  {
    if ValidDate(checkout) && NextDate(checkout) == LaborDay(y) {
      LaborDayUnique(y);
      AdvanceConsistent(FieldsOf(checkout), 1);
      assert Advance(FieldsOf(checkout), 1) == FieldsOf(LaborDay(y));
    }
  }

  /** Checked out on Sunday 1 September 2024 for one day, the chainsaw is charged for Labor Day. */
  lemma ChainsawOnLaborDay2024()
    ensures ChargeDays(DefaultCatalog()["CHNS"], FieldsOf(Date(2024, September, 1)), 1) == 1
  {
    LaborDay2024();
    OneDayRentalDueOnLaborDay(2024, Date(2024, September, 1));
  }
}

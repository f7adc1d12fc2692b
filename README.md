# Tool rental: charge days, holidays and checkout

This project models the core of `RentalService`, the tool-rental service of the
demo application. The service:

- keeps a catalog of four rental tools, keyed by tool code;
- validates a checkout request (the rental day count, the discount percent, the
  tool code);
- computes the due date as the checkout date plus the rental days;
- counts the *charge days* by walking a `java.util.Calendar` from the checkout
  date to the due date one day at a time. Each day it reaches is classified as
  a weekday, a weekend day or a holiday, and is counted according to the three
  charge flags of the tool;
- recognises two holidays: Independence Day (July 4, together with the Friday
  July 3 or the Monday July 5 on which it is observed) and Labor Day (the first
  Monday of September).

The model has three modules.

- `Calendar` (`calendar.dfy`) is the date arithmetic behind `java.util.Calendar`.
  - Dates are proleptic Gregorian `(year, month, day)` triples with 1-based
    months. Day number 0 is Saturday, 1 January 2000.
  - `ToDayNumber` and `FromDayNumber` are inverse conversions.
  - `DateBefore` is calendar order, as `Date.before` compares instants.
  - Weekdays are numbered in the `DAY_OF_WEEK` order, Sunday first.
  - `CalendarFields` holds what the service reads from its calendar: the date and
    the day of the week. `Tomorrow` is `calendar.add(Calendar.DAY_OF_YEAR, 1)`,
    and `Advance(c, k)` is `k` such steps.
- `Holidays` (`holidays.dfy`) is `isHoliday` and the holidays it yields in a
  year.
- `Rental` (`rental.dfy`) holds the remaining parts:
  - the tool record and the catalog;
  - the per-day charge and its specification `ChargeDays`;
  - the counter `CalculateChargeDays`, an imperative loop proved against
    `ChargeDays`;
  - `Checkout`, with its three rejections, in the order the service checks them.

Two behaviours of the code are kept as they are.

- **July 4 on a weekend.** `isHoliday` counts July 4 as a holiday on every
  weekday, Saturday and Sunday included. In a year in which July 4 is a
  Saturday, both Friday July 3 and Saturday July 4 are holidays. So the ladder
  (LADW: charged on weekdays and weekends, not on holidays) rented on 07/02/20
  for 3 days is charged for 1 day: July 3 and 4 are holidays, and only Sunday
  July 5 is charged. See `Rental.LadderOverSaturdayIndependenceDay` and
  `Rental.LadderOverIndependenceDay2020`.
- **Holidays beat the day type.** A holiday that falls on a weekday is not
  counted under the weekday flag, because the holiday test wins over the
  weekday test. For example, Labor Day is a Monday, yet it is not charged for
  a tool that is charged on weekdays only; see `Rental.OneDayRentalDueOnLaborDay`.

## Model

| member | source | states |
|---|---|---|
| Calendar.FromDayNumber | demo/src/main/java/com/example/demo/RentalService.java:37-40 | the calendar date of any day number is a valid date whose day number is that number |
| Calendar.ToDayNumberRoundTrip | demo/src/main/java/com/example/demo/RentalService.java:37-40 | converting a valid date to its day number and back gives the same date |
| Calendar.DateOrderIsStrictTotal | demo/src/main/java/com/example/demo/RentalService.java:55 | calendar order, the model of `Date.before`, is a strict total order: irreflexive, asymmetric, transitive, and any two distinct dates are ordered one way or the other |
| Calendar.DayNumberOrder | demo/src/main/java/com/example/demo/RentalService.java:55 | for valid dates, one is before the other in calendar order exactly when its day number is smaller, and two dates are equal exactly when their day numbers are |
| Calendar.ToDayNumberInjective | demo/src/main/java/com/example/demo/RentalService.java:55 | distinct valid dates have distinct day numbers |
| Calendar.NextDate | demo/src/main/java/com/example/demo/RentalService.java:56 | the date after a valid date is itself valid and comes after it in calendar order |
| Calendar.NextDateIsNextDay | demo/src/main/java/com/example/demo/RentalService.java:56 | rolling a valid date forward by one day (over month and year ends) gives a valid date whose day number is one more |
| Calendar.FromDayNumberNext | demo/src/main/java/com/example/demo/RentalService.java:56 | the date of day number n + 1 is the day after the date of day number n (calendar background: links the two views of a day; the rental model steps dates with NextDate directly) |
| Calendar.WeekdayMatchesSakamoto | demo/src/main/java/com/example/demo/RentalService.java:57 | the weekday the model gives every valid date agrees with Sakamoto's formula, an independent weekday computation from the year, the month table and the day of the month |
| Calendar.NextWeekday | demo/src/main/java/com/example/demo/RentalService.java:56-57 | the weekday after a weekday is one position further in Sunday-first order, Saturday wrapping round to Sunday |
| Calendar.WeekdayOfNext | demo/src/main/java/com/example/demo/RentalService.java:56-57 | the day after any day has the next weekday in the cycle |
| Calendar.Tomorrow | demo/src/main/java/com/example/demo/RentalService.java:56 | adding one day to a calendar set to a valid date leaves it on a valid date that comes later in calendar order |
| Calendar.TomorrowConsistent | demo/src/main/java/com/example/demo/RentalService.java:56-57 | adding one day to a calendar whose date and weekday agree keeps them in agreement and adds one to the day number |
| Calendar.AdvanceConsistent | demo/src/main/java/com/example/demo/RentalService.java:37-40 | adding k days keeps the date and the weekday in agreement and adds exactly k to the day number |
| Calendar.AdvanceCompose | demo/src/main/java/com/example/demo/RentalService.java:39 | adding a days and then b days is the same as adding a + b days |
| Holidays.IsHoliday | demo/src/main/java/com/example/demo/RentalService.java:73-85 | July 4 is a holiday whatever its weekday, and every holiday is one of July 3 to 5 or a Monday among September 1 to 7; which dates exactly is stated by HolidaysOfYear |
| Holidays.LaborDay | demo/src/main/java/com/example/demo/RentalService.java:80 | Labor Day of a year is a valid September date of that year, among days 1 to 7, and a Monday |
| Holidays.HolidaysOfYear | demo/src/main/java/com/example/demo/RentalService.java:75-84 | a valid date is a holiday exactly when it is one of the following, and no other date is a holiday: July 4 of its year; July 3 in a year whose July 4 is a Saturday; July 5 in a year whose July 4 is a Sunday; that year's Labor Day |
| Holidays.July3HolidayIffJuly4Saturday | demo/src/main/java/com/example/demo/RentalService.java:75 | July 3 is a holiday exactly when July 4 of that year is a Saturday |
| Holidays.July5HolidayIffJuly4Sunday | demo/src/main/java/com/example/demo/RentalService.java:75 | July 5 is a holiday exactly when July 4 of that year is a Sunday |
| Holidays.LaborDayUnique | demo/src/main/java/com/example/demo/RentalService.java:80 | exactly one September date of each year is a holiday, namely Labor Day |
| Holidays.WeekendIndependenceDayTwice | demo/src/main/java/com/example/demo/RentalService.java:75 | July 4 is a holiday on every weekday; when it is a Saturday, July 3 is a holiday too, and when it is a Sunday, July 5 is |
| Holidays.IndependenceDay2026 | demo/src/main/java/com/example/demo/RentalService.java:75 | July 4, 2026 is a Saturday, and both July 3 and July 4, 2026 are holidays |
| Holidays.IndependenceDay2021 | demo/src/main/java/com/example/demo/RentalService.java:75 | July 4, 2021 is a Sunday; July 5, 2021 is a holiday and July 3, 2021 is not |
| Holidays.LaborDay2024 | demo/src/main/java/com/example/demo/RentalService.java:80 | Labor Day 2024 is September 2 and is a holiday; September 9, 2024 is not |
| Rental.DefaultCatalog | demo/src/main/java/com/example/demo/RentalService.java:13-19 | the catalog holds exactly the codes CHNS, LADW, JAKD and JAKR; each entry carries its own code; every tool is charged on weekdays |
| Rental.KindOfDay | demo/src/main/java/com/example/demo/RentalService.java:57-58 | a valid date is classified as a holiday exactly when it is one of its year's listed holidays, whatever its weekday; otherwise as a weekend day exactly when it is a Saturday or Sunday; otherwise as a weekday |
| Rental.DayCharge | demo/src/main/java/com/example/demo/RentalService.java:57-68 | of the three tests, at most the one for the day's kind (holiday, else weekend, else weekday) fires, so a day adds 1 if the tool is charged for that kind and 0 otherwise |
| Rental.ChargeDays | demo/src/main/java/com/example/demo/RentalService.java:55-69 | the charge days of a period never exceed its number of days |
| Rental.CalculateChargeDays | demo/src/main/java/com/example/demo/RentalService.java:50-71 | the loop returns the charge days of the days after the start date up to and including the end date (none when the end is not after the start), a count between 0 and that number of days |
| Rental.LastCountedDayIsEndDate | demo/src/main/java/com/example/demo/RentalService.java:55-56 | when the start is before the end, the last day the counter visits is the end date itself |
| Rental.ChargeDaysCountsChargedDays | demo/src/main/java/com/example/demo/RentalService.java:60-68 | the count equals the number of days in the period whose kind the tool's flags charge for |
| Rental.AllFlagsChargeEveryDay | demo/src/main/java/com/example/demo/RentalService.java:60-68 | a tool charged on weekdays, weekends and holidays is charged for every day of the period |
| Rental.NoFlagsChargeNothing | demo/src/main/java/com/example/demo/RentalService.java:60-68 | a tool with no charge flag set is charged for no day |
| Rental.HolidayChargedOnlyByHolidayFlag | demo/src/main/java/com/example/demo/RentalService.java:60-67 | a holiday is charged exactly when the holiday flag is set, and never under the weekday or weekend flags, whatever its weekday |
| Rental.ChargeDaysSplit | demo/src/main/java/com/example/demo/RentalService.java:55-69 | counting a days and then b more days from the new date gives the same count as counting a + b days |
| Rental.MoreFlagsNeverChargeLess | demo/src/main/java/com/example/demo/RentalService.java:60-68 | a tool charged for every kind of day another tool is charged for is charged for at least as many days |
| Rental.Checkout | demo/src/main/java/com/example/demo/RentalService.java:21-42 | it refuses rental days below 1, then a discount outside 0..100, then a tool code missing from the catalog, and it succeeds exactly when none of these applies. On success it keeps the request's tool, days, checkout date and discount. The due date is exactly rentalDays days after checkout: it is the date of the checkout's day number plus rentalDays. The charge days are those of the rentalDays days after checkout, between 0 and rentalDays |
| Rental.LadderOverSaturdayIndependenceDay | demo/src/main/java/com/example/demo/RentalService.java:55-75 | in every year, 3 days after July 2 is July 5; in a year whose July 4 is a Saturday, the ladder rented on July 2 for 3 days is charged for 1 day |
| Rental.LadderOverIndependenceDay2020 | demo/src/main/java/com/example/demo/RentalService.java:55-69 | the ladder rented on July 2, 2020 for 3 days is charged for 1 day |
| Rental.OneDayRentalDueOnLaborDay | demo/src/main/java/com/example/demo/RentalService.java:60-68 | a one-day rental ending on Labor Day charges the chainsaw (charged on holidays) 1 day and the Ridgid jackhammer (charged on weekdays only) 0 days |
| Rental.ChainsawOnLaborDay2024 | demo/src/main/java/com/example/demo/RentalService.java:60-68 | the chainsaw checked out on September 1, 2024 for one day is charged for 1 day |

## Left out

- Money: the pre-discount charge, the discount amount and the final charge
  (lines 43-45) are `double` arithmetic with no rounding. Floating point is
  outside the model. The agreement keeps the charge days, which are the integer
  input to that arithmetic. `Tool.dailyCharge` is kept only as a `real` field.
- Rental.Checkout: takes the checkout date already parsed and valid. Parsing
  `MM/dd/yy` text with `SimpleDateFormat` (lines 29-30) is not modelled:
  lenient parsing, the two-digit-year pivot and the `ParseException` that
  parsing can throw between the discount check and the tool lookup are
  library behaviour.
- Rental.Checkout: the catalog is a parameter (a map), so one service is not
  modelled as an object. The constructor's catalog is `DefaultCatalog`, and the
  service never changes the catalog after construction.
- Time zones, daylight-saving changes and the time of day inside a
  `java.util.Date` are not modelled. The calendar counts whole days.
- The Julian/Gregorian cutover of `GregorianCalendar` is not modelled. Every
  date is proleptic Gregorian, but Java uses Julian rules before 15 October
  1582. Such dates are reachable: the `MM/dd/yy` pattern reads a year that is
  not exactly two digits literally, for example "07/02/1500". For those dates
  the model's leap years and weekdays differ from Java's. The model also does
  not reproduce Java's jump from 4 October to 15 October 1582.
- The `Tool` class is not part of this model. The model maps the three
  booleans of the constructor calls (lines 15-18) to `weekdayCharge`,
  `weekendCharge` and `holidayCharge`, in that order. This mapping is an
  assumption: it matches the getters at lines 60, 63 and 66 only if the
  constructor takes them in that order.
- The `RentalAgreement` constructor (line 47) and the rest of the `Tool` class
  are not part of this model. Both are plain records here, and the agreement
  leaves out the monetary fields.
- Exceptions are `Result` values rather than thrown. The exact text of the
  three `IllegalArgumentException`s (lines 23, 26, 34) is kept in
  `CheckoutError.Message`.
- Java `int` width: the rental day count and the charge-day counter are
  unbounded integers. The counter never exceeds the rental day count, so it
  cannot overflow before the day count does.

/** Proleptic Gregorian calendar dates in the way java.time represents them:
    a LocalDate (year, month, day), a MonthDay (month, day) that is resolved to a
    year with AtYear, the strict order of LocalDate.isBefore, and the day count of
    ChronoUnit.DAYS.between, which is the difference of the two epoch days. */
module Dates {

  /** A calendar date; it denotes a real day when ValidDate holds. */
  datatype Date = Date(year: int, month: int, day: int)

  /** Gregorian leap-year rule (IsoChronology.isLeapYear). */
  predicate IsLeapYear(y: int) {
    y % 4 == 0 && (y % 100 != 0 || y % 400 == 0)
  }

  function MonthLength(y: int, m: int): (n: int)
    requires 1 <= m <= 12
    ensures 28 <= n <= 31
    ensures n == 29 <==> m == 2 && IsLeapYear(y)
  {
    if m == 2 then (if IsLeapYear(y) then 29 else 28)
    else if m == 4 || m == 6 || m == 9 || m == 11 then 30
    else 31
  }

  function YearLength(y: int): int {
    if IsLeapYear(y) then 366 else 365
  }

  predicate ValidDate(d: Date) {
    1 <= d.month <= 12 && 1 <= d.day <= MonthLength(d.year, d.month)
  }

  /** LocalDate.isBefore: strictly earlier, comparing year, then month, then day. */
  predicate Before(a: Date, b: Date) {
    a.year < b.year
    || (a.year == b.year && (a.month < b.month || (a.month == b.month && a.day < b.day)))
  }

  /** A month and day of month without a year (java.time.MonthDay). */
  datatype MonthDay = MonthDay(month: int, day: int) {

    /** Every MonthDay that java.time can build: 29 February is allowed. */
    predicate Valid() {
      1 <= month <= 12 && 1 <= day <= (if month == 2 then 29 else MonthLength(0, month))
    }

    /** MonthDay.atYear: the day in year y, where 29 February becomes
        28 February when y is a common year. */
    function AtYear(y: int): (d: Date)
      requires Valid()
      ensures ValidDate(d) && d.year == y && d.month == month
      ensures d.day == if day <= MonthLength(y, month) then day else MonthLength(y, month)
    {
      Date(y, month, if month == 2 && day == 29 && !IsLeapYear(y) then 28 else day)
    }
  }

  /** The date following d. */
  function NextDay(d: Date): Date
    requires ValidDate(d)
  {
    if d.day < MonthLength(d.year, d.month) then Date(d.year, d.month, d.day + 1)
    else if d.month < 12 then Date(d.year, d.month + 1, 1)
    else Date(d.year + 1, 1, 1)
  }

  /** Leap years among the years 1 .. y - 1 (extended to all y by floor division). */
  function LeapYearsBefore(y: int): int {
    (y - 1) / 4 - (y - 1) / 100 + (y - 1) / 400
  }

  function DaysBeforeYear(y: int): int {
    365 * (y - 1970) + LeapYearsBefore(y) - LeapYearsBefore(1970)
  }

  function DaysBeforeMonth(y: int, m: int): int
    requires 1 <= m <= 12
  {
    [0, 31, 59, 90, 120, 151, 181, 212, 243, 273, 304, 334][m - 1]
    + (if m > 2 && IsLeapYear(y) then 1 else 0)
  }

  /** LocalDate.toEpochDay: the number of days from 1970-01-01 to d. */
  function EpochDay(d: Date): int
    requires ValidDate(d)
  {
    DaysBeforeYear(d.year) + DaysBeforeMonth(d.year, d.month) + d.day - 1
  }

  /** ChronoUnit.DAYS.between(a, b): whole days from a to b, negative when b is before a. */
  function DaysBetween(a: Date, b: Date): int
    requires ValidDate(a) && ValidDate(b)
  {
    EpochDay(b) - EpochDay(a)
  }

  lemma LeapYearsStep(y: int)
    ensures LeapYearsBefore(y + 1) == LeapYearsBefore(y) + (if IsLeapYear(y) then 1 else 0)
  {
    assert y / 4 - (y - 1) / 4 == if y % 4 == 0 then 1 else 0;
    assert y / 100 - (y - 1) / 100 == if y % 100 == 0 then 1 else 0;
    assert y / 400 - (y - 1) / 400 == if y % 400 == 0 then 1 else 0;
    assert y % 400 == 0 ==> y % 100 == 0;
    assert y % 100 == 0 ==> y % 4 == 0;
  }

  lemma DaysBeforeYearStep(y: int)
    ensures DaysBeforeYear(y + 1) == DaysBeforeYear(y) + YearLength(y)
  {
    LeapYearsStep(y);
  }

  lemma {:induction false} DaysBeforeYearMonotone(y1: int, y2: int)
    requires y1 <= y2
    ensures DaysBeforeYear(y1) + 365 * (y2 - y1) <= DaysBeforeYear(y2)
    decreases y2 - y1
  {
    if y1 < y2 {
      DaysBeforeYearStep(y1);
      DaysBeforeYearMonotone(y1 + 1, y2);
    }
  }

  lemma DaysBeforeMonthStep(y: int, m: int)
    requires 1 <= m < 12
    ensures DaysBeforeMonth(y, m + 1) == DaysBeforeMonth(y, m) + MonthLength(y, m)
  {
  }

  /** A date falls strictly inside its year: its epoch day lies in
      [DaysBeforeYear(y), DaysBeforeYear(y + 1)). */
  lemma EpochDayWithinYear(d: Date)
    requires ValidDate(d)
    ensures DaysBeforeYear(d.year) <= EpochDay(d) < DaysBeforeYear(d.year + 1)
  {
    DaysBeforeYearStep(d.year);
  }

  /** Counting days one at a time: the day after d is one epoch day later, and later in
      the order. With EpochDay(1970-01-01) == 0 this pins EpochDay down to
      LocalDate.toEpochDay on every valid date. */
  lemma EpochDayNext(d: Date)
    requires ValidDate(d)
    ensures ValidDate(NextDay(d)) && Before(d, NextDay(d))
    ensures EpochDay(NextDay(d)) == EpochDay(d) + 1
    ensures EpochDay(Date(1970, 1, 1)) == 0
  {
    if d.day == MonthLength(d.year, d.month) {
      if d.month < 12 {
        DaysBeforeMonthStep(d.year, d.month);
      } else {
        DaysBeforeYearStep(d.year);
      }
    }
  }

  /** The epoch day is strictly monotone in isBefore, in both directions. */
  lemma EpochDayOrder(a: Date, b: Date)
    requires ValidDate(a) && ValidDate(b)
    ensures Before(a, b) <==> EpochDay(a) < EpochDay(b)
    ensures a == b <==> EpochDay(a) == EpochDay(b)
  {
    if a != b {
      if Before(a, b) {
        EpochDayBefore(a, b);
      } else {
        EpochDayBefore(b, a);
      }
    }
  }

  lemma EpochDayBefore(a: Date, b: Date)
    requires ValidDate(a) && ValidDate(b) && Before(a, b)
    ensures EpochDay(a) < EpochDay(b)
  {
    if a.year < b.year {
      EpochDayWithinYear(a);
      EpochDayWithinYear(b);
      DaysBeforeYearMonotone(a.year + 1, b.year);
    } else if a.month < b.month {
      DaysBeforeMonthMonotone(a.year, a.month, b.month);
    }
  }

  lemma {:induction false} DaysBeforeMonthMonotone(y: int, m1: int, m2: int)
    requires 1 <= m1 < m2 <= 12
    ensures DaysBeforeMonth(y, m1) + MonthLength(y, m1) <= DaysBeforeMonth(y, m2)
    decreases m2 - m1
  {
    DaysBeforeMonthStep(y, m1);
    if m1 + 1 < m2 {
      DaysBeforeMonthMonotone(y, m1 + 1, m2);
    }
  }

  /** Before is a strict total order on dates. */
  lemma BeforeTotal(a: Date, b: Date, c: Date)
    ensures !(Before(a, b) && Before(b, a))
    ensures a == b || Before(a, b) || Before(b, a)
    ensures Before(a, b) && Before(b, c) ==> Before(a, c)
  {
  }
}

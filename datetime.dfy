/** The parts of .NET's `DateTime` the driver relies on: a calendar record,
    the validity check its constructor performs, and the day of the week. */
module DateTimes {

  datatype DateTime = DateTime(year: int, month: int, day: int, hour: int, minute: int, second: int)

  predicate IsLeapYear(year: int)
  {
    year % 4 == 0 && (year % 100 != 0 || year % 400 == 0)
  }

  function DaysInMonth(year: int, month: int): (n: int)
    requires 1 <= month <= 12
    ensures 28 <= n <= 31
  {
    if month == 2 then (if IsLeapYear(year) then 29 else 28)
    else if month == 4 || month == 6 || month == 9 || month == 11 then 30
    else 31
  }

  /** What `new DateTime(year, month, day, hour, minute, second)` accepts;
      it throws ArgumentOutOfRangeException otherwise. */
  predicate Valid(d: DateTime)
  {
    && 1 <= d.year <= 9999
    && 1 <= d.month <= 12
    && 1 <= d.day <= DaysInMonth(d.year, d.month)
    && 0 <= d.hour < 24
    && 0 <= d.minute < 60
    && 0 <= d.second < 60
  }

  /** The values a `DateTime` variable can hold. */
  type Date = d: DateTime | Valid(d) witness DateTime(1, 1, 1, 0, 0, 0)

  /** `default(DateTime)`, which every timer starts with. */
  const MinValue: Date := DateTime(1, 1, 1, 0, 0, 0)

  /** Days in the months of `year` before `month`. */
  function DaysBeforeMonth(year: int, month: int): (n: nat)
    requires 1 <= month <= 13
    ensures n <= 31 * (month - 1)
    decreases month
  {
    if month == 1 then 0 else DaysBeforeMonth(year, month - 1) + DaysInMonth(year, month - 1)
  }

  /** Days elapsed since 1 January of year 1 (proleptic Gregorian calendar). */
  function DayNumber(d: Date): nat
  {
    var y := d.year - 1;
    y * 365 + y / 4 - y / 100 + y / 400 + DaysBeforeMonth(d.year, d.month) + d.day - 1
  }

  /** `DayOfWeek` as .NET numbers it: Sunday = 0 ... Saturday = 6.
      1 January of year 1 was a Monday. */
  function DayOfWeek(d: Date): (w: int)
    ensures 0 <= w < 7
  {
    (DayNumber(d) + 1) % 7
  }

  /** The ISO 8601 weekday: Monday = 1 ... Sunday = 7. */
  function IsoWeekday(d: Date): (w: int)
    ensures 1 <= w <= 7
    ensures w % 7 == DayOfWeek(d)
  {
    var w := DayOfWeek(d);
    if w == 0 then 7 else w
  }

  /** The calendar day after `d`, at the same time of day; 31 December 9999
      has none. */
  function NextDay(d: Date): (n: Date)
    requires !(d.year == 9999 && d.month == 12 && d.day == 31)
    ensures n.hour == d.hour && n.minute == d.minute && n.second == d.second
  {
    if d.day < DaysInMonth(d.year, d.month) then d.(day := d.day + 1)
    else if d.month < 12 then d.(month := d.month + 1, day := 1)
    else DateTime(d.year + 1, 1, 1, d.hour, d.minute, d.second)
  }

  /** A year has 366 days when it is a leap year and 365 otherwise. */
  lemma YearLength(year: int)
    ensures DaysBeforeMonth(year, 13) == if IsLeapYear(year) then 366 else 365
  {
    assert DaysBeforeMonth(year, 2) == 31;
    assert DaysBeforeMonth(year, 3) == 31 + DaysInMonth(year, 2);
    assert DaysBeforeMonth(year, 4) == 62 + DaysInMonth(year, 2);
    assert DaysBeforeMonth(year, 5) == 92 + DaysInMonth(year, 2);
    assert DaysBeforeMonth(year, 6) == 123 + DaysInMonth(year, 2);
    assert DaysBeforeMonth(year, 7) == 153 + DaysInMonth(year, 2);
    assert DaysBeforeMonth(year, 8) == 184 + DaysInMonth(year, 2);
    assert DaysBeforeMonth(year, 9) == 215 + DaysInMonth(year, 2);
    assert DaysBeforeMonth(year, 10) == 245 + DaysInMonth(year, 2);
    assert DaysBeforeMonth(year, 11) == 276 + DaysInMonth(year, 2);
    assert DaysBeforeMonth(year, 12) == 306 + DaysInMonth(year, 2);
  }

  /** Going from `y - 1` to `y`, `y / 4` grows by one exactly when 4
      divides `y`; likewise for 100 and 400. */
  lemma QuadrennialStep(y: int)
    ensures y / 4 - (y - 1) / 4 == if y % 4 == 0 then 1 else 0
  {
    assert y - 1 == 4 * ((y - 1) / 4) + (y - 1) % 4;
  }

  lemma CenturyStep(y: int)
    ensures y / 100 - (y - 1) / 100 == if y % 100 == 0 then 1 else 0
  {
    assert y - 1 == 100 * ((y - 1) / 100) + (y - 1) % 100;
  }

  lemma QuadricentennialStep(y: int)
    ensures y / 400 - (y - 1) / 400 == if y % 400 == 0 then 1 else 0
  {
    assert y - 1 == 400 * ((y - 1) / 400) + (y - 1) % 400;
  }

  /** A century year is a multiple of 4, and a multiple of 400 is a
      century year. */
  lemma CenturyDivisibility(y: int)
    ensures y % 100 == 0 ==> y % 4 == 0
    ensures y % 400 == 0 ==> y % 100 == 0
  {
    var c, q := y / 100, y / 400;
    assert y == 100 * c + y % 100 && y == 400 * q + y % 400;
    if y % 100 == 0 {
      assert y == 4 * (25 * c);
    }
    if y % 400 == 0 {
      assert y == 100 * (4 * q);
    }
  }

  /** The leap-day count of `DayNumber` grows across the end of year `y` by
      exactly the leap day of `y`. */
  lemma LeapDaysStep(y: int)
    ensures (y / 4 - y / 100 + y / 400) - ((y - 1) / 4 - (y - 1) / 100 + (y - 1) / 400)
         == if IsLeapYear(y) then 1 else 0
  {
    QuadrennialStep(y);
    CenturyStep(y);
    QuadricentennialStep(y);
    CenturyDivisibility(y);
  }

  /** Across the end of a year, the day number grows by one. */
  lemma DayNumberYearEnd(d: Date, next: Date)
    requires d.month == 12 && d.day == 31
    requires next.year == d.year + 1 && next.month == 1 && next.day == 1
    ensures DayNumber(next) == DayNumber(d) + 1
  {
    var y := d.year;
    YearLength(y);
    LeapDaysStep(y);
    assert DaysBeforeMonth(y, 13) == DaysBeforeMonth(y, 12) + 31;
    assert DaysBeforeMonth(next.year, 1) == 0;
  }

  /** `NextDay` is one day later. */
  lemma DayNumberNextDay(d: Date)
    requires !(d.year == 9999 && d.month == 12 && d.day == 31)
    ensures DayNumber(NextDay(d)) == DayNumber(d) + 1
  {
    if d.day < DaysInMonth(d.year, d.month) {
    } else if d.month < 12 {
      assert DaysBeforeMonth(d.year, d.month + 1)
          == DaysBeforeMonth(d.year, d.month) + DaysInMonth(d.year, d.month);
    } else {
      DayNumberYearEnd(d, NextDay(d));
    }
  }

  /** Adding one day moves the weekday of any day count on by one. */
  lemma WeekdayStep(n: int)
    ensures (n + 2) % 7 == ((n + 1) % 7 + 1) % 7
  {
  }

  /** Weekdays follow one another: the day after `d` falls on the next
      weekday, Saturday (6) being followed by Sunday (0). */
  lemma DayOfWeekNextDay(d: Date)
    requires !(d.year == 9999 && d.month == 12 && d.day == 31)
    ensures DayOfWeek(NextDay(d)) == (DayOfWeek(d) + 1) % 7
  {
    var n := DayNumber(d);
    DayNumberNextDay(d);
    WeekdayStep(n);
  }

  /** 1 January of year 1 was a Monday. */
  lemma FirstDayIsMonday()
    ensures DayOfWeek(MinValue) == 1
  {
  }

  /** 1 January 1970 was a Thursday. */
  lemma UnixEpochIsThursday()
    ensures DayOfWeek(DateTime(1970, 1, 1, 0, 0, 0)) == 4
  {
  }

  /** 1 January 2000 was a Saturday. */
  lemma MillenniumIsSaturday()
    ensures DayOfWeek(DateTime(2000, 1, 1, 0, 0, 0)) == 6
  {
  }
}

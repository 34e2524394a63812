/** The proleptic Gregorian calendar, in UTC, to the minute: what Go's time
    package gives internal/ci. */
module Calendar {

  predicate Leap(y: int) {
    y % 4 == 0 && (y % 100 != 0 || y % 400 == 0)
  }

  function DaysIn(leap: bool, m: int): int {
    if m == 2 then (if leap then 29 else 28)
    else if m in {4, 6, 9, 11} then 30
    else 31
  }

  /** Days from 1 January of year 1 to 1 January of year `y`. */
  function DaysBeforeYear(y: int): int {
    365 * (y - 1) + (y - 1) / 4 - (y - 1) / 100 + (y - 1) / 400
  }

  function DaysBeforeMonth(leap: bool, m: int): int {
    (match m
     case 2 => 31 case 3 => 59 case 4 => 90 case 5 => 120 case 6 => 151 case 7 => 181
     case 8 => 212 case 9 => 243 case 10 => 273 case 11 => 304 case 12 => 334 case _ => 0)
    + (if leap && m > 2 then 1 else 0)
  }

  /** The day number of a date; a day past the month's end runs into the next
      months, as time.Date normalises it. */
  function DayNumber(y: int, m: int, d: int): int {
    DaysBeforeYear(y) + DaysBeforeMonth(Leap(y), m) + d - 1
  }

  /** 1 January of year 1 was a Monday; 0 is Sunday. */
  function WeekdayOf(day: int): int {
    (day + 1) % 7
  }

  datatype Minute = Minute(year: int, month: int, day: int, hour: int, minute: int) {
    predicate Valid() {
      && 1 <= month <= 12 && 1 <= day <= DaysIn(Leap(year), month)
      && 0 <= hour < 24 && 0 <= minute < 60
    }

    function Day(): int { DayNumber(year, month, day) }

    /** Minutes since the start of year 1. */
    function Abs(): int { 1440 * Day() + 60 * hour + minute }

    function Weekday(): int { WeekdayOf(Day()) }
  }

  lemma DivStep(y: int, k: int)
    requires k in {4, 100, 400}
    ensures y / k - (y - 1) / k == if y % k == 0 then 1 else 0
  {
    if k == 4 { } else if k == 100 { } else { }
  }

  lemma Centuries(y: int)
    ensures y % 100 == 0 ==> y % 4 == 0
    ensures y % 400 == 0 ==> y % 100 == 0
  {
    assert y == 100 * (y / 100) + y % 100;
    assert y == 400 * (y / 400) + y % 400;
    if y % 400 == 0 {
      assert y == 100 * (4 * (y / 400));
    }
    if y % 100 == 0 {
      assert y == 4 * (25 * (y / 100));
    }
  }

  lemma YearLength(y: int)
    ensures DaysBeforeYear(y + 1) == DaysBeforeYear(y) + (if Leap(y) then 366 else 365)
  {
    DivStep(y, 4);
    DivStep(y, 100);
    DivStep(y, 400);
    Centuries(y);
  }

  lemma MonthLength(leap: bool, m: int)
    requires 1 <= m < 12
    ensures DaysBeforeMonth(leap, m + 1) == DaysBeforeMonth(leap, m) + DaysIn(leap, m)
  {
  }

  lemma {:induction false} MonthsOrdered(leap: bool, m: int, n: int)
    requires 1 <= m < n <= 12
    ensures DaysBeforeMonth(leap, m) + DaysIn(leap, m) <= DaysBeforeMonth(leap, n)
    decreases n - m
  {
    MonthLength(leap, n - 1);
    if m < n - 1 { MonthsOrdered(leap, m, n - 1); }
  }

  lemma {:induction false} YearsOrdered(y: int, z: int)
    requires y < z
    ensures DaysBeforeYear(y) + (if Leap(y) then 366 else 365) <= DaysBeforeYear(z)
    decreases z - y
  {
    YearLength(z - 1);
    if y < z - 1 { YearsOrdered(y, z - 1); }
  }

  /** A date lies inside its year. */
  lemma DayInYear(t: Minute)
    requires t.Valid()
    ensures DaysBeforeYear(t.year) <= t.Day() < DaysBeforeYear(t.year) + (if Leap(t.year) then 366 else 365)
  {
    if t.month < 12 { MonthsOrdered(Leap(t.year), t.month, 12); }
    if 1 < t.month { MonthsOrdered(Leap(t.year), 1, t.month); }
  }

  /** Day numbers order dates as their fields do. */
  lemma DatesOrdered(t: Minute, u: Minute)
    requires t.Valid() && u.Valid()
    requires t.year < u.year || (t.year == u.year && (t.month < u.month || (t.month == u.month && t.day < u.day)))
    ensures t.Day() < u.Day()
  {
    if t.year < u.year {
      DayInYear(t);
      DayInYear(u);
      YearsOrdered(t.year, u.year);
    } else if t.month < u.month {
      MonthsOrdered(Leap(t.year), t.month, u.month);
    }
  }

  lemma OneDate(t: Minute, u: Minute)
    requires t.Valid() && u.Valid() && t.Day() == u.Day()
    ensures t.year == u.year && t.month == u.month && t.day == u.day
  {
    if t.year < u.year || (t.year == u.year && (t.month < u.month || (t.month == u.month && t.day < u.day))) {
      DatesOrdered(t, u);
    } else if u.year < t.year || (t.year == u.year && (u.month < t.month || (t.month == u.month && u.day < t.day))) {
      DatesOrdered(u, t);
    }
  }

  /** A minute count names one calendar minute. */
  lemma OneMinute(t: Minute, u: Minute)
    requires t.Valid() && u.Valid() && t.Abs() == u.Abs()
    ensures t == u
  {
    assert t.Day() == u.Day();
    OneDate(t, u);
  }

  function NextDay(t: Minute): (u: Minute)
    requires t.Valid()
    ensures u.Valid() && u.Day() == t.Day() + 1 && u.hour == t.hour && u.minute == t.minute
  {
    if t.day < DaysIn(Leap(t.year), t.month) then t.(day := t.day + 1)
    else if t.month < 12 then
      MonthLength(Leap(t.year), t.month);
      t.(month := t.month + 1, day := 1)
    else
      YearLength(t.year);
      t.(year := t.year + 1, month := 1, day := 1)
  }

  /** t.Add(time.Minute). */
  function NextMinute(t: Minute): (u: Minute)
    requires t.Valid()
    ensures u.Valid() && u.Abs() == t.Abs() + 1
  {
    if t.minute < 59 then t.(minute := t.minute + 1)
    else if t.hour < 23 then t.(hour := t.hour + 1, minute := 0)
    else NextDay(t).(hour := 0, minute := 0)
  }

  function {:induction false} AddDays(t: Minute, n: nat): (u: Minute)
    requires t.Valid()
    ensures u.Valid() && u.Day() == t.Day() + n && u.hour == t.hour && u.minute == t.minute
  {
    if n == 0 then t else NextDay(AddDays(t, n - 1))
  }

  /** t.AddDate(1, 0, 0). */
  function AYearLater(t: Minute): (u: Minute)
    requires t.Valid()
    ensures u.Valid() && u.Day() == DayNumber(t.year + 1, t.month, t.day)
    ensures u.hour == t.hour && u.minute == t.minute
  {
    if t.month == 2 && t.day == 29 && !Leap(t.year + 1) then t.(year := t.year + 1, month := 3, day := 1)
    else t.(year := t.year + 1)
  }

  /** t.AddDate(1, 0, 1) as a minute count. */
  function AYearAndADayAfter(t: Minute): int {
    1440 * DayNumber(t.year + 1, t.month, t.day + 1) + 60 * t.hour + t.minute
  }

  /** It is the day after the same date next year, at the same time. */
  lemma TheDayAfter(t: Minute)
    requires t.Valid()
    ensures AYearAndADayAfter(t) == NextDay(AYearLater(t)).Abs()
  {}

  /** Dates whose weekday is known: a Tuesday, a Saturday and a leap day. */
  lemma KnownDates()
    ensures Minute(2025, 5, 13, 0, 0).Weekday() == 2 && Minute(2000, 1, 1, 0, 0).Weekday() == 6
    ensures Minute(2024, 2, 29, 0, 0).Valid() && Minute(2024, 2, 29, 0, 0).Weekday() == 4
    ensures !Minute(2100, 2, 29, 0, 0).Valid() && Minute(2000, 2, 29, 0, 0).Valid()
  {}
}

/**
 Instants are whole seconds since 1970-01-01T00:00:00Z. A zone is a fixed offset in seconds.
 Days are counted from Monday 0001-01-01 in the proleptic Gregorian calendar.
 */
module Calendar {

  const DAY: int := 86400
  const EPOCH_DAY: int := 719162

  datatype Civil = Civil(year: int, month: int, day: int)

  function DayOf(t: int): int {
    t / DAY + EPOCH_DAY
  }

  predicate IsLeap(y: int) {
    y % 4 == 0 && (y % 100 != 0 || y % 400 == 0)
  }

  /** The first day of a year. */
  function YearStart(y: int): int {
    (y - 1) * 365 + (y - 1) / 4 - (y - 1) / 100 + (y - 1) / 400
  }

  lemma QuotientStep(y: int, k: int)
    requires k == 4 || k == 100 || k == 400
    ensures y / k == (y - 1) / k + if y % k == 0 then 1 else 0
  {
  }

  lemma MultipleLeavesNothing(q: int)
    ensures 4 * q % 4 == 0 && 100 * q % 100 == 0
  {
  }

  lemma CenturyIsMultiple(y: int)
    ensures y % 400 == 0 ==> y % 100 == 0
    ensures y % 100 == 0 ==> y % 4 == 0
  {
    if y % 400 == 0 {
      MultipleLeavesNothing(4 * (y / 400));
      assert y == 100 * (4 * (y / 400));
    }
    if y % 100 == 0 {
      MultipleLeavesNothing(25 * (y / 100));
      assert y == 4 * (25 * (y / 100));
    }
  }

  lemma YearLength(y: int)
    ensures YearStart(y + 1) == YearStart(y) + if IsLeap(y) then 366 else 365
  {
    QuotientStep(y, 4);
    QuotientStep(y, 100);
    QuotientStep(y, 400);
    CenturyIsMultiple(y);
    assert YearStart(y + 1) - YearStart(y)
      == 365 + (y / 4 - (y - 1) / 4) - (y / 100 - (y - 1) / 100) + (y / 400 - (y - 1) / 400);
  }

  function YearUp(day: int, y: int): (r: int)
    requires YearStart(y) <= day
    ensures YearStart(r) <= day < YearStart(r + 1)
    decreases day - YearStart(y)
  {
    YearLength(y);
    if day < YearStart(y + 1) then y else YearUp(day, y + 1)
  }

  function YearDown(day: int, y: int): (r: int)
    requires day < YearStart(y + 1)
    ensures YearStart(r) <= day < YearStart(r + 1)
    decreases YearStart(y + 1) - day
  {
    YearLength(y);
    if YearStart(y) <= day then y else YearDown(day, y - 1)
  }

  function YearOf(day: int): (y: int)
    ensures YearStart(y) <= day < YearStart(y + 1)
  {
    if 0 <= day then YearUp(day, 1) else YearDown(day, 0)
  }

  lemma {:induction false} YearsApart(a: int, b: int)
    requires a <= b
    ensures YearStart(a) + 365 * (b - a) <= YearStart(b)
    decreases b - a
  {
    if a < b {
      YearsApart(a, b - 1);
      YearLength(b - 1);
    }
  }

  /** How many days of the year precede a month. */
  function DaysBefore(month: int, leap: bool): int
    requires 1 <= month <= 13
  {
    var common := [0, 31, 59, 90, 120, 151, 181, 212, 243, 273, 304, 334, 365];
    common[month - 1] + if leap && month > 2 then 1 else 0
  }

  function MonthFrom(dayOfYear: int, leap: bool, month: int): (m: int)
    requires 1 <= month <= 12 && DaysBefore(month, leap) <= dayOfYear < DaysBefore(13, leap)
    ensures 1 <= m <= 12 && DaysBefore(m, leap) <= dayOfYear < DaysBefore(m + 1, leap)
    decreases 12 - month
  {
    if dayOfYear < DaysBefore(month + 1, leap) then month else MonthFrom(dayOfYear, leap, month + 1)
  }

  lemma MonthLength(month: int, leap: bool)
    requires 1 <= month <= 12
    ensures 28 <= DaysBefore(month + 1, leap) - DaysBefore(month, leap) <= 31
  {
  }

  function CivilOf(day: int): (c: Civil)
    ensures 1 <= c.month <= 12 && 1 <= c.day <= 31
    ensures c.year == YearOf(day)
    ensures day == YearStart(c.year) + DaysBefore(c.month, IsLeap(c.year)) + c.day - 1
    ensures day < YearStart(c.year) + DaysBefore(c.month + 1, IsLeap(c.year))
  {
    var y := YearOf(day);
    YearLength(y);
    var m := MonthFrom(day - YearStart(y), IsLeap(y), 1);
    MonthLength(m, IsLeap(y));
    Civil(y, m, day - YearStart(y) - DaysBefore(m, IsLeap(y)) + 1)
  }

  predicate CivilLess(a: Civil, b: Civil) {
    || a.year < b.year
    || (a.year == b.year && a.month < b.month)
    || (a.year == b.year && a.month == b.month && a.day < b.day)
  }

  lemma MonthsAscend(m: int, n: int, leap: bool)
    requires 1 <= m < n <= 13
    ensures DaysBefore(m + 1, leap) <= DaysBefore(n, leap)
  {
  }

  /** Reading a date field by field orders exactly like the days themselves. */
  lemma CivilOrder(a: int, b: int)
    ensures a < b <==> CivilLess(CivilOf(a), CivilOf(b))
    ensures a == b <==> CivilOf(a) == CivilOf(b)
  {
    if a < b {
      CivilAscends(a, b);
    } else if b < a {
      CivilAscends(b, a);
    }
  }

  lemma YearsAscend(a: int, b: int)
    requires a < b
    ensures YearOf(a) <= YearOf(b)
  {
    if YearOf(b) < YearOf(a) {
      YearsApart(YearOf(b) + 1, YearOf(a));
    }
    hide YearStart;
  }

  /** Within one year. */
  lemma MonthsAndDaysAscend(a: int, b: int)
    requires a < b && YearOf(a) == YearOf(b)
    ensures CivilLess(CivilOf(a), CivilOf(b))
  {
    var c, d := CivilOf(a), CivilOf(b);
    hide YearStart, IsLeap, YearOf, CivilOf, DaysBefore;
    if d.month < c.month {
      MonthsAscend(d.month, c.month, IsLeap(c.year));
    }
  }

  lemma CivilAscends(a: int, b: int)
    requires a < b
    ensures CivilLess(CivilOf(a), CivilOf(b))
  {
    YearsAscend(a, b);
    hide YearStart, CivilOf, YearOf;
    if YearOf(a) == YearOf(b) {
      MonthsAndDaysAscend(a, b);
    }
  }

  // ---- Months, years and fixed points --------------------------------------------------------

  /** The days of one month. */
  predicate InMonth(day: int, year: int, month: int) {
    && 1 <= month <= 12
    && YearStart(year) + DaysBefore(month, IsLeap(year)) <= day < YearStart(year) + DaysBefore(month + 1, IsLeap(year))
  }

  lemma YearIs(day: int, y: int)
    ensures YearOf(day) == y <==> YearStart(y) <= day < YearStart(y + 1)
  {
    if YearStart(y) <= day < YearStart(y + 1) {
      if y < YearOf(day) {
        YearsApart(y + 1, YearOf(day));
      } else if YearOf(day) < y {
        YearsApart(YearOf(day) + 1, y);
      }
    }
    hide YearStart;
  }

  lemma MonthInYear(month: int, leap: bool)
    requires 1 <= month <= 12
    ensures 0 <= DaysBefore(month, leap) < DaysBefore(month + 1, leap) <= if leap then 366 else 365
  {
  }

  lemma MonthsApart(day: int, year: int, m: int, n: int)
    requires InMonth(day, year, m) && InMonth(day, year, n)
    ensures m == n
  {
    if m < n {
      MonthsAscend(m, n, IsLeap(year));
    } else if n < m {
      MonthsAscend(n, m, IsLeap(year));
    }
    hide DaysBefore, YearStart, IsLeap;
  }

  lemma MonthIs(day: int, year: int, month: int)
    ensures CivilOf(day).year == year && CivilOf(day).month == month <==> InMonth(day, year, month)
  {
    var c := CivilOf(day);
    assert InMonth(day, c.year, c.month);
    if InMonth(day, year, month) {
      MonthInYear(month, IsLeap(year));
      YearLength(year);
      YearIs(day, year);
      assert c.year == year;
      MonthsApart(day, year, month, c.month);
    }
    hide YearStart, DaysBefore, IsLeap, CivilOf, YearOf;
  }

  /** Two known days: Thursday 1970-01-01, from which instants count, and the leap day 2000-02-29. */
  lemma KnownDays()
    ensures CivilOf(DayOf(0)) == Civil(1970, 1, 1) && DayOf(0) % 7 == 3
    ensures CivilOf(DayOf(951868799)) == Civil(2000, 2, 29)
  {
    assert InMonth(DayOf(0), 1970, 1) && InMonth(DayOf(951868799), 2000, 2);
    MonthIs(DayOf(0), 1970, 1);
    MonthIs(DayOf(951868799), 2000, 2);
  }

  /** The ISO 8601 year and week number: those of the Thursday of the day's week. */
  function IsoWeekOf(day: int): (int, int) {
    var thursday := day - day % 7 + 3;
    var y := YearOf(thursday);
    (y, (thursday - YearStart(y)) / 7 + 1)
  }

  /** "Weeks are Monday 00:00 to Sunday 23:59": day 0 is a Monday. */
  lemma IsoWeekIsMondayToSunday(a: int, b: int)
    ensures IsoWeekOf(a) == IsoWeekOf(b) <==> a / 7 == b / 7
  {
    var s, t := a - a % 7 + 3, b - b % 7 + 3;
    assert s == a / 7 * 7 + 3 && t == b / 7 * 7 + 3;
    if IsoWeekOf(a) == IsoWeekOf(b) {
      var y := YearOf(s);
      assert -7 < (s - YearStart(y)) - (t - YearStart(y)) < 7;
    }
  }
}

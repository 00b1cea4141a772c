/**
 UTC calendar arithmetic on milliseconds since 1970, as sections 15.9.1.2 to 15.9.1.6, 15.9.1.12 and
 15.9.4.3 of ECMA-262 edition 5.1 define it. Instants are unbounded integers.
 */
module Calendar {
  const MS_PER_DAY: int := 86400000

  function Day(t: int): int {
    t / MS_PER_DAY
  }

  // ---------------------------------------------------------------- years

  predicate IsLeap(y: int) {
    y % 4 == 0 && (y % 100 != 0 || y % 400 == 0)
  }

  function DaysInYear(y: int): int {
    if IsLeap(y) then 366 else 365
  }

  function DayFromYear(y: int): int {
    365 * (y - 1970) + (y - 1969) / 4 - (y - 1901) / 100 + (y - 1601) / 400
  }

  lemma YearLength(y: int)
    ensures DayFromYear(y + 1) == DayFromYear(y) + DaysInYear(y)
  {
    EveryFourth(y);
    EveryHundredth(y);
    EveryFourHundredth(y);
    Multiples(y);
  }

  lemma EveryFourth(y: int)
    ensures (y - 1968) / 4 == (y - 1969) / 4 + if y % 4 == 0 then 1 else 0
  {
  }

  lemma EveryHundredth(y: int)
    ensures (y - 1900) / 100 == (y - 1901) / 100 + if y % 100 == 0 then 1 else 0
  {
  }

  lemma EveryFourHundredth(y: int)
    ensures (y - 1600) / 400 == (y - 1601) / 400 + if y % 400 == 0 then 1 else 0
  {
  }

  lemma Multiples(y: int)
    ensures y % 400 == 0 ==> y % 100 == 0
    ensures y % 100 == 0 ==> y % 4 == 0
  {
  }

  /** How far day `d` lies outside year `y`. */
  function YearError(d: int, y: int): nat {
    if d < DayFromYear(y) then DayFromYear(y) - d
    else if d >= DayFromYear(y + 1) then d - DayFromYear(y + 1) + 1
    else 0
  }

  function YearFrom(d: int, guess: int): (y: int)
    ensures DayFromYear(y) <= d < DayFromYear(y + 1)
    decreases YearError(d, guess)
  {
    hide DayFromYear, IsLeap;
    YearLength(guess - 1);
    YearLength(guess);
    YearLength(guess + 1);
    if d < DayFromYear(guess) then YearFrom(d, guess - 1)
    else if d >= DayFromYear(guess + 1) then YearFrom(d, guess + 1)
    else guess
  }

  /** The year that day `d` falls in. */
  function YearFromDay(d: int): (y: int)
    ensures DayFromYear(y) <= d < DayFromYear(y + 1)
  {
    YearFrom(d, 1970 + d / 366)
  }

  lemma YearUnique(d: int, y: int)
    requires DayFromYear(y) <= d < DayFromYear(y + 1)
    ensures YearFromDay(d) == y
  {
    hide DayFromYear, YearFromDay;
    if YearFromDay(d) < y {
      YearsApart(YearFromDay(d) + 1, y);
    } else if y < YearFromDay(d) {
      YearsApart(y + 1, YearFromDay(d));
    }
  }

  lemma {:induction false} YearsApart(a: int, b: int)
    requires a <= b
    ensures DayFromYear(a) <= DayFromYear(b)
    decreases b - a
  {
    hide DayFromYear;
    if a == b {
    } else {
      YearsApart(a, b - 1);
      YearLength(b - 1);
    }
  }

  // ---------------------------------------------------------------- months

  /** Days of a year before its month `m`, counted from 0; month 12 stands for the end of the year. */
  function DaysBefore(m: int, leap: bool): int
    requires 0 <= m <= 12
  {
    [0, 31, 59, 90, 120, 151, 181, 212, 243, 273, 304, 334, 365][m] + if leap && m >= 2 then 1 else 0
  }

  function MonthFrom(dayInYear: int, leap: bool, m: int): (r: int)
    requires 0 <= m <= 11 && DaysBefore(m, leap) <= dayInYear < DaysBefore(12, leap)
    ensures 0 <= r <= 11 && DaysBefore(r, leap) <= dayInYear < DaysBefore(r + 1, leap)
    decreases 12 - m
  {
    if dayInYear < DaysBefore(m + 1, leap) then m else MonthFrom(dayInYear, leap, m + 1)
  }

  function MonthOfYear(dayInYear: int, leap: bool): (r: int)
    requires 0 <= dayInYear < if leap then 366 else 365
    ensures 0 <= r <= 11 && DaysBefore(r, leap) <= dayInYear < DaysBefore(r + 1, leap)
  {
    MonthFrom(dayInYear, leap, 0)
  }

  function MonthFromDay(d: int): (m: int)
    ensures 0 <= m <= 11
    ensures var y := YearFromDay(d);
            DaysBefore(m, IsLeap(y)) <= d - DayFromYear(y) < DaysBefore(m + 1, IsLeap(y))
  {
    var y := YearFromDay(d);
    YearLength(y);
    hide DayFromYear, DaysBefore, IsLeap, YearFromDay;
    MonthOfYear(d - DayFromYear(y), IsLeap(y))
  }

  function DateFromDay(d: int): int {
    var y := YearFromDay(d);
    d - DayFromYear(y) - DaysBefore(MonthFromDay(d), IsLeap(y)) + 1
  }

  /** 0 is Sunday. */
  function WeekDayOf(d: int): int {
    (d + 4) % 7
  }

  /** The day of a date, where the month may run out of its year and the date out of its month. */
  function MakeDay(year: int, month: int, date: int): int {
    var ym, mn := year + month / 12, month % 12;
    DayFromYear(ym) + DaysBefore(mn, IsLeap(ym)) + date - 1
  }

  /** `Date.UTC` takes the years 0 to 99 for 1900 to 1999. */
  predicate Remapped(year: int) {
    0 <= year <= 99
  }

  function FullYear(year: int): int {
    if Remapped(year) then 1900 + year else year
  }

  /** `Date.UTC(year, month, date)` in milliseconds. */
  function DateUtc(year: int, month: int, date: int): int {
    MakeDay(FullYear(year), month, date) * MS_PER_DAY
  }

  // ---------------------------------------------------------------- counting months

  /** The first day of the month with index `k`, counting months from January of year 0. */
  function FirstDay(k: int): int {
    DayFromYear(k / 12) + DaysBefore(k % 12, IsLeap(k / 12))
  }

  function MonthIndex(d: int): int {
    12 * YearFromDay(d) + MonthFromDay(d)
  }

  lemma MonthLength(k: int)
    ensures FirstDay(k) + 28 <= FirstDay(k + 1) <= FirstDay(k) + 31
  {
    hide DayFromYear, IsLeap;
    YearLength(k / 12);
  }

  lemma {:induction false} MonthsApart(a: int, b: int)
    requires a <= b
    ensures FirstDay(a) + 28 * (b - a) <= FirstDay(b)
    decreases b - a
  {
    hide FirstDay;
    if a == b {
    } else {
      MonthsApart(a, b - 1);
      MonthLength(b - 1);
    }
  }

  lemma IndexParts(y: int, m: int)
    requires 0 <= m <= 11
    ensures (12 * y + m) / 12 == y && (12 * y + m) % 12 == m
  {
  }

  /** `MakeDay` counts from the first day of the month the year and month number name. */
  lemma MakeDayIsFirstDay(y: int, month: int, date: int)
    ensures MakeDay(y, month, date) == FirstDay(12 * y + month) + date - 1
  {
    hide DayFromYear, DaysBefore, IsLeap;
    IndexParts(y + month / 12, month % 12);
    assert 12 * y + month == 12 * (y + month / 12) + month % 12;
  }

  lemma FirstDayIs(y: int, m: int)
    requires 0 <= m <= 11
    ensures FirstDay(12 * y + m) == DayFromYear(y) + DaysBefore(m, IsLeap(y))
    ensures FirstDay(12 * y + m + 1) == DayFromYear(y) + DaysBefore(m + 1, IsLeap(y))
  {
    hide DayFromYear, IsLeap;
    IndexParts(y, m);
    if m < 11 {
      IndexParts(y, m + 1);
    } else {
      IndexParts(y + 1, 0);
      YearLength(y);
    }
  }

  lemma MonthContains(d: int)
    ensures FirstDay(MonthIndex(d)) <= d < FirstDay(MonthIndex(d) + 1)
    ensures DateFromDay(d) == d - FirstDay(MonthIndex(d)) + 1
    ensures 1 <= DateFromDay(d) <= 31
  {
    hide DayFromYear, IsLeap, YearFromDay, MonthFromDay, FirstDay, DaysBefore;
    FirstDayIs(YearFromDay(d), MonthFromDay(d));
    MonthLength(MonthIndex(d));
  }

  /** No other month contains the day. */
  lemma MonthUnique(d: int, k: int)
    requires FirstDay(k) <= d < FirstDay(k + 1)
    ensures MonthIndex(d) == k
    ensures YearFromDay(d) == k / 12 && MonthFromDay(d) == k % 12
  {
    hide FirstDay, YearFromDay, MonthFromDay;
    MonthContains(d);
    if MonthIndex(d) < k {
      MonthsApart(MonthIndex(d) + 1, k);
    } else if k < MonthIndex(d) {
      MonthsApart(k + 1, MonthIndex(d));
    }
    IndexParts(YearFromDay(d), MonthFromDay(d));
  }

  /** Splitting a day into year, month and date and putting it together again gives the same day. */
  lemma CivilRoundTrip(d: int)
    ensures MakeDay(YearFromDay(d), MonthFromDay(d), DateFromDay(d)) == d
  {
    hide MakeDay, FirstDay, YearFromDay, MonthFromDay, DateFromDay;
    MakeDayIsFirstDay(YearFromDay(d), MonthFromDay(d), DateFromDay(d));
    MonthContains(d);
  }

  lemma DayOfProduct(d: int, r: int)
    requires 0 <= r < MS_PER_DAY
    ensures Day(d * MS_PER_DAY + r) == d
  {
  }

  // ---------------------------------------------------------------- in plain numbers

  /** Day 0 is a Thursday (weekday 4), and each day is followed by the next weekday, Saturday (6) by Sunday (0). */
  lemma WeekDays(d: int)
    ensures WeekDayOf(0) == 4 && 0 <= WeekDayOf(d) <= 6
    ensures WeekDayOf(d + 1) == if WeekDayOf(d) == 6 then 0 else WeekDayOf(d) + 1
  {
  }

  /** Years follow each other from day 0 in 1970 on, with 366 days by the Gregorian rule and 365 otherwise. */
  lemma YearsFollow(y: int)
    ensures DayFromYear(1970) == 0
    ensures DayFromYear(y + 1) - DayFromYear(y)
              == if y % 400 == 0 || (y % 4 == 0 && y % 100 != 0) then 366 else 365
  {
    assert DayFromYear(1970) == 0;
    hide DayFromYear;
    Multiples(y);
    YearLength(y);
  }

  /** Months follow each other from January 1970 on, with the lengths everyone knows. */
  lemma MonthsFollow(year: int, month: int)
    requires 0 <= month <= 11
    ensures FirstDay(12 * 1970) == 0
    ensures var k := 12 * year + month;
            FirstDay(k + 1) - FirstDay(k)
              == if month == 1 then (if DayFromYear(year + 1) - DayFromYear(year) == 366 then 29 else 28)
                 else if month in {3, 5, 8, 10} then 30 else 31
  {
    hide FirstDay, DayFromYear, IsLeap;
    FirstDayIs(year, month);
    YearLength(year);
    FirstDayIs(1970, 0);
    YearsFollow(1970);
  }

  /** The day number of an instant, floored also before 1970. */
  lemma DayIs(t: int)
    ensures 86400000 * Day(t) <= t < 86400000 * Day(t) + 86400000
  {
  }

  /** `Date.UTC` moves the years 0 to 99 by 1900 and leaves all others. */
  lemma DateUtcIsDay(year: int, month: int, date: int)
    ensures DateUtc(year, month, date)
              == 86400000 * (FirstDay(12 * (if 0 <= year <= 99 then year + 1900 else year) + month) + date - 1)
  {
    hide FirstDay, MakeDay;
    MakeDayIsFirstDay(FullYear(year), month, date);
  }
}

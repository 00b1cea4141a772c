/** The UTC day, week or month that a report covers, and the period before it. */
module ReportPeriods {
  import opened Calendar

  /** Half-open: `from` is in the period and `to` is not. */
  datatype ReportPeriod = ReportPeriod(from: int, to: int) {
    predicate Contains(t: int) {
      from <= t < to
    }

    predicate Disjoint(other: ReportPeriod) {
      to <= other.from || other.to <= from
    }
  }

  datatype PeriodType = Weekly | Monthly

  function YearOf(t: int): int { YearFromDay(Day(t)) }
  function MonthOf(t: int): int { MonthFromDay(Day(t)) }
  function DateOf(t: int): int { DateFromDay(Day(t)) }
  function WeekDay(t: int): int { WeekDayOf(Day(t)) }

  function DailyPeriod(reference: int): ReportPeriod {
    var from := DateUtc(YearOf(reference), MonthOf(reference), DateOf(reference));
    ReportPeriod(from, from + MS_PER_DAY)
  }

  function WeeklyPeriod(reference: int): ReportPeriod {
    var daysSinceMonday := (WeekDay(reference) + 6) % 7;
    var monday := DateUtc(YearOf(reference), MonthOf(reference), DateOf(reference) - daysSinceMonday);
    ReportPeriod(monday, monday + 7 * MS_PER_DAY)
  }

  function MonthlyPeriod(reference: int): ReportPeriod {
    ReportPeriod(DateUtc(YearOf(reference), MonthOf(reference), 1),
                 DateUtc(YearOf(reference), MonthOf(reference) + 1, 1))
  }

  function PreviousPeriod(kind: PeriodType, period: ReportPeriod): ReportPeriod {
    match kind
    case Weekly => WeeklyPeriod(period.from - 7 * MS_PER_DAY)
    case Monthly => MonthlyPeriod(DateUtc(YearOf(period.from), MonthOf(period.from) - 1, 1))
  }

  // ---------------------------------------------------------------- in days and months

  /** The index of the month a reference is taken to lie in: its own, or the same month 1900 years on. */
  function MonthUsed(t: int): int {
    12 * FullYear(YearOf(t)) + MonthOf(t)
  }

  lemma MonthUsedIs(t: int)
    ensures MonthUsed(t) == MonthIndex(Day(t)) + if Remapped(YearOf(t)) then 22800 else 0
  {
    hide YearFromDay, MonthFromDay, Day;
  }

  lemma DateUtcIs(t: int, date: int)
    ensures DateUtc(YearOf(t), MonthOf(t), date) == (FirstDay(MonthUsed(t)) + date - 1) * MS_PER_DAY
    ensures DateUtc(YearOf(t), MonthOf(t) + 1, 1) == FirstDay(MonthUsed(t) + 1) * MS_PER_DAY
    ensures DateUtc(YearOf(t), MonthOf(t) - 1, 1)
              == FirstDay(12 * FullYear(YearOf(t)) + MonthOf(t) - 1) * MS_PER_DAY
  {
    hide YearFromDay, MonthFromDay, Day, MakeDay, FirstDay, FullYear;
    MakeDayIsFirstDay(FullYear(YearOf(t)), MonthOf(t), date);
    MakeDayIsFirstDay(FullYear(YearOf(t)), MonthOf(t) + 1, 1);
    MakeDayIsFirstDay(FullYear(YearOf(t)), MonthOf(t) - 1, 1);
  }

  /** A date taken in the month used lies on the day meant, or more than 1800 years after it. */
  lemma DayUsed(t: int, back: int)
    requires 0 <= back <= 6
    ensures var day := FirstDay(MonthUsed(t)) + DateOf(t) - back - 1;
            && (!Remapped(YearOf(t)) ==> day == Day(t) - back)
            && (Remapped(YearOf(t)) ==> day > Day(t) + 7)
  {
    hide FirstDay, MonthIndex, YearOf, MonthUsed, DateFromDay, Day;
    MonthContains(Day(t));
    MonthUsedIs(t);
    MonthsApart(MonthIndex(Day(t)) + 1, MonthIndex(Day(t)) + 22800);
  }

  lemma DayOrder(t: int, d: int)
    ensures d * MS_PER_DAY <= t <==> d <= Day(t)
  {
    assert t == Day(t) * MS_PER_DAY + t % MS_PER_DAY;
  }

  /** The first and the last day of each period. */
  lemma PeriodDays(t: int)
    ensures var d := FirstDay(MonthUsed(t)) + DateOf(t) - 1;
            var back := (WeekDay(t) + 6) % 7;
            && DailyPeriod(t) == ReportPeriod(d * MS_PER_DAY, (d + 1) * MS_PER_DAY)
            && WeeklyPeriod(t) == ReportPeriod((d - back) * MS_PER_DAY, (d - back + 7) * MS_PER_DAY)
            && MonthlyPeriod(t)
                 == ReportPeriod(FirstDay(MonthUsed(t)) * MS_PER_DAY, FirstDay(MonthUsed(t) + 1) * MS_PER_DAY)
  {
    hide FirstDay, MonthUsed, DateUtc, YearOf, MonthOf, DateOf, WeekDay;
    DateUtcIs(t, DateOf(t));
    DateUtcIs(t, DateOf(t) - (WeekDay(t) + 6) % 7);
    DateUtcIs(t, 1);
  }

  // ---------------------------------------------------------------- containment, exactly

  lemma DailyContains(t: int)
    ensures DailyPeriod(t).Contains(t) <==> !Remapped(YearOf(t))
  {
    hide FirstDay, MonthUsed, DailyPeriod, WeeklyPeriod, MonthlyPeriod, YearOf, DateOf, WeekDay;
    PeriodDays(t);
    DayUsed(t, 0);
    var d := FirstDay(MonthUsed(t)) + DateOf(t) - 1;
    DayOrder(t, d);
    DayOrder(t, d + 1);
  }

  lemma WeeklyContains(t: int)
    ensures WeeklyPeriod(t).Contains(t) <==> !Remapped(YearOf(t))
  {
    hide FirstDay, MonthUsed, DailyPeriod, WeeklyPeriod, MonthlyPeriod, YearOf, DateOf, WeekDay;
    PeriodDays(t);
    var back := (WeekDay(t) + 6) % 7;
    DayUsed(t, back);
    var d := FirstDay(MonthUsed(t)) + DateOf(t) - 1 - back;
    DayOrder(t, d);
    DayOrder(t, d + 7);
  }

  lemma MonthlyContains(t: int)
    ensures MonthlyPeriod(t).Contains(t) <==> !Remapped(YearOf(t))
  {
    hide FirstDay, MonthUsed, DailyPeriod, WeeklyPeriod, MonthlyPeriod, YearOf, DateOf, WeekDay, MonthIndex;
    PeriodDays(t);
    MonthContains(Day(t));
    MonthUsedIs(t);
    DayOrder(t, FirstDay(MonthUsed(t)));
    DayOrder(t, FirstDay(MonthUsed(t) + 1));
    MonthsApart(MonthIndex(Day(t)) + 1, MonthIndex(Day(t)) + 22800);
  }

  // ---------------------------------------------------------------- equal or disjoint

  lemma DailyPartition(t: int, u: int)
    ensures DailyPeriod(t) == DailyPeriod(u) || DailyPeriod(t).Disjoint(DailyPeriod(u))
  {
    hide FirstDay, MonthUsed, DailyPeriod, WeeklyPeriod, MonthlyPeriod, DateOf, WeekDay;
    PeriodDays(t);
    PeriodDays(u);
  }

  lemma MonthlyPartition(t: int, u: int)
    ensures MonthlyPeriod(t) == MonthlyPeriod(u) || MonthlyPeriod(t).Disjoint(MonthlyPeriod(u))
  {
    hide FirstDay, MonthUsed, DailyPeriod, WeeklyPeriod, MonthlyPeriod, DateOf, WeekDay;
    PeriodDays(t);
    PeriodDays(u);
    var a, b := MonthUsed(t), MonthUsed(u);
    if a < b {
      MonthsApart(a + 1, b);
    } else if b < a {
      MonthsApart(b + 1, a);
    }
  }

  /** How many days later than asked a remapped date comes out. */
  function Shift(t: int): int {
    if !Remapped(YearOf(t)) then 0
    else if YearOf(t) == 0 && MonthOf(t) < 2 then 693961
    else 693960
  }

  /** A year from 0 to 99 and the one 1900 years on: year 0 is a leap year and 1900 is not. */
  lemma CenturiesOn(y: int)
    requires Remapped(y)
    ensures DayFromYear(y + 1900) == DayFromYear(y) + 693960 + if y == 0 then 1 else 0
    ensures IsLeap(y + 1900) <==> IsLeap(y) && y != 0
  {
    FourthsOn(y);
    HundredthsOn(y);
    FourHundredthsOn(y);
  }

  lemma FourthsOn(y: int)
    ensures (y - 69) / 4 == (y - 1969) / 4 + 475
  {
  }

  lemma HundredthsOn(y: int)
    ensures (y - 1) / 100 == (y - 1901) / 100 + 19
  {
  }

  lemma FourHundredthsOn(y: int)
    requires Remapped(y)
    ensures (y + 299) / 400 == (y - 1601) / 400 + if y == 0 then 5 else 4
  {
  }

  lemma FirstDayShifted(y: int, m: int)
    requires Remapped(y) && 0 <= m <= 11
    ensures FirstDay(12 * y + m + 22800) == FirstDay(12 * y + m) + 693960 + if y == 0 && m < 2 then 1 else 0
  {
    hide DayFromYear;
    CenturiesOn(y);
    FirstDayIs(y, m);
    FirstDayIs(y + 1900, m);
    assert 12 * (y + 1900) + m == 12 * y + m + 22800;
  }

  /** The first day of every week: days since the last day whose number is 4 more than a multiple of 7 are taken off. */
  lemma WeekStartPlain(t: int)
    ensures WeeklyPeriod(t).from == (Day(t) - (Day(t) - 4) % 7 + Shift(t)) * 86400000
  {
    hide WeeklyPeriod, Day, Shift;
    WeekStart(t);
    SinceMonday(Day(t));
  }

  lemma SinceMonday(d: int)
    ensures (WeekDayOf(d) + 6) % 7 == (d - 4) % 7
  {
  }

  lemma WeekStart(t: int)
    ensures WeeklyPeriod(t).from == (Day(t) - (WeekDay(t) + 6) % 7 + Shift(t)) * MS_PER_DAY
    ensures Day(WeeklyPeriod(t).from) == Day(t) - (WeekDay(t) + 6) % 7 + Shift(t)
  {
    hide FirstDay, MonthUsed, DailyPeriod, WeeklyPeriod, MonthlyPeriod, DateFromDay, WeekDay, Day, YearFromDay,
      MonthFromDay;
    PeriodDays(t);
    MonthContains(Day(t));
    MonthUsedIs(t);
    if Remapped(YearOf(t)) {
      FirstDayShifted(YearOf(t), MonthOf(t));
    }
    DayOfProduct(Day(t) - (WeekDay(t) + 6) % 7 + Shift(t), 0);
  }

  /**
   Weeks start at midnight of the Monday on or before the reference, unless the year is remapped: then of a Tuesday or a
   Wednesday. Day 4, the 5th of January 1970, is a Monday.
   */
  lemma WeekStartsMonday(t: int)
    ensures WeeklyPeriod(t).from % 86400000 == 0
    ensures (Day(WeeklyPeriod(t).from) - 4) % 7 == 0 <==> YearOf(t) < 0 || YearOf(t) > 99
    ensures YearOf(t) < 0 || YearOf(t) > 99 ==> 0 <= Day(t) - Day(WeeklyPeriod(t).from) <= 6
    ensures WeeklyPeriod(t).to == WeeklyPeriod(t).from + 7 * 86400000
  {
    ShiftIs(t);
    hide WeeklyPeriod, YearOf, Day, Shift;
    WeekStart(t);
    WeekLength(t);
    WholeDays(Day(t) - (WeekDay(t) + 6) % 7 + Shift(t));
    MondayBack(Day(t), Shift(t));
    Mondays(Day(t) - (WeekDayOf(Day(t)) + 6) % 7 + Shift(t));
  }

  lemma Mondays(d: int)
    ensures WeekDayOf(d) == 1 <==> (d - 4) % 7 == 0
  {
  }

  lemma ShiftIs(t: int)
    ensures Shift(t) in {0, 693960, 693961}
    ensures Shift(t) == 0 <==> !Remapped(YearOf(t))
  {
    hide YearOf, MonthOf;
  }

  lemma WholeDays(d: int)
    ensures d * MS_PER_DAY % MS_PER_DAY == 0
  {
  }

  lemma MondayBack(d: int, shift: int)
    requires shift in {0, 693960, 693961}
    ensures WeekDayOf(d - (WeekDayOf(d) + 6) % 7 + shift) == 1 + shift % 7
    ensures WeekDayOf(d - (WeekDayOf(d) + 6) % 7 + shift) == 1 <==> shift == 0
  {
  }

  lemma SameWeekDay(a: int, b: int)
    requires WeekDayOf(a) == WeekDayOf(b) && a < b
    ensures a + 7 <= b
  {
  }

  /** References that are shifted alike, as all are outside the remapped years, have equal or disjoint weeks. */
  lemma WeeksOfOneShift(t: int, u: int)
    requires Shift(t) == Shift(u)
    ensures WeeklyPeriod(t) == WeeklyPeriod(u) || WeeklyPeriod(t).Disjoint(WeeklyPeriod(u))
  {
    hide WeeklyPeriod, YearOf, Day, Shift, WeekDayOf;
    ShiftIs(t);
    WeekStart(t);
    WeekStart(u);
    WeekLength(t);
    WeekLength(u);
    MondayBack(Day(t), Shift(t));
    MondayBack(Day(u), Shift(u));
    var a, b := Day(WeeklyPeriod(t).from), Day(WeeklyPeriod(u).from);
    if a < b {
      SameWeekDay(a, b);
    } else if b < a {
      SameWeekDay(b, a);
    }
  }

  /** The week of a remapped reference starts far outside the remapped years. */
  lemma StartNotRemapped(t: int)
    requires Remapped(YearOf(t))
    ensures !Remapped(YearOf(WeeklyPeriod(t).from))
  {
    assert DayFromYear(0) + 693954 > DayFromYear(100);
    hide WeeklyPeriod, YearFromDay, MonthFromDay, Day, DayFromYear, WeekDay;
    ShiftIs(t);
    WeekStart(t);
    YearsApart(0, YearOf(t));
    var y := YearOf(WeeklyPeriod(t).from);
    if y < 100 {
      YearsApart(y + 1, 100);
    }
  }

  /** It overlaps the week of the instant it starts at. */
  lemma StartOverlaps(t: int)
    requires Remapped(YearOf(t))
    ensures var p := WeeklyPeriod(t);
            var q := WeeklyPeriod(p.from);
            !Remapped(YearOf(p.from)) && p != q && !p.Disjoint(q)
  {
    hide WeeklyPeriod, YearOf, Day, Shift, WeekDay;
    var u := WeeklyPeriod(t).from;
    StartNotRemapped(t);
    WeekStartsMonday(t);
    WeekStartsMonday(u);
    WeeklyContains(u);
    WeekLength(t);
    WeekLength(u);
  }

  /**
   A week is equal to or disjoint from the week of every ordinary reference exactly when its own reference is an
   ordinary one too.
   */
  lemma WeeklyPartition(t: int)
    ensures (forall u | !Remapped(YearOf(u)) ::
               WeeklyPeriod(t) == WeeklyPeriod(u) || WeeklyPeriod(t).Disjoint(WeeklyPeriod(u)))
            <==> !Remapped(YearOf(t))
  {
    hide WeeklyPeriod, YearOf, Shift;
    if Remapped(YearOf(t)) {
      StartOverlaps(t);
    } else {
      forall u | !Remapped(YearOf(u))
        ensures WeeklyPeriod(t) == WeeklyPeriod(u) || WeeklyPeriod(t).Disjoint(WeeklyPeriod(u))
      {
        ShiftIs(t);
        ShiftIs(u);
        WeeksOfOneShift(t, u);
      }
    }
  }

  /** A month runs from its first day to the first day of the next: 28 to 31 days. */
  lemma MonthIsCivil(t: int)
    ensures var p := MonthlyPeriod(t);
            && DateOf(p.from) == 1 && DateOf(p.to) == 1
            && MonthIndex(Day(p.to)) == MonthIndex(Day(p.from)) + 1
            && MonthOf(p.from) == MonthOf(t) && YearOf(p.from) == FullYear(YearOf(t))
            && p.from + 28 * MS_PER_DAY <= p.to <= p.from + 31 * MS_PER_DAY
  {
    MonthUsedParts(t);
    PeriodDays(t);
    hide FirstDay, MonthUsed, MonthIndex, MonthlyPeriod, Day, DateFromDay, YearFromDay, MonthFromDay, FullYear;
    FirstDayOf(MonthUsed(t));
    FirstDayOf(MonthUsed(t) + 1);
    MonthLength(MonthUsed(t));
  }

  lemma MonthUsedParts(t: int)
    ensures MonthUsed(t) / 12 == FullYear(YearOf(t)) && MonthUsed(t) % 12 == MonthOf(t)
    ensures !Remapped(MonthUsed(t) / 12)
  {
    hide YearFromDay, MonthFromDay, Day;
    IndexParts(FullYear(YearOf(t)), MonthOf(t));
  }

  lemma FirstDayOf(k: int)
    ensures Day(FirstDay(k) * MS_PER_DAY) == FirstDay(k)
    ensures MonthIndex(FirstDay(k)) == k && DateFromDay(FirstDay(k)) == 1
    ensures YearFromDay(FirstDay(k)) == k / 12 && MonthFromDay(FirstDay(k)) == k % 12
  {
    hide FirstDay, MonthIndex, Day, DateFromDay, YearFromDay, MonthFromDay;
    DayOfProduct(FirstDay(k), 0);
    MonthLength(k);
    MonthUnique(FirstDay(k), k);
    MonthContains(FirstDay(k));
  }

  // ---------------------------------------------------------------- the period before

  /** Where the month period of the first day of a month ends. */
  lemma MonthOfFirstDay(j: int)
    ensures MonthlyPeriod(FirstDay(j) * MS_PER_DAY).to
              == FirstDay(j + 1 + if Remapped(j / 12) then 22800 else 0) * MS_PER_DAY
  {
    hide FirstDay, MonthUsed, DailyPeriod, WeeklyPeriod, MonthlyPeriod, WeekDay, Day, YearFromDay, MonthFromDay;
    var reference := FirstDay(j) * MS_PER_DAY;
    FirstDayOf(j);
    MonthUsedIs(reference);
    PeriodDays(reference);
  }

  /** The month before a month period is that of the first day of the preceding month. */
  lemma PreviousIsMonthOf(t: int)
    ensures PreviousPeriod(Monthly, MonthlyPeriod(t)) == MonthlyPeriod(FirstDay(MonthUsed(t) - 1) * MS_PER_DAY)
    ensures MonthlyPeriod(t).from == FirstDay(MonthUsed(t)) * MS_PER_DAY
    ensures !Remapped(MonthUsed(t) / 12)
    ensures YearOf(MonthlyPeriod(t).from) == MonthUsed(t) / 12 && MonthOf(MonthlyPeriod(t).from) == MonthUsed(t) % 12
  {
    MonthUsedParts(t);
    PeriodDays(t);
    hide FirstDay, MonthUsed, MonthlyPeriod, Day, YearFromDay, MonthFromDay, DateUtc;
    FirstDayOf(MonthUsed(t));
    DateUtcIs(MonthlyPeriod(t).from, 1);
    assert 12 * (MonthUsed(t) / 12) + MonthUsed(t) % 12 == MonthUsed(t);
  }

  /** The month before ends where the month starts, across year ends and leap years, except for January of year 100. */
  lemma PreviousMonth(t: int)
    ensures var p := MonthlyPeriod(t);
            PreviousPeriod(Monthly, p).to == p.from <==> !(YearOf(p.from) == 100 && MonthOf(p.from) == 0)
  {
    hide FirstDay, MonthUsed, MonthlyPeriod, PreviousPeriod, YearOf, MonthOf;
    var k := MonthUsed(t);
    PreviousIsMonthOf(t);
    MonthOfFirstDay(k - 1);
    YearBefore(k);
    MonthsApart(k, k + 22800);
  }

  lemma YearBefore(k: int)
    requires !Remapped(k / 12)
    ensures Remapped((k - 1) / 12) <==> k == 1200
    ensures k == 1200 <==> k / 12 == 100 && k % 12 == 0
  {
  }

  /**
   The week before ends where the week starts exactly when neither the reference nor the day a week before the
   start is in a remapped year.
   */
  lemma PreviousWeek(t: int)
    ensures var p := WeeklyPeriod(t);
            PreviousPeriod(Weekly, p).to == p.from <==>
              (!Remapped(YearOf(t)) && !Remapped(YearOf(p.from - 7 * MS_PER_DAY)))
  {
    ShiftIs(t);
    var p := WeeklyPeriod(t);
    var reference := p.from - 7 * MS_PER_DAY;
    ShiftIs(reference);
    hide WeeklyPeriod, YearOf, Day, Shift, WeekDayOf;
    WeekStart(t);
    WeekStart(reference);
    DayOfProduct(Day(p.from) - 7, 0);
    SevenBack(Day(p.from));
    WeekLength(reference);
    MondayBack(Day(t), Shift(t));
  }

  lemma SevenBack(d: int)
    ensures WeekDayOf(d - 7) == WeekDayOf(d)
  {
  }

  lemma WeekLength(t: int)
    ensures WeeklyPeriod(t).to == WeeklyPeriod(t).from + 7 * MS_PER_DAY
  {
    hide DateUtc;
  }

  /** Weeks and months tile time backwards, except for references in remapped years and in January of year 100. */
  lemma PreviousTiles(t: int)
    ensures && PreviousPeriod(Weekly, WeeklyPeriod(t)).to == WeeklyPeriod(t).from
            && PreviousPeriod(Monthly, MonthlyPeriod(t)).to == MonthlyPeriod(t).from
            <==> !Remapped(YearOf(t)) && !(YearOf(t) == 100 && MonthOf(t) == 0)
  {
    hide WeeklyPeriod, MonthlyPeriod, PreviousPeriod, YearFromDay, MonthFromDay, MonthIndex, Day, DateFromDay, WeekDay;
    MonthIsCivil(t);
    PreviousMonth(t);
    PreviousWeek(t);
    if !Remapped(YearOf(t)) && !(YearOf(t) == 100 && MonthOf(t) == 0) {
      WeekStart(t);
      var back := (WeekDay(t) + 6) % 7;
      DayOfProduct(Day(t) - back - 7, 0);
      LateEnough(Day(t), Day(t) - back - 7);
    }
  }

  /** Two weeks before a day, only January of year 100 comes out of a year that is not remapped into one that is. */
  lemma LateEnough(d: int, e: int)
    requires d - 13 <= e <= d && !Remapped(YearFromDay(d)) && !(YearFromDay(d) == 100 && MonthFromDay(d) == 0)
    ensures !Remapped(YearFromDay(e))
  {
    hide DayFromYear, YearFromDay, MonthFromDay, DaysBefore, IsLeap;
    NearYear(d, e);
    AfterJanuary(MonthFromDay(d), IsLeap(YearFromDay(d)));
  }

  lemma AfterJanuary(m: int, leap: bool)
    requires 0 <= m <= 11
    ensures m == 0 || DaysBefore(m, leap) >= 31
  {
  }

  lemma NearYear(d: int, e: int)
    requires d - 13 <= e <= d
    ensures YearFromDay(d) - 1 <= YearFromDay(e) <= YearFromDay(d)
  {
    hide DayFromYear, YearFromDay;
    var y, z := YearFromDay(d), YearFromDay(e);
    YearLength(y - 1);
    if z > y {
      YearsApart(y + 1, z);
    } else if z < y - 1 {
      YearsApart(z + 1, y - 1);
    }
  }

  // ---------------------------------------------------------------- the exceptions do occur

  /** Midnight of 1 January of year 50 is in none of its own periods. */
  lemma YearFiftyMissed()
    ensures var t := DayFromYear(50) * MS_PER_DAY;
            !DailyPeriod(t).Contains(t) && !WeeklyPeriod(t).Contains(t) && !MonthlyPeriod(t).Contains(t)
  {
    hide DailyPeriod, WeeklyPeriod, MonthlyPeriod, DayFromYear, IsLeap, YearFromDay;
    var t := DayFromYear(50) * MS_PER_DAY;
    YearLength(50);
    YearUnique(DayFromYear(50), 50);
    DayOfProduct(DayFromYear(50), 0);
    DailyContains(t);
    WeeklyContains(t);
    MonthlyContains(t);
  }

  /** The month before January of year 100 comes out as a December that does not end where that January starts. */
  lemma JanuaryHundredMissed()
    ensures var p := MonthlyPeriod(FirstDay(1200) * MS_PER_DAY);
            PreviousPeriod(Monthly, p).to != p.from
  {
    hide MonthlyPeriod, PreviousPeriod, FirstDay, YearFromDay, MonthFromDay, DateFromDay, MonthIndex, Day;
    var t := FirstDay(1200) * MS_PER_DAY;
    FirstDayOf(1200);
    MonthIsCivil(t);
    PreviousMonth(t);
  }

  /** A week of year 50 overlaps the week of the instant it starts at, a Tuesday of 1950 (or the end of 1949). */
  lemma YearFiftyWeekOverlaps()
    ensures var p := WeeklyPeriod(DayFromYear(50) * MS_PER_DAY);
            var q := WeeklyPeriod(p.from);
            p != q && !p.Disjoint(q)
  {
    hide WeeklyPeriod, YearFromDay, MonthFromDay, Day, DayFromYear, IsLeap;
    YearLength(50);
    YearUnique(DayFromYear(50), 50);
    DayOfProduct(DayFromYear(50), 0);
    StartOverlaps(DayFromYear(50) * MS_PER_DAY);
  }

  // ---------------------------------------------------------------- in plain numbers

  /** Outside the years 0 to 99 the day period is the day of the reference. */
  lemma DailyIsDay(t: int)
    requires YearOf(t) < 0 || YearOf(t) > 99
    ensures DailyPeriod(t) == ReportPeriod(86400000 * Day(t), 86400000 * Day(t) + 86400000)
  {
    hide FirstDay, MonthUsed, DailyPeriod, WeeklyPeriod, MonthlyPeriod, YearOf, DateOf, WeekDay, Day;
    PeriodDays(t);
    DayUsed(t, 0);
  }

  /** A month period in day numbers; months are counted from January of year 0. */
  lemma MonthlyIsMonth(t: int)
    ensures var k := 12 * (if 0 <= YearOf(t) <= 99 then YearOf(t) + 1900 else YearOf(t)) + MonthOf(t);
            MonthlyPeriod(t) == ReportPeriod(86400000 * FirstDay(k), 86400000 * FirstDay(k + 1))
  {
    hide FirstDay, YearOf, MonthOf;
    DateUtcIsDay(YearOf(t), MonthOf(t), 1);
    DateUtcIsDay(YearOf(t), MonthOf(t) + 1, 1);
    hide DateUtc;
  }

  /** The month before is always the month of the last instant before. */
  lemma PreviousMonthIsBefore(t: int)
    ensures PreviousPeriod(Monthly, MonthlyPeriod(t)) == MonthlyPeriod(MonthlyPeriod(t).from - 1)
  {
    var k := MonthUsed(t);
    PreviousIsMonthOf(t);
    EndsOfMonth(k - 1);
    hide *;
    SameMonth(FirstDay(k - 1) * MS_PER_DAY, MonthlyPeriod(t).from - 1);
  }

  /** The first and the last instant of a month are in one month. */
  lemma EndsOfMonth(k: int)
    ensures var first, last := FirstDay(k) * MS_PER_DAY, FirstDay(k + 1) * MS_PER_DAY - 1;
            YearOf(first) == YearOf(last) == k / 12 && MonthOf(first) == MonthOf(last) == k % 12
  {
    hide FirstDay, DateFromDay, MonthIndex, YearFromDay, MonthFromDay, Day;
    FirstDayOf(k);
    MonthLength(k);
    MonthUnique(FirstDay(k + 1) - 1, k);
    DayOfProduct(FirstDay(k + 1) - 1, 86399999);
  }

  lemma SameMonth(t: int, u: int)
    requires YearOf(t) == YearOf(u) && MonthOf(t) == MonthOf(u)
    ensures MonthlyPeriod(t) == MonthlyPeriod(u)
  {
    hide YearOf, MonthOf, DateUtc;
  }

  /** So is the week before, where weeks tile. */
  lemma PreviousWeekIsBefore(t: int)
    requires var p := WeeklyPeriod(t); PreviousPeriod(Weekly, p).to == p.from
    ensures PreviousPeriod(Weekly, WeeklyPeriod(t)) == WeeklyPeriod(WeeklyPeriod(t).from - 1)
  {
    PreviousWeek(t);
    WeekStartsMonday(t);
    hide WeeklyPeriod, Day, YearFromDay, Shift, WeekDay;
    WeekBefore(t, WeeklyPeriod(t).from);
  }

  lemma WeekBefore(t: int, from: int)
    requires from % 86400000 == 0 && (Day(from) - 4) % 7 == 0 && 0 <= Day(t) - Day(from) <= 6
    requires !Remapped(YearOf(t)) && !Remapped(YearOf(from - 7 * MS_PER_DAY))
    ensures WeeklyPeriod(from - 7 * MS_PER_DAY) == WeeklyPeriod(from - 1)
  {
    DaysBeforeStart(from);
    hide WeeklyPeriod, Day, YearFromDay, Shift, MS_PER_DAY;
    YearBetween(Day(from) - 7, Day(from) - 1, Day(t));
    ShiftIs(from - 7 * MS_PER_DAY);
    ShiftIs(from - 1);
    SevenLess(Day(from));
    SameWeek(from - 7 * MS_PER_DAY, from - 1);
  }

  lemma SevenLess(d: int)
    ensures (d - 7 - 4) % 7 == (d - 4) % 7
  {
  }

  lemma DaysBeforeStart(from: int)
    requires from % 86400000 == 0
    ensures Day(from - 7 * MS_PER_DAY) == Day(from) - 7 && Day(from - 1) == Day(from) - 1
  {
  }

  /** A day between two days less than two weeks apart in ordinary years is in one as well. */
  lemma YearBetween(a: int, b: int, c: int)
    requires a <= b <= c <= a + 13 && !Remapped(YearFromDay(a)) && !Remapped(YearFromDay(c))
    ensures !Remapped(YearFromDay(b))
  {
    hide YearFromDay;
    NearYear(c, a);
    NearYear(c, b);
    NearYear(b, a);
  }

  lemma SameWeek(t: int, u: int)
    requires Shift(t) == Shift(u) && (Day(t) - 4) % 7 == 0 && Day(u) == Day(t) + 6
    ensures WeeklyPeriod(t) == WeeklyPeriod(u)
  {
    hide WeeklyPeriod, Day, Shift;
    WeekStartPlain(t);
    WeekStartPlain(u);
    WeekLength(t);
    WeekLength(u);
  }
}

/** ECMAScript `Date` arithmetic on local time values: milliseconds of wall-clock
    time counted from 1970-01-01 00:00 in the process's fixed zone, over the
    proleptic Gregorian calendar. Months are 0-based, as `getMonth()` returns them. */
module Chrono {

  const MsPerSecond: int := 1000
  const MsPerMinute: int := 60000
  const MsPerHour: int := 3600000
  const MsPerDay: int := 86400000

  predicate IsLeapYear(y: int) {
    y % 4 == 0 && (y % 100 != 0 || y % 400 == 0)
  }

  function DaysInYear(y: int): int {
    if IsLeapYear(y) then 366 else 365
  }

  /** Lengths of the months of a common year, January first. */
  const CommonMonthLengths: seq<int> := [31, 28, 31, 30, 31, 30, 31, 31, 30, 31, 30, 31]

  /** Days of a common year before the first of each month, and the whole year last. */
  const CommonDaysBefore: seq<int> := [0, 31, 59, 90, 120, 151, 181, 212, 243, 273, 304, 334, 365]

  /** Length of month `m` (0 is January) of year `y`. */
  function DaysInMonth(y: int, m: int): int
    requires 0 <= m < 12
  {
    CommonMonthLengths[m] + (if m == 1 && IsLeapYear(y) then 1 else 0)
  }

  /** Days of year `y` before the first of month `m`; `m == 12` gives the whole year. */
  function DaysBeforeMonth(y: int, m: int): int
    requires 0 <= m <= 12
  {
    CommonDaysBefore[m] + (if m >= 2 && IsLeapYear(y) then 1 else 0)
  }

  /** Days from 1970-01-01 to January 1st of year `y` (negative before 1970):
      the lengths of the years in between, summed. */
  function DaysBeforeYear(y: int): int
    decreases if y < 1970 then 1970 - y else y - 1970
  {
    if y == 1970 then 0
    else if y > 1970 then DaysBeforeYear(y - 1) + DaysInYear(y - 1)
    else DaysBeforeYear(y + 1) - DaysInYear(y)
  }

  /** ECMAScript MakeDay: the day number of `date` (counted from 1, any integer)
      in month `month` (any integer; 0 is January of `year`). */
  function MakeDay(year: int, month: int, date: int): int {
    var y := year + month / 12;
    DaysBeforeYear(y) + DaysBeforeMonth(y, month % 12) + date - 1
  }

  /** ECMAScript MakeTime with zero milliseconds. */
  function MakeTime(hour: int, minute: int, second: int): int {
    hour * MsPerHour + minute * MsPerMinute + second * MsPerSecond
  }

  /** ECMAScript MakeDate. */
  function MakeDate(day: int, time: int): int {
    day * MsPerDay + time
  }

  /** A calendar date: year, 0-based month, day of the month. */
  datatype Civil = Civil(year: int, month: int, date: int)

  predicate ValidCivil(c: Civil) {
    0 <= c.month < 12 && 1 <= c.date <= DaysInMonth(c.year, c.month)
  }

  function DayOf(c: Civil): int {
    MakeDay(c.year, c.month, c.date)
  }

  lemma DaysBeforeNextYear(y: int)
    ensures DaysBeforeYear(y + 1) == DaysBeforeYear(y) + DaysInYear(y)
  {
  }

  /** From 1970 on, each four years up to 2022 hold one leap day (2000 is a leap year). */
  lemma {:induction false} FourYearBlocks(k: nat)
    requires k <= 13
    ensures DaysBeforeYear(1970 + 4 * k) == 1461 * k
  {
    if k > 0 {
      var y := 1970 + 4 * (k - 1);
      FourYearBlocks(k - 1);
      assert !IsLeapYear(y) && !IsLeapYear(y + 1) && !IsLeapYear(y + 3);
      assert IsLeapYear(y + 2) by {
        if y + 2 == 2000 {
        } else {
          assert (y + 2) % 4 == 0 && (y + 2) % 100 != 0;
        }
      }
      DaysBeforeNextYear(y);
      DaysBeforeNextYear(y + 1);
      DaysBeforeNextYear(y + 2);
      DaysBeforeNextYear(y + 3);
    }
  }

  /** 2024-01-01 is day 19723. */
  lemma DaysBefore2024()
    ensures DaysBeforeYear(2024) == 19723
  {
    FourYearBlocks(13);
    DaysBeforeNextYear(2022);
    DaysBeforeNextYear(2023);
  }

  /** Inside a year, MakeDay needs no month roll-over. */
  lemma MakeDayInYear(y: int, m: int, date: int)
    requires 0 <= m < 12
    ensures MakeDay(y, m, date) == DaysBeforeYear(y) + DaysBeforeMonth(y, m) + date - 1
  {
    assert m / 12 == 0 && m % 12 == m;
  }

  function NextMonth(c: Civil): Civil {
    if c.month == 11 then Civil(c.year + 1, 0, c.date) else Civil(c.year, c.month + 1, c.date)
  }

  lemma DaysBeforeMonthStep(y: int, m: int)
    requires 0 <= m < 12
    ensures DaysBeforeMonth(y, m + 1) == DaysBeforeMonth(y, m) + DaysInMonth(y, m)
  {
  }

  lemma NextMonthInYear(y: int, m: int, date: int)
    requires 0 <= m < 11
    ensures DayOf(Civil(y, m + 1, date)) == MakeDay(y, m, date + DaysInMonth(y, m))
  {
    MakeDayInYear(y, m, date + DaysInMonth(y, m));
    MakeDayInYear(y, m + 1, date);
    DaysBeforeMonthStep(y, m);
  }

  lemma NextMonthNewYear(y: int, date: int)
    ensures DayOf(Civil(y + 1, 0, date)) == MakeDay(y, 11, date + 31)
  {
    MakeDayInYear(y, 11, date + 31);
    MakeDayInYear(y + 1, 0, date);
    DaysBeforeNextYear(y);
    assert DaysBeforeMonth(y, 11) + 31 == DaysInYear(y);
  }

  /** Day `date + DaysInMonth(y, m)` of month `m` is day `date` of the month after. */
  lemma MakeDayNextMonth(y: int, m: int, date: int)
    requires 0 <= m < 12
    ensures DayOf(NextMonth(Civil(y, m, date))) == MakeDay(y, m, date + DaysInMonth(y, m))
  {
    if m == 11 {
      NextMonthNewYear(y, date);
    } else {
      NextMonthInYear(y, m, date);
    }
  }

  /** The date `date` days after the day before the first of month `month` of
      `year`, rolled over month by month into a valid calendar date. */
  function Normalize(year: int, month: int, date: int): (c: Civil)
    requires 0 <= month < 12
    ensures ValidCivil(c)
    ensures DayOf(c) == MakeDay(year, month, date)
    decreases if date < 1 then 1 - date else 0, date
  {
    if date < 1 then
      var y := if month == 0 then year - 1 else year;
      var m := if month == 0 then 11 else month - 1;
      MakeDayNextMonth(y, m, date);
      assert NextMonth(Civil(y, m, date)) == Civil(year, month, date);
      Normalize(y, m, date + DaysInMonth(y, m))
    else if date > DaysInMonth(year, month) then
      var next := NextMonth(Civil(year, month, date - DaysInMonth(year, month)));
      MakeDayNextMonth(year, month, date - DaysInMonth(year, month));
      Normalize(next.year, next.month, next.date)
    else
      Civil(year, month, date)
  }

  /** January of 1970 starts at day number 0. */
  lemma EpochDay(date: int)
    ensures MakeDay(1970, 0, date) == date - 1
  {
    assert DaysBeforeYear(1970) == 0;
    MakeDayInYear(1970, 0, date);
  }

  /** The calendar date of day number `day` (YearFromTime, MonthFromTime and
      DateFromTime of ECMAScript). */
  function CivilFromDays(day: int): (c: Civil)
    ensures ValidCivil(c) && DayOf(c) == day
  {
    EpochDay(day + 1);
    Normalize(1970, 0, day + 1)
  }

  lemma {:induction false} DaysBeforeYearGrows(a: int, b: int)
    requires a <= b
    ensures DaysBeforeYear(b) - DaysBeforeYear(a) >= 365 * (b - a)
    decreases b - a
  {
    if a < b {
      DaysBeforeYearGrows(a, b - 1);
      DaysBeforeNextYear(b - 1);
    }
  }

  lemma {:induction false} DaysBeforeMonthGrows(y: int, i: int, j: int)
    requires 0 <= i <= j <= 12
    ensures DaysBeforeMonth(y, i) + 28 * (j - i) <= DaysBeforeMonth(y, j)
    decreases j - i
  {
    if i < j {
      DaysBeforeMonthGrows(y, i, j - 1);
      DaysBeforeMonthStep(y, j - 1);
    }
  }

  /** A valid date lies within its month, and its month within its year. */
  lemma DayOfBounds(c: Civil)
    requires ValidCivil(c)
    ensures DaysBeforeYear(c.year) + DaysBeforeMonth(c.year, c.month) <= DayOf(c)
    ensures DayOf(c) < DaysBeforeYear(c.year) + DaysBeforeMonth(c.year, c.month + 1)
    ensures DaysBeforeYear(c.year) <= DayOf(c) < DaysBeforeYear(c.year + 1)
  {
    MakeDayInYear(c.year, c.month, c.date);
    DaysBeforeMonthStep(c.year, c.month);
    DaysBeforeMonthGrows(c.year, c.month + 1, 12);
    DaysBeforeNextYear(c.year);
  }

  /** A valid date of an earlier year has a smaller day number. */
  lemma EarlierYearEarlierDay(a: Civil, b: Civil)
    requires ValidCivil(a) && ValidCivil(b) && a.year < b.year
    ensures DayOf(a) < DayOf(b)
  {
    DayOfBounds(a);
    DayOfBounds(b);
    DaysBeforeYearGrows(a.year + 1, b.year);
  }

  /** A valid date of an earlier month of the same year has a smaller day number. */
  lemma EarlierMonthEarlierDay(a: Civil, b: Civil)
    requires ValidCivil(a) && ValidCivil(b) && a.year == b.year && a.month < b.month
    ensures DayOf(a) < DayOf(b)
  {
    DayOfBounds(a);
    DayOfBounds(b);
    DaysBeforeMonthGrows(a.year, a.month + 1, b.month);
  }

  /** Distinct valid dates have distinct day numbers. */
  lemma DayOfInjective(a: Civil, b: Civil)
    requires ValidCivil(a) && ValidCivil(b) && DayOf(a) == DayOf(b)
    ensures a == b
  {
    if a.year < b.year {
      EarlierYearEarlierDay(a, b);
    } else if b.year < a.year {
      EarlierYearEarlierDay(b, a);
    } else if a.month < b.month {
      EarlierMonthEarlierDay(a, b);
    } else if b.month < a.month {
      EarlierMonthEarlierDay(b, a);
    } else {
      MakeDayInYear(a.year, a.month, a.date);
      MakeDayInYear(b.year, b.month, b.date);
    }
  }

  /** CivilFromDays recovers every valid date from its day number. */
  lemma CivilFromDayOf(c: Civil)
    requires ValidCivil(c)
    ensures CivilFromDays(DayOf(c)) == c
  {
    DayOfInjective(CivilFromDays(DayOf(c)), c);
  }

  /** The date of a day number given by any expression equal to it. */
  lemma CivilFromDayIs(c: Civil, day: int)
    requires ValidCivil(c) && day == DayOf(c)
    ensures CivilFromDays(day) == c
  {
    CivilFromDayOf(c);
  }

  function Day(t: int): int {
    t / MsPerDay
  }

  function TimeWithinDay(t: int): int {
    t % MsPerDay
  }

  function YearFromTime(t: int): int {
    CivilFromDays(Day(t)).year
  }

  function MonthFromTime(t: int): int {
    CivilFromDays(Day(t)).month
  }

  function DateFromTime(t: int): int {
    CivilFromDays(Day(t)).date
  }

  /** `getDay()`: 0 is Sunday; 1970-01-01 was a Thursday. */
  function WeekDay(t: int): int {
    (Day(t) + 4) % 7
  }

  /** `getHours()`. */
  function HourFromTime(t: int): int {
    (t / MsPerHour) % 24
  }

  /** `getMinutes()`. */
  function MinFromTime(t: int): int {
    (t / MsPerMinute) % 60
  }

  /** `setMonth(month)`: same year, date of the month and time of day, with
      ECMAScript's roll-over when that date does not exist in the new month. */
  function SetMonth(t: int, month: int): int {
    MakeDate(MakeDay(YearFromTime(t), month, DateFromTime(t)), TimeWithinDay(t))
  }

  /** `setFullYear(year)`: same month, date of the month and time of day. */
  function SetFullYear(t: int, year: int): int {
    MakeDate(MakeDay(year, MonthFromTime(t), DateFromTime(t)), TimeWithinDay(t))
  }

  /** The clock fields of `hour:minute:00` on day `day`. */
  lemma ClockOf(day: int, hour: int, minute: int)
    requires 0 <= hour < 24 && 0 <= minute < 60
    ensures Day(MakeDate(day, MakeTime(hour, minute, 0))) == day
    ensures HourFromTime(MakeDate(day, MakeTime(hour, minute, 0))) == hour
    ensures MinFromTime(MakeDate(day, MakeTime(hour, minute, 0))) == minute
  {
    var t := MakeDate(day, MakeTime(hour, minute, 0));
    assert t == (day * 24 + hour) * MsPerHour + minute * MsPerMinute;
    assert t / MsPerHour == day * 24 + hour;
    assert t == ((day * 24 + hour) * 60 + minute) * MsPerMinute;
    assert t / MsPerMinute == (day * 24 + hour) * 60 + minute;
  }

  /** Moving a time value to day `d` at the same time of day. */
  lemma ShiftToDay(t: int, d: int)
    ensures MakeDate(d, TimeWithinDay(t)) - t == (d - Day(t)) * MsPerDay
    ensures Day(MakeDate(d, TimeWithinDay(t))) == d
    ensures TimeWithinDay(MakeDate(d, TimeWithinDay(t))) == TimeWithinDay(t)
  {
    assert t == Day(t) * MsPerDay + TimeWithinDay(t);
  }

  /** Three consecutive months starting at month `m` of year `y` last 89 to 92 days. */
  lemma ThreeMonthSpan(y: int, m: int, date: int)
    requires 0 <= m < 12
    ensures 89 <= MakeDay(y, m + 3, date) - MakeDay(y, m, date) <= 92
  {
    assert m / 12 == 0 && m % 12 == m;
    if m + 3 >= 12 {
      assert (m + 3) / 12 == 1 && (m + 3) % 12 == m - 9;
      DaysBeforeNextYear(y);
    } else {
      assert (m + 3) / 12 == 0 && (m + 3) % 12 == m + 3;
    }
  }

  /** The same month of the next year starts 365 or 366 days later. */
  lemma OneYearSpan(y: int, m: int, date: int)
    requires 0 <= m < 12
    ensures 365 <= MakeDay(y + 1, m, date) - MakeDay(y, m, date) <= 366
  {
    assert m / 12 == 0 && m % 12 == m;
    DaysBeforeNextYear(y);
  }

  /** A span of `lo` to `hi` days, in milliseconds. */
  lemma DaysToMs(days: int, lo: int, hi: int)
    requires lo <= days <= hi
    ensures lo * MsPerDay <= days * MsPerDay <= hi * MsPerDay
  {
  }

  /** Three months after a valid date, when its date of the month exists there. */
  lemma ThreeMonthsLater(c: Civil)
    requires ValidCivil(c)
    ensures var target := Civil(c.year + (c.month + 3) / 12, (c.month + 3) % 12, c.date);
            MakeDay(c.year, c.month + 3, c.date) == DayOf(target)
  {
    var target := Civil(c.year + (c.month + 3) / 12, (c.month + 3) % 12, c.date);
    MakeDayInYear(target.year, target.month, c.date);
    if c.month + 3 < 12 {
      assert (c.month + 3) / 12 == 0 && (c.month + 3) % 12 == c.month + 3;
    } else {
      assert (c.month + 3) / 12 == 1 && (c.month + 3) % 12 == c.month - 9;
    }
  }

  /** `setMonth(getMonth() + 3)` lands `d - Day(t)` days later at the same time
      of day, where `d` is MakeDay of the month three months on. */
  lemma ThreeMonthsShift(t: int)
    ensures var c := CivilFromDays(Day(t));
            var d := MakeDay(c.year, c.month + 3, c.date);
            && SetMonth(t, MonthFromTime(t) + 3) == MakeDate(d, TimeWithinDay(t))
            && Day(SetMonth(t, MonthFromTime(t) + 3)) == d
            && TimeWithinDay(SetMonth(t, MonthFromTime(t) + 3)) == TimeWithinDay(t)
  {
    var c := CivilFromDays(Day(t));
    ShiftToDay(t, MakeDay(c.year, c.month + 3, c.date));
  }

  /** The date part of AddThreeMonths, for the day number `r` it lands on. */
  lemma ThreeMonthsDate(c: Civil, r: int)
    requires ValidCivil(c)
    requires r == MakeDay(c.year, c.month + 3, c.date)
    requires ValidCivil(Civil(c.year + (c.month + 3) / 12, (c.month + 3) % 12, c.date))
    ensures CivilFromDays(r) == Civil(c.year + (c.month + 3) / 12, (c.month + 3) % 12, c.date)
  {
    ThreeMonthsLater(c);
    CivilFromDayIs(Civil(c.year + (c.month + 3) / 12, (c.month + 3) % 12, c.date), r);
  }

  lemma ThreeMonthsSpanMs(t: int)
    ensures 89 * MsPerDay <= SetMonth(t, MonthFromTime(t) + 3) - t <= 92 * MsPerDay
  {
    var c := CivilFromDays(Day(t));
    var d := MakeDay(c.year, c.month + 3, c.date);
    ThreeMonthsShift(t);
    ShiftToDay(t, d);
    ThreeMonthSpan(c.year, c.month, c.date);
    DaysToMs(d - Day(t), 89, 92);
  }

  lemma ThreeMonthsTarget(t: int, c: Civil)
    requires c == CivilFromDays(Day(t))
    requires ValidCivil(Civil(c.year + (c.month + 3) / 12, (c.month + 3) % 12, c.date))
    ensures CivilFromDays(Day(SetMonth(t, c.month + 3))) == Civil(c.year + (c.month + 3) / 12, (c.month + 3) % 12, c.date)
  {
    var d := MakeDay(c.year, c.month + 3, c.date);
    ThreeMonthsShift(t);
    ThreeMonthsDate(c, d);
    assert Day(SetMonth(t, c.month + 3)) == d;
  }

  /** `setMonth(getMonth() + 3)` moves a time value 89 to 92 days forward and
      keeps its time of day; when the date of the month exists three months
      later, the result falls on that date. */
  lemma AddThreeMonths(t: int)
    ensures 89 * MsPerDay <= SetMonth(t, MonthFromTime(t) + 3) - t <= 92 * MsPerDay
    ensures TimeWithinDay(SetMonth(t, MonthFromTime(t) + 3)) == TimeWithinDay(t)
    ensures var c := CivilFromDays(Day(t));
            var target := Civil(c.year + (c.month + 3) / 12, (c.month + 3) % 12, c.date);
            ValidCivil(target) ==>
              CivilFromDays(Day(SetMonth(t, MonthFromTime(t) + 3))) == target
  {
    ThreeMonthsSpanMs(t);
    ThreeMonthsShift(t);
    var c := CivilFromDays(Day(t));
    if ValidCivil(Civil(c.year + (c.month + 3) / 12, (c.month + 3) % 12, c.date)) {
      ThreeMonthsTarget(t, c);
    }
  }

  /** `setFullYear(getFullYear() + 1)` lands `d - Day(t)` days later at the same
      time of day, where `d` is MakeDay of the same month and date next year. */
  lemma OneYearShift(t: int)
    ensures var c := CivilFromDays(Day(t));
            var d := MakeDay(c.year + 1, c.month, c.date);
            && SetFullYear(t, YearFromTime(t) + 1) == MakeDate(d, TimeWithinDay(t))
            && Day(SetFullYear(t, YearFromTime(t) + 1)) == d
            && TimeWithinDay(SetFullYear(t, YearFromTime(t) + 1)) == TimeWithinDay(t)
  {
    var c := CivilFromDays(Day(t));
    ShiftToDay(t, MakeDay(c.year + 1, c.month, c.date));
  }

  lemma OneYearSpanMs(t: int)
    ensures 365 * MsPerDay <= SetFullYear(t, YearFromTime(t) + 1) - t <= 366 * MsPerDay
  {
    var c := CivilFromDays(Day(t));
    var d := MakeDay(c.year + 1, c.month, c.date);
    OneYearShift(t);
    ShiftToDay(t, d);
    OneYearSpan(c.year, c.month, c.date);
    DaysToMs(d - Day(t), 365, 366);
  }

  lemma OneYearTarget(t: int, c: Civil)
    requires c == CivilFromDays(Day(t))
    requires ValidCivil(Civil(c.year + 1, c.month, c.date))
    ensures CivilFromDays(Day(SetFullYear(t, c.year + 1))) == Civil(c.year + 1, c.month, c.date)
  {
    var d := MakeDay(c.year + 1, c.month, c.date);
    OneYearShift(t);
    assert Day(SetFullYear(t, c.year + 1)) == d;
    CivilFromDayIs(Civil(c.year + 1, c.month, c.date), d);
  }

  /** `setFullYear(getFullYear() + 1)` moves a time value 365 or 366 days forward
      and keeps its time of day; unless the date is February 29th, the result
      falls on the same month and date of the next year. */
  lemma AddOneYear(t: int)
    ensures 365 * MsPerDay <= SetFullYear(t, YearFromTime(t) + 1) - t <= 366 * MsPerDay
    ensures TimeWithinDay(SetFullYear(t, YearFromTime(t) + 1)) == TimeWithinDay(t)
    ensures var c := CivilFromDays(Day(t));
            var target := Civil(c.year + 1, c.month, c.date);
            ValidCivil(target) ==>
              CivilFromDays(Day(SetFullYear(t, YearFromTime(t) + 1))) == target
  {
    OneYearSpanMs(t);
    OneYearShift(t);
    var c := CivilFromDays(Day(t));
    if ValidCivil(Civil(c.year + 1, c.month, c.date)) {
      OneYearTarget(t, c);
    }
  }
}

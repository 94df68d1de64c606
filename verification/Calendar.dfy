/** Calendar arithmetic: days of a month, moving a date by a time zone's offset, and finding the offset
    of a time zone from two broken-down times. */
module Calendar {

  /** getDaysPerMonth: 0 for what is no month. */
  function DaysPerMonth(year: int, month: int): int {
    if month == 2 then
      if year % 4 == 0 then
        if year % 100 == 0 then if year % 400 == 0 then 29 else 28
        else 29
      else 28
    else if month == 4 || month == 6 || month == 9 || month == 11 then 30
    else if 1 <= month <= 12 then 31
    else 0
  }

  datatype Date = Date(year: int, month: int, day: int)

  predicate IsDate(d: Date) {
    1 <= d.month <= 12 && 1 <= d.day <= DaysPerMonth(d.year, d.month)
  }

  // ----- counting days -------------------------------------------------------------------

  function DaysBeforeYear(year: int): int {
    var y := year - 1;
    365 * y + y / 4 - y / 100 + y / 400
  }

  function DaysBeforeMonth(year: int, month: int): int {
    if month <= 1 then 0 else DaysBeforeMonth(year, month - 1) + DaysPerMonth(year, month - 1)
  }

  /** Day 1 is 1 January of the year 1. */
  function DayNumber(d: Date): int {
    DaysBeforeYear(d.year) + DaysBeforeMonth(d.year, d.month) + d.day
  }

  function DaysPerYear(year: int): int {
    if year % 4 == 0 && (year % 100 != 0 || year % 400 == 0) then 366 else 365
  }

  lemma YearLength(year: int)
    ensures DaysBeforeYear(year + 1) == DaysBeforeYear(year) + DaysPerYear(year)
    ensures DaysBeforeMonth(year, 12) + DaysPerMonth(year, 12) == DaysPerYear(year)
  {
    YearsDiffer(year);
    MonthsOfYear(year);
    FebruaryLength(year);
  }

  lemma YearsDiffer(year: int)
    ensures DaysBeforeYear(year + 1) == DaysBeforeYear(year) + DaysPerYear(year)
  {
    QuotientSteps(year, 4);
    QuotientSteps(year, 100);
    QuotientSteps(year, 400);
    MultiplesOf400(year);
    var y := year - 1;
    assert DaysBeforeYear(year) == 365 * y + y / 4 - y / 100 + y / 400;
    assert DaysBeforeYear(year + 1) == 365 * year + year / 4 - year / 100 + year / 400;
  }

  lemma MultiplesOf400(year: int)
    ensures year % 400 == 0 ==> year % 100 == 0
    ensures year % 100 == 0 ==> year % 4 == 0
  {
  }

  lemma FebruaryLength(year: int)
    ensures DaysPerYear(year) == 337 + DaysPerMonth(year, 2)
  {
  }

  lemma MonthsOfYear(year: int)
    ensures DaysBeforeMonth(year, 12) == 306 + DaysPerMonth(year, 2)
  {
    var february := DaysPerMonth(year, 2);
    assert DaysBeforeMonth(year, 2) == 31;
    assert DaysBeforeMonth(year, 3) == 31 + february;
    assert DaysBeforeMonth(year, 4) == 62 + february;
    assert DaysBeforeMonth(year, 5) == 92 + february;
    assert DaysBeforeMonth(year, 6) == 123 + february;
    assert DaysBeforeMonth(year, 7) == 153 + february;
    assert DaysBeforeMonth(year, 8) == 184 + february;
    assert DaysBeforeMonth(year, 9) == 215 + february;
    assert DaysBeforeMonth(year, 10) == 245 + february;
    assert DaysBeforeMonth(year, 11) == 276 + february;
  }

  /** The length of a month as almanacs give it, and nothing for what is no month. */
  lemma MonthLength(year: int, month: int)
    ensures DaysPerMonth(year, month) ==
            if month < 1 || month > 12 then 0
            else if month == 2 then DaysPerYear(year) - 337
            else 30 + (month + month / 8) % 2
  {
    FebruaryLength(year);
  }

  /** The day number by a formula that counts years from March, so that the leap day comes last. */
  lemma DayNumberIsGregorian(d: Date)
    requires IsDate(d)
    ensures var y, m := if d.month <= 2 then d.year - 1 else d.year, (d.month + 9) % 12;
            DayNumber(d) == 365 * y + y / 4 - y / 100 + y / 400 + (153 * m + 2) / 5 + d.day - 306
  {
    DaysBeforeEachMonth(d.year, d.month);
    if d.month > 2 {
      YearsDiffer(d.year);
      FebruaryLength(d.year);
    }
  }

  lemma {:induction false} DaysBeforeEachMonth(year: int, month: int)
    requires 1 <= month <= 12
    ensures DaysBeforeMonth(year, month) ==
            (153 * ((month + 9) % 12) + 2) / 5 - 306 + if month <= 2 then 0 else 337 + DaysPerMonth(year, 2)
  {
    assert DaysBeforeMonth(year, 2) == 31;
    assert DaysBeforeMonth(year, 3) == 31 + DaysPerMonth(year, 2);
    if month > 3 {
      DaysBeforeEachMonth(year, month - 1);
    }
  }

  lemma QuotientSteps(year: int, n: int)
    requires n == 4 || n == 100 || n == 400
    ensures year / n - (year - 1) / n == if year % n == 0 then 1 else 0
  {
  }

  lemma {:induction false} YearsGrow(y: int, z: int)
    requires y < z
    ensures DaysBeforeYear(y) + DaysPerYear(y) <= DaysBeforeYear(z)
    decreases z - y
  {
    YearLength(y);
    if y + 1 < z {
      YearsGrow(y + 1, z);
    }
  }

  lemma {:induction false} MonthsGrow(year: int, m: int, n: int)
    requires 1 <= m < n <= 12
    ensures DaysBeforeMonth(year, m) + DaysPerMonth(year, m) <= DaysBeforeMonth(year, n)
    decreases n - m
  {
    if m < n - 1 {
      MonthsGrow(year, m, n - 1);
    }
  }

  lemma DayInYear(d: Date)
    requires IsDate(d)
    ensures 1 <= DaysBeforeMonth(d.year, d.month) + d.day <= DaysPerYear(d.year)
  {
    YearLength(d.year);
    if d.month < 12 {
      MonthsGrow(d.year, d.month, 12);
    }
    if 1 < d.month {
      MonthsGrow(d.year, 1, d.month);
    }
  }

  predicate Before(d: Date, e: Date) {
    d.year < e.year || (d.year == e.year && (d.month < e.month || (d.month == e.month && d.day < e.day)))
  }

  /** Dates are numbered in their order. */
  lemma DayNumbersGrow(d: Date, e: Date)
    requires IsDate(d) && IsDate(e) && Before(d, e)
    ensures DayNumber(d) < DayNumber(e)
  {
    DayInYear(d);
    DayInYear(e);
    if d.year < e.year {
      YearsGrow(d.year, e.year);
    } else if d.month < e.month {
      MonthsGrow(d.year, d.month, e.month);
    }
  }

  lemma DayNumberIsUnique(d: Date, e: Date)
    requires IsDate(d) && IsDate(e) && DayNumber(d) == DayNumber(e)
    ensures d == e
  {
    if Before(d, e) {
      DayNumbersGrow(d, e);
    } else if Before(e, d) {
      DayNumbersGrow(e, d);
    }
  }

  function NextDay(d: Date): Date {
    if d.day < DaysPerMonth(d.year, d.month) then d.(day := d.day + 1)
    else if d.month < 12 then Date(d.year, d.month + 1, 1)
    else Date(d.year + 1, 1, 1)
  }

  lemma NextDayIsNext(d: Date)
    requires IsDate(d)
    ensures IsDate(NextDay(d)) && DayNumber(NextDay(d)) == DayNumber(d) + 1
  {
    YearLength(d.year);
  }

  // ----- time zones ----------------------------------------------------------------------

  /** The hours since the start of day 0. */
  function Instant(d: Date, hour: int): int {
    24 * DayNumber(d) + hour
  }

  /** The case that adjustTimeForTimeZone does not handle. */
  predicate LeavesTheYear(offset: int, d: Date, hour: int) {
    hour < offset && d.month == 1 && d.day == 1
  }

  /** adjustTimeForTimeZone, from local time to UTC. The offsets of its caller are at most 12 hours; a day
      is as far as it gets. */
  method AdjustTimeForTimeZone(offset: int, year0: int, month0: int, day0: int, hour0: int)
    returns (year: int, month: int, day: int, hour: int)
    requires IsDate(Date(year0, month0, day0)) && 0 <= hour0 < 24
    requires -24 <= offset <= 24
    ensures LeavesTheYear(offset, Date(year0, month0, day0), hour0) ==>
              (year, month, day, hour) == (year0 - 1, 12, 0, hour0 - offset + 24)
    ensures !LeavesTheYear(offset, Date(year0, month0, day0), hour0) ==>
              && IsDate(Date(year, month, day)) && 0 <= hour < 24
              && Instant(Date(year, month, day), hour) == Instant(Date(year0, month0, day0), hour0) - offset
  {
    year, month, day, hour := year0, month0, day0, hour0;
    YearLength(year0);
    YearLength(year0 - 1);
    if offset < 0 {
      hour := hour - offset;
      if hour > 23 {
        day := day + 1;
        hour := hour - 24;
      }
      if day > DaysPerMonth(year, month) {
        month := month + 1;
        day := 1;
      }
      if month > 12 {
        month := month - 12;
        year := year + 1;
      }
    } else if offset > 0 {
      hour := hour - offset;
      if hour < 0 {
        day := day - 1;
        hour := hour + 24;
      }
      if day < 1 {
        month := month - 1;
        day := day + DaysPerMonth(year, month);
      }
      if month < 1 {
        month := month + 12;
        year := year - 1;
      }
    }
  }

  /** What the unhandled case yields is off by a whole month: its instant is that of 30 November. */
  lemma LeavingTheYearLosesAMonth(offset: int, year: int, hour: int)
    requires LeavesTheYear(offset, Date(year, 1, 1), hour)
    ensures !IsDate(Date(year - 1, 12, 0))
    ensures Instant(Date(year - 1, 12, 0), hour - offset + 24) ==
            Instant(Date(year, 1, 1), hour) - offset - 24 * 31
  {
    YearLength(year - 1);
  }

  // ----- finding the offset --------------------------------------------------------------

  datatype BrokenDown = BrokenDown(date: Date, hour: int, min: int)

  predicate IsTime(t: BrokenDown) {
    IsDate(t.date) && 0 <= t.hour < 24 && 0 <= t.min < 60
  }

  function Minutes(t: BrokenDown): int {
    60 * Instant(t.date, t.hour) + t.min
  }

  /** localTimeAndOffset: it looks at the day of the month, but not at the month or the year. */
  function OffsetBetween(loc: BrokenDown, utc: BrokenDown): int {
    var minDiff := (loc.min - utc.min) + 60 * (loc.hour - utc.hour);
    var dayDiff := loc.date.day - utc.date.day;
    var oneDay := 24 * 60;
    if dayDiff == 0 then minDiff
    else if dayDiff == 1 || dayDiff < -1 then minDiff + oneDay
    else minDiff - oneDay
  }

  lemma NextDayOfMonth(d: Date)
    requires IsDate(d)
    ensures var diff := NextDay(d).day - d.day; diff == 1 || diff < -1
  {
  }

  /** For offsets under a day the result is the true offset, across the ends of months and years. */
  lemma OffsetIsTrue(loc: BrokenDown, utc: BrokenDown)
    requires IsTime(loc) && IsTime(utc)
    requires -24 * 60 < Minutes(loc) - Minutes(utc) < 24 * 60
    ensures OffsetBetween(loc, utc) == Minutes(loc) - Minutes(utc)
  {
    var days := DayNumber(loc.date) - DayNumber(utc.date);
    assert -1 <= days <= 1;
    if days == 0 {
      DayNumberIsUnique(loc.date, utc.date);
    } else if days == 1 {
      NextDayIsNext(utc.date);
      DayNumberIsUnique(loc.date, NextDay(utc.date));
      NextDayOfMonth(utc.date);
    } else {
      NextDayIsNext(loc.date);
      DayNumberIsUnique(utc.date, NextDay(loc.date));
      NextDayOfMonth(loc.date);
    }
  }
}

/**
 * Start and end of the day, week, month and year containing a date, computed on
 * a local wall-clock civil date as JavaScript's `Date` sees it (proleptic
 * Gregorian calendar, months numbered 0 to 11, weeks starting on Sunday).
 */
module DateUtils {

  const MsPerDay := 86400000
  /** 23:59:59.999 as milliseconds since midnight. */
  const LastMsOfDay := 86399999

  datatype Range = Day | Week | Month | Year

  /** A local date-time: year, month 0-11, day of the month and milliseconds since midnight. */
  datatype LocalDateTime = LocalDateTime(year: int, month: int, day: int, msOfDay: int)

  predicate IsLeapYear(y: int) {
    y % 4 == 0 && (y % 100 != 0 || y % 400 == 0)
  }

  function DaysInMonth(y: int, m: int): int
    requires 0 <= m < 12
  {
    if m == 1 then (if IsLeapYear(y) then 29 else 28)
    else if m == 3 || m == 5 || m == 8 || m == 10 then 30
    else 31
  }

  predicate ValidDate(d: LocalDateTime) {
    0 <= d.month < 12 && 1 <= d.day <= DaysInMonth(d.year, d.month) && 0 <= d.msOfDay < MsPerDay
  }

  function DaysInYear(y: int): int {
    if IsLeapYear(y) then 366 else 365
  }

  /** Days from 1 January 1970 to 1 January of year `y` (negative before 1970). */
  function DaysBeforeYear(y: int): int
    decreases if y < 1970 then 1970 - y else y - 1970
  {
    if y == 1970 then 0
    else if y > 1970 then DaysBeforeYear(y - 1) + DaysInYear(y - 1)
    else DaysBeforeYear(y + 1) - DaysInYear(y)
  }

  /** Days from 1 January to the first day of month `m` of year `y`. */
  function DaysBeforeMonth(y: int, m: int): (r: int)
    requires 0 <= m <= 12
    ensures 0 <= r
  {
    if m == 0 then 0 else DaysBeforeMonth(y, m - 1) + DaysInMonth(y, m - 1)
  }

  /** Days from 1 January 1970 to day `day` of month `m` of year `y`. */
  function DayNumber(y: int, m: int, day: int): int
    requires 0 <= m < 12
  {
    DaysBeforeYear(y) + DaysBeforeMonth(y, m) + day - 1
  }

  function DayOf(d: LocalDateTime): int
    requires 0 <= d.month < 12
  {
    DayNumber(d.year, d.month, d.day)
  }

  /** `getDay()`: 0 for Sunday to 6 for Saturday; 1 January 1970 was a Thursday. */
  function Weekday(d: LocalDateTime): int
    requires 0 <= d.month < 12
  {
    (DayOf(d) + 4) % 7
  }

  /** Milliseconds since 1 January 1970 00:00 local time; `Date` values compare by it. */
  function Timestamp(d: LocalDateTime): int
    requires 0 <= d.month < 12
  {
    DayOf(d) * MsPerDay + d.msOfDay
  }

  lemma YearStep(y: int)
    ensures DaysBeforeYear(y + 1) == DaysBeforeYear(y) + DaysInYear(y)
  {
  }

  /** The twelve months fill the year. */
  lemma MonthsFillYear(y: int)
    ensures DaysBeforeMonth(y, 11) + DaysInMonth(y, 11) == DaysInYear(y)
  {
    assert DaysBeforeMonth(y, 1) == 31;
    assert DaysBeforeMonth(y, 2) == 31 + DaysInMonth(y, 1);
    assert DaysBeforeMonth(y, 3) == 62 + DaysInMonth(y, 1);
    assert DaysBeforeMonth(y, 4) == 92 + DaysInMonth(y, 1);
    assert DaysBeforeMonth(y, 5) == 123 + DaysInMonth(y, 1);
    assert DaysBeforeMonth(y, 6) == 153 + DaysInMonth(y, 1);
    assert DaysBeforeMonth(y, 7) == 184 + DaysInMonth(y, 1);
    assert DaysBeforeMonth(y, 8) == 215 + DaysInMonth(y, 1);
    assert DaysBeforeMonth(y, 9) == 245 + DaysInMonth(y, 1);
    assert DaysBeforeMonth(y, 10) == 276 + DaysInMonth(y, 1);
    assert DaysBeforeMonth(y, 11) == 306 + DaysInMonth(y, 1);
  }

  /** The first day of the month after (y, m) comes `DaysInMonth(y, m)` days after the first of (y, m). */
  lemma NextMonthStart(y: int, m: int)
    requires 0 <= m < 12
    ensures var n := NextMonth(y, m); DayNumber(n.0, n.1, 1) == DayNumber(y, m, 1) + DaysInMonth(y, m)
  {
    if m == 11 {
      YearStep(y);
      MonthsFillYear(y);
    }
  }

  function NextMonth(y: int, m: int): (int, int)
    requires 0 <= m < 12
  {
    if m == 11 then (y + 1, 0) else (y, m + 1)
  }

  function PreviousMonth(y: int, m: int): (r: (int, int))
    requires 0 <= m < 12
    ensures 0 <= r.1 < 12 && NextMonth(r.0, r.1) == (y, m)
  {
    if m == 0 then (y - 1, 11) else (y, m - 1)
  }

  /**
   * Day `k` of month `m` of year `y` at midnight, where `k` may lie outside the
   * month: day 0 is the last day of the month before, day 32 of January is
   * 1 February, as `setDate` and the `Date` constructor normalise it.
   */
  function DateOfDayInMonth(y: int, m: int, k: int): (r: LocalDateTime)
    requires 0 <= m < 12
    ensures ValidDate(r) && r.msOfDay == 0
    ensures DayOf(r) == DayNumber(y, m, 1) + k - 1
    decreases if k < 1 then 1 else 0, if k < 1 then -k else k
  {
    if k < 1 then
      var p := PreviousMonth(y, m);
      var k' := k + DaysInMonth(p.0, p.1);
      var r := DateOfDayInMonth(p.0, p.1, k');
      NextMonthStart(p.0, p.1);
      r
    else if k > DaysInMonth(y, m) then
      var n := NextMonth(y, m);
      var k' := k - DaysInMonth(y, m);
      var r := DateOfDayInMonth(n.0, n.1, k');
      NextMonthStart(y, m);
      r
    else
      LocalDateTime(y, m, k, 0)
  }

  /** The year argument of `new Date(y, m, k)`: a year from 0 to 99 is read as
      1900 + y, any other year as it is. */
  function FullYear(y: int): (r: int)
    ensures !(0 <= r <= 99)
    ensures !(0 <= y <= 99) ==> r == y
  {
    if 0 <= y <= 99 then 1900 + y else y
  }

  /** Day `k` of month `m` of year `y`, the month carried into the year first
      (month 12 is January of the next year), then the day into the months. */
  function CarryDate(y: int, m: int, k: int): LocalDateTime {
    if 0 <= m < 12 then DateOfDayInMonth(y, m, k)
    else DateOfDayInMonth(y + m / 12, m % 12, k)
  }

  /** `new Date(y, m, k)`. */
  function MakeDate(y: int, m: int, k: int): LocalDateTime {
    CarryDate(FullYear(y), m, k)
  }

  /** `getStartOf(date, range)`, on a copy of `d`. */
  function GetStartOf(d: LocalDateTime, range: Range): (r: LocalDateTime)
    requires ValidDate(d)
    ensures ValidDate(r)
  {
    match range
    case Day => d.(msOfDay := 0)
    case Week => DateOfDayInMonth(d.year, d.month, d.day - Weekday(d))
    case Month => MakeDate(d.year, d.month, 1)
    case Year => MakeDate(d.year, 0, 1)
  }

  /** `getEndOf(date, range)`, on a copy of `d`. */
  function GetEndOf(d: LocalDateTime, range: Range): (r: LocalDateTime)
    requires ValidDate(d)
    ensures ValidDate(r)
  {
    match range
    case Day => d.(msOfDay := LastMsOfDay)
    case Week => DateOfDayInMonth(d.year, d.month, d.day - Weekday(d) + 6).(msOfDay := LastMsOfDay)
    case Month => MakeDate(d.year, d.month + 1, 0)
    case Year => MakeDate(d.year, 11, 31)
  }

  /** DAY: the same calendar date from 00:00:00.000 to 23:59:59.999, around `d`. */
  lemma DayRange(d: LocalDateTime)
    requires ValidDate(d)
    ensures var s, e := GetStartOf(d, Day), GetEndOf(d, Day);
      s == LocalDateTime(d.year, d.month, d.day, 0)
      && e == LocalDateTime(d.year, d.month, d.day, LastMsOfDay)
      && Timestamp(s) <= Timestamp(d) <= Timestamp(e)
  {
  }

  /** WEEK: from the Sunday on or before `d` at midnight to the Saturday six days
      later at 23:59:59.999; `d` lies in between. */
  lemma WeekRange(d: LocalDateTime)
    requires ValidDate(d)
    ensures var s, e := GetStartOf(d, Week), GetEndOf(d, Week);
      Weekday(s) == 0 && s.msOfDay == 0
      && DayOf(s) <= DayOf(d) < DayOf(s) + 7
      && Weekday(e) == 6 && e.msOfDay == LastMsOfDay
      && DayOf(e) == DayOf(s) + 6
      && Timestamp(s) <= Timestamp(d) <= Timestamp(e)
  {
    var x := DayOf(d) + 4;
    var w := Weekday(d);
    assert w == x % 7;
    assert (x - x % 7) % 7 == 0;
    assert (x - x % 7 + 6) % 7 == 6;
  }

  /** Days before month `m` increase with `m` by at least the length of each month passed. */
  lemma {:induction false} DaysBeforeMonthGrows(y: int, m: int, n: int)
    requires 0 <= m < n <= 12
    ensures DaysBeforeMonth(y, m) + DaysInMonth(y, m) <= DaysBeforeMonth(y, n)
  {
    if n > m + 1 {
      DaysBeforeMonthGrows(y, m, n - 1);
    }
  }

  /** MONTH: from the 1st of `d`'s month at midnight to the LAST DAY of that month
      (28, 29, 30 or 31) at 00:00, the day before the 1st of the next month. Both
      come from `new Date(year, ...)`, so a year from 0 to 99 becomes 1900 + year
      (see `TwoDigitYearStartsLater`). Otherwise `d` is after the start, and after
      the end exactly when it falls on the last day after midnight. */
  lemma MonthRange(d: LocalDateTime)
    requires ValidDate(d)
    ensures GetStartOf(d, Month) == LocalDateTime(FullYear(d.year), d.month, 1, 0)
    ensures GetEndOf(d, Month) ==
              LocalDateTime(FullYear(d.year), d.month, DaysInMonth(FullYear(d.year), d.month), 0)
    ensures DayOf(GetEndOf(d, Month)) + 1 == DayOf(MakeDate(d.year, d.month + 1, 1))
    ensures !(0 <= d.year <= 99) ==> Timestamp(GetStartOf(d, Month)) <= Timestamp(d)
    ensures !(0 <= d.year <= 99) ==>
              (Timestamp(d) <= Timestamp(GetEndOf(d, Month)) <==>
                 d.day < DaysInMonth(d.year, d.month) || d.msOfDay == 0)
  {
    var y := FullYear(d.year);
    var s, e := GetStartOf(d, Month), GetEndOf(d, Month);
    assert s == CarryDate(y, d.month, 1) == DateOfDayInMonth(y, d.month, 1);
    assert s == LocalDateTime(y, d.month, 1, 0);
    LastDayOfMonth(d.year, d.month);
    assert e == LocalDateTime(y, d.month, DaysInMonth(y, d.month), 0);
    if !(0 <= d.year <= 99) {
      WithinMonth(d);
    }
  }

  /** A valid date lies between the 1st of its month at midnight and the last day
      of that month at 00:00, unless it falls on the last day after midnight. */
  lemma WithinMonth(d: LocalDateTime)
    requires ValidDate(d)
    ensures Timestamp(LocalDateTime(d.year, d.month, 1, 0)) <= Timestamp(d)
    ensures Timestamp(d) <= Timestamp(LocalDateTime(d.year, d.month, DaysInMonth(d.year, d.month), 0)) <==>
              d.day < DaysInMonth(d.year, d.month) || d.msOfDay == 0
  {
    var s := LocalDateTime(d.year, d.month, 1, 0);
    var e := LocalDateTime(d.year, d.month, DaysInMonth(d.year, d.month), 0);
    assert DayOf(d) - DayOf(s) == d.day - 1;
    assert DayOf(e) - DayOf(d) == DaysInMonth(d.year, d.month) - d.day;
    TimestampOrder(s, d);
    TimestampOrder(d, e);
  }

  /** Instants compare by day first, then by the time of day. */
  lemma TimestampOrder(a: LocalDateTime, b: LocalDateTime)
    requires ValidDate(a) && ValidDate(b)
    ensures Timestamp(a) <= Timestamp(b) <==>
              DayOf(a) < DayOf(b) || (DayOf(a) == DayOf(b) && a.msOfDay <= b.msOfDay)
  {
  }

  /** `new Date(y, m + 1, 0)` is the last day of month `m` of the full year, December
      included, one day before the 1st of the next month. */
  lemma LastDayOfMonth(y: int, m: int)
    requires 0 <= m < 12
    ensures MakeDate(y, m + 1, 0) == LocalDateTime(FullYear(y), m, DaysInMonth(FullYear(y), m), 0)
    ensures DayOf(MakeDate(y, m + 1, 0)) + 1 == DayOf(MakeDate(y, m + 1, 1))
  {
    var yr := FullYear(y);
    CarryDateOfNextMonth(yr, m, 0);
    CarryDateOfNextMonth(yr, m, 1);
    DayZeroOfNextMonth(yr, m);
    NextMonthStart(yr, m);
  }

  /** Month `m + 1` carries over to the month after (y, m). */
  lemma CarryDateOfNextMonth(y: int, m: int, k: int)
    requires 0 <= m < 12
    ensures var n := NextMonth(y, m); CarryDate(y, m + 1, k) == DateOfDayInMonth(n.0, n.1, k)
  {
    if m == 11 {
      assert 12 / 12 == 1 && 12 % 12 == 0;
    }
  }

  lemma DayZeroOfNextMonth(y: int, m: int)
    requires 0 <= m < 12
    ensures var n := NextMonth(y, m); DateOfDayInMonth(n.0, n.1, 0) == LocalDateTime(y, m, DaysInMonth(y, m), 0)
  {
    var n := NextMonth(y, m);
    assert PreviousMonth(n.0, n.1) == (y, m);
  }

  /** YEAR: from 1 January at midnight to 31 December at 00:00 of the full year of
      `d`, 1900 + year for a year from 0 to 99. Otherwise `d` is after the start,
      and after the end exactly when it falls on 31 December after midnight. */
  lemma YearRange(d: LocalDateTime)
    requires ValidDate(d)
    ensures GetStartOf(d, Year) == LocalDateTime(FullYear(d.year), 0, 1, 0)
    ensures GetEndOf(d, Year) == LocalDateTime(FullYear(d.year), 11, 31, 0)
    ensures !(0 <= d.year <= 99) ==> Timestamp(GetStartOf(d, Year)) <= Timestamp(d)
    ensures !(0 <= d.year <= 99) ==>
              (Timestamp(d) <= Timestamp(GetEndOf(d, Year)) <==> d.month < 11 || d.day < 31 || d.msOfDay == 0)
  {
    YearStart(d.year);
    YearEnd(d.year);
    if !(0 <= d.year <= 99) {
      TimestampOrder(GetStartOf(d, Year), d);
      TimestampOrder(d, GetEndOf(d, Year));
      if d.month < 11 {
        DaysBeforeMonthGrows(d.year, d.month, 11);
      }
    }
  }

  /** `new Date(y, 0, 1)`: 1 January of the full year at midnight. */
  lemma YearStart(y: int)
    ensures MakeDate(y, 0, 1) == LocalDateTime(FullYear(y), 0, 1, 0)
  {
    var fy := FullYear(y);
    assert MakeDate(y, 0, 1) == CarryDate(fy, 0, 1) == DateOfDayInMonth(fy, 0, 1);
    DayWithinMonth(fy, 0, 1);
  }

  /** `new Date(y, 11, 31)`: 31 December of the full year at midnight. */
  lemma YearEnd(y: int)
    ensures MakeDate(y, 11, 31) == LocalDateTime(FullYear(y), 11, 31, 0)
  {
    var fy := FullYear(y);
    assert MakeDate(y, 11, 31) == CarryDate(fy, 11, 31) == DateOfDayInMonth(fy, 11, 31);
    DayWithinMonth(fy, 11, 31);
  }

  /** A day that exists in the month needs no carrying. */
  lemma DayWithinMonth(y: int, m: int, k: int)
    requires 0 <= m < 12 && 1 <= k <= DaysInMonth(y, m)
    ensures DateOfDayInMonth(y, m, k) == LocalDateTime(y, m, k, 0)
  {
  }

  /** Each year starts after every day of the years before it. */
  lemma {:induction false} DaysBeforeYearGrows(a: int, b: int)
    requires a < b
    ensures DaysBeforeYear(a) + DaysInYear(a) <= DaysBeforeYear(b)
    decreases b - a
  {
    YearStep(a);
    if b > a + 1 {
      DaysBeforeYearGrows(a + 1, b);
    }
  }

  /** A valid date lies inside its year. */
  lemma DayInYear(d: LocalDateTime)
    requires ValidDate(d)
    ensures DaysBeforeYear(d.year) <= DayOf(d) < DaysBeforeYear(d.year) + DaysInYear(d.year)
  {
    MonthsFillYear(d.year);
    if d.month < 11 {
      DaysBeforeMonthGrows(d.year, d.month, 11);
    }
  }

  /** For a date in a year from 0 to 99, MONTH and YEAR start in 1900 + year, so
      the start they return lies after the date itself. */
  lemma TwoDigitYearStartsLater(d: LocalDateTime)
    requires ValidDate(d) && 0 <= d.year <= 99
    ensures Timestamp(d) < Timestamp(GetStartOf(d, Month))
    ensures Timestamp(d) < Timestamp(GetStartOf(d, Year))
  {
    MonthRange(d);
    YearRange(d);
    DayInYear(d);
    DaysBeforeYearGrows(d.year, 1900 + d.year);
    var s, t := GetStartOf(d, Month), GetStartOf(d, Year);
    assert DayOf(d) < DayOf(t) <= DayOf(s);
    TimestampOrder(d, s);
    TimestampOrder(d, t);
  }
}

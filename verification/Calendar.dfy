/**
 Broken-down time: `__secs_to_tm` (seconds to UTC fields) and `mktime` (back), against the
 proleptic Gregorian calendar.
 */
module Calendar {
  import opened Arith
  import opened Common

  const INT_MIN: int := -0x8000_0000
  const INT_MAX: int := 0x7fff_ffff
  const LONG_MIN: int := -0x8000_0000_0000_0000
  const LONG_MAX: int := 0x7fff_ffff_ffff_ffff

  predicate IsInt(n: int) { INT_MIN <= n <= INT_MAX }

  /** `struct tm`: years from 1900, months and days of the year from 0, days of the month from 1. */
  datatype Tm = Tm(year: int, mon: int, mday: int, hour: int, min: int, sec: int, wday: int, yday: int)

  // ---------------------------------------------------------------- the calendar

  predicate IsLeap(y: int) {
    y % 4 == 0 && (y % 100 != 0 || y % 400 == 0)
  }

  function YearDays(y: int): int { if IsLeap(y) then 366 else 365 }

  function MonthDays(y: int, m: int): int {
    if m == 1 then (if IsLeap(y) then 29 else 28)
    else if m == 3 || m == 5 || m == 8 || m == 10 then 30
    else 31
  }

  /** Days from the Epoch to January 1 of year `y`, year by year. */
  function YearStart(y: int): int
    decreases if y < 1970 then 1970 - y else y - 1970
  {
    if y == 1970 then 0
    else if y > 1970 then YearStart(y - 1) + YearDays(y - 1)
    else YearStart(y + 1) - YearDays(y)
  }

  /** Leap years from year 1 to `y - 1`, negative before year 1. */
  function LeapsBefore(y: int): int {
    (y - 1) / 4 - (y - 1) / 100 + (y - 1) / 400
  }

  /** Days from January 1 to the first of month `m`. */
  function MonthStart(y: int, m: nat): int {
    if m == 0 then 0 else MonthStart(y, m - 1) + MonthDays(y, m - 1)
  }

  /** Days from the Epoch. */
  function Day(y: int, m: nat, d: int): int {
    YearStart(y) + MonthStart(y, m) + d - 1
  }

  function Seconds(tm: Tm): int
    requires tm.mon >= 0
  {
    86400 * Day(tm.year + 1900, tm.mon, tm.mday) + 3600 * tm.hour + 60 * tm.min + tm.sec
  }

  /** A date and time that exist, with the right day of the week and of the year. */
  ghost predicate IsTime(tm: Tm) {
    && 0 <= tm.mon < 12 && 1 <= tm.mday <= MonthDays(tm.year + 1900, tm.mon)
    && 0 <= tm.hour < 24 && 0 <= tm.min < 60 && 0 <= tm.sec < 60
    && var day := Day(tm.year + 1900, tm.mon, tm.mday);
    && tm.wday == (day + 4) % 7
    && tm.yday == day - YearStart(tm.year + 1900)
  }

  lemma DivStep(y: int, d: int)
    requires d >= 2
    ensures y / d - (y - 1) / d == if y % d == 0 then 1 else 0
  {
    assert y == y / d * d + y % d;
    if y % d == 0 {
      MulDistributes(y / d, 1, d);
      DivModUnique(y - 1, d, y / d - 1, d - 1);
    } else {
      DivModUnique(y - 1, d, y / d, y % d - 1);
    }
  }

  lemma Multiples(y: int)
    ensures y % 400 == 0 ==> y % 100 == 0
    ensures y % 100 == 0 ==> y % 4 == 0
  {
  }

  lemma LeapsStep(y: int)
    ensures LeapsBefore(y + 1) == LeapsBefore(y) + if IsLeap(y) then 1 else 0
  {
    DivStep(y, 4);
    DivStep(y, 100);
    DivStep(y, 400);
    Multiples(y);
  }

  /** The same in closed form: 365 days a year and one for each leap year since year 1. */
  lemma {:induction false} YearStartClosed(y: int)
    ensures YearStart(y) == 365 * (y - 1970) + LeapsBefore(y) - 477
    decreases if y < 1970 then 1970 - y else y - 1970
  {
    if y > 1970 {
      YearStartClosed(y - 1);
      LeapsStep(y - 1);
    } else if y < 1970 {
      YearStartClosed(y + 1);
      LeapsStep(y);
    }
  }

  lemma YearStartStep(y: int)
    ensures YearStart(y + 1) == YearStart(y) + YearDays(y)
  {
  }

  lemma {:induction false} YearStartMonotone(y: int, z: int)
    requires y <= z
    ensures YearStart(y) + 365 * (z - y) <= YearStart(z)
    decreases z - y
  {
    if y < z {
      YearStartStep(y);
      YearStartMonotone(y + 1, z);
    }
  }

  /** A year has the days of its months. */
  lemma MonthStarts(y: int)
    ensures MonthStart(y, 1) == 31 && MonthStart(y, 2) == 59 + (if IsLeap(y) then 1 else 0)
    ensures var l := MonthStart(y, 2);
      && MonthStart(y, 3) == l + 31 && MonthStart(y, 4) == l + 61 && MonthStart(y, 5) == l + 92
      && MonthStart(y, 6) == l + 122 && MonthStart(y, 7) == l + 153 && MonthStart(y, 8) == l + 184
      && MonthStart(y, 9) == l + 214 && MonthStart(y, 10) == l + 245 && MonthStart(y, 11) == l + 275
      && MonthStart(y, 12) == l + 306 == YearDays(y)
  {
    assert MonthStart(y, 1) == MonthStart(y, 0) + 31;
    assert MonthStart(y, 4) == MonthStart(y, 3) + 30;
    assert MonthStart(y, 6) == MonthStart(y, 5) + 30;
    assert MonthStart(y, 8) == MonthStart(y, 7) + 31;
    assert MonthStart(y, 10) == MonthStart(y, 9) + 31;
    assert MonthStart(y, 12) == MonthStart(y, 11) + 31;
  }

  // ---------------------------------------------------------------- seconds to fields

  /** Division and remainder as in C: towards zero. */
  function CDiv(a: int, b: int): int
    requires b > 0
  {
    if a >= 0 then a / b else -((-a) / b)
  }

  function CMod(a: int, b: int): int
    requires b > 0
  {
    a - b * CDiv(a, b)
  }

  const LEAPOCH: int := 946684800 + 86400 * (31 + 29)

  const DAYS_IN_MONTH := [31, 30, 31, 30, 31, 31, 30, 31, 30, 31, 31, 29]

  /** Days from March 1 to the first of the `k`th month after March. */
  function MarchOffset(k: nat): int
    requires k <= 12
  {
    if k == 0 then 0 else MarchOffset(k - 1) + DAYS_IN_MONTH[k - 1]
  }

  lemma MarchOffsets()
    ensures MarchOffset(1) == 31 && MarchOffset(2) == 61 && MarchOffset(3) == 92 && MarchOffset(4) == 122
    ensures MarchOffset(5) == 153 && MarchOffset(6) == 184 && MarchOffset(7) == 214 && MarchOffset(8) == 245
    ensures MarchOffset(9) == 275 && MarchOffset(10) == 306 && MarchOffset(11) == 337 && MarchOffset(12) == 366
  {
    assert MarchOffset(2) == MarchOffset(1) + 30;
    assert MarchOffset(4) == MarchOffset(3) + 30;
    assert MarchOffset(6) == MarchOffset(5) + 31;
    assert MarchOffset(8) == MarchOffset(7) + 31;
    assert MarchOffset(10) == MarchOffset(9) + 31;
    assert MarchOffset(12) == MarchOffset(11) + 29;
  }

  /** Days from the Epoch to March 1 of year `y`. */
  function MarchStart(y: int): int {
    YearStart(y) + MonthStart(y, 2)
  }

  /** The year `qc` cycles of 400, `c` of 100, `q` of 4 and `ry` years after the one of March 1, 2000. */
  lemma MarchYear(qc: int, c: int, q: int, ry: int)
    requires 0 <= c <= 3 && 0 <= q <= 24 && 0 <= ry <= 3
    ensures var y := 2000 + ry + 4 * q + 100 * c + 400 * qc;
      && MarchStart(y) == 11017 + 146097 * qc + 36524 * c + 1461 * q + 365 * ry
      && (IsLeap(y) <==> ry == 0 && (q != 0 || c == 0))
      && MarchStart(y) + 306 == YearStart(y + 1)
  {
    var y := 2000 + ry + 4 * q + 100 * c + 400 * qc;
    DivModUnique(y, 4, 500 + q + 25 * c + 100 * qc, ry);
    DivModUnique(y, 100, 20 + c + 4 * qc, ry + 4 * q);
    DivModUnique(y, 400, 5 + qc, ry + 4 * q + 100 * c);
    YearStartClosed(y + 1);
    YearStartStep(y);
    MonthStarts(y);
  }

  /** The 366th day of a year from March on is a February 29. */
  lemma LastDayIsLeap(qc: int, c: int, q: int)
    requires 0 <= c <= 3 && 0 <= q <= 24 && (q < 24 || c == 3)
    ensures IsLeap(2004 + 4 * q + 100 * c + 400 * qc)
  {
    if q < 24 {
      MarchYear(qc, c, q + 1, 0);
    } else {
      MarchYear(qc + 1, 0, 0, 0);
    }
  }

  /** The year from March on (counted from 2000) and the day in it. */
  method SplitDays(days: int) returns (years: int, leap: int, remdays: int)
    ensures days == MarchStart(2000 + years) - 11017 + remdays
    ensures 0 <= remdays <= 365 && (remdays == 365 ==> IsLeap(2001 + years))
    ensures leap == (if IsLeap(2000 + years) then 1 else 0)
  {
    var qc := CDiv(days, 146097);
    remdays := CMod(days, 146097);
    if remdays < 0 {
      remdays, qc := remdays + 146097, qc - 1;
    }
    var c := CDiv(remdays, 36524);
    if c == 4 {
      c := c - 1;
    }
    remdays := remdays - c * 36524;
    var q := CDiv(remdays, 1461);
    if q == 25 {
      q := q - 1;
    }
    remdays := remdays - q * 1461;
    var ry := CDiv(remdays, 365);
    if ry == 4 {
      ry := ry - 1;
    }
    remdays := remdays - ry * 365;
    leap := if ry == 0 && (q != 0 || c == 0) then 1 else 0;
    years := ry + 4 * q + 100 * c + 400 * qc;
    MarchYear(qc, c, q, ry);
    if remdays == 365 {
      LastDayIsLeap(qc, c, q);
    }
  }

  method FindMonth(day: int) returns (months: nat, remdays: int)
    requires 0 <= day <= 365
    ensures months <= 11 && 0 <= remdays < DAYS_IN_MONTH[months]
    ensures day == MarchOffset(months) + remdays
  {
    MarchOffsets();
    months, remdays := 0, day;
    while DAYS_IN_MONTH[months] <= remdays
      invariant months <= 11 && 0 <= remdays && day == MarchOffset(months) + remdays
      decreases remdays
    {
      remdays := remdays - DAYS_IN_MONTH[months];
      months := months + 1;
    }
  }

  /** Day `remdays` of the `months`th month after March `y`. */
  lemma MonthAfterMarch(y: int, months: nat, remdays: int)
    requires months <= 11 && 0 <= remdays < DAYS_IN_MONTH[months]
    requires MarchOffset(months) + remdays == 365 ==> IsLeap(y + 1)
    requires MarchStart(y) + 306 == YearStart(y + 1)
    ensures var y', m := if months >= 10 then y + 1 else y, if months >= 10 then months - 10 else months + 2;
      && Day(y', m, remdays + 1) == MarchStart(y) + MarchOffset(months) + remdays
      && remdays < MonthDays(y', m)
  {
    MarchOffsets();
    MonthStarts(y);
    MonthStarts(y + 1);
  }

  predicate InRange(t: int) {
    INT_MIN * 31622400 <= t <= INT_MAX * 31622400
  }

  /** Time `t` falls into year `y`. */
  predicate InYear(t: int, y: int) {
    YearStart(y) <= t / 86400 < YearStart(y + 1)
  }

  /** Days and seconds of the day since March 1, 2000. */
  method SplitSeconds(t: int) returns (days: int, remsecs: int)
    ensures t == 86400 * (days + 11017) + remsecs && 0 <= remsecs < 86400
  {
    var secs := t - LEAPOCH;
    days := CDiv(secs, 86400);
    remsecs := CMod(secs, 86400);
    if remsecs < 0 {
      remsecs, days := remsecs + 86400, days - 1;
    }
  }

  method WeekDay(days: int) returns (wday: int)
    ensures wday == (days + 11017 + 4) % 7
  {
    wday := CMod(3 + days, 7);
    if wday < 0 {
      wday := wday + 7;
    }
  }

  /** Year (from 2000), month, day of the month and day of the year. */
  method SplitDate(days: int) returns (years: int, mon: int, mday: int, yday: int)
    ensures 0 <= mon < 12 && 1 <= mday <= MonthDays(years + 2000, mon)
    ensures Day(years + 2000, mon, mday) == days + 11017
    ensures yday == days + 11017 - YearStart(years + 2000)
  {
    var leap, day;
    years, leap, day := SplitDays(days);
    yday := day + 31 + 28 + leap;
    if yday >= 365 + leap {
      yday := yday - (365 + leap);
    }
    YearStartStep(years + 2000);
    MonthStarts(years + 2000);
    var months, remdays := FindMonth(day);
    MonthAfterMarch(years + 2000, months, remdays);
    MarchOffsets();
    mon := months;
    if mon >= 10 {
      mon, years := mon - 12, years + 1;
    }
    mon, mday := mon + 2, remdays + 1;
  }

  lemma DayInYear(y: int, m: nat, d: int)
    requires m < 12 && 1 <= d <= MonthDays(y, m)
    ensures YearStart(y) <= Day(y, m, d) < YearStart(y + 1)
  {
    YearStartStep(y);
    MonthStarts(y);
  }

  lemma ClockFields(r: int)
    requires 0 <= r < 86400
    ensures r / 3600 < 24 && 3600 * (r / 3600) + 60 * (r / 60 % 60) + r % 60 == r
  {
  }

  lemma {:induction false} YearOf(day: int) returns (y: int)
    ensures YearStart(y) <= day < YearStart(y + 1)
    decreases if day < 0 then -day else day
  {
    if day == 0 {
      y := 1970;
    } else if day > 0 {
      y := YearOf(day - 1);
      YearStartStep(y + 1);
      y := if day < YearStart(y + 1) then y else y + 1;
    } else {
      y := YearOf(day + 1);
      YearStartStep(y - 1);
      y := if YearStart(y) <= day then y else y - 1;
    }
  }

  /** Times outside the range belong to years that do not fit. */
  lemma OutOfRange(t: int)
    requires !InRange(t)
    ensures exists y :: InYear(t, y) && !IsInt(y - 1900)
  {
    var y := YearOf(t / 86400);
    YearStartClosed(y);
    YearStartClosed(y + 1);
    assert InYear(t, y);
  }

  /** A time is in no year but that of its date. */
  lemma OneYear(t: int, day: int, remsecs: int, y: int, mon: nat, mday: int)
    requires t == 86400 * day + remsecs && 0 <= remsecs < 86400
    requires mon < 12 && 1 <= mday <= MonthDays(y, mon) && Day(y, mon, mday) == day
    ensures forall z :: InYear(t, z) ==> z == y
  {
    DivModUnique(t, 86400, day, remsecs);
    DayInYear(y, mon, mday);
    forall z | InYear(t, z)
      ensures z == y
    {
      YearUnique(day, y, z);
    }
  }

  /** It fails just for the times of years that do not fit an `int`, counted from 1900. */
  method SecsToTm(t: int) returns (r: Option<Tm>)
    requires LONG_MIN <= t <= LONG_MAX
    ensures r.Some? ==> IsTime(r.value) && Seconds(r.value) == t && IsInt(r.value.year)
    ensures r.None? <==> exists y :: InYear(t, y) && !IsInt(y - 1900)
  {
    if t < INT_MIN * 31622400 || t > INT_MAX * 31622400 {
      OutOfRange(t);
      return None;
    }
    var days, remsecs := SplitSeconds(t);
    var wday := WeekDay(days);
    var years, mon, mday, yday := SplitDate(days);
    if years + 100 > INT_MAX || years + 100 < INT_MIN {
      DayInYear(years + 2000, mon, mday);
      DivModUnique(t, 86400, days + 11017, remsecs);
      assert InYear(t, years + 2000);
      return None;
    }
    ClockFields(remsecs);
    OneYear(t, days + 11017, remsecs, years + 2000, mon, mday);
    return Some(Tm(years + 100, mon, mday, remsecs / 3600, remsecs / 60 % 60, remsecs % 60, wday, yday));
  }

  // ---------------------------------------------------------------- the fields are determined

  lemma YearUnique(day: int, y: int, z: int)
    requires YearStart(y) <= day < YearStart(y + 1) && YearStart(z) <= day < YearStart(z + 1)
    ensures y == z
  {
    if y < z {
      YearStartMonotone(y + 1, z);
    } else if z < y {
      YearStartMonotone(z + 1, y);
    }
  }

  lemma {:induction false} MonthStartMonotone(y: int, m: nat, n: nat)
    requires m <= n
    ensures MonthStart(y, m) <= MonthStart(y, n)
  {
    if m < n {
      MonthStartMonotone(y, m, n - 1);
    }
  }

  lemma MonthUnique(y: int, m: nat, d: int, n: nat, e: int)
    requires m < 12 && n < 12 && 1 <= d <= MonthDays(y, m) && 1 <= e <= MonthDays(y, n)
    requires Day(y, m, d) == Day(y, n, e)
    ensures m == n && d == e
  {
    if m < n {
      MonthStartMonotone(y, m + 1, n);
    } else if n < m {
      MonthStartMonotone(y, n + 1, m);
    }
  }

  lemma ClockUnique(a: Tm, b: Tm, da: int, db: int)
    requires 0 <= a.hour < 24 && 0 <= a.min < 60 && 0 <= a.sec < 60
    requires 0 <= b.hour < 24 && 0 <= b.min < 60 && 0 <= b.sec < 60
    requires 86400 * da + 3600 * a.hour + 60 * a.min + a.sec == 86400 * db + 3600 * b.hour + 60 * b.min + b.sec
    ensures da == db && a.hour == b.hour && a.min == b.min && a.sec == b.sec
  {
  }

  lemma DateUnique(y: int, m: nat, d: int, z: int, n: nat, e: int)
    requires m < 12 && n < 12 && 1 <= d <= MonthDays(y, m) && 1 <= e <= MonthDays(z, n)
    requires Day(y, m, d) == Day(z, n, e)
    ensures y == z && m == n && d == e
  {
    DayInYear(y, m, d);
    DayInYear(z, n, e);
    YearUnique(Day(y, m, d), y, z);
    MonthUnique(y, m, d, n, e);
  }

  /** Different times are different numbers of seconds: `SecsToTm` has no choice. */
  lemma TimeUnique(a: Tm, b: Tm)
    requires IsTime(a) && IsTime(b) && Seconds(a) == Seconds(b)
    ensures a == b
  {
    ClockUnique(a, b, Day(a.year + 1900, a.mon, a.mday), Day(b.year + 1900, b.mon, b.mday));
    DateUnique(a.year + 1900, a.mon, a.mday, b.year + 1900, b.mon, b.mday);
  }

  // ---------------------------------------------------------------- fields to seconds

  function WrapInt(n: int): int {
    (n - INT_MIN) % 0x1_0000_0000 + INT_MIN
  }

  /** A remainder towards zero is zero for the same numbers. */
  lemma CModZero(a: int, b: int)
    requires b > 0
    ensures CMod(a, b) == 0 <==> a % b == 0
  {
    assert a == a / b * b + a % b && -a == (-a) / b * b + (-a) % b;
    if a < 0 && a % b == 0 {
      DivModUnique(-a, b, -(a / b), 0);
    } else if a < 0 && (-a) % b == 0 {
      DivModUnique(a, b, -((-a) / b), 0);
    }
  }

  method LeapYear(year: int) returns (b: bool)
    ensures b == IsLeap(year)
  {
    CModZero(year, 4);
    CModZero(year, 100);
    CModZero(year, 400);
    b := CMod(year, 4) == 0 && (CMod(year, 100) != 0 || CMod(year, 400) == 0);
  }

  /** The table lookup `MONTH_DAYS[leap][m]` */
  function TableDays(leap: bool, m: int): int {
    if m == 1 && leap then 29 else [31, 28, 31, 30, 31, 30, 31, 31, 30, 31, 30, 31][if 0 <= m < 12 then m else 0]
  }

  lemma TableIsCalendar(y: int, m: int)
    requires 0 <= m < 12
    ensures TableDays(IsLeap(y), m) == MonthDays(y, m)
  {
  }

  /** Days from the date in `year` before 1970 to the Epoch. */
  method DaysUntilEpoch(year0: int, mon: nat, mday: int) returns (day: int)
    requires year0 < 1970 && mon < 12
    ensures day == -Day(year0, mon, mday)
  {
    var leap := LeapYear(year0);
    var year, month := year0, mon;
    TableIsCalendar(year0, mon);
    day := TableDays(leap, mon) - (mday - 1);
    while year < 1969
      invariant year0 <= year <= 1969
      invariant day == MonthDays(year0, mon) - (mday - 1) + YearStart(year + 1) - YearStart(year0 + 1)
    {
      year := year + 1;
      YearStartStep(year);
      var l := LeapYear(year);
      day := day + if l then 366 else 365;
    }
    ghost var later := YearStart(1970) - YearStart(year0 + 1);
    while month < 11
      invariant mon <= month <= 11
      invariant day == later - (mday - 1) + MonthStart(year0, month + 1) - MonthStart(year0, mon)
    {
      month := month + 1;
      TableIsCalendar(year0, month);
      day := day + TableDays(leap, month);
    }
    YearStartStep(year0);
    MonthStarts(year0);
  }

  /** Days from the Epoch; month 12 is the month after December. */
  method DaysSinceEpoch(year0: int, mon: nat, mday: int) returns (day: int)
    requires year0 >= 1970 && mon <= 12
    ensures day == Day(year0, mon, mday)
  {
    var leap := LeapYear(year0);
    var year, month := year0, mon;
    day := mday - 1;
    while year > 1970
      invariant 1970 <= year <= year0
      invariant day == mday - 1 + YearStart(year0) - YearStart(year)
    {
      year := year - 1;
      YearStartStep(year);
      var l := LeapYear(year);
      day := day + if l then 366 else 365;
    }
    while month > 0
      invariant 0 <= month <= mon
      invariant day == mday - 1 + YearStart(year0) + MonthStart(year0, mon) - MonthStart(year0, month)
    {
      month := month - 1;
      TableIsCalendar(year0, month);
      day := day + TableDays(leap, month);
    }
  }

  /**
   `None` is the panic of an index out of the month table. The year is computed in 32 bits
   and wraps; a month below 0 is taken for 0 from 1970 on.
   */
  method MkTime(tm: Tm) returns (r: Option<int>)
    requires IsInt(tm.year) && IsInt(tm.mon) && IsInt(tm.mday) && IsInt(tm.hour) && IsInt(tm.min) && IsInt(tm.sec)
    ensures r.None? <==> if WrapInt(tm.year + 1900) < 1970 then tm.mon < 0 || tm.mon > 11 else tm.mon > 12
    ensures r.Some? ==> var m := if tm.mon < 0 then 0 else tm.mon;
      r.value == Seconds(tm.(year := WrapInt(tm.year + 1900) - 1900, mon := m))
  {
    var year := WrapInt(tm.year + 1900);
    if year < 1970 {
      if tm.mon < 0 || tm.mon > 11 {
        return None;
      }
      var day := DaysUntilEpoch(year, tm.mon, tm.mday);
      return Some(-(day * 86400 - (tm.hour * 3600 + tm.min * 60 + tm.sec)));
    } else {
      if tm.mon > 12 {
        return None;
      }
      var day := DaysSinceEpoch(year, if tm.mon < 0 then 0 else tm.mon, tm.mday);
      return Some(day * 86400 + tm.hour * 3600 + tm.min * 60 + tm.sec);
    }
  }

  // ---------------------------------------------------------------- there and back

  /** Wrapping the year gives another time, by 2^32 years. */
  lemma WrappedYearDiffers(tm: Tm)
    requires IsTime(tm) && !IsInt(tm.year + 1900) && IsInt(tm.year)
    ensures Seconds(tm.(year := WrapInt(tm.year + 1900) - 1900)) != Seconds(tm)
  {
    var y, z := tm.year + 1900, WrapInt(tm.year + 1900);
    assert z == y - 0x1_0000_0000;
    YearStartMonotone(z, y);
    MonthStarts(y);
    MonthStarts(z);
  }

  /** All the times of the years that wrap are times that `gmtime_r` accepts. */
  lemma WrappingYearsAreAccepted(tm: Tm)
    requires IsTime(tm) && IsInt(tm.year) && !IsInt(tm.year + 1900)
    ensures InRange(Seconds(tm))
  {
    var y := tm.year + 1900;
    DayInYear(y, tm.mon, tm.mday);
    YearStartClosed(y);
    YearStartClosed(y + 1);
  }

  /** January 1 of each such year is accepted and does not come back. */
  lemma NewYearIsLost(year: int) returns (tm: Tm)
    requires IsInt(year) && !IsInt(year + 1900)
    ensures tm.year == year && IsTime(tm) && InRange(Seconds(tm))
    ensures Seconds(tm.(year := WrapInt(year + 1900) - 1900)) != Seconds(tm)
  {
    tm := Tm(year, 0, 1, 0, 0, 0, (YearStart(year + 1900) + 4) % 7, 0);
    WrappingYearsAreAccepted(tm);
    WrappedYearDiffers(tm);
  }

  /**
   `mktime` undoes `gmtime_r`, exactly when the year itself (not counted from 1900) still
   fits an `int`.
   */
  method ThereAndBack(t: int) returns (tm: Option<Tm>, r: Option<int>)
    requires LONG_MIN <= t <= LONG_MAX
    ensures tm.Some? ==> IsTime(tm.value) && Seconds(tm.value) == t && r.Some?
    ensures tm.Some? ==> (r.value == t <==> IsInt(tm.value.year + 1900))
  {
    tm := SecsToTm(t);
    r := None;
    if tm.Some? {
      r := MkTime(tm.value);
      if !IsInt(tm.value.year + 1900) {
        WrappedYearDiffers(tm.value);
      }
    }
  }
}

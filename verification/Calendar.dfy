/** Seconds since the epoch to a civil date, against the proleptic Gregorian closed form. */
module Calendar {
  import opened Words
  import opened PtpTime

  datatype DateTime = DateTime(
    year: int, month: int, day: int, hour: int, minute: int, second: int, weekday: int, nanosecond: int)

  datatype DateResult = ParamError | Date(date: DateTime)

  // ----- the reference calendar -----

  predicate IsLeap(y: int) {
    y % 4 == 0 && (y % 100 != 0 || y % 400 == 0)
  }

  /** Leap years in 1..n. */
  function LeapsThrough(n: int): int {
    n / 4 - n / 100 + n / 400
  }

  /** Days from 1 January 1970 to 1 January of year y. */
  function DaysBeforeYear(y: int): int {
    365 * (y - 1970) + LeapsThrough(y - 1) - LeapsThrough(1969)
  }

  function YearLength(leap: bool): int {
    if leap then 366 else 365
  }

  function MonthLength(leap: bool, m: int): int {
    if m == 2 then (if leap then 29 else 28)
    else if m == 4 || m == 6 || m == 9 || m == 11 then 30
    else 31
  }

  /** Days from 1 January to the first of month m, without a table. */
  function DaysBeforeMonth(leap: bool, m: int): int {
    (367 * m - 362) / 12 + if m <= 2 then 0 else if leap then -1 else -2
  }

  function EpochDays(d: DateTime): int {
    DaysBeforeYear(d.year) + DaysBeforeMonth(IsLeap(d.year), d.month) + d.day - 1
  }

  function EpochSeconds(d: DateTime): int {
    EpochDays(d) * 86400 + d.hour * 3600 + d.minute * 60 + d.second
  }

  predicate ValidDate(d: DateTime) {
    && d.year >= 1970 && 1 <= d.month <= 12
    && 1 <= d.day <= MonthLength(IsLeap(d.year), d.month)
    && 0 <= d.hour < 24 && 0 <= d.minute < 60 && 0 <= d.second < 60
  }

  /** Calendar order: the first differing field decides. */
  predicate Earlier(a: DateTime, b: DateTime) {
    a.year < b.year || (a.year == b.year && (
    a.month < b.month || (a.month == b.month && (
    a.day < b.day || (a.day == b.day && (
    a.hour < b.hour || (a.hour == b.hour && (
    a.minute < b.minute || (a.minute == b.minute && a.second < b.second)))))))))
  }

  predicate SameMoment(a: DateTime, b: DateTime) {
    a.year == b.year && a.month == b.month && a.day == b.day
    && a.hour == b.hour && a.minute == b.minute && a.second == b.second
  }

  // ----- properties of the reference -----

  lemma YearStep(y: int)
    requires y >= 1970
    ensures DaysBeforeYear(y + 1) == DaysBeforeYear(y) + YearLength(IsLeap(y))
  {
    DivStep(y, 4);
    DivStep(y, 100);
    DivStep(y, 400);
    assert y % 400 == 0 ==> y % 100 == 0;
    assert y % 100 == 0 ==> y % 4 == 0;
  }

  lemma DivStep(y: int, d: int)
    requires d == 4 || d == 100 || d == 400
    ensures y / d - (y - 1) / d == if y % d == 0 then 1 else 0
  {
  }

  lemma MonthStep(leap: bool, m: int)
    requires 1 <= m <= 12
    ensures m < 12 ==> DaysBeforeMonth(leap, m + 1) == DaysBeforeMonth(leap, m) + MonthLength(leap, m)
    ensures m == 12 ==> YearLength(leap) == DaysBeforeMonth(leap, m) + MonthLength(leap, m)
    ensures m == 1 ==> DaysBeforeMonth(leap, m) == 0
  {
  }

  lemma {:induction false} YearsInOrder(y: int, z: int)
    requires 1970 <= y < z
    ensures DaysBeforeYear(y) + YearLength(IsLeap(y)) <= DaysBeforeYear(z)
    decreases z
  {
    YearStep(z - 1);
    if y < z - 1 {
      YearsInOrder(y, z - 1);
    }
  }

  lemma {:induction false} MonthsInOrder(leap: bool, m: int, n: int)
    requires 1 <= m < n <= 13
    ensures n <= 12 ==> DaysBeforeMonth(leap, m) + MonthLength(leap, m) <= DaysBeforeMonth(leap, n)
    ensures n == 13 ==> DaysBeforeMonth(leap, m) + MonthLength(leap, m) <= YearLength(leap)
    decreases n
  {
    MonthStep(leap, n - 1);
    if m < n - 1 {
      MonthsInOrder(leap, m, n - 1);
    }
  }

  lemma DayWithinYear(d: DateTime)
    requires ValidDate(d)
    ensures DaysBeforeYear(d.year) <= EpochDays(d) < DaysBeforeYear(d.year) + YearLength(IsLeap(d.year))
  {
    MonthsInOrder(IsLeap(d.year), d.month, 13);
    if d.month > 1 {
      MonthsInOrder(IsLeap(d.year), 1, d.month);
    }
  }

  lemma EarlierDayCountsLess(a: DateTime, b: DateTime)
    requires ValidDate(a) && ValidDate(b) && Earlier(a, b)
    ensures EpochDays(a) < EpochDays(b)
            || (a.year == b.year && a.month == b.month && a.day == b.day && EpochDays(a) == EpochDays(b))
  {
    if a.year < b.year {
      YearsInOrder(a.year, b.year);
      DayWithinYear(a);
      DayWithinYear(b);
    } else if a.month < b.month {
      MonthsInOrder(IsLeap(a.year), a.month, b.month);
    }
  }

  /** The count of seconds orders valid dates exactly as the calendar does. */
  lemma SecondsOrderDates(a: DateTime, b: DateTime)
    requires ValidDate(a) && ValidDate(b)
    ensures Earlier(a, b) <==> EpochSeconds(a) < EpochSeconds(b)
    ensures SameMoment(a, b) <==> EpochSeconds(a) == EpochSeconds(b)
  {
    if Earlier(a, b) {
      EarlierDayCountsLess(a, b);
    } else if Earlier(b, a) {
      EarlierDayCountsLess(b, a);
    } else {
      assert SameMoment(a, b);
    }
  }

  /** The 32-bit weekday accumulator gives the true weekday until the day count passes 2^32 - 4,
      and after that exactly when it has wrapped a multiple of seven times. */
  lemma WeekdayAccumulator(days: nat)
    ensures ToULong(4 + days) % 7 == (4 + days) % 7 <==> (4 + days) / 0x1_0000_0000 % 7 == 0
  {
    TurnsModSeven((4 + days) / 0x1_0000_0000, ToULong(4 + days));
  }

  /** 2^32 is 4 modulo 7. */
  lemma TurnsModSeven(q: nat, r: nat)
    ensures (q * 0x1_0000_0000 + r) % 7 == r % 7 <==> q % 7 == 0
  {
    var a, b := q / 7, r / 7;
    var n := q * 0x1_0000_0000 + r;
    var m := q % 7 * 4 + r % 7;
    assert n == m + 7 * (q * 613566756 + 4 * a + b);
    assert m % 7 == r % 7 <==> q % 7 == 0;
  }

  /** Every 48-bit count of seconds, the most the wire format can carry, is below that point. */
  lemma WeekdayOfWireTime(seconds: nat)
    requires seconds < 0x1_0000_0000_0000
    ensures ToULong(4 + seconds / 86400) % 7 == (4 + seconds / 86400) % 7
  {
    WeekdayAccumulator(seconds / 86400);
  }

  // ----- the code -----

  /** The year loop: whole years are taken off the two limbs, borrowing from the high one.
      It stops at the one year whose first second is at or before the input and whose last
      is not before it. */
  method FindYear(high: Long, low: ULong)
    returns (year: ULong, isLeap: bool, weekday: ULong, secsLow: ULong)
    requires high >= 0
    ensures isLeap == IsLeap(year) && secsLow < YearLength(isLeap) * 86400
    ensures Join(high, low) < 0x100_0000_0000_0000 ==>
              && year >= 1970
              && Join(high, low) == DaysBeforeYear(year) * 86400 + secsLow
              && weekday == ToULong(4 + DaysBeforeYear(year))
  {
    var secsHigh: Long := high;
    ghost var inWindow := Join(high, low) < 0x100_0000_0000_0000;
    secsLow, year, isLeap, weekday := low, 1970, false, 4;
    var secsPerYear: ULong := 365 * 86400;
    while secsHigh > 0 || secsLow >= secsPerYear
      invariant secsHigh >= 0
      invariant isLeap == IsLeap(year) && secsPerYear == YearLength(isLeap) * 86400
      invariant inWindow ==>
          && year >= 1970 && DaysBeforeYear(year) >= 365 * (year - 1970)
          && Join(high, low) == DaysBeforeYear(year) * 86400 + Join(secsHigh, secsLow)
          && weekday == ToULong(4 + DaysBeforeYear(year))
      decreases Join(secsHigh, secsLow)
    {
      BorrowYear(secsHigh, secsLow, secsPerYear);
      if inWindow {
        YearCounted(Join(high, low), Join(secsHigh, secsLow), year);
      }
      if secsLow < secsPerYear {
        secsHigh := secsHigh - 1;
      }
      secsLow := ToULong(secsLow - secsPerYear);
      weekday := ToULong(weekday + if isLeap then 366 else 365);
      year := ToULong(year + 1);
      isLeap := IsLeap(year);
      secsPerYear := if isLeap then 366 * 86400 else 365 * 86400;
    }
  }

  /** Taking a year off two limbs, borrowing from the high one when the low one is short. */
  lemma BorrowYear(high: Long, low: ULong, secsPerYear: ULong)
    requires high > 0 || (high == 0 && low >= secsPerYear)
    ensures Join(if low < secsPerYear then high - 1 else high, ToULong(low - secsPerYear))
            == Join(high, low) - secsPerYear
  {
  }

  lemma YearCounted(total: int, rest: int, year: ULong)
    requires total < 0x100_0000_0000_0000 && rest >= YearLength(IsLeap(year)) * 86400
    requires year >= 1970 && DaysBeforeYear(year) >= 365 * (year - 1970)
    requires total == DaysBeforeYear(year) * 86400 + rest
    ensures ToULong(year + 1) == year + 1
    ensures DaysBeforeYear(year + 1) == DaysBeforeYear(year) + YearLength(IsLeap(year))
    ensures ToULong(4 + DaysBeforeYear(year + 1))
            == ToULong(ToULong(4 + DaysBeforeYear(year)) + YearLength(IsLeap(year)))
  {
    YearStep(year);
    ULongTwice(4 + DaysBeforeYear(year), YearLength(IsLeap(year)));
  }

  /** The month loop. */
  method FindMonth(isLeap: bool, secs: ULong) returns (month: int, secsLow: ULong)
    requires secs < YearLength(isLeap) * 86400
    ensures 1 <= month <= 12 && secsLow < MonthLength(isLeap, month) * 86400
    ensures secs == DaysBeforeMonth(isLeap, month) * 86400 + secsLow
  {
    secsLow, month := secs, 1;
    var secsPerMonth: ULong := 31 * 86400;
    while secsLow >= secsPerMonth
      invariant 1 <= month <= 12
      invariant secsPerMonth == MonthLength(isLeap, month) * 86400
      invariant secs == DaysBeforeMonth(isLeap, month) * 86400 + secsLow
    {
      MonthStep(isLeap, month);
      secsLow := secsLow - secsPerMonth;
      month := month + 1;
      if month == 2 {
        secsPerMonth := if isLeap then 29 * 86400 else 28 * 86400;
      } else if month == 4 || month == 6 || month == 9 || month == 11 {
        secsPerMonth := 30 * 86400;
      } else {
        secsPerMonth := 31 * 86400;
      }
    }
  }

  /** The date and time of day of time + offset seconds, or an error exactly when that is
      negative. Below 2^56 seconds the date is valid and counts back to the same second. */
  method ConvertTimeToDate(time: PtpTime, offset: Long) returns (result: DateResult)
    ensures result.ParamError? <==> ToInt64(time.Value().sec + offset) < 0
    ensures result.Date? && ToInt64(time.Value().sec + offset) < 0x100_0000_0000_0000 ==>
              && ValidDate(result.date)
              && EpochSeconds(result.date) == ToInt64(time.Value().sec + offset)
              && result.date.weekday == ToULong(4 + EpochDays(result.date)) % 7
              && result.date.nanosecond == ToULong(time.nano)
    ensures result.Date? && ToInt64(time.Value().sec + offset) < 0x1_0000_0000_0000 ==>
              result.date.weekday == (4 + EpochDays(result.date)) % 7
  {
    var secsHigh: Long, secsLow: ULong := time.high, time.low;
    SignExtended(offset);
    if offset != 0 {
      secsHigh, secsLow := Add64(secsHigh, secsLow, if offset < 0 then -1 else 0, ToULong(offset));
    }
    if secsHigh < 0 {
      return ParamError;
    }
    var year, isLeap, weekday, intoYear := FindYear(secsHigh, secsLow);
    weekday := ToULong(weekday + intoYear / 86400) % 7;
    var month, intoMonth := FindMonth(isLeap, intoYear);
    var day, hour, minute, second := SplitDay(intoMonth);
    result := Date(DateTime(year, month, day + 1, hour, minute, second, weekday, ToULong(time.nano)));
    PartsAddUp(result.date, intoYear, intoMonth);
    ULongTwice(4 + DaysBeforeYear(year), intoYear / 86400);
    TrueWeekday(result.date, EpochSeconds(result.date));
  }

  /** Two conversions: below 2^56 seconds their dates are in calendar order exactly as the local
      times are, and the same moment only for the same local time. */
  method ConvertTwo(time1: PtpTime, offset1: Long, time2: PtpTime, offset2: Long)
    returns (result1: DateResult, result2: DateResult)
    ensures var s1, s2 := ToInt64(time1.Value().sec + offset1), ToInt64(time2.Value().sec + offset2);
            0 <= s1 < 0x100_0000_0000_0000 && 0 <= s2 < 0x100_0000_0000_0000 ==>
              && result1.Date? && result2.Date?
              && (Earlier(result1.date, result2.date) <==> s1 < s2)
              && (SameMoment(result1.date, result2.date) <==> s1 == s2)
  {
    hide ToInt64, ValidDate, EpochSeconds, EpochDays, Earlier, SameMoment;
    result1 := ConvertTimeToDate(time1, offset1);
    result2 := ConvertTimeToDate(time2, offset2);
    if result1.Date? && result2.Date? && ValidDate(result1.date) && ValidDate(result2.date) {
      SecondsOrderDates(result1.date, result2.date);
    }
  }

  lemma TrueWeekday(d: DateTime, seconds: int)
    requires seconds == EpochSeconds(d) && 0 <= d.hour < 24 && 0 <= d.minute < 60 && 0 <= d.second < 60
    ensures 0 <= seconds < 0x1_0000_0000_0000 ==> ToULong(4 + EpochDays(d)) % 7 == (4 + EpochDays(d)) % 7
  {
    if 0 <= seconds < 0x1_0000_0000_0000 {
      assert seconds / 86400 == EpochDays(d);
      WeekdayOfWireTime(seconds);
    }
  }

  lemma SignExtended(x: Long)
    ensures Join(if x < 0 then -1 else 0, ToULong(x)) == x
  {
  }

  lemma PartsAddUp(d: DateTime, intoYear: int, intoMonth: int)
    requires intoYear == DaysBeforeMonth(IsLeap(d.year), d.month) * 86400 + intoMonth
    requires intoMonth == (d.day - 1) * 86400 + d.hour * 3600 + d.minute * 60 + d.second
    requires 0 <= d.hour < 24 && 0 <= d.minute < 60 && 0 <= d.second < 60
    ensures EpochSeconds(d) == DaysBeforeYear(d.year) * 86400 + intoYear
    ensures EpochDays(d) == DaysBeforeYear(d.year) + intoYear / 86400
  {
    var days := DaysBeforeMonth(IsLeap(d.year), d.month) + d.day - 1;
    var rest := d.hour * 3600 + d.minute * 60 + d.second;
    assert intoYear == days * 86400 + rest;
  }

  /** Day of the month from zero, and time of day. */
  method SplitDay(secs: ULong) returns (day: int, hour: int, minute: int, second: int)
    ensures day == secs / 86400 && 0 <= hour < 24 && 0 <= minute < 60 && 0 <= second < 60
    ensures secs == day * 86400 + hour * 3600 + minute * 60 + second
  {
    second, day := secs, secs / 86400;
    second := second - day * 86400;
    hour := second / 3600;
    second := second - hour * 3600;
    minute := second / 60;
    second := second - minute * 60;
  }
}

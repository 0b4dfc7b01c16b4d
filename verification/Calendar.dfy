/**
 Conversion of Unix time to a calendar date, against the "Seconds Since the Epoch"
 formula of section 4.16 of the POSIX.1-2017 Base Definitions.
 */
module Calendar {

  datatype Date = Date(year: int, month: int, day: int, hour: int, minute: int, second: int)

  predicate Leap(year: int) {
    year % 4 == 0 && (year % 100 != 0 || year % 400 == 0)
  }

  function MonthDays(leap: bool): seq<int> {
    [31, if leap then 29 else 28, 31, 30, 31, 30, 31, 31, 30, 31, 30, 31]
  }

  /** Days of the year before month m, counted from zero. */
  function DaysBeforeMonth(leap: bool, m: int): int
    requires 0 <= m <= 12
  {
    if m == 0 then 0 else DaysBeforeMonth(leap, m - 1) + MonthDays(leap)[m - 1]
  }

  /** Fields in the ranges a calendar gives them. */
  predicate ValidDate(d: Date) {
    && 1970 <= d.year && 1 <= d.month <= 12 && 1 <= d.day <= MonthDays(Leap(d.year))[d.month - 1]
    && 0 <= d.hour < 24 && 0 <= d.minute < 60 && 0 <= d.second < 60
  }

  /** tm_yday */
  function YearDay(d: Date): int
    requires ValidDate(d)
  {
    DaysBeforeMonth(Leap(d.year), d.month - 1) + d.day - 1
  }

  /** The days that POSIX counts from the epoch to the start of a year, in terms of tm_year = year - 1900. */
  function DaysBeforeYear(year: int): int {
    var tmYear := year - 1900;
    (tmYear - 70) * 365 + (tmYear - 69) / 4 - (tmYear - 1) / 100 + (tmYear + 299) / 400
  }

  /** Seconds Since the Epoch. */
  function Epoch(d: Date): int
    requires ValidDate(d)
  {
    d.second + d.minute * 60 + d.hour * 3600 + (YearDay(d) + DaysBeforeYear(d.year)) * 86400
  }

  function YearLength(year: int): int {
    if Leap(year) then 366 else 365
  }

  lemma Fours(year: int)
    ensures (year - 1968) / 4 == (year - 1969) / 4 + if year % 4 == 0 then 1 else 0
  {
    assert year - 1968 == 4 * (year / 4 - 492) + year % 4;
  }

  lemma Hundreds(year: int)
    ensures (year - 1900) / 100 == (year - 1901) / 100 + if year % 100 == 0 then 1 else 0
  {
    assert year - 1900 == 100 * (year / 100 - 19) + year % 100;
  }

  lemma FourHundreds(year: int)
    ensures (year - 1600) / 400 == (year - 1601) / 400 + if year % 400 == 0 then 1 else 0
  {
    assert year - 1600 == 400 * (year / 400 - 4) + year % 400;
  }

  lemma HundredDivides(q: int)
    ensures 100 * q % 100 == 0
  {
  }

  lemma FourDivides(q: int)
    ensures 4 * q % 4 == 0
  {
  }

  lemma Divides(year: int)
    ensures year % 400 == 0 ==> year % 100 == 0
    ensures year % 100 == 0 ==> year % 4 == 0
  {
    HundredDivides(4 * (year / 400));
    FourDivides(25 * (year / 100));
  }

  /** The POSIX leap-day terms grow by one day exactly after a leap year. */
  lemma NextYear(year: int)
    ensures DaysBeforeYear(year + 1) == DaysBeforeYear(year) + YearLength(year)
  {
    Fours(year);
    Hundreds(year);
    FourHundreds(year);
    Divides(year);
  }

  /** The table of month lengths gives the days before each month that the usual closed form gives. */
  lemma {:induction false} DaysBefore(leap: bool, m: int)
    requires 0 <= m <= 12
    ensures DaysBeforeMonth(leap, m) == (367 * (m + 1) - 362) / 12 - if m < 2 then 0 else if leap then 1 else 2
  {
    if m > 0 {
      DaysBefore(leap, m - 1);
    }
  }

  lemma MonthsAddUp(leap: bool)
    ensures DaysBeforeMonth(leap, 12) == if leap then 366 else 365
  {
    DaysBefore(leap, 12);
  }

  /** The first loop: whole years are taken off while they fit; none from a negative number of days. */
  method TakeYears(total: int) returns (year: int, days: int)
    requires -0x8000_0000 <= total < 0x8000_0000
    ensures total >= 0 ==>
              1970 <= year <= 1970 + total && 0 <= days < YearLength(year) && days + DaysBeforeYear(year) == total
    ensures total < 0 ==> year == 1970 && days == total
  {
    year, days := 1970, total;
    while true
      invariant 1970 <= year && (total >= 0 ==> 0 <= days) && (total < 0 ==> days == total && year == 1970)
      invariant days + DaysBeforeYear(year) == total && year - 1970 <= total - days
      decreases days
    {
      var leap := year % 4 == 0 && (year % 100 != 0 || year % 400 == 0);
      var daysInYear := if leap then 366 else 365;
      if days >= daysInYear {
        NextYear(year);
        days := days - daysInYear;
        year := year + 1;
      } else {
        break;
      }
    }
  }

  /** The second loop: whole months are taken off; the month index never leaves the table. */
  method TakeMonths(leap: bool, yearDays: int) returns (month: int, days: int)
    requires yearDays < if leap then 366 else 365
    ensures yearDays >= 0 ==>
              0 <= month < 12 && 0 <= days < MonthDays(leap)[month] && DaysBeforeMonth(leap, month) + days == yearDays
    ensures yearDays < 0 ==> month == 0 && days == yearDays
  {
    MonthsAddUp(leap);
    month, days := 0, yearDays;
    var daysInMonth := MonthDays(leap);
    while days >= daysInMonth[month]
      invariant 0 <= month < 12 && (yearDays >= 0 ==> 0 <= days) && (yearDays < 0 ==> month == 0 && days == yearDays)
      invariant DaysBeforeMonth(leap, month) + days == yearDays
      decreases 12 - month
    {
      days := days - daysInMonth[month];
      month := month + 1;
    }
  }

  /** What a 32-bit int holds after an unsigned 64-bit value is assigned to it. */
  function ToInt(q: int): (w: int)
    ensures -0x8000_0000 <= w < 0x8000_0000 && (w == q <==> -0x8000_0000 <= q < 0x8000_0000)
  {
    var low := q % 0x1_0000_0000;
    if low < 0x8000_0000 then low else low - 0x1_0000_0000
  }

  /**
   convert_unix_time_to_rtcdate, for every unsigned 64-bit time: the date is valid and means the
   given time exactly as long as the day number fits an int.
   */
  method Convert(time: int) returns (d: Date)
    requires 0 <= time < 0x1_0000_0000_0000_0000
    ensures ValidDate(d) && Epoch(d) == time <==> time < 86400 * 0x8000_0000
  {
    var total, rest := ToInt(time / 86400), time % 86400;
    var year, yearDays := TakeYears(total);
    var month, days := TakeMonths(Leap(year), yearDays);
    d := Date(year, month + 1, days + 1, rest / 3600, rest % 3600 / 60, rest % 3600 % 60);
    SecondsOfDay(rest);
    if total < 0 {
      assert !ValidDate(d);
    } else {
      assert Epoch(d) == 86400 * total + rest;
    }
  }

  lemma SecondsOfDay(rest: int)
    requires 0 <= rest < 86400
    ensures 0 <= rest / 3600 < 24 && 0 <= rest % 3600 / 60 < 60 && 0 <= rest % 3600 % 60 < 60
    ensures 3600 * (rest / 3600) + 60 * (rest % 3600 / 60) + rest % 3600 % 60 == rest
  {
  }

  // ------------------------------------------------------------ order

  predicate Before(a: Date, b: Date) {
    a.year < b.year || (a.year == b.year &&
    (a.month < b.month || (a.month == b.month &&
    (a.day < b.day || (a.day == b.day &&
    (a.hour < b.hour || (a.hour == b.hour &&
    (a.minute < b.minute || (a.minute == b.minute && a.second < b.second)))))))))
  }

  lemma {:induction false} YearsGrow(a: int, b: int)
    requires a <= b
    ensures DaysBeforeYear(a) + 365 * (b - a) <= DaysBeforeYear(b)
    ensures a < b ==> DaysBeforeYear(a) + YearLength(a) <= DaysBeforeYear(b)
    decreases b - a
  {
    if a < b {
      NextYear(a);
      YearsGrow(a + 1, b);
    }
  }

  lemma {:induction false} MonthsGrow(leap: bool, a: int, b: int)
    requires 0 <= a < b <= 12
    ensures DaysBeforeMonth(leap, a) + MonthDays(leap)[a] <= DaysBeforeMonth(leap, b)
    decreases b
  {
    if a < b - 1 {
      MonthsGrow(leap, a, b - 1);
    }
  }

  lemma YearDayRange(d: Date)
    requires ValidDate(d)
    ensures 0 <= YearDay(d) < YearLength(d.year)
  {
    var leap := Leap(d.year);
    MonthsAddUp(leap);
    MonthsGrow(leap, d.month - 1, 12);
    if d.month > 1 {
      MonthsGrow(leap, 0, d.month - 1);
    }
  }

  /** Calendar order is time order, so no two valid dates stand for the same second. */
  lemma OrderOfDates(a: Date, b: Date)
    requires ValidDate(a) && ValidDate(b)
    ensures Before(a, b) ==> Epoch(a) < Epoch(b)
  {
    if Before(a, b) {
      YearDayRange(a);
      YearDayRange(b);
      if a.year < b.year {
        YearsGrow(a.year, b.year);
      } else if a.month < b.month {
        MonthsGrow(Leap(a.year), a.month - 1, b.month - 1);
      }
    }
  }

  /** The conversion is the only inverse of the formula and is strictly monotone. */
  lemma Inverse(s: int, a: Date, t: int, b: Date)
    requires ValidDate(a) && ValidDate(b) && Epoch(a) == s && Epoch(b) == t
    ensures s < t <==> Before(a, b)
    ensures s == t <==> a == b
  {
    OrderOfDates(a, b);
    OrderOfDates(b, a);
  }
}

/** The proleptic Gregorian calendar behind timegm and gmtime_r: "Seconds Since the Epoch" of
    POSIX.1-2017 Base Definitions, section 4.16, and its inverse. */
module Calendar {

  // The fields of a broken-down UTC time that the timestamp code fills and compares. The year is the full
  // year and the month counts from 1, where struct tm stores year - 1900 and month - 1.
  datatype Civil = Civil(year: int, month: int, day: int, hour: int, minute: int, second: int)

  predicate Leap(year: int) {
    year % 4 == 0 && (year % 100 != 0 || year % 400 == 0)
  }

  function DaysInMonth(year: int, month: int): int {
    if month == 2 then (if Leap(year) then 29 else 28)
    else if month == 4 || month == 6 || month == 9 || month == 11 then 30
    else 31
  }

  // A date of the Gregorian calendar and a time of day without leap seconds.
  predicate Real(c: Civil) {
    && 1 <= c.month <= 12 && 1 <= c.day <= DaysInMonth(c.year, c.month)
    && 0 <= c.hour <= 23 && 0 <= c.minute <= 59 && 0 <= c.second <= 59
  }

  function DaysBeforeYear(year: int): int {
    365 * year + (year + 3) / 4 - (year + 99) / 100 + (year + 399) / 400 - 719528
  }

  // Days of the year before the first of the month; month 13 gives the length of the year.
  function DaysBeforeMonth(year: int, month: int): int
    requires 1 <= month <= 13
    decreases month
  {
    if month == 1 then 0 else DaysBeforeMonth(year, month - 1) + DaysInMonth(year, month - 1)
  }

  // Out-of-range days, hours, minutes and seconds carry over, as timegm normalises them.
  function TimeGm(c: Civil): int
    requires 1 <= c.month <= 12
  {
    (DaysBeforeYear(c.year) + DaysBeforeMonth(c.year, c.month) + c.day - 1) * 86400
    + c.hour * 3600 + c.minute * 60 + c.second
  }

  // The year a day belongs to: an estimate from the mean year length, corrected by at most one.
  function YearOf(day: int): int {
    var guess := ((day + 719528) * 400) / 146097;
    if day < DaysBeforeYear(guess) then guess - 1
    else if DaysBeforeYear(guess + 1) <= day then guess + 1
    else guess
  }

  // The month, at or after `from`, that holds a day of the year.
  function MonthOf(year: int, yday: int, from: int): (month: int)
    requires 1 <= from <= 12
    requires DaysBeforeMonth(year, from) <= yday < DaysBeforeMonth(year, 13)
    ensures from <= month <= 12 && DaysBeforeMonth(year, month) <= yday < DaysBeforeMonth(year, month + 1)
    decreases 12 - from
  {
    if yday < DaysBeforeMonth(year, from + 1) then from else MonthOf(year, yday, from + 1)
  }

  function GmTime(t: int): Civil {
    var day, second := t / 86400, t % 86400;
    YearOfHolds(day);
    var year := YearOf(day);
    var yday := day - DaysBeforeYear(year);
    YearLength(year);
    var month := MonthOf(year, yday, 1);
    Civil(year, month, yday - DaysBeforeMonth(year, month) + 1, second / 3600, second % 3600 / 60, second % 60)
  }

  // Field by field order, the year first.
  predicate CivilLess(a: Civil, b: Civil) {
    a.year < b.year || (a.year == b.year && (
    a.month < b.month || (a.month == b.month && (
    a.day < b.day || (a.day == b.day && (
    a.hour < b.hour || (a.hour == b.hour && (
    a.minute < b.minute || (a.minute == b.minute && a.second < b.second)))))))))
  }

  // ---- Years and months tile the days ----

  lemma YearLength(year: int)
    ensures DaysBeforeMonth(year, 13) == if Leap(year) then 366 else 365
    ensures DaysBeforeYear(year + 1) == DaysBeforeYear(year) + DaysBeforeMonth(year, 13)
  {
    MonthTable(year);
    LeapStep(year);
  }

  // Passing a year passes a multiple of 4, 100 or 400 exactly when it is one.
  lemma LeapStep(year: int)
    ensures (year + 4) / 4 - (year + 3) / 4 - (year + 100) / 100 + (year + 99) / 100
            + (year + 400) / 400 - (year + 399) / 400 == if Leap(year) then 1 else 0
  {
    CeilingStep(year, 4);
    CeilingStep(year, 100);
    CeilingStep(year, 400);
    Multiples(year);
  }

  lemma Multiples(year: int)
    ensures year % 100 == 0 ==> year % 4 == 0
    ensures year % 400 == 0 ==> year % 100 == 0
  {
  }

  lemma CeilingStep(year: int, n: int)
    requires n == 4 || n == 100 || n == 400
    ensures (year + n) / n - (year + n - 1) / n == if year % n == 0 then 1 else 0
  {
    var q, r := year / n, year % n;
    assert year == n * q + r;
    QuotientIs(year + n, n, q + 1, r);
    if r == 0 {
      QuotientIs(year + n - 1, n, q, n - 1);
    } else {
      QuotientIs(year + n - 1, n, q + 1, r - 1);
    }
  }

  lemma QuotientIs(x: int, n: int, q: int, r: int)
    requires (n == 4 || n == 100 || n == 400) && x == n * q + r && 0 <= r < n
    ensures x / n == q
  {
    if n == 4 {
      assert x == 4 * q + r;
    } else if n == 100 {
      assert x == 100 * q + r;
    } else {
      assert x == 400 * q + r;
    }
  }

  lemma MonthTable(year: int)
    ensures DaysBeforeMonth(year, 13) == if Leap(year) then 366 else 365
  {
    assert DaysBeforeMonth(year, 4) == DaysInMonth(year, 2) + 62;
    assert DaysBeforeMonth(year, 7) == DaysBeforeMonth(year, 4) + 91;
    assert DaysBeforeMonth(year, 10) == DaysBeforeMonth(year, 7) + 92;
    assert DaysBeforeMonth(year, 13) == DaysBeforeMonth(year, 10) + 92;
  }

  lemma YearOfHolds(day: int)
    ensures DaysBeforeYear(YearOf(day)) <= day < DaysBeforeYear(YearOf(day) + 1)
  {
  }

  lemma {:induction false} YearsGrow(a: int, b: int)
    requires a < b
    ensures DaysBeforeYear(a) + DaysBeforeMonth(a, 13) <= DaysBeforeYear(b)
    decreases b - a
  {
    YearLength(b - 1);
    if a + 1 == b {
    } else {
      YearsGrow(a, b - 1);
    }
  }

  lemma {:induction false} MonthsGrow(year: int, a: int, b: int)
    requires 1 <= a < b <= 13
    ensures DaysBeforeMonth(year, a) + DaysInMonth(year, a) <= DaysBeforeMonth(year, b)
    decreases b - a
  {
    if a + 1 < b {
      MonthsGrow(year, a, b - 1);
    }
  }

  lemma {:induction false} MonthStart(year: int, month: int)
    requires 1 <= month <= 13
    ensures DaysBeforeMonth(year, month) >= 0
  {
    if month > 1 {
      MonthStart(year, month - 1);
    }
  }

  // The days before each month, as any almanac has them.
  lemma Almanac(year: int)
    ensures var leap := if Leap(year) then 1 else 0;
            && DaysBeforeMonth(year, 1) == 0 && DaysBeforeMonth(year, 2) == 31
            && DaysBeforeMonth(year, 3) == 59 + leap && DaysBeforeMonth(year, 4) == 90 + leap
            && DaysBeforeMonth(year, 5) == 120 + leap && DaysBeforeMonth(year, 6) == 151 + leap
            && DaysBeforeMonth(year, 7) == 181 + leap && DaysBeforeMonth(year, 8) == 212 + leap
            && DaysBeforeMonth(year, 9) == 243 + leap && DaysBeforeMonth(year, 10) == 273 + leap
            && DaysBeforeMonth(year, 11) == 304 + leap && DaysBeforeMonth(year, 12) == 334 + leap
  {
    assert DaysBeforeMonth(year, 4) == DaysBeforeMonth(year, 3) + 31;
    assert DaysBeforeMonth(year, 6) == DaysBeforeMonth(year, 4) + 61;
    assert DaysBeforeMonth(year, 8) == DaysBeforeMonth(year, 6) + 61;
    assert DaysBeforeMonth(year, 10) == DaysBeforeMonth(year, 8) + 61;
  }

  // ---- Main results ----

  // gmtime_r always yields a real date and time, and timegm undoes it.
  lemma GmTimeReal(t: int)
    ensures Real(GmTime(t)) && TimeGm(GmTime(t)) == t
  {
    var day, second := t / 86400, t % 86400;
    YearOfHolds(day);
    var year := YearOf(day);
    YearLength(year);
    var yday := day - DaysBeforeYear(year);
    var month := MonthOf(year, yday, 1);
    assert DaysBeforeMonth(year, month + 1) == DaysBeforeMonth(year, month) + DaysInMonth(year, month);
    TimeOfDay(second);
  }

  lemma TimeOfDay(second: int)
    requires 0 <= second < 86400
    ensures 0 <= second / 3600 <= 23 && 0 <= second % 3600 / 60 <= 59
    ensures second / 3600 * 3600 + second % 3600 / 60 * 60 + second % 60 == second
  {
    var h, rest := second / 3600, second % 3600;
    var m, left := rest / 60, rest % 60;
    assert second == 60 * (60 * h + m) + left;
    SixtiesAndUnits(60 * h + m, left);
  }

  lemma SixtiesAndUnits(sixties: int, units: int)
    requires 0 <= units < 60
    ensures (60 * sixties + units) % 60 == units
  {
  }

  // Real dates and times order as their second counts do.
  lemma CivilOrder(a: Civil, b: Civil)
    requires Real(a) && Real(b) && CivilLess(a, b)
    ensures TimeGm(a) < TimeGm(b)
  {
    var da := DaysBeforeYear(a.year) + DaysBeforeMonth(a.year, a.month) + a.day;
    var db := DaysBeforeYear(b.year) + DaysBeforeMonth(b.year, b.month) + b.day;
    if a.year < b.year {
      YearsGrow(a.year, b.year);
      MonthsGrow(a.year, a.month, 13);
      MonthStart(b.year, b.month);
      assert da < db;
    } else if a.month < b.month {
      MonthsGrow(a.year, a.month, b.month);
      assert da < db;
    } else if a.day < b.day {
      assert da < db;
    } else {
      assert da == db;
    }
  }

  lemma CivilTotal(a: Civil, b: Civil)
    ensures a == b || CivilLess(a, b) || CivilLess(b, a)
  {
  }

  // Real dates and times and second counts are in bijection.
  lemma TimeGmInverse(c: Civil)
    requires Real(c)
    ensures GmTime(TimeGm(c)) == c
  {
    var d := GmTime(TimeGm(c));
    GmTimeReal(TimeGm(c));
    CivilTotal(c, d);
    if CivilLess(c, d) {
      CivilOrder(c, d);
    } else if CivilLess(d, c) {
      CivilOrder(d, c);
    }
  }

  lemma CivilOrderExactly(a: Civil, b: Civil)
    requires Real(a) && Real(b)
    ensures CivilLess(a, b) <==> TimeGm(a) < TimeGm(b)
    ensures a == b <==> TimeGm(a) == TimeGm(b)
  {
    CivilTotal(a, b);
    if CivilLess(a, b) {
      CivilOrder(a, b);
    } else if CivilLess(b, a) {
      CivilOrder(b, a);
    }
  }

  // The fields timegm leaves behind are those it was given exactly when they are a real date and time.
  lemma UnchangedExactlyWhenReal(c: Civil)
    requires 1 <= c.month <= 12
    ensures GmTime(TimeGm(c)) == c <==> Real(c)
  {
    GmTimeReal(TimeGm(c));
    if Real(c) {
      TimeGmInverse(c);
    }
  }

  // A day between the starts of two years belongs to a year in between.
  lemma YearWithin(day: int, low: int, high: int)
    requires DaysBeforeYear(low) <= day < DaysBeforeYear(high)
    ensures low <= YearOf(day) < high
  {
    hide YearOf, DaysBeforeMonth;
    var year := YearOf(day);
    YearOfHolds(day);
    if year + 1 < low {
      YearsGrow(year + 1, low);
      MonthStart(year + 1, 13);
    }
    if high < year {
      YearsGrow(high, year);
      MonthStart(high, 13);
    }
  }

  // TimeGm is the expression POSIX gives for tm_year >= 70, with tm_yday the day of the year.
  lemma PosixSecondsSinceTheEpoch(c: Civil)
    requires Real(c) && c.year >= 1970
    ensures var tmYear, tmYday := c.year - 1900, DaysBeforeMonth(c.year, c.month) + c.day - 1;
            TimeGm(c) ==
            c.second + c.minute * 60 + c.hour * 3600 + tmYday * 86400
            + (tmYear - 70) * 31536000 + (tmYear - 69) / 4 * 86400
            - (tmYear - 1) / 100 * 86400 + (tmYear + 299) / 400 * 86400
  {
    var y := c.year;
    assert (y + 3) / 4 == (y - 1900 - 69) / 4 + 493;
    assert (y + 99) / 100 == (y - 1900 - 1) / 100 + 20;
    assert (y + 399) / 400 == (y - 1900 + 299) / 400 + 5;
  }
}

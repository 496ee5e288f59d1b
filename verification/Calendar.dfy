/**
The Gregorian calendar that pkg/cron reads times in: days counted from the
first of January of year 0, and the dates they are.
*/
module Calendar {
  const DAYS_IN_CYCLE := 146097 // 400 years

  predicate Leap(year: int) {
    year % 4 == 0 && (year % 100 != 0 || year % 400 == 0)
  }

  // Days before a year.
  function YearStart(year: int): int {
    365 * year + (year + 3) / 4 - (year + 99) / 100 + (year + 399) / 400
  }

  function MonthLength(year: int, month: int): (days: int)
    ensures 28 <= days <= 31
  {
    if month == 2 then (if Leap(year) then 29 else 28)
    else if month == 4 || month == 6 || month == 9 || month == 11 then 30
    else 31
  }

  // Days of the year before a month.
  function MonthStart(year: int, month: int): (days: int)
    requires 1 <= month <= 13
    ensures 28 * (month - 1) <= days
    decreases month
  {
    if month == 1 then 0 else MonthStart(year, month - 1) + MonthLength(year, month - 1)
  }

  datatype Date = Date(year: int, month: int, day: int)

  predicate IsDate(d: Date) {
    1 <= d.month <= 12 && 1 <= d.day <= MonthLength(d.year, d.month)
  }

  // A day past the end of its month counts on into the next, as time.Date reads it.
  function DayNumber(year: int, month: int, day: int): int
    requires 1 <= month <= 12
  {
    YearStart(year) + MonthStart(year, month) + day - 1
  }

  // Sunday is 0.
  function Weekday(n: int): int {
    (n + 6) % 7
  }

  lemma {:induction false} MultiplesApart(d: int, a: int, b: int)
    requires d > 0
    ensures a < b ==> d * a + d <= d * b
    decreases b - a
  {
    if a + 1 < b {
      MultiplesApart(d, a + 1, b);
    }
    if a < b {
      assert d * (a + 1) == d * a + d;
    }
  }

  lemma Quotient(n: int, d: int, q: int)
    requires d > 0 && d * q <= n < d * q + d
    ensures n / d == q && n % d == n - d * q
  {
    MultiplesApart(d, n / d, q);
    MultiplesApart(d, q, n / d);
  }

  // The multiples of d that lie before year + 1 and not before year.
  lemma MultiplesBetween(year: int, d: int)
    requires d > 0
    ensures (year + d) / d == (year + d - 1) / d + if year % d == 0 then 1 else 0
  {
    var q, r := year / d, year % d;
    assert year == d * q + r;
    assert d * (q + 1) == d * q + d;
    Quotient(year + d, d, q + 1);
    if r == 0 {
      Quotient(year + d - 1, d, q);
    } else {
      Quotient(year + d - 1, d, q + 1);
    }
  }

  lemma NestedMultiples(year: int)
    ensures year % 100 == 0 ==> year % 4 == 0
    ensures year % 400 == 0 ==> year % 100 == 0
  {
    if year % 100 == 0 {
      Quotient(year, 4, 25 * (year / 100));
    }
    if year % 400 == 0 {
      Quotient(year, 100, 4 * (year / 400));
    }
  }

  lemma YearLength(year: int)
    ensures YearStart(year + 1) == YearStart(year) + if Leap(year) then 366 else 365
  {
    MultiplesBetween(year, 4);
    MultiplesBetween(year, 100);
    MultiplesBetween(year, 400);
    NestedMultiples(year);
  }

  lemma {:induction false} YearsGrow(y: int, z: int)
    requires y <= z
    ensures YearStart(y) + 365 * (z - y) <= YearStart(z)
    decreases z - y
  {
    if y < z {
      YearsGrow(y, z - 1);
      YearLength(z - 1);
    }
  }

  lemma Shift(n: int, d: int, c: int)
    requires d > 0
    ensures (d * c + n) / d == c + n / d && (d * c + n) % d == n % d
  {
    assert d * (c + n / d) == d * c + d * (n / d);
    Quotient(d * c + n, d, c + n / d);
  }

  lemma YearsRepeat(cycle: int, year: int)
    ensures YearStart(400 * cycle + year) == DAYS_IN_CYCLE * cycle + YearStart(year)
  {
    Shift(year + 3, 4, 100 * cycle);
    Shift(year + 99, 100, 4 * cycle);
    Shift(year + 399, 400, cycle);
  }

  // From March on, months have 31, 30, 31, 30, 31 days, over and over.
  lemma MonthsFromMarch(year: int, month: int)
    requires 3 <= month <= 13
    ensures MonthStart(year, 3) == if Leap(year) then 60 else 59
    ensures MonthStart(year, month) - MonthStart(year, 3) == (153 * (month - 3) + 2) / 5
  {
    var march := 31 + MonthLength(year, 2);
    assert MonthStart(year, 2) == 31 && MonthStart(year, 3) == march;
    assert MonthStart(year, 4) == march + 31;
    assert MonthStart(year, 5) == march + 61;
    assert MonthStart(year, 6) == march + 92;
    assert MonthStart(year, 7) == march + 122;
    assert MonthStart(year, 8) == march + 153;
    assert MonthStart(year, 9) == march + 184;
    assert MonthStart(year, 10) == march + 214;
    assert MonthStart(year, 11) == march + 245;
    assert MonthStart(year, 12) == march + 275;
  }

  lemma MonthsFillTheYear(year: int)
    ensures MonthStart(year, 13) == if Leap(year) then 366 else 365
    ensures MonthStart(year, 13) == YearStart(year + 1) - YearStart(year)
  {
    MonthsFromMarch(year, 13);
    YearLength(year);
  }

  lemma YearAfter(year: int)
    ensures YearStart(year + 1) == 365 * year + 366 + year / 4 - year / 100 + year / 400
  {
    Shift(year, 4, 1);
    Shift(year, 100, 1);
    Shift(year, 400, 1);
  }

  lemma MarchStart(year: int)
    ensures YearStart(year) + MonthStart(year, 3) == 365 * year + 60 + year / 4 - year / 100 + year / 400
  {
    YearAfter(year);
    YearLength(year);
    MonthsFromMarch(year, 3);
  }

  // Days from the first of March of year 0 to that of another.
  function MarchOf(year: int): int {
    365 * year + year / 4 - year / 100 + year / 400
  }

  lemma FromMarch(year: int, month: int, day: int)
    requires 3 <= month <= 12
    ensures DayNumber(year, month, day) == 60 + MarchOf(year) + (153 * (month - 3) + 2) / 5 + day - 1
  {
    MarchStart(year);
    MonthsFromMarch(year, month);
  }

  lemma FromJanuary(year: int, month: int, day: int)
    requires 1 <= month <= 2
    ensures DayNumber(year, month, day) == 60 + MarchOf(year - 1) + (153 * (month + 9) + 2) / 5 + day - 1
  {
    YearAfter(year - 1);
    assert MonthStart(year, 1) == 0 && MonthStart(year, 2) == 31;
  }

  lemma FirstMarch()
    ensures DayNumber(0, 3, 1) == 60
  {
    assert MonthStart(0, 2) == 31 && MonthStart(0, 3) == 60;
  }

  /**
   The number of a date without months or their lengths: with years that begin in March, so that a leap
   day is the last of its year, a date is so many days after the first of March of year 0.
   */
  lemma DaysFromMarch(year: int, month: int, day: int)
    requires 1 <= month <= 12
    ensures month >= 3 ==>
      DayNumber(year, month, day) - DayNumber(0, 3, 1) == MarchOf(year) + (153 * (month - 3) + 2) / 5 + day - 1
    ensures month <= 2 ==>
      DayNumber(year, month, day) - DayNumber(0, 3, 1) == MarchOf(year - 1) + (153 * (month + 9) + 2) / 5 + day - 1
  {
    FirstMarch();
    if month <= 2 {
      FromJanuary(year, month, day);
    } else {
      FromMarch(year, month, day);
    }
  }

  // Weekdays of the world: the epoch, a leap day, and what follows February in century years.
  lemma WeekdayAnchors()
    ensures Weekday(DayNumber(1970, 1, 1)) == 4
    ensures Weekday(DayNumber(2000, 2, 29)) == 2 && Weekday(DayNumber(2000, 3, 1)) == 3
    ensures Weekday(DayNumber(1900, 3, 1)) == 4 && Weekday(DayNumber(2100, 3, 1)) == 1
  {
    FromJanuary(1970, 1, 1);
    FromJanuary(2000, 2, 29);
    FromMarch(2000, 3, 1);
    FromMarch(1900, 3, 1);
    FromMarch(2100, 3, 1);
  }

  // The first of every month of 2026.
  lemma FirstsOf2026()
    ensures Weekday(DayNumber(2026, 1, 1)) == 4 && Weekday(DayNumber(2026, 2, 1)) == 0
    ensures Weekday(DayNumber(2026, 3, 1)) == 0 && Weekday(DayNumber(2026, 4, 1)) == 3
    ensures Weekday(DayNumber(2026, 5, 1)) == 5 && Weekday(DayNumber(2026, 6, 1)) == 1
    ensures Weekday(DayNumber(2026, 7, 1)) == 3 && Weekday(DayNumber(2026, 8, 1)) == 6
    ensures Weekday(DayNumber(2026, 9, 1)) == 2 && Weekday(DayNumber(2026, 10, 1)) == 4
    ensures Weekday(DayNumber(2026, 11, 1)) == 0 && Weekday(DayNumber(2026, 12, 1)) == 2
  {
    FromJanuary(2026, 1, 1);
    FromJanuary(2026, 2, 1);
    FromMarch(2026, 3, 1);
    FromMarch(2026, 4, 1);
    FromMarch(2026, 5, 1);
    FromMarch(2026, 6, 1);
    FromMarch(2026, 7, 1);
    FromMarch(2026, 8, 1);
    FromMarch(2026, 9, 1);
    FromMarch(2026, 10, 1);
    FromMarch(2026, 11, 1);
    FromMarch(2026, 12, 1);
  }

  lemma {:induction false} MonthsGrow(year: int, m: int, n: int)
    requires 1 <= m < n <= 13
    ensures MonthStart(year, m) + MonthLength(year, m) <= MonthStart(year, n)
    decreases n
  {
    if m + 1 < n {
      MonthsGrow(year, m, n - 1);
    }
  }

  // The year of the r-th day of a cycle, looked for from `from` on.
  function YearFrom(r: int, from: int): (year: int)
    requires 0 <= from < 400 && YearStart(from) <= r < DAYS_IN_CYCLE
    ensures from <= year < 400 && YearStart(year) <= r < YearStart(year + 1)
    decreases 400 - from
  {
    if r < YearStart(from + 1) then from else YearFrom(r, from + 1)
  }

  // The year of a day of some cycle.
  function YearIn(cycle: int, r: int): (year: int)
    requires 0 <= r < DAYS_IN_CYCLE
    ensures YearStart(year) <= DAYS_IN_CYCLE * cycle + r < YearStart(year + 1)
  {
    var year := YearFrom(r, 0);
    YearOfCycle(cycle, r, year);
    400 * cycle + year
  }

  function Year(n: int): (year: int)
    ensures YearStart(year) <= n < YearStart(year + 1)
  {
    YearIn(n / DAYS_IN_CYCLE, n % DAYS_IN_CYCLE)
  }

  // n is in the year of the cycle that its rest is in.
  lemma YearOfCycle(cycle: int, r: int, year: int)
    requires YearStart(year) <= r < YearStart(year + 1)
    ensures YearStart(400 * cycle + year) <= DAYS_IN_CYCLE * cycle + r < YearStart(400 * cycle + year + 1)
  {
    YearsRepeat(cycle, year);
    YearsRepeat(cycle, year + 1);
    assert 400 * cycle + (year + 1) == 400 * cycle + year + 1;
  }

  // The month of the r-th day of a year, looked for from `from` on.
  function MonthFrom(year: int, r: int, from: int): (month: int)
    requires 1 <= from <= 12 && MonthStart(year, from) <= r < MonthStart(year, 13)
    ensures from <= month <= 12 && MonthStart(year, month) <= r < MonthStart(year, month) + MonthLength(year, month)
    decreases 12 - from
  {
    if r < MonthStart(year, from) + MonthLength(year, from) then from else MonthFrom(year, r, from + 1)
  }

  /** The date of a day: valid, and its day number is the day. */
  function DateOf(n: int): (d: Date)
    ensures IsDate(d) && DayNumber(d.year, d.month, d.day) == n
    ensures YearStart(d.year) <= n < YearStart(d.year + 1)
  {
    var year := Year(n);
    MonthsFillTheYear(year);
    var r := n - YearStart(year);
    var month := MonthFrom(year, r, 1);
    Date(year, month, r - MonthStart(year, month) + 1)
  }

  lemma DateWithinYear(d: Date)
    requires IsDate(d)
    ensures YearStart(d.year) <= DayNumber(d.year, d.month, d.day) < YearStart(d.year + 1)
  {
    MonthsFillTheYear(d.year);
    if d.month < 12 {
      MonthsGrow(d.year, d.month, 13);
    }
  }

  lemma SameYear(n: int, y: int, z: int)
    requires YearStart(y) <= n < YearStart(y + 1) && YearStart(z) <= n < YearStart(z + 1)
    ensures y == z
  {
    if y < z { YearsGrow(y + 1, z); }
    if z < y { YearsGrow(z + 1, y); }
  }

  /** Dates and days are the same thing: the date of a date's day is the date. */
  lemma DateOfDayNumber(d: Date)
    requires IsDate(d)
    ensures DateOf(DayNumber(d.year, d.month, d.day)) == d
  {
    var n := DayNumber(d.year, d.month, d.day);
    var e := DateOf(n);
    DateWithinYear(d);
    SameYear(n, d.year, e.year);
    if d.month < e.month { MonthsGrow(d.year, d.month, e.month); }
    if e.month < d.month { MonthsGrow(d.year, e.month, d.month); }
  }

  /** Leap days are never more than eight years apart. */
  lemma LeapYearWithinEight(year: int) returns (z: int)
    ensures (year < z < year + 8 && Leap(z)) || (z == year && Leap(year) && Leap(year + 8))
  {
    var k := 4 - year % 4;
    var q, r := (year + k) / 100, (year + k) % 100;
    if r != 0 {
      Quotient(year + k, 4, year / 4 + 1);
      z := year + k;
    } else {
      Quotient(year + k + 4, 100, q);
      Quotient(year + k + 4, 4, year / 4 + 2);
      if k < 4 {
        z := year + k + 4;
      } else {
        Quotient(year, 100, q - 1);
        z := year;
      }
    }
  }
}

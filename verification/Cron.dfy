/**
When a schedule fires (pkg/cron/cron.go): Matches, and the search for the next
firing. Moments are nanoseconds, minutes and days are counted from the first
of January of year 0, in UTC. A field's bitset is the set of its values.
*/
module Cron {
  import opened Options
  import opened Calendar

  type Minute = int

  const NANOS_PER_MINUTE := 60 * 1_000_000_000
  const MINUTES_PER_DAY := 1440

  datatype Schedule = Schedule(
    minutes: set<int>, hours: set<int>, days: set<int>, months: set<int>, weekdays: set<int>,
    anyDay: bool, anyWeekday: bool)
  {
    // What Parse makes of five fields it accepts.
    predicate Parsed() {
      && (exists n :: n in minutes) && (forall n :: n in minutes ==> 0 <= n <= 59)
      && (exists n :: n in hours) && (forall n :: n in hours ==> 0 <= n <= 23)
      && (exists n :: n in days) && (forall n :: n in days ==> 1 <= n <= 31)
      && (exists n :: n in months) && (forall n :: n in months ==> 1 <= n <= 12)
      && (exists n :: n in weekdays) && (forall n :: n in weekdays ==> 0 <= n <= 7)
      && (7 in weekdays ==> 0 in weekdays)
      && (anyDay ==> forall n :: 1 <= n <= 31 ==> n in days)
      && (anyWeekday ==> forall n :: 0 <= n <= 7 ==> n in weekdays)
    }

    predicate MatchesDay(n: int) {
      var date := DateOf(n);
      && date.month in months
      && var day, weekday := date.day in days, Weekday(n) in weekdays;
      if anyDay && anyWeekday then true
      else if anyDay then weekday
      else if anyWeekday then day
      else day || weekday
    }

    predicate Matches(t: Minute) {
      MinuteOf(t) in minutes && HourOf(t) in hours && MatchesDay(DayOf(t))
    }
  }

  function DayOf(t: Minute): int { t / MINUTES_PER_DAY }

  function HourOf(t: Minute): int { t % MINUTES_PER_DAY / 60 }

  function MinuteOf(t: Minute): int { t % MINUTES_PER_DAY % 60 }

  function TimeOf(t: Minute): (minute: int)
    ensures 0 <= minute < MINUTES_PER_DAY && t == At(DayOf(t), minute)
  {
    t % MINUTES_PER_DAY
  }

  function At(day: int, minute: int): Minute { day * MINUTES_PER_DAY + minute }

  lemma AtParts(day: int, minute: int)
    requires 0 <= minute < MINUTES_PER_DAY
    ensures var t := At(day, minute); DayOf(t) == day && HourOf(t) == minute / 60 && MinuteOf(t) == minute % 60
  {
    Quotient(At(day, minute), MINUTES_PER_DAY, day);
  }

  // A time of day on a date.
  function Clock(date: Date, hour: int, minute: int): Minute
    requires IsDate(date)
  {
    1440 * DayNumber(date.year, date.month, date.day) + 60 * hour + minute
  }

  // Every minute is a time of day on a date.
  lemma ClockOf(t: Minute) returns (date: Date, hour: int, minute: int)
    ensures IsDate(date) && 0 <= hour < 24 && 0 <= minute < 60 && t == Clock(date, hour, minute)
    ensures date == DateOf(DayOf(t))
  {
    date, hour, minute := DateOf(DayOf(t)), HourOf(t), MinuteOf(t);
    assert t == 1440 * DayOf(t) + TimeOf(t);
  }

  /**
   Matching, said of a date and a time of day: the minute, the hour and the month are listed, and so is
   the day, by both its fields if one of them is free, and by either if none is.
   */
  lemma MatchesOn(s: Schedule, date: Date, hour: int, minute: int)
    requires IsDate(date) && 0 <= hour < 24 && 0 <= minute < 60
    ensures var n := DayNumber(date.year, date.month, date.day);
      s.Matches(Clock(date, hour, minute)) <==>
      && minute in s.minutes && hour in s.hours && date.month in s.months
      && if s.anyDay || s.anyWeekday then (s.anyDay || date.day in s.days) && (s.anyWeekday || Weekday(n) in s.weekdays)
         else date.day in s.days || Weekday(n) in s.weekdays
  {
    var n := DayNumber(date.year, date.month, date.day);
    DateOfDayNumber(date);
    ClockParts(n, hour, minute);
    MatchesDayOf(s, n, date);
  }

  lemma ClockParts(n: int, hour: int, minute: int)
    requires 0 <= hour < 24 && 0 <= minute < 60
    ensures var t := 1440 * n + 60 * hour + minute; DayOf(t) == n && HourOf(t) == hour && MinuteOf(t) == minute
  {
    AtParts(n, 60 * hour + minute);
    Quotient(60 * hour + minute, 60, hour);
  }

  lemma MatchesDayOf(s: Schedule, n: int, date: Date)
    requires DateOf(n) == date
    ensures s.MatchesDay(n) <==>
      && date.month in s.months
      && if s.anyDay || s.anyWeekday then (s.anyDay || date.day in s.days) && (s.anyWeekday || Weekday(n) in s.weekdays)
         else date.day in s.days || Weekday(n) in s.weekdays
  {
  }

  // The same time on the same date, that many years later.
  function SameTimeIn(date: Date, minute: int, years: int): Minute
    requires IsDate(date)
  {
    At(DayNumber(date.year + years, date.month, date.day), minute)
  }

  // t.AddDate(8, 0, 0)
  function EightYearsOn(t: Minute): Minute {
    SameTimeIn(DateOf(DayOf(t)), TimeOf(t), 8)
  }

  ghost predicate Fires(s: Schedule) {
    exists t :: s.Matches(t)
  }

  // The day of a year on which a schedule that matches day n at all matches again.
  ghost predicate RecursIn(s: Schedule, year: int) {
    exists n :: YearStart(year) <= n < YearStart(year + 1) && s.MatchesDay(n)
  }

  lemma WeekdayInFirstWeek(first: int, weekday: int) returns (n: int)
    requires 0 <= weekday < 7
    ensures first <= n < first + 7 && Weekday(n) == weekday
  {
    n := first + (weekday - Weekday(first)) % 7;
    var q := (first + 6) / 7;
    var w := Weekday(first);
    assert first + 6 == 7 * q + w;
    if weekday >= w {
      Quotient(weekday - w, 7, 0);
      Quotient(n + 6, 7, q);
    } else {
      Quotient(weekday - w, 7, -1);
      Quotient(n + 6, 7, q + 1);
    }
  }

  // A schedule that fires by its weekdays does so in the first week of its months, every year.
  lemma RecursByWeekday(s: Schedule, year: int, month: int, weekday: int)
    requires 1 <= month <= 12 && month in s.months && 0 <= weekday < 7 && weekday in s.weekdays
    requires s.anyDay || !s.anyWeekday
    ensures RecursIn(s, year)
  {
    var n := WeekdayInFirstWeek(DayNumber(year, month, 1), weekday);
    var date := Date(year, month, 1 + n - DayNumber(year, month, 1));
    DateOfDayNumber(date);
    RecursOn(s, date);
  }

  lemma RecursOn(s: Schedule, date: Date)
    requires IsDate(date) && s.MatchesDay(DayNumber(date.year, date.month, date.day))
    ensures RecursIn(s, date.year)
  {
    DateWithinYear(date);
  }

  // A schedule that fires by the day of the month does so every year that has the day.
  lemma RecursByDay(s: Schedule, date: Date, year: int)
    requires IsDate(date) && date.month in s.months && date.day in s.days && !s.anyDay
    requires IsDate(date.(year := year))
    ensures RecursIn(s, year)
  {
    DateOfDayNumber(date.(year := year));
    RecursOn(s, date.(year := year));
  }

  // Whether a schedule that matches day n does so only because it is the 29th of February.
  predicate ByLeapDay(s: Schedule, n: int) {
    && !s.anyDay && (s.anyWeekday || Weekday(n) !in s.weekdays)
    && DateOf(n).month == 2 && DateOf(n).day == 29
  }

  lemma Recurs(s: Schedule, n: int, year: int)
    requires s.MatchesDay(n) && (ByLeapDay(s, n) ==> Leap(year))
    ensures RecursIn(s, year)
  {
    var date := DateOf(n);
    if s.anyDay && s.anyWeekday {
      DateOfDayNumber(Date(year, date.month, 1));
      RecursOn(s, Date(year, date.month, 1));
    } else if (s.anyDay || !s.anyWeekday) && Weekday(n) in s.weekdays {
      RecursByWeekday(s, year, date.month, Weekday(n));
    } else {
      RecursByDay(s, date, year);
    }
  }

  lemma InsideEightYears(day: int, minute: int, date: Date, year: int)
    requires IsDate(date) && day == DayNumber(date.year, date.month, date.day) && day < YearStart(date.year + 1)
    requires date.year < year < date.year + 8 && 0 <= minute < MINUTES_PER_DAY
    ensures At(day, minute) < At(YearStart(year), 0)
    ensures At(YearStart(year + 1), 0) <= At(DayNumber(date.year + 8, date.month, date.day), minute)
  {
    YearsGrow(date.year + 1, year);
    YearsGrow(year + 1, date.year + 8);
  }

  ghost predicate FiresWithin(s: Schedule, from: Minute, to: Minute) {
    exists m :: from <= m < to && s.Matches(m)
  }

  // The eight years from a time of a day on.
  ghost predicate EightYears(date: Date, minute: int, from: Minute, to: Minute)
    requires IsDate(date)
  {
    && 0 <= minute < MINUTES_PER_DAY
    && from == At(DayNumber(date.year, date.month, date.day), minute)
    && to == SameTimeIn(date, minute, 8)
  }

  // A later year, less than eight years on, lies within.
  lemma YearWithin(date: Date, minute: int, from: Minute, to: Minute, year: int, first: int, last: int)
    requires IsDate(date) && EightYears(date, minute, from, to) && date.year < year < date.year + 8
    requires first == YearStart(year) && last == YearStart(year + 1)
    ensures from <= At(first, 0) && At(last, 0) <= to
  {
    DateWithinYear(date);
    InsideEightYears(DayNumber(date.year, date.month, date.day), minute, date, year);
  }

  // A match in a later year, less than eight years on.
  lemma LaterYear(s: Schedule, date: Date, minute: int, from: Minute, to: Minute, tod: Minute, year: int)
    requires IsDate(date) && EightYears(date, minute, from, to) && date.year < year < date.year + 8
    requires s.Matches(tod) && RecursIn(s, year)
    ensures FiresWithin(s, from, to)
  {
    var first, last := YearStart(year), YearStart(year + 1);
    YearWithin(date, minute, from, to, year, first, last);
    var n := RecursOnDay(s, year, first, last);
    OnADayWithin(s, tod, n, first, last, from, to);
  }

  lemma RecursOnDay(s: Schedule, year: int, first: int, last: int) returns (n: int)
    requires RecursIn(s, year) && first == YearStart(year) && last == YearStart(year + 1)
    ensures first <= n < last && s.MatchesDay(n)
  {
    n :| YearStart(year) <= n < YearStart(year + 1) && s.MatchesDay(n);
  }

  lemma OnADayWithin(s: Schedule, tod: Minute, n: int, first: int, last: int, from: Minute, to: Minute)
    requires s.Matches(tod) && s.MatchesDay(n) && first <= n < last && from <= At(first, 0) && At(last, 0) <= to
    ensures FiresWithin(s, from, to)
  {
    var m := SameTimeOn(s, tod, n);
  }

  lemma SameTimeOn(s: Schedule, tod: Minute, n: int) returns (m: Minute)
    requires s.Matches(tod) && s.MatchesDay(n)
    ensures s.Matches(m) && m == At(n, TimeOf(tod)) && At(n, 0) <= m < At(n + 1, 0)
  {
    m := At(n, TimeOf(tod));
    AtParts(n, TimeOf(tod));
  }

  // Eight years on, to the day, when both years are leap years.
  lemma EightLeapYears(date: Date)
    requires IsDate(date) && Leap(date.year) && Leap(date.year + 8)
    ensures DayNumber(date.year + 8, date.month, date.day) - DayNumber(date.year, date.month, date.day)
         == YearStart(date.year + 8) - YearStart(date.year)
  {
    SameMonths(date.year, date.year + 8, date.month);
  }

  lemma Distance(a: int, b: int, c: int, d: int, minute: int, other: int)
    requires b - a == d - c
    ensures At(b, minute) - At(a, minute) == At(d, other) - At(c, other)
  {
  }

  // One of two minutes is in a window as long as they are apart.
  lemma OneOfTwo(s: Schedule, m: Minute, later: Minute, from: Minute, to: Minute)
    requires s.Matches(m) && s.Matches(later) && later - m == to - from && m < to && from <= later
    ensures FiresWithin(s, from, to)
  {
    if m < from {
      assert from <= later < to;
    } else {
      assert from <= m < to;
    }
  }

  // The 29th of February of two leap years, at one time of the day, and the
  // eight years from any minute of the first.
  lemma LeapDaysAround(date: Date, minute: int, from: Minute, to: Minute, other: int, m: Minute, later: Minute)
    requires IsDate(date) && EightYears(date, minute, from, to) && Leap(date.year) && Leap(date.year + 8)
    requires 0 <= other < MINUTES_PER_DAY
    requires m == At(YearStart(date.year) + 59, other) && later == At(YearStart(date.year + 8) + 59, other)
    ensures later - m == to - from && m < to && from <= later
  {
    var year := date.year;
    EightLeapYears(date);
    Distance(DayNumber(year, date.month, date.day), DayNumber(year + 8, date.month, date.day),
             YearStart(year) + 59, YearStart(year + 8) + 59, minute, other);
    DateWithinYear(date);
    YearsGrow(year, year + 8);
    YearsGrow(year + 1, year + 8);
    EarlierDay(YearStart(year) + 59, DayNumber(year + 8, date.month, date.day), other, minute);
    EarlierDay(DayNumber(year, date.month, date.day), YearStart(year + 8) + 59, minute, other);
  }

  lemma EarlierDay(a: int, b: int, minute: int, other: int)
    requires a < b && 0 <= minute < MINUTES_PER_DAY && 0 <= other < MINUTES_PER_DAY
    ensures At(a, minute) < At(b, other)
  {
  }

  // Feb 29 of this year or, if that is over, of the one eight years on.
  lemma LeapDayAtTheEnds(s: Schedule, date: Date, minute: int, from: Minute, to: Minute, tod: Minute)
    requires IsDate(date) && EightYears(date, minute, from, to) && Leap(date.year) && Leap(date.year + 8)
    requires s.Matches(tod) && ByLeapDay(s, DayOf(tod))
    ensures FiresWithin(s, from, to)
  {
    var other := TimeOf(tod);
    var m, later := LeapDayPair(s, tod, other, date.year);
    OneOfThePair(s, date, minute, from, to, other, m, later);
  }

  lemma OneOfThePair(s: Schedule, date: Date, minute: int, from: Minute, to: Minute, other: int, m: Minute,
                     later: Minute)
    requires IsDate(date) && EightYears(date, minute, from, to) && Leap(date.year) && Leap(date.year + 8)
    requires 0 <= other < MINUTES_PER_DAY && s.Matches(m) && s.Matches(later)
    requires m == At(YearStart(date.year) + 59, other) && later == At(YearStart(date.year + 8) + 59, other)
    ensures FiresWithin(s, from, to)
  {
    LeapDaysAround(date, minute, from, to, other, m, later);
    OneOfTwo(s, m, later, from, to);
  }

  lemma LeapDayPair(s: Schedule, tod: Minute, other: int, year: int) returns (m: Minute, later: Minute)
    requires s.Matches(tod) && other == TimeOf(tod) && ByLeapDay(s, DayOf(tod)) && Leap(year) && Leap(year + 8)
    ensures m == At(YearStart(year) + 59, other) && s.Matches(m)
    ensures later == At(YearStart(year + 8) + 59, other) && s.Matches(later)
  {
    m := LeapDayMatches(s, tod, year);
    later := LeapDayMatches(s, tod, year + 8);
  }

  lemma LeapDayIsTheSixtieth(year: int)
    requires Leap(year)
    ensures IsDate(Date(year, 2, 29)) && DayNumber(year, 2, 29) == YearStart(year) + 59
  {
  }

  lemma LeapDayRecurs(s: Schedule, n: int, year: int)
    requires s.MatchesDay(n) && ByLeapDay(s, n) && Leap(year)
    ensures s.MatchesDay(YearStart(year) + 59)
  {
    LeapDayIsTheSixtieth(year);
    DateOfDayNumber(Date(year, 2, 29));
  }

  lemma LeapDayMatches(s: Schedule, tod: Minute, year: int) returns (m: Minute)
    requires s.Matches(tod) && ByLeapDay(s, DayOf(tod)) && Leap(year)
    ensures m == At(YearStart(year) + 59, TimeOf(tod)) && s.Matches(m)
  {
    LeapDayRecurs(s, DayOf(tod), year);
    m := SameTimeOn(s, tod, YearStart(year) + 59);
  }

  lemma {:induction false} SameMonths(y: int, z: int, month: int)
    requires 1 <= month <= 13 && Leap(y) == Leap(z)
    ensures MonthStart(y, month) == MonthStart(z, month)
    decreases month
  {
    if month > 1 {
      SameMonths(y, z, month - 1);
    }
  }

  lemma LeapDayInEightYears(s: Schedule, date: Date, minute: int, from: Minute, to: Minute, tod: Minute, z: int)
    requires IsDate(date) && EightYears(date, minute, from, to)
    requires s.Matches(tod) && ByLeapDay(s, DayOf(tod))
    requires (date.year < z < date.year + 8 && Leap(z)) || (Leap(date.year) && Leap(date.year + 8))
    ensures FiresWithin(s, from, to)
  {
    if date.year < z < date.year + 8 && Leap(z) {
      Recurs(s, DayOf(tod), z);
      LaterYear(s, date, minute, from, to, tod, z);
    } else {
      LeapDayAtTheEnds(s, date, minute, from, to, tod);
    }
  }

  lemma FiresInEightYears(s: Schedule, date: Date, minute: int, from: Minute, to: Minute, tod: Minute)
    requires s.Matches(tod) && IsDate(date) && EightYears(date, minute, from, to)
    ensures FiresWithin(s, from, to)
  {
    if ByLeapDay(s, DayOf(tod)) {
      var z := LeapYearWithinEight(date.year);
      LeapDayInEightYears(s, date, minute, from, to, tod, z);
    } else {
      Recurs(s, DayOf(tod), date.year + 1);
      LaterYear(s, date, minute, from, to, tod, date.year + 1);
    }
  }

  lemma FiresFrom(s: Schedule, t: Minute, n: int, minute: int)
    requires Fires(s) && 0 <= minute < MINUTES_PER_DAY && t == At(n, minute)
    ensures FiresWithin(s, t, SameTimeIn(DateOf(n), minute, 8))
  {
    var tod :| s.Matches(tod);
    FiresInEightYears(s, DateOf(n), minute, t, SameTimeIn(DateOf(n), minute, 8), tod);
  }

  /** Eight years are enough: every schedule that fires at all fires within eight years of any minute. */
  lemma EightYearsAreEnough(s: Schedule, t: Minute)
    requires Fires(s)
    ensures exists m :: t <= m < EightYearsOn(t) && s.Matches(m)
  {
    FiresFrom(s, t, DayOf(t), TimeOf(t));
    assert FiresWithin(s, t, EightYearsOn(t));
  }

  // The longest a month ever is.
  function Longest(month: int): int {
    MonthLength(2000, month)
  }

  lemma FiringDayExists(s: Schedule)
    requires Fires(s) && !s.anyDay && s.anyWeekday
    ensures exists month, day :: month in s.months && day in s.days && day <= Longest(month)
  {
    var t :| s.Matches(t);
    var date := DateOf(DayOf(t));
    assert date.month in s.months && date.day in s.days && date.day <= Longest(date.month);
  }

  /** A parsed schedule never fires exactly when it asks for a day its months do not have. */
  lemma FiresUnlessItsDaysDoNotExist(s: Schedule)
    requires s.Parsed()
    ensures Fires(s) <==>
            s.anyDay || !s.anyWeekday || exists month, day ::
                month in s.months && day in s.days && day <= Longest(month)
  {
    var minute :| minute in s.minutes;
    var hour :| hour in s.hours;
    if s.anyDay || !s.anyWeekday {
      var month :| month in s.months;
      var weekday :| weekday in s.weekdays;
      RecursByWeekday(s, 2000, month, if weekday == 7 then 0 else weekday);
      FiresOn(s, 2000, hour, minute);
    } else if month, day :| month in s.months && day in s.days && day <= Longest(month) {
      RecursByDay(s, Date(2000, month, day), 2000);
      FiresOn(s, 2000, hour, minute);
    } else if Fires(s) {
      FiringDayExists(s);
    }
  }

  lemma FiresOn(s: Schedule, year: int, hour: int, minute: int)
    requires RecursIn(s, year) && 0 <= hour <= 23 && 0 <= minute <= 59 && hour in s.hours && minute in s.minutes
    ensures Fires(s)
  {
    var n :| YearStart(year) <= n < YearStart(year + 1) && s.MatchesDay(n);
    var t := FiresAt(s, n, hour, minute);
  }

  lemma FiresAt(s: Schedule, n: int, hour: int, minute: int) returns (t: Minute)
    requires s.MatchesDay(n) && 0 <= hour <= 23 && 0 <= minute <= 59 && hour in s.hours && minute in s.minutes
    ensures s.Matches(t)
  {
    Quotient(60 * hour + minute, 60, hour);
    AtParts(n, 60 * hour + minute);
    t := At(n, 60 * hour + minute);
  }

  /** The 30th of February parses, and never comes. */
  lemma FebruaryThirtiethNeverFires()
    ensures var s := Schedule({0}, {3}, {30}, {2}, {0, 1, 2, 3, 4, 5, 6, 7}, false, true);
      s.Parsed() && !Fires(s)
  {
    var s := Schedule({0}, {3}, {30}, {2}, {0, 1, 2, 3, 4, 5, 6, 7}, false, true);
    FiresUnlessItsDaysDoNotExist(s);
  }

  // No firing minute lies between two minutes.
  ghost predicate Silent(s: Schedule, from: Minute, to: Minute) {
    forall m :: from <= m < to ==> !s.Matches(m)
  }

  lemma DaySilent(s: Schedule, t: Minute)
    requires !s.MatchesDay(DayOf(t))
    ensures t < At(DayOf(t) + 1, 0) && Silent(s, t, At(DayOf(t) + 1, 0))
  {
    forall m | t <= m < At(DayOf(t) + 1, 0) ensures DayOf(m) == DayOf(t) {
      Quotient(m, MINUTES_PER_DAY, DayOf(t));
    }
  }

  lemma HourSilent(s: Schedule, t: Minute)
    requires HourOf(t) !in s.hours
    ensures var next := At(DayOf(t), 60 * (HourOf(t) + 1)); t < next && Silent(s, t, next)
  {
    var next := At(DayOf(t), 60 * (HourOf(t) + 1));
    forall m | t <= m < next ensures HourOf(m) == HourOf(t) {
      Quotient(m, MINUTES_PER_DAY, DayOf(t));
      Quotient(m % MINUTES_PER_DAY, 60, HourOf(t));
    }
  }

  // The first minute that begins after a moment.
  function FirstMinuteAfter(moment: int): Minute {
    moment / NANOS_PER_MINUTE + 1
  }

  lemma FirstMinuteIsFirst(moment: int, m: Minute)
    ensures m * NANOS_PER_MINUTE > moment <==> m >= FirstMinuteAfter(moment)
  {
  }

  lemma Scaled(last: Minute, m: Minute)
    ensures m > last <==> m * NANOS_PER_MINUTE > last * NANOS_PER_MINUTE
  {
  }

  // time.Date(year, month, day + 1, 0, 0, ...)
  method NextDay(s: Schedule, t: Minute) returns (next: Minute)
    requires !s.MatchesDay(DayOf(t))
    ensures next == At(DayOf(t) + 1, 0)
    ensures t < next && Silent(s, t, next)
  {
    DaySilent(s, t);
    next := At(DayOf(t) + 1, 0);
  }

  // time.Date(year, month, day, hour + 1, 0, ...)
  method NextHour(s: Schedule, t: Minute) returns (next: Minute)
    requires HourOf(t) !in s.hours
    ensures next == At(DayOf(t), 60 * (HourOf(t) + 1))
    ensures t < next && Silent(s, t, next)
  {
    HourSilent(s, t);
    next := At(DayOf(t), 60 * (HourOf(t) + 1));
  }

  lemma FirstFiring(s: Schedule, after: int, t: Minute)
    requires s.Matches(t) && FirstMinuteAfter(after) <= t && Silent(s, FirstMinuteAfter(after), t)
    ensures t * NANOS_PER_MINUTE > after
    ensures forall m: Minute :: m * NANOS_PER_MINUTE > after && s.Matches(m) ==> t <= m
  {
    FirstMinuteIsFirst(after, t);
    forall m: Minute | m * NANOS_PER_MINUTE > after && s.Matches(m) ensures t <= m {
      FirstMinuteIsFirst(after, m);
    }
  }

  lemma NeverInEightYears(s: Schedule, from: Minute)
    requires Silent(s, from, EightYearsOn(from))
    ensures !Fires(s)
  {
    if Fires(s) {
      EightYearsAreEnough(s, from);
    }
  }

  // The loop of Next: no jump goes over a firing minute.
  method Search(s: Schedule, from: Minute, limit: Minute) returns (next: Option<Minute>)
    ensures next.Some? ==> from <= next.value && s.Matches(next.value) && Silent(s, from, next.value)
    ensures next.None? ==> Silent(s, from, limit)
  {
    var t := from;
    while t < limit
      invariant from <= t && Silent(s, from, t)
      decreases limit - t
    {
      if !s.MatchesDay(DayOf(t)) {
        t := NextDay(s, t);
      } else if HourOf(t) !in s.hours {
        t := NextHour(s, t);
      } else if MinuteOf(t) !in s.minutes {
        t := t + 1;
      } else {
        return Some(t);
      }
    }
    return None;
  }

  /**
   The first minute after a moment in which the schedule fires; None is the
   source's zero time, which is the answer exactly for a schedule that never
   fires.
   */
  method Next(s: Schedule, after: int) returns (next: Option<Minute>)
    ensures next.Some? ==> s.Matches(next.value) && next.value * 60_000_000_000 > after
    ensures next.Some? ==> forall m: Minute :: m * 60_000_000_000 > after && s.Matches(m) ==> next.value <= m
    ensures next.None? <==> !Fires(s)
  {
    var t := FirstMinuteAfter(after);
    var limit := EightYearsOn(t);
    next := Search(s, t, limit);
    if next.Some? {
      FirstFiring(s, after, next.value);
    } else {
      NeverInEightYears(s, t);
    }
  }
}

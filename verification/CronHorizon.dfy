/** When `next` (src/scheduler/cron.go) gives a time and when it gives up: it looks no further
    than the end of the fifth year after the one it starts in. */
module CronHorizon {
  import opened Wrappers
  import opened CronParser
  import opened CronSchedule
  import opened Calendar

  /** `next` is the least matching second after `s`, or there is none within the horizon. */
  lemma NextFireIsEarliest(c: Schedule, s: int)
    ensures NextFire(c, s).Some? ==>
              var t := NextFire(c, s).value;
              s < t < Horizon(s + 1) && Match(c, t) && forall u | s < u < t :: !Match(c, u)
    ensures NextFire(c, s).None? <==> forall u | s < u < Horizon(s + 1) :: !Match(c, u)
  {
    FirstMatchIsLeast(c, s + 1, Horizon(s + 1));
  }

  // ---- Times of day ----

  /** The largest value of a mask up to n, or -1. */
  function Largest(mask: Mask, n: int): (v: int)
    requires n >= -1
    ensures forall w | w in mask && 0 <= w <= n :: w <= v
    ensures -1 <= v <= n && (v >= 0 ==> v in mask)
  {
    if n < 0 then -1 else if n in mask then n else Largest(mask, n - 1)
  }

  /** The last second of a day at which the schedule fires. */
  function LastTime(c: Schedule): int {
    3600 * Largest(c.hour, 23) + 60 * Largest(c.minute, 59) + Largest(c.second, 59)
  }

  lemma LastTimeFires(c: Schedule, n: int)
    requires Parsed(c) && DateOf(n).month in c.month && DayMatch(c, n)
    ensures Match(c, SECONDS_PER_DAY * n + LastTime(c))
    ensures DayOf(SECONDS_PER_DAY * n + LastTime(c)) == n
  {
    hide DateOf, DayMatch, DayOf, Hour, Minute, Second;
    TimeParts(n, Largest(c.hour, 23), Largest(c.minute, 59), Largest(c.second, 59));
  }

  lemma LastTimeIsLast(c: Schedule, t: int)
    requires Parsed(c) && Match(c, t)
    ensures t <= SECONDS_PER_DAY * DayOf(t) + LastTime(c)
  {
    hide DateOf, DayMatch, DayOf, Hour, Minute, Second;
    PartsOfTime(t);
  }

  // ---- The exact condition ----

  /** Some date of the masks exists in every year. */
  ghost predicate HasCommonDate(c: Schedule) {
    exists m, d :: m in c.month && d in c.dom && Valid(Date(1, m, d))
  }

  ghost predicate HasLeapDay(c: Schedule) {
    2 in c.month && 29 in c.dom
  }

  /** A 29 February of the years looked at still has a firing time from `start` on. */
  ghost predicate LeapDayAhead(c: Schedule, start: int) {
    exists year | Year(start) <= year <= Year(start) + 5 ::
      IsLeap(year) && start <= SECONDS_PER_DAY * DayNumber(year, 2, 29) + LastTime(c)
  }

  /** `next` gives the zero time exactly when the day-of-week is a star, no date of the masks exists
      in common years, and 29 February, if it is among them, does not come in time. */
  lemma NextFireNone(c: Schedule, s: int)
    requires Parsed(c)
    ensures NextFire(c, s).None? <==>
              c.dowStar && !HasCommonDate(c) && !(HasLeapDay(c) && LeapDayAhead(c, s + 1))
  {
    hide NextFire, LeapDayAhead, HasCommonDate;
    if !c.dowStar {
      WeekdayFires(c, s);
    } else if HasCommonDate(c) {
      CommonDateFires(c, s);
    } else if HasLeapDay(c) && LeapDayAhead(c, s + 1) {
      LeapDayFires(c, s);
    } else {
      NothingFires(c, s);
    }
  }

  /** A matching day in a year after the start's, within the horizon, is found. */
  lemma DayFires(c: Schedule, s: int, date: Date)
    requires Parsed(c) && Valid(date) && date.month in c.month
    requires DayMatch(c, DayNumber(date.year, date.month, date.day))
    requires Year(s + 1) <= date.year <= Year(s + 1) + 5
    requires s + 1 <= SECONDS_PER_DAY * DayNumber(date.year, date.month, date.day) + LastTime(c)
    ensures NextFire(c, s).Some?
  {
    hide DateOf, DayMatch, DayNumber, DayOf, LastTime, Year, YearStart, Match;
    var n := DayNumber(date.year, date.month, date.day);
    DateOfDayNumber(date);
    LastTimeFires(c, n);
    var u := SECONDS_PER_DAY * n + LastTime(c);
    YearOfDate(u);
    YearThreshold(u, Year(s + 1) + 6);
    NextFireIsEarliest(c, s);
  }

  lemma YearOfDate(t: int)
    ensures Year(t) == DateOf(DayOf(t)).year
  {}

  lemma InALaterYear(s: int, date: Date, time: int)
    requires Valid(date) && Year(s) < date.year && time >= 0
    ensures s <= SECONDS_PER_DAY * DayNumber(date.year, date.month, date.day) + time
  {
    YearThreshold(s, date.year);
    NoMonthCarry(date.year, date.month, date.day);
    MonthStep(date.year, date.month);
  }

  lemma LastTimeNonnegative(c: Schedule)
    requires Parsed(c)
    ensures LastTime(c) >= 0
  {}

  /** The first seven days from `first` on hold every weekday. */
  lemma WeekdayWithin(first: int, w: int) returns (k: int)
    requires 0 <= w <= 6
    ensures 0 <= k < 7 && Weekday(first + k) == w
  {
    k := (w - first - 1) % 7;
    assert first + k + 1 == w + 7 * ((first + k + 1 - w) / 7);
  }

  lemma MonthLengthBound(year: int, month: int)
    ensures 28 <= MonthLength(year, month) && MonthLength(1, month) <= MonthLength(year, month)
  {}

  lemma WeekdayMatches(c: Schedule, n: int)
    requires Parsed(c) && !c.dowStar && Weekday(n) in c.dow
    ensures DayMatch(c, n)
  {
    hide Covers, DateOf, Weekday;
    MonthLengthAtMost31(n);
  }

  lemma Member(mask: Mask, min: int, max: int) returns (v: int)
    requires Covers(mask, min, max)
    ensures min <= v <= max && v in mask
  {
    v :| min <= v <= max && v in mask;
  }

  lemma WeekdayFires(c: Schedule, s: int)
    requires Parsed(c) && !c.dowStar
    ensures NextFire(c, s).Some?
  {
    var m := Member(c.month, 1, 12);
    var w := Member(c.dow, 0, 6);
    hide *;
    MonthLengthBound(Year(s + 1) + 1, m);
    var k := WeekdayWithin(DayNumber(Year(s + 1) + 1, m, 1), w);
    DayInMonth(Year(s + 1) + 1, m, 1 + k);
    WeekdayMatches(c, DayNumber(Year(s + 1) + 1, m, 1 + k));
    DateInNextYearFires(c, s, m, 1 + k);
  }

  lemma ValidDate(date: Date)
    requires 1 <= date.month <= 12 && 1 <= date.day <= MonthLength(date.year, date.month)
    ensures Valid(date)
  {}

  lemma DateInNextYearFires(c: Schedule, s: int, m: int, d: int)
    requires Parsed(c) && 1 <= m <= 12 && m in c.month && 1 <= d <= MonthLength(Year(s + 1) + 1, m)
    requires DayMatch(c, DayNumber(Year(s + 1) + 1, m, d))
    ensures NextFire(c, s).Some?
  {
    hide *;
    var date := Date(Year(s + 1) + 1, m, d);
    ValidDate(date);
    LastTimeNonnegative(c);
    InALaterYear(s + 1, date, LastTime(c));
    DayFires(c, s, date);
  }

  lemma CommonDateFires(c: Schedule, s: int)
    requires Parsed(c) && c.dowStar && HasCommonDate(c)
    ensures NextFire(c, s).Some?
  {
    hide Covers, Year, NextFire, DayNumber, DayMatch;
    var m, d :| m in c.month && d in c.dom && Valid(Date(1, m, d));
    MonthLengthBound(Year(s + 1) + 1, m);
    DateMatches(c, Date(Year(s + 1) + 1, m, d));
    DateInNextYearFires(c, s, m, d);
  }

  lemma DateMatches(c: Schedule, date: Date)
    requires Parsed(c) && c.dowStar && Valid(date) && date.day in c.dom
    ensures DayMatch(c, DayNumber(date.year, date.month, date.day))
  {
    hide Covers, Weekday, DateOf, DayNumber, MonthLength;
    DateOfDayNumber(date);
    WeekdayRange(DayNumber(date.year, date.month, date.day));
  }

  lemma LeapDayFires(c: Schedule, s: int)
    requires Parsed(c) && c.dowStar && HasLeapDay(c) && LeapDayAhead(c, s + 1)
    ensures NextFire(c, s).Some?
  {
    hide Year, NextFire, LastTime, DateOf, DayNumber;
    var year :| Year(s + 1) <= year <= Year(s + 1) + 5 && IsLeap(year)
                && s + 1 <= SECONDS_PER_DAY * DayNumber(year, 2, 29) + LastTime(c);
    DateOfDayNumber(Date(year, 2, 29));
    DayFires(c, s, Date(year, 2, 29));
  }

  lemma NothingFires(c: Schedule, s: int)
    requires Parsed(c) && c.dowStar && !HasCommonDate(c) && !(HasLeapDay(c) && LeapDayAhead(c, s + 1))
    ensures NextFire(c, s).None?
  {
    forall u | s < u < Horizon(s + 1)
      ensures !Match(c, u)
    {
      if Match(c, u) {
        OnlyLeapDays(c, s, u);
      }
    }
    NextFireIsEarliest(c, s);
  }

  /** Without a common date, whatever fires, fires on a 29 February. */
  lemma LeapDayOnly(c: Schedule, u: int)
    requires Parsed(c) && c.dowStar && !HasCommonDate(c) && Match(c, u)
    ensures HasLeapDay(c)
    ensures var date := DateOf(DayOf(u)); date == Date(date.year, 2, 29) && IsLeap(date.year)
  {
    hide DateOf, DayNumber, DayOf, Hour, Minute, Second;
    var date := DateOf(DayOf(u));
    DayNumberOfDate(DayOf(u));
    assert !Valid(Date(1, date.month, date.day));
  }

  lemma WithinSixYears(start: int, u: int)
    requires start <= u < Horizon(start)
    ensures Year(start) <= Year(u) <= Year(start) + 5
  {
    hide Year, YearStart;
    YearThreshold(start, Year(start));
    YearThreshold(u, Year(start));
    YearThreshold(u, Year(start) + 6);
  }

  lemma OnlyLeapDays(c: Schedule, s: int, u: int)
    requires Parsed(c) && c.dowStar && !HasCommonDate(c)
    requires s < u < Horizon(s + 1) && Match(c, u)
    ensures HasLeapDay(c) && LeapDayAhead(c, s + 1)
  {
    hide *;
    LeapDayOnly(c, u);
    DayNumberOfDate(DayOf(u));
    LastTimeIsLast(c, u);
    YearOfDate(u);
    WithinSixYears(s + 1, u);
    AheadIn(c, s + 1, DateOf(DayOf(u)).year);
  }

  lemma AheadIn(c: Schedule, start: int, year: int)
    requires Year(start) <= year <= Year(start) + 5 && IsLeap(year)
    requires start <= SECONDS_PER_DAY * DayNumber(year, 2, 29) + LastTime(c)
    ensures LeapDayAhead(c, start)
  {
    hide Year, DayNumber, LastTime, IsLeap;
  }

  // ---- The times missed ----

  ghost predicate FiresAfter(c: Schedule, s: int) {
    exists t :: t > s && Match(c, t)
  }

  /** Every year that 400 divides is a leap year, and one lies ahead. */
  lemma LeapYearAhead(year: int) returns (leap: int)
    ensures leap > year && IsLeap(leap)
  {
    leap := 400 * (year / 400 + 1);
    Divide400(leap, year / 400 + 1, 0);
    Divide100(leap, 4 * (year / 400 + 1), 0);
    Divide4(leap, 100 * (year / 400 + 1), 0);
  }

  lemma LeapDayFiresLater(c: Schedule, s: int)
    requires Parsed(c) && c.dowStar && HasLeapDay(c)
    ensures FiresAfter(c, s)
  {
    hide LastTime, Year, DateOf, Match, DayNumber, DayMatch;
    var year := LeapYearAhead(Year(s + 1));
    var date := Date(year, 2, 29);
    DateOfDayNumber(date);
    DateMatches(c, date);
    LastTimeNonnegative(c);
    InALaterYear(s + 1, date, LastTime(c));
    LastTimeFires(c, DayNumber(year, 2, 29));
  }

  /** `next` misses a firing time exactly for the schedules that fire on 29 February only, when none
      comes in the six years looked at. Every other zero time means that the schedule never fires again. */
  lemma NextFireMisses(c: Schedule, s: int)
    requires Parsed(c)
    ensures NextFire(c, s).None? && FiresAfter(c, s)
            <==> c.dowStar && !HasCommonDate(c) && HasLeapDay(c) && !LeapDayAhead(c, s + 1)
  {
    NextFireNone(c, s);
    hide NextFire, LeapDayAhead, HasCommonDate, HasLeapDay, Match, Parsed;
    if c.dowStar && !HasCommonDate(c) {
      if HasLeapDay(c) {
        LeapDayFiresLater(c, s);
      } else if FiresAfter(c, s) {
        var t :| t > s && Match(c, t);
        LeapDayOnly(c, t);
      }
    }
  }

  lemma YearOfYearStart(year: int)
    ensures Year(YearStart(year)) == year
  {
    YearThreshold(YearStart(year), year);
    YearThreshold(YearStart(year), year + 1);
    YearsMonotone(year, year + 1);
  }

  /** From 2097 on a 29 February schedule gets the zero time although it fires again: 2100 is no leap year. */
  lemma LeapGap(c: Schedule)
    requires Parsed(c) && c.dowStar && c.month == {2} && c.dom == {29}
    ensures NextFire(c, YearStart(2097) - 1) == None && FiresAfter(c, YearStart(2097) - 1)
  {
    hide LastTime, Year, NextFire, YearStart, DayNumber, FiresAfter;
    YearOfYearStart(2097);
    assert forall year | 2097 <= year <= 2102 :: !IsLeap(year);
    assert !LeapDayAhead(c, YearStart(2097));
    assert !HasCommonDate(c);
    NextFireMisses(c, YearStart(2097) - 1);
  }
}

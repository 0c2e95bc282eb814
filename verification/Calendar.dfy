/** The proleptic Gregorian calendar as Go's `time` package computes it, in UTC.
    A day is numbered from 0001-01-01 (day 0) and a time is a whole number of
    seconds from the start of that day; both may be negative. */
module Calendar {

  const SECONDS_PER_DAY := 86400

  datatype Date = Date(year: int, month: int, day: int)

  // ---- The calendar's own rules ----

  predicate IsLeap(year: int) {
    year % 4 == 0 && (year % 100 != 0 || year % 400 == 0)
  }

  function YearLength(year: int): int {
    if IsLeap(year) then 366 else 365
  }

  function MonthLength(year: int, month: int): int {
    if month == 2 then (if IsLeap(year) then 29 else 28)
    else if month in {4, 6, 9, 11} then 30
    else 31
  }

  predicate Valid(date: Date) {
    1 <= date.month <= 12 && 1 <= date.day <= MonthLength(date.year, date.month)
  }

  /** The date that follows `date`, by the rules above alone. */
  function NextDate(date: Date): Date {
    if date.day < MonthLength(date.year, date.month) then date.(day := date.day + 1)
    else if date.month < 12 then Date(date.year, date.month + 1, 1)
    else Date(date.year + 1, 1, 1)
  }

  // ---- Day numbers ----

  function DaysBeforeYear(year: int): int {
    365 * (year - 1) + (year - 1) / 4 - (year - 1) / 100 + (year - 1) / 400
  }

  /** Days of a common year before each month; index 12 is the whole year. */
  const DAYS_BEFORE := [0, 31, 59, 90, 120, 151, 181, 212, 243, 273, 304, 334, 365]

  function DaysBeforeMonth(year: int, month: int): int
    requires 1 <= month <= 13
  {
    DAYS_BEFORE[month - 1] + if IsLeap(year) && month >= 3 then 1 else 0
  }

  /** The day number `time.Date` gives to (year, month, day): months outside 1..12
      carry into the year, days outside the month carry into the neighbouring months. */
  function DayNumber(year: int, month: int, day: int): int {
    var y, m := year + (month - 1) / 12, (month - 1) % 12 + 1;
    DaysBeforeYear(y) + DaysBeforeMonth(y, m) + day - 1
  }

  /** The year of a day number, by cycles of 400, 100, 4 and 1 years. */
  function YearOfDay(n: int): int {
    var n400, r400 := n / 146097, n % 146097;
    var n100 := if r400 / 36524 > 3 then 3 else r400 / 36524;
    var r100 := r400 - 36524 * n100;
    var n4, r4 := r100 / 1461, r100 % 1461;
    var n1 := if r4 / 365 > 3 then 3 else r4 / 365;
    400 * n400 + 100 * n100 + 4 * n4 + n1 + 1
  }

  function MonthOfYearDay(year: int, yday: int): int {
    if yday < DaysBeforeMonth(year, 2) then 1
    else if yday < DaysBeforeMonth(year, 3) then 2
    else if yday < DaysBeforeMonth(year, 4) then 3
    else if yday < DaysBeforeMonth(year, 5) then 4
    else if yday < DaysBeforeMonth(year, 6) then 5
    else if yday < DaysBeforeMonth(year, 7) then 6
    else if yday < DaysBeforeMonth(year, 8) then 7
    else if yday < DaysBeforeMonth(year, 9) then 8
    else if yday < DaysBeforeMonth(year, 10) then 9
    else if yday < DaysBeforeMonth(year, 11) then 10
    else if yday < DaysBeforeMonth(year, 12) then 11
    else 12
  }

  function DateOf(n: int): Date {
    var year := YearOfDay(n);
    var yday := n - DaysBeforeYear(year);
    var month := MonthOfYearDay(year, yday);
    Date(year, month, yday - DaysBeforeMonth(year, month) + 1)
  }

  /** Sunday is 0; day 0 was a Monday. */
  function Weekday(n: int): int {
    (n + 1) % 7
  }

  // ---- Seconds ----

  function DayOf(t: int): int { t / SECONDS_PER_DAY }
  function SecondOfDay(t: int): int { t % SECONDS_PER_DAY }
  function Hour(t: int): int { SecondOfDay(t) / 3600 }
  function Minute(t: int): int { SecondOfDay(t) % 3600 / 60 }
  function Second(t: int): int { SecondOfDay(t) % 60 }
  function Year(t: int): int { YearOfDay(DayOf(t)) }

  /** `time.Date` in UTC. */
  function Time(year: int, month: int, day: int, hour: int, minute: int, second: int): int {
    SECONDS_PER_DAY * DayNumber(year, month, day) + 3600 * hour + 60 * minute + second
  }

  /** The first second of a year. */
  function YearStart(year: int): int {
    SECONDS_PER_DAY * DaysBeforeYear(year)
  }

  /** `Time.AddDate` in UTC. */
  function AddDate(t: int, years: int, months: int, days: int): int {
    var d := DateOf(DayOf(t));
    Time(d.year + years, d.month + months, d.day + days, Hour(t), Minute(t), Second(t))
  }

  // ---- The two views agree ----

  /** The quotients and remainders of a year count split into its four cycles. */
  lemma Cycles(y: int, a: int, b: int, c: int, d: int)
    requires y == 400 * a + 100 * b + 4 * c + d
    requires 0 <= b <= 3 && 0 <= c <= 24 && 0 <= d <= 3
    ensures y / 4 == 100 * a + 25 * b + c && y % 4 == d
    ensures y / 100 == 4 * a + b && y % 100 == 4 * c + d
    ensures y / 400 == a && y % 400 == 100 * b + 4 * c + d
  {
    Divide4(y, 100 * a + 25 * b + c, d);
    Divide100(y, 4 * a + b, 4 * c + d);
    Divide400(y, a, 100 * b + 4 * c + d);
  }

  lemma Divide4(x: int, q: int, r: int)
    requires x == 4 * q + r && 0 <= r < 4
    ensures x / 4 == q && x % 4 == r
  {}

  lemma Divide100(x: int, q: int, r: int)
    requires x == 100 * q + r && 0 <= r < 100
    ensures x / 100 == q && x % 100 == r
  {}

  lemma Divide400(x: int, q: int, r: int)
    requires x == 400 * q + r && 0 <= r < 400
    ensures x / 400 == q && x % 400 == r
  {}

  /** Days and leap years counted cycle by cycle. */
  lemma DaysByCycles(a: int, b: int, c: int, d: int)
    requires 0 <= b <= 3 && 0 <= c <= 24 && 0 <= d <= 3
    ensures var year := 400 * a + 100 * b + 4 * c + d + 1;
            && DaysBeforeYear(year) == 146097 * a + 36524 * b + 1461 * c + 365 * d
            && (IsLeap(year) <==> d == 3 && (c < 24 || b == 3))
  {
    var y := 400 * a + 100 * b + 4 * c + d;
    Cycles(y, a, b, c, d);
    if d < 3 {
      Cycles(y + 1, a, b, c, d + 1);
    } else if c < 24 {
      Cycles(y + 1, a, b, c + 1, 0);
    } else if b < 3 {
      Cycles(y + 1, a, b + 1, 0, 0);
    } else {
      Cycles(y + 1, a + 1, 0, 0, 0);
    }
  }

  lemma YearStep(year: int)
    ensures DaysBeforeYear(year + 1) == DaysBeforeYear(year) + YearLength(year)
  {
    hide DaysBeforeYear, IsLeap;
    var y := year - 1;
    var a, s := y / 400, y % 400;
    var b, t := s / 100, s % 100;
    var c, d := t / 4, t % 4;
    DaysByCycles(a, b, c, d);
    if d < 3 {
      DaysByCycles(a, b, c, d + 1);
    } else if c < 24 {
      DaysByCycles(a, b, c + 1, 0);
    } else if b < 3 {
      DaysByCycles(a, b + 1, 0, 0);
    } else {
      DaysByCycles(a + 1, 0, 0, 0);
    }
  }

  lemma {:induction false} YearsMonotone(a: int, b: int)
    requires a <= b
    ensures DaysBeforeYear(a) + 365 * (b - a) <= DaysBeforeYear(b)
    decreases b - a
  {
    if a == b {
    } else {
      YearsMonotone(a, b - 1);
      YearStep(b - 1);
    }
  }

  lemma YearOfDayBounds(n: int)
    ensures DaysBeforeYear(YearOfDay(n)) <= n < DaysBeforeYear(YearOfDay(n) + 1)
  {
    var a, r400 := n / 146097, n % 146097;
    var b := if r400 / 36524 > 3 then 3 else r400 / 36524;
    var r100 := r400 - 36524 * b;
    var c, r4 := r100 / 1461, r100 % 1461;
    var d := if r4 / 365 > 3 then 3 else r4 / 365;
    DaysByCycles(a, b, c, d);
    hide DaysBeforeYear;
    YearStep(YearOfDay(n));
  }

  lemma YearOfDayUnique(n: int, year: int)
    requires DaysBeforeYear(year) <= n < DaysBeforeYear(year + 1)
    ensures YearOfDay(n) == year
  {
    YearOfDayBounds(n);
    if YearOfDay(n) < year {
      YearsMonotone(YearOfDay(n) + 1, year);
    } else if year < YearOfDay(n) {
      YearsMonotone(year + 1, YearOfDay(n));
    }
  }

  lemma MonthStep(year: int, month: int)
    requires 1 <= month <= 12
    ensures DaysBeforeMonth(year, month + 1) == DaysBeforeMonth(year, month) + MonthLength(year, month)
    ensures 0 <= DaysBeforeMonth(year, month)
    ensures DaysBeforeMonth(year, month + 1) <= YearLength(year)
    ensures DaysBeforeMonth(year, 1) == 0 && DaysBeforeMonth(year, 13) == YearLength(year)
  {}

  lemma MonthOfYearDayUnique(year: int, month: int, k: int)
    requires 1 <= month <= 12 && 0 <= k < MonthLength(year, month)
    ensures MonthOfYearDay(year, DaysBeforeMonth(year, month) + k) == month
  {}

  lemma NoMonthCarry(year: int, month: int, day: int)
    requires 1 <= month <= 12
    ensures DayNumber(year, month, day) == DaysBeforeYear(year) + DaysBeforeMonth(year, month) + day - 1
  {}

  /** Every day number is the number of exactly one valid date, and `DateOf` finds it. */
  lemma DateOfDayNumber(date: Date)
    requires Valid(date)
    ensures DateOf(DayNumber(date.year, date.month, date.day)) == date
  {
    NoMonthCarry(date.year, date.month, date.day);
    var n := DayNumber(date.year, date.month, date.day);
    MonthStep(date.year, date.month);
    YearStep(date.year);
    YearOfDayUnique(n, date.year);
    MonthOfYearDayUnique(date.year, date.month, date.day - 1);
  }

  lemma DayNumberOfDate(n: int)
    ensures Valid(DateOf(n))
    ensures DayNumber(DateOf(n).year, DateOf(n).month, DateOf(n).day) == n
  {
    YearOfDayBounds(n);
    YearStep(YearOfDay(n));
    var d := DateOf(n);
    hide DaysBeforeYear, YearOfDay, DayNumber;
    MonthStep(d.year, d.month);
    NoMonthCarry(d.year, d.month, d.day);
  }

  lemma NextDateNumber(date: Date)
    requires Valid(date)
    ensures Valid(NextDate(date))
    ensures var next := NextDate(date);
            DayNumber(next.year, next.month, next.day) == DayNumber(date.year, date.month, date.day) + 1
  {
    hide DaysBeforeYear, DaysBeforeMonth, DayNumber, IsLeap, YearLength;
    var next := NextDate(date);
    NoMonthCarry(date.year, date.month, date.day);
    NoMonthCarry(next.year, next.month, next.day);
    MonthStep(date.year, date.month);
    MonthStep(next.year, next.month);
    YearStep(date.year);
  }

  /** Counting days up by one walks the calendar date by date. */
  lemma DateOfSuccessor(n: int)
    ensures DateOf(n + 1) == NextDate(DateOf(n))
  {
    hide *;
    DayNumberOfDate(n);
    NextDateNumber(DateOf(n));
    DateOfDayNumber(NextDate(DateOf(n)));
  }

  lemma WeekdaySuccessor(n: int)
    ensures Weekday(n + 1) == (Weekday(n) + 1) % 7
  {}

  // ---- Anchors outside the formulas ----

  /** The months have 31 and 30 days in turn, the turns starting anew in August; February has 28 or 29. */
  lemma MonthLengths(year: int, month: int)
    requires 1 <= month <= 12 && month != 2
    ensures MonthLength(year, month) == 30 + (month + month / 8) % 2
    ensures MonthLength(year, 2) == YearLength(year) - 337
  {}

  /** 7 January 2024 was a Sunday. */
  lemma KnownSunday()
    ensures Weekday(DayNumber(2024, 1, 7)) == 0
  {}

  /** Go's zero time is the first second of year 1, and the Unix epoch comes 62135596800 seconds later. */
  lemma KnownTimes()
    ensures Time(1, 1, 1, 0, 0, 0) == 0 && Time(1970, 1, 1, 0, 0, 0) == 62_135_596_800
    ensures YearStart(1) == 0 && YearStart(1970) == 62_135_596_800
  {}

  ghost predicate CyclesByWeek(f: int -> int) {
    forall n :: 0 <= f(n) < 7 && f(n + 1) == (f(n) + 1) % 7
  }

  lemma {:induction false} WeekdaysAgree(f: int -> int, start: int, k: nat)
    requires CyclesByWeek(f) && f(start) == Weekday(start)
    ensures f(start + k) == Weekday(start + k) && f(start - k) == Weekday(start - k)
  {
    hide Weekday;
    if k == 0 {
    } else {
      WeekdaysAgree(f, start, k - 1);
      WeekdaySuccessor(start + k - 1);
      WeekdaySuccessor(start - k);
      WeekdayRange(start - k);
      assert f(start + k - 1 + 1) == (f(start + k - 1) + 1) % 7;
      assert f(start - k + 1) == (f(start - k) + 1) % 7;
    }
  }

  lemma WeekdayRange(n: int)
    ensures 0 <= Weekday(n) <= 6
  {}

  /** The weekday is the only cycle of seven in which that day is a Sunday, for all days before and after it. */
  lemma WeekdayIsTheOne(f: int -> int)
    ensures CyclesByWeek(f) && f(DayNumber(2024, 1, 7)) == 0 <==> forall n :: f(n) == Weekday(n)
  {
    var start := DayNumber(2024, 1, 7);
    KnownSunday();
    if CyclesByWeek(f) && f(start) == 0 {
      forall n
        ensures f(n) == Weekday(n)
      {
        var k: nat := if n >= start then n - start else start - n;
        WeekdaysAgree(f, start, k);
      }
    }
    if forall n :: f(n) == Weekday(n) {
      forall n
        ensures 0 <= f(n) < 7 && f(n + 1) == (f(n) + 1) % 7
      {
        WeekdaySuccessor(n);
      }
    }
  }

  /** A second lies at or after a year's start exactly when its year is that year or later. */
  lemma YearThreshold(t: int, year: int)
    ensures Year(t) >= year <==> t >= YearStart(year)
  {
    YearOfDayBounds(DayOf(t));
    if Year(t) >= year {
      YearsMonotone(year, Year(t));
    } else {
      YearsMonotone(Year(t) + 1, year);
    }
  }

  // ---- Times of day ----

  lemma TimeParts(n: int, hour: int, minute: int, second: int)
    requires 0 <= hour < 24 && 0 <= minute < 60 && 0 <= second < 60
    ensures var t := SECONDS_PER_DAY * n + 3600 * hour + 60 * minute + second;
            DayOf(t) == n && Hour(t) == hour && Minute(t) == minute && Second(t) == second
  {}

  lemma PartsOfTime(t: int)
    ensures t == SECONDS_PER_DAY * DayOf(t) + 3600 * Hour(t) + 60 * Minute(t) + Second(t)
    ensures 0 <= Hour(t) < 24 && 0 <= Minute(t) < 60 && 0 <= Second(t) < 60
  {}

  /** `time.Date` of a date and a time of day reads back as both. */
  lemma TimeReadsBack(date: Date, hour: int, minute: int, second: int)
    requires Valid(date) && 0 <= hour < 24 && 0 <= minute < 60 && 0 <= second < 60
    ensures var t := Time(date.year, date.month, date.day, hour, minute, second);
            DateOf(DayOf(t)) == date && Hour(t) == hour && Minute(t) == minute && Second(t) == second
  {
    hide DayNumber, DateOf;
    DateOfDayNumber(date);
    TimeParts(DayNumber(date.year, date.month, date.day), hour, minute, second);
  }

  /** At midnight it is the start of its day. */
  lemma Midnight(date: Date)
    requires Valid(date)
    ensures var t := Time(date.year, date.month, date.day, 0, 0, 0);
            && t == SECONDS_PER_DAY * DayNumber(date.year, date.month, date.day)
            && DateOf(DayOf(t)) == date && Hour(t) == Minute(t) == Second(t) == 0
  {
    hide DayNumber, DateOf;
    TimeReadsBack(date, 0, 0, 0);
  }

  /** `Time.AddDate` moves by days at the same time of day, and takes a year for twelve months. */
  lemma AddedDates(t: int, years: int, months: int, days: int)
    ensures AddDate(t, 0, 0, days) == t + 86400 * days
    ensures AddDate(t, years, months, days) == AddDate(t, 0, 12 * years + months, days)
  {
    PartsOfTime(t);
    DayNumberOfDate(DayOf(t));
    var d := DateOf(DayOf(t));
    DaysAdded(d.year, d.month, d.day, days);
    YearsAdded(d.year, years, d.month + months, d.day + days);
    hide DayNumber, DateOf, DayOf, Hour, Minute, Second;
  }

  lemma DaysAdded(year: int, month: int, day: int, days: int)
    ensures DayNumber(year, month, day + days) == DayNumber(year, month, day) + days
  {}

  lemma YearsAdded(year: int, years: int, month: int, day: int)
    ensures DayNumber(year + years, month, day) == DayNumber(year, month + 12 * years, day)
  {
    hide DaysBeforeYear, DaysBeforeMonth;
    assert (month + 12 * years - 1) / 12 == (month - 1) / 12 + years;
  }

  // ---- The four jumps of `next` ----

  function NextMonth(t: int): int {
    var d := DateOf(DayOf(t));
    AddDate(Time(d.year, d.month, 1, 0, 0, 0), 0, 1, 0)
  }

  function NextDay(t: int): int {
    var d := DateOf(DayOf(t));
    AddDate(Time(d.year, d.month, d.day, 0, 0, 0), 0, 0, 1)
  }

  function NextHour(t: int): int {
    var d := DateOf(DayOf(t));
    Time(d.year, d.month, d.day, Hour(t), 0, 0) + 3600
  }

  function NextMinute(t: int): int {
    t - t % 60 + 60
  }

  lemma DayBounds(t: int, a: int, b: int)
    ensures SECONDS_PER_DAY * DayOf(t) <= t < SECONDS_PER_DAY * (DayOf(t) + 1)
    ensures SECONDS_PER_DAY * a <= t < SECONDS_PER_DAY * b ==> a <= DayOf(t) < b
  {}

  lemma NextYearCarry(year: int)
    ensures DayNumber(year, 13, 1) == DayNumber(year + 1, 1, 1)
  {}

  lemma MonthBlock(year: int, month: int)
    requires 1 <= month <= 12
    ensures DayNumber(year, month + 1, 1) == DayNumber(year, month, 1) + MonthLength(year, month)
  {
    MonthStep(year, month);
    NoMonthCarry(year, month, 1);
    if month < 12 {
      hide DaysBeforeYear, DaysBeforeMonth, DayNumber, MonthLength;
      NoMonthCarry(year, month + 1, 1);
    } else {
      NextYearCarry(year);
      hide DaysBeforeYear, DaysBeforeMonth, DayNumber, MonthLength, YearLength;
      MonthStep(year + 1, 1);
      NoMonthCarry(year + 1, 1, 1);
      YearStep(year);
    }
  }

  lemma DayInMonth(year: int, month: int, day: int)
    requires 1 <= month <= 12
    ensures DayNumber(year, month, day) == DayNumber(year, month, 1) + day - 1
  {}

  lemma SameMonth(year: int, month: int, n: int)
    requires 1 <= month <= 12 && DayNumber(year, month, 1) <= n < DayNumber(year, month + 1, 1)
    ensures DateOf(n).year == year && DateOf(n).month == month
  {
    hide DayNumber, DateOf;
    MonthBlock(year, month);
    var date := Date(year, month, n - DayNumber(year, month, 1) + 1);
    DayInMonth(year, month, date.day);
    DateOfDayNumber(date);
  }

  lemma NextMonthAt(t: int)
    ensures var d := DateOf(DayOf(t));
            NextMonth(t) == SECONDS_PER_DAY * DayNumber(d.year, d.month + 1, 1)
  {
    hide DayNumber, DateOf, DayOf;
    DayNumberOfDate(DayOf(t));
    var d := DateOf(DayOf(t));
    Midnight(Date(d.year, d.month, 1));
  }

  /** `NextMonth` is later, and nothing before it lies in another month. */
  lemma NextMonthSkips(t: int, u: int)
    ensures t < NextMonth(t)
    ensures t <= u < NextMonth(t) ==> DateOf(DayOf(u)).month == DateOf(DayOf(t)).month
  {
    hide DayNumber, DateOf, DayOf, NextMonth;
    var d := DateOf(DayOf(t));
    NextMonthAt(t);
    DayNumberOfDate(DayOf(t));
    MonthBlock(d.year, d.month);
    DayInMonth(d.year, d.month, d.day);
    DayBounds(t, 0, 0);
    DayBounds(u, DayOf(t), DayNumber(d.year, d.month + 1, 1));
    if t <= u < NextMonth(t) {
      SameMonth(d.year, d.month, DayOf(u));
    }
  }

  lemma NextDaySkips(t: int, u: int)
    ensures t < NextDay(t)
    ensures t <= u < NextDay(t) ==> DayOf(u) == DayOf(t)
  {
    hide DayNumber, DateOf, DayOf;
    var d := DateOf(DayOf(t));
    DayNumberOfDate(DayOf(t));
    Midnight(d);
    DayInMonth(d.year, d.month, d.day);
    DayInMonth(d.year, d.month, d.day + 1);
    DayBounds(t, 0, 0);
    DayBounds(u, DayOf(t), DayOf(t) + 1);
  }

  lemma NextHourSkips(t: int, u: int)
    ensures t < NextHour(t)
    ensures t <= u < NextHour(t) ==> DayOf(u) == DayOf(t) && Hour(u) == Hour(t)
  {
    hide DayNumber, DateOf;
    DayNumberOfDate(DayOf(t));
    PartsOfTime(t);
  }

  lemma NextMinuteSkips(t: int, u: int)
    ensures t < NextMinute(t)
    ensures t <= u < NextMinute(t) ==> DayOf(u) == DayOf(t) && Hour(u) == Hour(t) && Minute(u) == Minute(t)
  {
    SecondOfMinute(t);
    hide DayOf, Hour, Minute, Second;
    PartsOfTime(t);
    if t <= u < NextMinute(t) {
      TimeParts(DayOf(t), Hour(t), Minute(t), u - (t - Second(t)));
    }
  }

  lemma SecondOfMinute(t: int)
    ensures t % 60 == Second(t)
  {}
}

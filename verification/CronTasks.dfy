/** The numbers that each field takes are those that times show, and a schedule of src/scheduler/tasks.go worked
    out: the database of locations is updated on Sundays at three. */
module CronTasks {
  import opened Wrappers
  import opened Text
  import opened Calendar
  import opened CronParser
  import opened CronSchedule
  import opened CronHorizon
  import opened CronNotation

  // ---- The numbers of each field ----

  function Exactly(v: nat): seq<PartSyntax> {
    [PartSyntax(Single(v), None)]
  }

  /** What a time shows in the place of field k; a Sunday shows as 0 and as 7. */
  predicate Shows(t: int, k: nat, v: int) {
    var n := DayOf(t);
    match k
    case 0 => v == Second(t)
    case 1 => v == Minute(t)
    case 2 => v == Hour(t)
    case 3 => v == DateOf(n).day
    case 4 => v == DateOf(n).month
    case _ => v == Weekday(n) || (v == 7 && Weekday(n) == 0)
  }

  /** A field takes exactly the numbers that some time shows in its place. */
  lemma AcceptedNumbers(k: nat, v: nat)
    requires k < 6
    ensures ReadField(Itoa(v), FIELD_MIN[k], FIELD_MAX[k]).Success? <==> exists t :: Shows(t, k, v)
  {
    NumberRead(v, FIELD_MIN[k], FIELD_MAX[k]);
    if FIELD_MIN[k] <= v <= FIELD_MAX[k] {
      NumberShown(k, v);
    }
    forall t | Shows(t, k, v)
      ensures FIELD_MIN[k] <= v <= FIELD_MAX[k]
    {
      ShownInRange(t, k, v);
    }
    hide ReadField, Shows;
  }

  lemma NumberRead(v: nat, min: int, max: int)
    requires 0 <= min <= max < 64
    ensures ReadField(Itoa(v), min, max).Success? <==> min <= v <= max
  {
    ReadShownField(Exactly(v), min, max);
    ShowNumber(v);
    assert Meanings(Exactly(v), min, max) == [Part(v, v, 1, false)];
    hide ReadField, ShowField, Meanings;
    assert InRange([Part(v, v, 1, false)][0], min, max) <==> min <= v <= max;
  }

  lemma ShowNumber(v: nat)
    ensures ShowField(Exactly(v)) == Itoa(v)
  {
    assert seq(1, i requires 0 <= i < 1 => ShowPart(Exactly(v)[i])) == [Itoa(v)];
  }

  lemma NumberShown(k: nat, v: nat)
    requires k < 6 && FIELD_MIN[k] <= v <= FIELD_MAX[k]
    ensures exists t :: Shows(t, k, v)
  {
    if k == 5 {
      WeekdayShown(v);
    } else {
      var date := if k == 3 then Date(2024, 1, v) else if k == 4 then Date(2024, v, 1) else Date(2024, 1, 1);
      ComponentShown(date, if k == 2 then v else 0, if k == 1 then v else 0, if k == 0 then v else 0, k, v);
    }
    hide Shows;
  }

  lemma ComponentShown(date: Date, hour: int, minute: int, second: int, k: nat, v: int)
    requires Valid(date) && 0 <= hour < 24 && 0 <= minute < 60 && 0 <= second < 60
    requires k < 5 && v == [second, minute, hour, date.day, date.month][k]
    ensures exists t :: Shows(t, k, v)
  {
    hide Time, DateOf, DayOf, Hour, Minute, Second, Valid;
    TimeReadsBack(date, hour, minute, second);
    assert Shows(Time(date.year, date.month, date.day, hour, minute, second), k, v);
  }

  lemma WeekdayShown(v: int)
    requires 0 <= v <= 7
    ensures exists t :: Shows(t, 5, v)
  {
    TimeParts(v - 1, 0, 0, 0);
    hide DayOf, DateOf, Hour, Minute, Second;
    assert Shows(SECONDS_PER_DAY * (v - 1) + 3600 * 0 + 60 * 0 + 0, 5, v);
  }

  lemma ShownInRange(t: int, k: nat, v: int)
    requires k < 6 && Shows(t, k, v)
    ensures FIELD_MIN[k] <= v <= FIELD_MAX[k]
  {
    PartsOfTime(t);
    DayNumberOfDate(DayOf(t));
    hide DateOf, DayOf, Hour, Minute, Second, DayNumber;
  }

  // ---- A task worked out ----

  const SUNDAYS_AT_THREE := "0 0 3 * * 0"

  const ANY := [PartSyntax(Star, None)]

  const SUNDAY_FIELDS := [Exactly(0), Exactly(0), Exactly(3), ANY, ANY, Exactly(0)]

  lemma ShowExactly(v: nat)
    requires v < 10
    ensures ShowField(Exactly(v)) == [Digit(v)]
  {}

  lemma ShowAny()
    ensures ShowField(ANY) == "*"
  {}

  lemma JoinStep(word: string, rest: seq<string>)
    requires rest != []
    ensures Join([word] + rest, ' ') == word + [' '] + Join(rest, ' ')
  {
    assert ([word] + rest)[1..] == rest;
  }

  lemma ShowSundays()
    ensures ShowCron(SUNDAY_FIELDS) == SUNDAYS_AT_THREE
  {
    ShowExactly(0);
    ShowExactly(3);
    ShowAny();
    hide ShowField, Join;
    var six := seq(6, i requires 0 <= i < 6 => ShowField(SUNDAY_FIELDS[i]));
    assert six == ["0"] + (["0"] + (["3"] + (["*"] + (["*"] + ["0"]))));
    JoinStep("*", ["0"]);
    JoinStep("*", ["*"] + ["0"]);
    JoinStep("3", ["*"] + (["*"] + ["0"]));
    JoinStep("0", ["3"] + (["*"] + (["*"] + ["0"])));
    JoinStep("0", ["0"] + (["3"] + (["*"] + (["*"] + ["0"]))));
    LastWord();
  }

  lemma LastWord()
    ensures Join(["0"], ' ') == "0"
  {}

  lemma SundayFieldsAccepted()
    ensures |SUNDAY_FIELDS| == 6 && forall i | 0 <= i < 6 :: SUNDAY_FIELDS[i] != []
    ensures forall i | 0 <= i < 6 :: Accepted(SUNDAY_FIELDS[i], FIELD_MIN[i], FIELD_MAX[i])
    ensures forall i | 0 <= i < 6 :: SmallSteps(SUNDAY_FIELDS[i], FIELD_MIN[i], FIELD_MAX[i])
  {}

  lemma ExactlySays(v: nat, w: int, min: int, max: int)
    ensures FieldSays(Plain, Exactly(v), w, min, max) <==> w == v
    ensures !Starred(Exactly(v))
  {
    assert Exactly(v)[0] == PartSyntax(Single(v), None);
  }

  lemma AnySays(w: int, min: int, max: int)
    ensures FieldSays(Plain, ANY, w, min, max) <==> min <= w <= max
    ensures Starred(ANY)
  {
    assert ANY[0] == PartSyntax(Star, None);
    assert PartHolds(ANY[0], w, min, max) <==> min <= w <= max;
  }

  /** It matches every Sunday at 03:00:00 and at no other time. */
  lemma SundayTask(t: int)
    ensures var got := ReadCron(SUNDAYS_AT_THREE);
            && got.Success?
            && (Match(ScheduleOf(got.value), t)
                <==> Weekday(DayOf(t)) == 0 && Hour(t) == 3 && Minute(t) == 0 && Second(t) == 0)
  {
    var n := DayOf(t);
    ShowSundays();
    SundayFieldsAccepted();
    hide *;
    SmallStepsCronMatches(SUNDAY_FIELDS, t);
    SundayFires(t);
  }

  lemma SundayFires(t: int)
    ensures Fires(Plain, SUNDAY_FIELDS, t)
            <==> Weekday(DayOf(t)) == 0 && Hour(t) == 3 && Minute(t) == 0 && Second(t) == 0
  {
    var n := DayOf(t);
    ExactlySays(0, Second(t), 0, 59);
    ExactlySays(0, Minute(t), 0, 59);
    ExactlySays(3, Hour(t), 0, 23);
    AnySays(DateOf(n).day, 1, 31);
    AnySays(DateOf(n).month, 1, 12);
    ExactlySays(0, Weekday(n), 0, 7);
    ExactlySays(0, 7, 0, 7);
    DayIsPossible(n);
    hide FieldSays, Starred, DateOf, DayOf, Weekday, Hour, Minute, Second, Exactly, ANY;
  }

  lemma NotSooner(u: int)
    requires Time(2024, 1, 6, 0, 0, 0) < u < Time(2024, 1, 7, 3, 0, 0)
    ensures ReadCron(SUNDAYS_AT_THREE).Success? && !Match(ScheduleOf(ReadCron(SUNDAYS_AT_THREE).value), u)
  {
    NotBefore(u);
    hide *;
    SundayTask(u);
  }

  lemma OnSunday()
    ensures ReadCron(SUNDAYS_AT_THREE).Success?
    ensures Match(ScheduleOf(ReadCron(SUNDAYS_AT_THREE).value), Time(2024, 1, 7, 3, 0, 0))
  {
    KnownParts();
    hide *;
    SundayTask(Time(2024, 1, 7, 3, 0, 0));
  }

  /** From Saturday 6 January 2024 on, the next time is Sunday at three. */
  lemma SundayNext()
    ensures ReadCron(SUNDAYS_AT_THREE).Success?
    ensures NextFire(ScheduleOf(ReadCron(SUNDAYS_AT_THREE).value), Time(2024, 1, 6, 0, 0, 0)) == Some(Time(2024, 1, 7, 3, 0, 0))
  {
    TimesApart();
    hide Time, Match, NextFire, Horizon, ReadCron, ScheduleOf, AllInRange;
    var from, to := Time(2024, 1, 6, 0, 0, 0), Time(2024, 1, 7, 3, 0, 0);
    OnSunday();
    forall u | from < u < to
      ensures !Match(ScheduleOf(ReadCron(SUNDAYS_AT_THREE).value), u)
    {
      NotSooner(u);
    }
    WithinHorizon(from, to);
    FirstIsNext(ScheduleOf(ReadCron(SUNDAYS_AT_THREE).value), from, to);
  }

  lemma TimesApart()
    ensures Time(2024, 1, 7, 3, 0, 0) == Time(2024, 1, 6, 0, 0, 0) + 97200
  {}

  lemma FirstIsNext(c: Schedule, from: int, to: int)
    requires from < to < Horizon(from + 1) && Match(c, to) && forall u | from < u < to :: !Match(c, u)
    ensures NextFire(c, from) == Some(to)
  {
    NextFireIsEarliest(c, from);
    hide Match, NextFire, Horizon;
  }

  lemma KnownParts()
    ensures var t := Time(2024, 1, 7, 3, 0, 0);
            Weekday(DayOf(t)) == 0 && Hour(t) == 3 && Minute(t) == 0 && Second(t) == 0
  {
    KnownSunday();
    hide DayNumber, Weekday;
    TimeParts(DayNumber(2024, 1, 7), 3, 0, 0);
  }

  lemma NotBefore(u: int)
    requires Time(2024, 1, 6, 0, 0, 0) < u < Time(2024, 1, 7, 3, 0, 0)
    ensures Weekday(DayOf(u)) != 0 || Hour(u) != 3
  {}

  lemma WithinHorizon(from: int, to: int)
    requires from <= to <= from + 86400 * 365
    ensures to < Horizon(from + 1)
  {
    YearThreshold(from + 1, Year(from + 1) + 1);
    YearsMonotone(Year(from + 1) + 1, Year(from + 1) + 6);
    hide DaysBeforeYear, Year;
  }
}

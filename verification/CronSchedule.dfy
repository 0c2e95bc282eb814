/** Parsed schedules, matching and the next firing time: src/scheduler/cron.go. */
module CronSchedule {
  import opened Wrappers
  import opened Text
  import opened CronParser
  import opened Calendar

  datatype Schedule = Schedule(
    second: Mask,
    minute: Mask,
    hour: Mask,
    dom: Mask,
    month: Mask,
    dow: Mask,
    domStar: bool,
    dowStar: bool)

  datatype CronError =
    | FieldCount(got: nat)
    | BadField(index: nat, error: FieldError)

  // ---- parseCron ----

  const FIELD_MIN := [0, 0, 0, 1, 1, 0]
  const FIELD_MAX := [59, 59, 23, 31, 12, 7]

  /** Six fields as parseField accepts them. */
  predicate SixFields(fields: seq<seq<Part>>) {
    && |fields| == 6
    && forall i | 0 <= i < 6 :: fields[i] != [] && AllInRange(fields[i], FIELD_MIN[i], FIELD_MAX[i])
  }

  function ReadFieldAt(texts: seq<string>, i: nat): (r: Result<seq<Part>, FieldError>)
    requires |texts| == 6 && i < 6
    ensures r.Success? ==> r.value != [] && AllInRange(r.value, FIELD_MIN[i], FIELD_MAX[i])
  {
    ReadField(texts[i], FIELD_MIN[i], FIELD_MAX[i])
  }

  /** The first n fields in order, or the error of the first bad one. */
  function ReadFields(texts: seq<string>, n: nat): (r: Result<seq<seq<Part>>, CronError>)
    requires |texts| == 6 && n <= 6
    ensures r.Success? ==> |r.value| == n && forall i: nat | i < n :: ReadFieldAt(texts, i) == Success(r.value[i])
  {
    hide ReadFieldAt;
    if n == 0 then Success([]) else
    var fs :- ReadFields(texts, n - 1);
    var f := ReadFieldAt(texts, n - 1);
    if f.Failure? then Failure(BadField(n - 1, f.error)) else Success(fs + [f.value])
  }

  /** The six fields a cron expression spells, or its first error. */
  function ReadCron(spec: string): (r: Result<seq<seq<Part>>, CronError>)
    ensures r.Success? ==> SixFields(r.value)
  {
    hide ReadFieldAt;
    var texts := Fields(spec);
    if |texts| != 6 then Failure(FieldCount(|texts|)) else
    var r := ReadFields(texts, 6);
    assert r.Success? ==> forall i: nat | i < 6 :: ReadFieldAt(texts, i) == Success(r.value[i]);
    r
  }

  /** Day-of-week 7 counts as 0. */
  ghost function FoldSunday(values: set<int>): set<int> {
    if 7 in values then values - {7} + {0} else values
  }

  ghost function ScheduleOf(fields: seq<seq<Part>>): Schedule
    requires |fields| == 6
  {
    hide Union;
    Schedule(Union(fields[0]), Union(fields[1]), Union(fields[2]), Union(fields[3]), Union(fields[4]),
             FoldSunday(Union(fields[5])), AnyStar(fields[3]), AnyStar(fields[5]))
  }

  method ParseCron(spec: string) returns (r: Result<Schedule, CronError>)
    ensures ReadCron(spec).Failure? ==> r == Failure(ReadCron(spec).error)
    ensures ReadCron(spec).Success? ==> r == Success(ScheduleOf(ReadCron(spec).value))
  {
    hide ReadField, Union, AnyStar, Fields;
    var texts := Fields(spec);
    if |texts| != 6 {
      return Failure(FieldCount(|texts|));
    }
    var masks: seq<Mask>, stars: seq<bool> := [], [];
    ghost var fields: seq<seq<Part>> := [];
    for i := 0 to 6
      invariant |masks| == |stars| == |fields| == i
      invariant ReadFields(texts, i) == Success(fields)
      invariant forall j | 0 <= j < i :: masks[j] == Union(fields[j]) && stars[j] == AnyStar(fields[j])
    {
      var f := ParseField(texts[i], FIELD_MIN[i], FIELD_MAX[i]);
      if f.Failure? {
        ReadFieldsFail(texts, i + 1, 6);
        return Failure(BadField(i, f.error));
      }
      masks, stars := masks + [f.value.0], stars + [f.value.1];
      fields := fields + [ReadFieldAt(texts, i).value];
    }
    var dow := masks[5];
    if 7 in dow {
      dow := dow - OneShl(7) + OneShl(0);
    }
    return Success(Schedule(masks[0], masks[1], masks[2], masks[3], masks[4], dow, stars[3], stars[5]));
  }

  lemma {:induction false} ReadFieldsFail(texts: seq<string>, m: nat, n: nat)
    requires |texts| == 6 && m <= n <= 6 && ReadFields(texts, m).Failure?
    ensures ReadFields(texts, n) == ReadFields(texts, m)
    decreases n
  {
    hide ReadFieldAt;
    if m == n {
    } else {
      ReadFieldsFail(texts, m, n - 1);
    }
  }

  /** The error names the position of the first bad field and is that field's error. */
  lemma FirstBadField(texts: seq<string>, k: nat)
    requires |texts| == 6 && (forall i | 0 <= i < 6 :: IsWord(texts[i]))
    requires k < 6 && ReadField(texts[k], FIELD_MIN[k], FIELD_MAX[k]).Failure?
    requires forall i | 0 <= i < k :: ReadField(texts[i], FIELD_MIN[i], FIELD_MAX[i]).Success?
    ensures ReadCron(Join(texts, ' ')) == Failure(BadField(k, ReadField(texts[k], FIELD_MIN[k], FIELD_MAX[k]).error))
  {
    FieldsJoin(texts);
    hide Fields, Join, ReadField;
    ReadFieldsGood(texts, k);
    ReadFieldsFail(texts, k + 1, 6);
  }

  lemma {:induction false} ReadFieldsGood(texts: seq<string>, k: nat)
    requires |texts| == 6 && k <= 6 && forall i | 0 <= i < k :: ReadField(texts[i], FIELD_MIN[i], FIELD_MAX[i]).Success?
    ensures ReadFields(texts, k).Success?
  {
    hide ReadField;
    if k == 0 {
    } else {
      ReadFieldsGood(texts, k - 1);
    }
  }

  /** Any other number of words is an error that tells it. */
  lemma WrongFieldCount(words: seq<string>)
    requires words != [] && (forall i | 0 <= i < |words| :: IsWord(words[i])) && |words| != 6
    ensures ReadCron(Join(words, ' ')) == Failure(FieldCount(|words|))
  {
    FieldsJoin(words);
    hide Fields, Join;
  }

  // ---- What every parsed schedule has in common ----

  ghost predicate Covers(mask: Mask, min: int, max: int) {
    && (exists v :: min <= v <= max && v in mask)
    && (forall v | v in mask :: v <= max)
  }

  ghost predicate Full(mask: Mask, min: int, max: int) {
    forall v | min <= v <= max :: v in mask
  }

  ghost predicate Parsed(c: Schedule) {
    && Covers(c.second, 0, 59) && Covers(c.minute, 0, 59) && Covers(c.hour, 0, 23)
    && Covers(c.dom, 1, 31) && Covers(c.month, 1, 12) && Covers(c.dow, 0, 6)
    && (c.domStar ==> Full(c.dom, 1, 31))
    && (c.dowStar ==> Full(c.dow, 0, 6))
  }

  /** Every mask of a parsed schedule has a value in range, and a star day field has them all. */
  lemma ParsedSchedules(spec: string)
    requires ReadCron(spec).Success?
    ensures Parsed(ScheduleOf(ReadCron(spec).value))
  {
    SixFieldsParsed(ReadCron(spec).value);
  }

  lemma FieldCovers(parts: seq<Part>, min: int, max: int)
    requires 0 <= min <= max < 64 && parts != [] && AllInRange(parts, min, max)
    ensures Covers(Union(parts), min, max)
    ensures AnyStar(parts) ==> Full(Union(parts), min, max)
  {
    FieldMask(parts, min, max);
    hide Union, AnyStar;
  }

  lemma SixFieldsParsed(fields: seq<seq<Part>>)
    requires SixFields(fields)
    ensures Parsed(ScheduleOf(fields))
  {
    hide Union, AnyStar, AllInRange, Covers, Full;
    FieldCovers(fields[0], 0, 59);
    FieldCovers(fields[1], 0, 59);
    FieldCovers(fields[2], 0, 23);
    FieldCovers(fields[3], 1, 31);
    FieldCovers(fields[4], 1, 12);
    FieldCovers(fields[5], 0, 7);
    FoldedCovers(Union(fields[5]));
  }

  lemma FoldedCovers(values: Mask)
    requires Covers(values, 0, 7)
    ensures (forall v | v in FoldSunday(values) :: 0 <= v < 64) && Covers(FoldSunday(values), 0, 6)
    ensures Full(values, 0, 7) ==> Full(FoldSunday(values), 0, 6)
  {
    var v :| 0 <= v <= 7 && v in values;
    assert (if v == 7 then 0 else v) in FoldSunday(values);
  }

  // ---- match and dayMatch ----

  predicate DayMatch(c: Schedule, n: int) {
    var domMatch := DateOf(n).day in c.dom;
    var dowMatch := Weekday(n) in c.dow;
    if !c.domStar && !c.dowStar then domMatch || dowMatch else domMatch && dowMatch
  }

  predicate Match(c: Schedule, t: int) {
    && Second(t) in c.second
    && Minute(t) in c.minute
    && Hour(t) in c.hour
    && DateOf(DayOf(t)).month in c.month
    && DayMatch(c, DayOf(t))
  }

  lemma MonthLengthAtMost31(n: int)
    ensures 1 <= DateOf(n).day <= 31
  {
    hide DateOf, DayNumber;
    DayNumberOfDate(n);
  }

  /** The standard cron rule for days, on the fields as written: a star field never constrains,
      two restricted fields are alternatives, and Sunday is 0 or 7. */
  lemma CronDayRule(fields: seq<seq<Part>>, n: int)
    requires SixFields(fields)
    ensures var day, weekday := DateOf(n).day, Weekday(n);
            var dom := day in Union(fields[3]);
            var dow := weekday in Union(fields[5]) || (weekday == 0 && 7 in Union(fields[5]));
            var domStar, dowStar := AnyStar(fields[3]), AnyStar(fields[5]);
            DayMatch(ScheduleOf(fields), n) <==>
              if domStar && dowStar then true
              else if domStar then dow
              else if dowStar then dom
              else dom || dow
  {
    hide Union, AnyStar, DateOf, DayNumber, SixFields, MonthLength, Covers;
    SixFieldsParsed(fields);
    DayNumberOfDate(n);
    MonthLengthAtMost31(n);
    assert 0 <= Weekday(n) < 7;
  }

  // ---- next ----

  /** What a scan second by second finds in [lo, hi). */
  function FirstMatch(c: Schedule, lo: int, hi: int): Option<int>
    decreases hi - lo
  {
    if lo >= hi then None else if Match(c, lo) then Some(lo) else FirstMatch(c, lo + 1, hi)
  }

  lemma {:induction false} FirstMatchIsLeast(c: Schedule, lo: int, hi: int)
    ensures FirstMatch(c, lo, hi).Some? ==>
              var t := FirstMatch(c, lo, hi).value;
              lo <= t < hi && Match(c, t) && forall u | lo <= u < t :: !Match(c, u)
    ensures FirstMatch(c, lo, hi).None? ==> forall u | lo <= u < hi :: !Match(c, u)
    decreases hi - lo
  {
    hide Match;
    if lo >= hi || Match(c, lo) {
    } else {
      FirstMatchIsLeast(c, lo + 1, hi);
    }
  }

  lemma {:induction false} Skip(c: Schedule, lo: int, mid: int, hi: int)
    requires lo <= mid && forall u | lo <= u < mid :: !Match(c, u)
    ensures FirstMatch(c, lo, hi) == FirstMatch(c, mid, hi)
    decreases mid - lo
  {
    hide Match;
    if lo == mid {
    } else {
      Skip(c, lo + 1, mid, hi);
    }
  }

  /** The end of the last year `next` looks at when it starts at second `start`. */
  function Horizon(start: int): int {
    YearStart(Year(start) + 6)
  }

  /** The first matching second after second `s`, if it comes within the horizon. */
  function NextFire(c: Schedule, s: int): Option<int> {
    FirstMatch(c, s + 1, Horizon(s + 1))
  }

  const NANOS := 1_000_000_000

  /** `next`: `from` is in nanoseconds, None is Go's zero time. */
  method Next(c: Schedule, from: int) returns (r: Option<int>)
    ensures r == NextFire(c, from / 1_000_000_000)
  {
    hide Match, Year, YearStart, NextMonth, NextDay, NextHour, NextMinute, DateOf, DayOf, Hour, Minute, Second;
    var t := from / NANOS + 1;
    var yearLimit := Year(t) + 5;
    ghost var start, limit := t, YearStart(yearLimit + 1);
    while true
      invariant FirstMatch(c, start, limit) == FirstMatch(c, t, limit)
      decreases limit - t
    {
      YearThreshold(t, yearLimit + 1);
      if Year(t) > yearLimit {
        return None;
      }
      if DateOf(DayOf(t)).month !in c.month {
        SkipMonth(c, t, limit);
        t := NextMonth(t);
        continue;
      }
      if !DayMatch(c, DayOf(t)) {
        SkipDay(c, t, limit);
        t := NextDay(t);
        continue;
      }
      if Hour(t) !in c.hour {
        SkipHour(c, t, limit);
        t := NextHour(t);
        continue;
      }
      if Minute(t) !in c.minute {
        SkipMinute(c, t, limit);
        t := NextMinute(t);
        continue;
      }
      if Second(t) !in c.second {
        SkipSecond(c, t, limit);
        t := t + 1;
        continue;
      }
      FoundMatch(c, t, limit);
      return Some(t);
    }
  }

  lemma FoundMatch(c: Schedule, t: int, limit: int)
    requires t < limit && Second(t) in c.second && Minute(t) in c.minute && Hour(t) in c.hour
    requires DateOf(DayOf(t)).month in c.month && DayMatch(c, DayOf(t))
    ensures FirstMatch(c, t, limit) == Some(t)
  {
    hide Second, Minute, Hour, DateOf, DayMatch;
  }

  lemma SkipMonth(c: Schedule, t: int, limit: int)
    requires DateOf(DayOf(t)).month !in c.month
    ensures t < NextMonth(t) && FirstMatch(c, t, limit) == FirstMatch(c, NextMonth(t), limit)
  {
    hide FirstMatch, DateOf, NextMonth, Second, Minute, Hour, DayOf, DayMatch;
    NextMonthSkips(t, t);
    forall u | t <= u < NextMonth(t)
      ensures !Match(c, u)
    {
      NextMonthSkips(t, u);
    }
    Skip(c, t, NextMonth(t), limit);
  }

  lemma SkipDay(c: Schedule, t: int, limit: int)
    requires !DayMatch(c, DayOf(t))
    ensures t < NextDay(t) && FirstMatch(c, t, limit) == FirstMatch(c, NextDay(t), limit)
  {
    hide FirstMatch, DateOf, NextDay, Second, Minute, Hour, DayOf, DayMatch;
    NextDaySkips(t, t);
    forall u | t <= u < NextDay(t)
      ensures !Match(c, u)
    {
      NextDaySkips(t, u);
    }
    Skip(c, t, NextDay(t), limit);
  }

  lemma SkipHour(c: Schedule, t: int, limit: int)
    requires Hour(t) !in c.hour
    ensures t < NextHour(t) && FirstMatch(c, t, limit) == FirstMatch(c, NextHour(t), limit)
  {
    hide FirstMatch, DateOf, NextHour, Second, Minute, Hour, DayOf, DayMatch;
    NextHourSkips(t, t);
    forall u | t <= u < NextHour(t)
      ensures !Match(c, u)
    {
      NextHourSkips(t, u);
    }
    Skip(c, t, NextHour(t), limit);
  }

  lemma SkipMinute(c: Schedule, t: int, limit: int)
    requires Minute(t) !in c.minute
    ensures t < NextMinute(t) && FirstMatch(c, t, limit) == FirstMatch(c, NextMinute(t), limit)
  {
    hide FirstMatch, DateOf, NextMinute, Second, Minute, Hour, DayOf, DayMatch;
    NextMinuteSkips(t, t);
    forall u | t <= u < NextMinute(t)
      ensures !Match(c, u)
    {
      NextMinuteSkips(t, u);
    }
    Skip(c, t, NextMinute(t), limit);
  }

  lemma SkipSecond(c: Schedule, t: int, limit: int)
    requires Second(t) !in c.second
    ensures FirstMatch(c, t, limit) == FirstMatch(c, t + 1, limit)
  {
    hide Second, Minute, Hour, DateOf, DayMatch;
  }
}

/** Cron expressions written from their meaning, read back by the parser of src/scheduler/cron.go. */
module CronNotation {
  import opened Wrappers
  import opened Text
  import opened CronParser
  import opened CronSchedule
  import opened Calendar

  datatype RangeSyntax = Star | Single(v: nat) | Span(a: nat, b: nat)
  datatype PartSyntax = PartSyntax(range: RangeSyntax, step: Option<nat>)

  function ShowRange(r: RangeSyntax): string {
    match r
    case Star => "*"
    case Single(v) => Itoa(v)
    case Span(a, b) => Itoa(a) + ['-'] + Itoa(b)
  }

  function ShowPart(p: PartSyntax): string {
    if p.step.None? then ShowRange(p.range) else ShowRange(p.range) + ['/'] + Itoa(p.step.value)
  }

  function ShowField(ps: seq<PartSyntax>): string
    requires ps != []
  {
    Join(seq(|ps|, i requires 0 <= i < |ps| => ShowPart(ps[i])), ',')
  }

  function ShowCron(fields: seq<seq<PartSyntax>>): string
    requires fields != [] && forall i | 0 <= i < |fields| :: fields[i] != []
  {
    Join(seq(|fields|, i requires 0 <= i < |fields| => ShowField(fields[i])), ' ')
  }

  /** What a part means for a field ranging over min..max. */
  function Meaning(p: PartSyntax, min: int, max: int): Part {
    var step := if p.step.None? then 1 else p.step.value;
    match p.range
    case Star => Part(min, max, step, step == 1)
    case Single(v) => Part(v, v, step, false)
    case Span(a, b) => Part(a, b, step, false)
  }

  function Meanings(ps: seq<PartSyntax>, min: int, max: int): seq<Part> {
    seq(|ps|, i requires 0 <= i < |ps| => Meaning(ps[i], min, max))
  }

  // ---- The characters that occur ----

  lemma ShownRange(r: RangeSyntax)
    ensures ShowRange(r) != []
    ensures forall i | 0 <= i < |ShowRange(r)| :: IsDigit(ShowRange(r)[i]) || ShowRange(r)[i] in "*-"
  {}

  lemma ShownPart(p: PartSyntax)
    ensures ShowPart(p) != []
    ensures forall i | 0 <= i < |ShowPart(p)| :: IsDigit(ShowPart(p)[i]) || ShowPart(p)[i] in "*-/"
  {
    ShownRange(p.range);
  }

  lemma {:induction false} JoinedWord(parts: seq<string>, c: char)
    requires parts != [] && !IsSpace(c) && forall i | 0 <= i < |parts| :: IsWord(parts[i])
    ensures IsWord(Join(parts, c))
  {
    if |parts| == 1 {
    } else {
      JoinedWord(parts[1..], c);
    }
  }

  // ---- Reading back ----

  lemma DigitsOnly(n: nat)
    ensures '*' !in Itoa(n) && '-' !in Itoa(n) && '/' !in Itoa(n)
  {
    hide Itoa;
  }

  lemma ReadShownSpan(a: nat, b: nat, min: int, max: int, step: nat)
    ensures var got := ReadRange(ShowRange(Span(a, b)), min, max, step);
            if a <= MAX_INT64 && b <= MAX_INT64 then got == Success(Part(a, b, step, false)) else got.Failure?
  {
    hide Itoa, Atoi, Find;
    AtoiItoa(a);
    AtoiItoa(b);
    DigitsOnly(a);
    FindAfter(Itoa(a), '-', Itoa(b));
    var s := ShowRange(Span(a, b));
    assert s[|Itoa(a)|] == '-';
    assert s[..|Itoa(a)|] == Itoa(a) && s[|Itoa(a)| + 1..] == Itoa(b);
  }

  lemma ReadShownRange(r: RangeSyntax, min: int, max: int, step: nat)
    requires 0 <= min <= max < 64
    ensures var p := Meaning(PartSyntax(r, Some(step)), min, max);
            var got := ReadRange(ShowRange(r), min, max, step);
            if p.lo <= MAX_INT64 && p.hi <= MAX_INT64 then got == Success(p) else got.Failure?
  {
    hide Itoa, Atoi, Find;
    match r
    case Star =>
    case Single(v) =>
      AtoiItoa(v);
      DigitsOnly(v);
    case Span(a, b) =>
      ReadShownSpan(a, b, min, max, step);
  }

  lemma ShowRangeNoSlash(r: RangeSyntax)
    ensures '/' !in ShowRange(r)
  {
    ShownRange(r);
    hide ShowRange;
  }

  /** Reading a written part gives its meaning, or an error when the meaning is out of range. */
  lemma ReadShownPart(p: PartSyntax, min: int, max: int)
    requires 0 <= min <= max < 64
    ensures var got := ReadPart(ShowPart(p), min, max);
            if InRange(Meaning(p, min, max), min, max) then got == Success(Meaning(p, min, max)) else got.Failure?
  {
    hide Itoa, Atoi, Find, ShowRange, ReadRange;
    var s, r := ShowPart(p), ShowRange(p.range);
    ShowRangeNoSlash(p.range);
    if p.step.None? {
      FindAfter(r, '/', []);
      assert r[..|r|] == r;
      ReadShownRange(p.range, min, max, 1);
    } else {
      var k := p.step.value;
      AtoiItoa(k);
      FindAfter(r, '/', Itoa(k));
      assert s[..|r|] == r && s[|r| + 1..] == Itoa(k);
      ReadShownRange(p.range, min, max, k);
    }
  }

  lemma ReadShownField(ps: seq<PartSyntax>, min: int, max: int)
    requires 0 <= min <= max < 64 && ps != []
    ensures var got := ReadField(ShowField(ps), min, max);
            if AllInRange(Meanings(ps, min, max), min, max) then got == Success(Meanings(ps, min, max)) else got.Failure?
    ensures IsWord(ShowField(ps))
  {
    hide ReadPart, ShowPart, Meaning, InRange;
    var texts := seq(|ps|, i requires 0 <= i < |ps| => ShowPart(ps[i]));
    var ms := Meanings(ps, min, max);
    forall i | 0 <= i < |ps|
      ensures ',' !in texts[i] && IsWord(texts[i])
      ensures if InRange(ms[i], min, max) then ReadPart(texts[i], min, max) == Success(ms[i])
              else ReadPart(texts[i], min, max).Failure?
    {
      ShownPart(ps[i]);
      ReadShownPart(ps[i], min, max);
    }
    SplitJoin(texts, ',');
    JoinedWord(texts, ',');
    if AllInRange(ms, min, max) {
      ReadPartsAll(texts, ms, min, max);
    }
  }

  /** Every cron expression that can be written is read back as what it means:
      it parses exactly when every part is in range, and then to those parts. */
  lemma ReadShownCron(fields: seq<seq<PartSyntax>>)
    requires |fields| == 6 && forall i | 0 <= i < 6 :: fields[i] != []
    ensures var got := ReadCron(ShowCron(fields));
            var ms := seq(6, i requires 0 <= i < 6 => Meanings(fields[i], FIELD_MIN[i], FIELD_MAX[i]));
            if SixFields(ms) then got == Success(ms) else got.Failure?
  {
    hide ReadField, ShowField, Meanings, AllInRange;
    var texts := seq(6, i requires 0 <= i < 6 => ShowField(fields[i]));
    var ms := seq(6, i requires 0 <= i < 6 => Meanings(fields[i], FIELD_MIN[i], FIELD_MAX[i]));
    forall i: nat | i < 6
      ensures IsWord(texts[i]) && ms[i] != []
      ensures if AllInRange(ms[i], FIELD_MIN[i], FIELD_MAX[i]) then ReadFieldAt(texts, i) == Success(ms[i])
              else ReadFieldAt(texts, i).Failure?
    {
      ReadShownField(fields[i], FIELD_MIN[i], FIELD_MAX[i]);
      MeaningsNonempty(fields[i], FIELD_MIN[i], FIELD_MAX[i]);
    }
    assert texts == seq(|fields|, i requires 0 <= i < |fields| => ShowField(fields[i]));
    FieldsJoin(texts);
    hide Fields;
    ReadAllFields(texts, ms, 6);
    assert ms[..6] == ms;
  }

  lemma {:induction false} ReadAllFields(texts: seq<string>, ms: seq<seq<Part>>, n: nat)
    requires |texts| == |ms| == 6 && n <= 6
    requires forall i: nat | i < 6 ::
               if AllInRange(ms[i], FIELD_MIN[i], FIELD_MAX[i]) then ReadFieldAt(texts, i) == Success(ms[i])
               else ReadFieldAt(texts, i).Failure?
    ensures if forall i | 0 <= i < n :: AllInRange(ms[i], FIELD_MIN[i], FIELD_MAX[i])
            then ReadFields(texts, n) == Success(ms[..n])
            else ReadFields(texts, n).Failure?
  {
    hide ReadFieldAt, AllInRange;
    if n == 0 {
    } else {
      ReadAllFields(texts, ms, n - 1);
      assert ms[..n] == ms[..n - 1] + [ms[n - 1]];
    }
  }

  lemma MeaningsNonempty(ps: seq<PartSyntax>, min: int, max: int)
    requires ps != []
    ensures Meanings(ps, min, max) != []
  {}

  // ---- From text to matching ----

  /** What a part says about a value of its field, read off the notation. */
  predicate PartHolds(p: PartSyntax, v: int, min: int, max: int) {
    var step := if p.step.None? then 1 else p.step.value;
    match p.range
    case Star => min <= v <= max && step > 0 && Multiple(v - min, step)
    case Single(n) => v == n
    case Span(a, b) => a <= v <= b && step > 0 && Multiple(v - a, step)
  }

  /** The values below its start that a step close to 2^63 wraps around to. */
  predicate WrapsTo(p: PartSyntax, v: int, min: int, max: int) {
    var m := Meaning(p, min, max);
    m.step <= MAX_INT64 && Wrapped(m, v)
  }

  /** The notation read plainly, or as the parser does, with the values wrapped around to. */
  datatype Reading = Plain | AsParsed

  predicate PartSays(r: Reading, p: PartSyntax, v: int, min: int, max: int) {
    PartHolds(p, v, min, max) || (r == AsParsed && WrapsTo(p, v, min, max))
  }

  predicate FieldSays(r: Reading, ps: seq<PartSyntax>, v: int, min: int, max: int) {
    exists i | 0 <= i < |ps| :: PartSays(r, ps[i], v, min, max)
  }

  /** A field is starred by "*" alone or with step 1. */
  predicate Starred(ps: seq<PartSyntax>) {
    exists i | 0 <= i < |ps| :: ps[i].range == Star && ps[i].step in {None, Some(1)}
  }

  predicate Accepted(ps: seq<PartSyntax>, min: int, max: int) {
    ps != [] && AllInRange(Meanings(ps, min, max), min, max)
  }

  /** When the month and day fields, read in this way, say that a schedule fires on such a day. */
  predicate DayRule(r: Reading, fields: seq<seq<PartSyntax>>, month: int, day: int, weekday: int)
    requires |fields| == 6
  {
    var dom := FieldSays(r, fields[3], day, 1, 31);
    var dow := FieldSays(r, fields[5], weekday, 0, 7) || (weekday == 0 && FieldSays(r, fields[5], 7, 0, 7));
    && FieldSays(r, fields[4], month, 1, 12)
    && if Starred(fields[3]) && Starred(fields[5]) then true
       else if Starred(fields[3]) then dow
       else if Starred(fields[5]) then dom
       else dom || dow
  }

  predicate FiresOn(r: Reading, fields: seq<seq<PartSyntax>>, n: int)
    requires |fields| == 6
  {
    DayRule(r, fields, DateOf(n).month, DateOf(n).day, Weekday(n))
  }

  /** When the six fields say that it fires at second t. */
  ghost predicate Fires(r: Reading, fields: seq<seq<PartSyntax>>, t: int)
    requires |fields| == 6
  {
    && FieldSays(r, fields[0], Second(t), 0, 59)
    && FieldSays(r, fields[1], Minute(t), 0, 59)
    && FieldSays(r, fields[2], Hour(t), 0, 23)
    && FiresOn(r, fields, DayOf(t))
  }

  /** The parser sets exactly what a part says if and only if the step is too small to wrap around. */
  lemma SetsWhatItHolds(p: PartSyntax, min: int, max: int)
    requires 0 <= min <= max < 64 && InRange(Meaning(p, min, max), min, max)
    ensures var m := Meaning(p, min, max);
            (forall v :: PartSays(AsParsed, p, v, min, max) <==> PartHolds(p, v, min, max))
            <==> m.lo + 2 * m.step < 0x1_0000_0000_0000_0000
  {
    var m := Meaning(p, min, max);
    WrapThreshold(m, min, max);
    forall v: int
      ensures v in Values(m) <==> PartSays(AsParsed, p, v, min, max)
      ensures v in Denoted(m) <==> PartHolds(p, v, min, max)
    {
      PartValues(p, v, min, max);
    }
    hide PartSays, PartHolds, Values, Denoted;
    assert Values(m) == Denoted(m) <==> forall v :: PartSays(AsParsed, p, v, min, max) <==> PartHolds(p, v, min, max);
  }

  lemma PartValues(p: PartSyntax, v: int, min: int, max: int)
    requires 0 <= min <= max < 64 && InRange(Meaning(p, min, max), min, max)
    ensures v in Values(Meaning(p, min, max)) <==> PartSays(AsParsed, p, v, min, max)
    ensures v in Denoted(Meaning(p, min, max)) <==> PartHolds(p, v, min, max)
  {
    MultipleOf(Meaning(p, min, max).step, 0);
    hide Multiple;
  }

  lemma FieldValues(ps: seq<PartSyntax>, v: int, min: int, max: int)
    requires 0 <= min <= max < 64 && Accepted(ps, min, max)
    ensures v in Union(Meanings(ps, min, max)) <==> FieldSays(AsParsed, ps, v, min, max)
    ensures AnyStar(Meanings(ps, min, max)) <==> Starred(ps)
  {
    var ms := Meanings(ps, min, max);
    UnionMember(ms, v);
    forall i | 0 <= i < |ps|
      ensures v in Values(ms[i]) <==> PartSays(AsParsed, ps[i], v, min, max)
      ensures ms[i].star <==> ps[i].range == Star && ps[i].step in {None, Some(1)}
    {
      assert ms[i] == Meaning(ps[i], min, max) && InRange(ms[i], min, max);
      PartValues(ps[i], v, min, max);
    }
    hide Values, PartSays, Union;
  }

  /** A parsed schedule matches the seconds whose parts lie in the values of the six fields. */
  lemma MatchByFields(fields: seq<seq<Part>>, t: int)
    requires SixFields(fields)
    ensures Match(ScheduleOf(fields), t) <==>
              && Second(t) in Union(fields[0]) && Minute(t) in Union(fields[1]) && Hour(t) in Union(fields[2])
              && DateOf(DayOf(t)).month in Union(fields[4]) && DayMatch(ScheduleOf(fields), DayOf(t))
  {
    hide DateOf, DayOf, Second, Minute, Hour, Union, DayMatch, SixFields, AnyStar, FoldSunday;
  }

  /** End to end: every written cron expression whose parts are in range parses to a schedule that
      matches exactly when the notation, read as the parser does, says so. */
  lemma WrittenCronMatches(fields: seq<seq<PartSyntax>>, t: int)
    requires |fields| == 6 && forall i | 0 <= i < 6 :: fields[i] != [] && Accepted(fields[i], FIELD_MIN[i], FIELD_MAX[i])
    ensures var got := ReadCron(ShowCron(fields));
            got.Success? && (Match(ScheduleOf(got.value), t) <==> Fires(AsParsed, fields, t))
  {
    var ms := seq(6, i requires 0 <= i < 6 => Meanings(fields[i], FIELD_MIN[i], FIELD_MAX[i]));
    assert SixFields(ms);
    ReadShownCron(fields);
    hide *;
    AcceptedCronMatches(fields, ms, t);
  }

  lemma AcceptedCronMatches(fields: seq<seq<PartSyntax>>, ms: seq<seq<Part>>, t: int)
    requires |fields| == |ms| == 6 && SixFields(ms)
    requires forall i | 0 <= i < 6 ::
               Accepted(fields[i], FIELD_MIN[i], FIELD_MAX[i]) && ms[i] == Meanings(fields[i], FIELD_MIN[i], FIELD_MAX[i])
    ensures Match(ScheduleOf(ms), t) <==> Fires(AsParsed, fields, t)
  {
    hide DateOf, DayOf, Second, Minute, Hour, Union, DayMatch, SixFields, AnyStar, FoldSunday, Accepted, Meanings,
         FieldSays, Starred, Match, ScheduleOf, Weekday;
    var n := DayOf(t);
    MatchByFields(ms, t);
    CronDayRule(ms, n);
    FieldValues(fields[0], Second(t), 0, 59);
    FieldValues(fields[1], Minute(t), 0, 59);
    FieldValues(fields[2], Hour(t), 0, 23);
    FieldValues(fields[3], DateOf(n).day, 1, 31);
    FieldValues(fields[4], DateOf(n).month, 1, 12);
    FieldValues(fields[5], Weekday(n), 0, 7);
    FieldValues(fields[5], 7, 0, 7);
  }

  // ---- The plain reading ----

  /** On the values a field ranges over, the parser reads it plainly. */
  ghost predicate ReadPlainly(ps: seq<PartSyntax>, min: int, max: int) {
    forall v | min <= v <= max :: FieldSays(AsParsed, ps, v, min, max) <==> FieldSays(Plain, ps, v, min, max)
  }

  ghost predicate WrapsHarmlessly(p: PartSyntax, ps: seq<PartSyntax>, min: int, max: int) {
    forall v | min <= v <= max && WrapsTo(p, v, min, max) :: FieldSays(Plain, ps, v, min, max)
  }

  lemma PartInField(r: Reading, ps: seq<PartSyntax>, i: nat, v: int, min: int, max: int)
    requires i < |ps| && PartSays(r, ps[i], v, min, max)
    ensures FieldSays(r, ps, v, min, max)
  {
    hide PartSays;
  }

  /** A field is read plainly exactly when every value of its range that a part wraps around to is held
      by some part. */
  lemma PlainlyExactly(ps: seq<PartSyntax>, min: int, max: int)
    ensures ReadPlainly(ps, min, max) <==> forall i | 0 <= i < |ps| :: WrapsHarmlessly(ps[i], ps, min, max)
  {
    hide PartHolds, WrapsTo;
    if ReadPlainly(ps, min, max) {
      forall i, v | 0 <= i < |ps| && min <= v <= max && WrapsTo(ps[i], v, min, max)
        ensures FieldSays(Plain, ps, v, min, max)
      {
        PartInField(AsParsed, ps, i, v, min, max);
      }
    }
    if forall i | 0 <= i < |ps| :: WrapsHarmlessly(ps[i], ps, min, max) {
      forall v | min <= v <= max
        ensures FieldSays(AsParsed, ps, v, min, max) <==> FieldSays(Plain, ps, v, min, max)
      {
        SaysPlainly(ps, v, min, max);
      }
    }
  }

  lemma SaysPlainly(ps: seq<PartSyntax>, v: int, min: int, max: int)
    requires min <= v <= max && forall i | 0 <= i < |ps| :: WrapsHarmlessly(ps[i], ps, min, max)
    ensures FieldSays(AsParsed, ps, v, min, max) <==> FieldSays(Plain, ps, v, min, max)
  {
    hide PartHolds, WrapsTo;
    if FieldSays(AsParsed, ps, v, min, max) {
      var i :| 0 <= i < |ps| && PartSays(AsParsed, ps[i], v, min, max);
      assert WrapsHarmlessly(ps[i], ps, min, max);
      if PartSays(Plain, ps[i], v, min, max) {
        PartInField(Plain, ps, i, v, min, max);
      }
    }
  }

  /** No part's step is large enough to wrap around. */
  predicate SmallSteps(ps: seq<PartSyntax>, min: int, max: int) {
    forall i | 0 <= i < |ps| :: Meaning(ps[i], min, max).lo + 2 * Meaning(ps[i], min, max).step < 0x1_0000_0000_0000_0000
  }

  lemma SmallStepsPlainly(ps: seq<PartSyntax>, min: int, max: int)
    requires 0 <= min <= max < 64 && Accepted(ps, min, max) && SmallSteps(ps, min, max)
    ensures ReadPlainly(ps, min, max)
  {
    forall i | 0 <= i < |ps|
      ensures WrapsHarmlessly(ps[i], ps, min, max)
    {
      assert Meanings(ps, min, max)[i] == Meaning(ps[i], min, max);
      SetsWhatItHolds(ps[i], min, max);
      hide Meaning, PartHolds, WrapsTo;
      forall v | min <= v <= max && WrapsTo(ps[i], v, min, max)
        ensures FieldSays(Plain, ps, v, min, max)
      {
        assert PartSays(AsParsed, ps[i], v, min, max);
        PartInField(Plain, ps, i, v, min, max);
      }
    }
    PlainlyExactly(ps, min, max);
  }

  lemma DayPlainly(fields: seq<seq<PartSyntax>>, n: int)
    requires |fields| == 6 && forall i | 0 <= i < 6 :: ReadPlainly(fields[i], FIELD_MIN[i], FIELD_MAX[i])
    ensures FiresOn(AsParsed, fields, n) <==> FiresOn(Plain, fields, n)
  {
    DayNumberOfDate(n);
    MonthLengthAtMost31(n);
    assert 0 <= Weekday(n) < 7;
    hide DateOf, Weekday, FieldSays, Starred, DayNumber;
    assert ReadPlainly(fields[3], 1, 31) && ReadPlainly(fields[4], 1, 12) && ReadPlainly(fields[5], 0, 7);
  }

  ghost predicate TimesPlain(fields: seq<seq<PartSyntax>>)
    requires |fields| == 6
  {
    ReadPlainly(fields[0], 0, 59) && ReadPlainly(fields[1], 0, 59) && ReadPlainly(fields[2], 0, 23)
  }

  lemma FiresPlainly(fields: seq<seq<PartSyntax>>, t: int)
    requires |fields| == 6 && TimesPlain(fields)
    requires FiresOn(AsParsed, fields, DayOf(t)) <==> FiresOn(Plain, fields, DayOf(t))
    ensures Fires(AsParsed, fields, t) <==> Fires(Plain, fields, t)
  {
    PartsOfTime(t);
    hide DayOf, Second, Minute, Hour, FieldSays, FiresOn;
  }

  /** The plain reading says no more than the parser's. */
  lemma PlainIsParsed(ps: seq<PartSyntax>, v: int, min: int, max: int)
    requires FieldSays(Plain, ps, v, min, max)
    ensures FieldSays(AsParsed, ps, v, min, max)
  {
    hide PartHolds, WrapsTo;
    var i :| 0 <= i < |ps| && PartSays(Plain, ps[i], v, min, max);
    PartInField(AsParsed, ps, i, v, min, max);
  }

  lemma PlainDayIsParsed(fields: seq<seq<PartSyntax>>, n: int)
    requires |fields| == 6 && FiresOn(Plain, fields, n)
    ensures FiresOn(AsParsed, fields, n)
  {
    forall i, v, min, max | 0 <= i < 6 && FieldSays(Plain, fields[i], v, min, max)
      ensures FieldSays(AsParsed, fields[i], v, min, max)
    {
      PlainIsParsed(fields[i], v, min, max);
    }
    hide DateOf, Weekday, FieldSays, Starred;
  }

  /** The start of a part is a value it holds. */
  lemma HeldValue(ps: seq<PartSyntax>, min: int, max: int) returns (v: int)
    requires 0 <= min <= max < 64 && Accepted(ps, min, max)
    ensures min <= v <= max && FieldSays(Plain, ps, v, min, max)
  {
    var m := Meaning(ps[0], min, max);
    assert Meanings(ps, min, max)[0] == m && InRange(m, min, max);
    v := m.lo;
    MultipleOf(m.step, 0);
    assert v - m.lo == 0;
    hide Multiple, WrapsTo;
    assert PartSays(Plain, ps[0], v, min, max);
    PartInField(Plain, ps, 0, v, min, max);
  }

  /** The second of day n at a time of day. */
  function TimeOn(n: int, hour: int, minute: int, second: int): int {
    SECONDS_PER_DAY * n + 3600 * hour + 60 * minute + second
  }

  lemma TimeOnParts(n: int, hour: int, minute: int, second: int)
    requires 0 <= hour <= 23 && 0 <= minute <= 59 && 0 <= second <= 59
    ensures var t := TimeOn(n, hour, minute, second);
            DayOf(t) == n && Hour(t) == hour && Minute(t) == minute && Second(t) == second
  {
    TimeParts(n, hour, minute, second);
    hide DayOf, Second, Minute, Hour;
  }

  lemma FiresAt(r: Reading, fields: seq<seq<PartSyntax>>, n: int, hour: int, minute: int, second: int)
    requires |fields| == 6 && 0 <= hour <= 23 && 0 <= minute <= 59 && 0 <= second <= 59
    ensures Fires(r, fields, TimeOn(n, hour, minute, second)) <==>
              && FieldSays(r, fields[0], second, 0, 59) && FieldSays(r, fields[1], minute, 0, 59)
              && FieldSays(r, fields[2], hour, 0, 23) && FiresOn(r, fields, n)
  {
    hide DayOf, Second, Minute, Hour, FieldSays, FiresOn, TimeOn;
    TimeOnParts(n, hour, minute, second);
  }

  ghost predicate AlwaysPlain(fields: seq<seq<PartSyntax>>)
    requires |fields| == 6
  {
    forall t :: Fires(AsParsed, fields, t) <==> Fires(Plain, fields, t)
  }

  ghost predicate DaysPlain(fields: seq<seq<PartSyntax>>)
    requires |fields| == 6
  {
    forall n :: FiresOn(AsParsed, fields, n) <==> FiresOn(Plain, fields, n)
  }

  ghost predicate NoDays(fields: seq<seq<PartSyntax>>)
    requires |fields| == 6
  {
    forall n :: !FiresOn(AsParsed, fields, n)
  }

  lemma SameAt(fields: seq<seq<PartSyntax>>, n: int, hour: int, minute: int, second: int)
    requires |fields| == 6 && 0 <= hour <= 23 && 0 <= minute <= 59 && 0 <= second <= 59 && AlwaysPlain(fields)
    requires FieldSays(AsParsed, fields[0], second, 0, 59) && FieldSays(AsParsed, fields[1], minute, 0, 59)
    requires FieldSays(AsParsed, fields[2], hour, 0, 23) && FiresOn(AsParsed, fields, n)
    ensures FieldSays(Plain, fields[0], second, 0, 59) && FieldSays(Plain, fields[1], minute, 0, 59)
    ensures FieldSays(Plain, fields[2], hour, 0, 23) && FiresOn(Plain, fields, n)
  {
    hide Fires, FiresOn, FieldSays, TimeOn;
    FiresAt(AsParsed, fields, n, hour, minute, second);
    FiresAt(Plain, fields, n, hour, minute, second);
  }

  lemma FieldPlain(ps: seq<PartSyntax>, min: int, max: int)
    requires forall v | min <= v <= max && FieldSays(AsParsed, ps, v, min, max) :: FieldSays(Plain, ps, v, min, max)
    ensures ReadPlainly(ps, min, max)
  {
    forall v | min <= v <= max && FieldSays(Plain, ps, v, min, max)
      ensures FieldSays(AsParsed, ps, v, min, max)
    {
      PlainIsParsed(ps, v, min, max);
    }
    hide FieldSays;
  }

  /** If the parser's reading fires on some day and nowhere else than the plain one, fields and days agree. */
  lemma PlainParts(fields: seq<seq<PartSyntax>>, day: int)
    requires |fields| == 6 && forall i | 0 <= i < 6 :: Accepted(fields[i], FIELD_MIN[i], FIELD_MAX[i])
    requires AlwaysPlain(fields) && FiresOn(AsParsed, fields, day)
    ensures TimesPlain(fields) && DaysPlain(fields)
  {
    hide Fires, FiresOn, FieldSays, AlwaysPlain, Accepted, ReadPlainly;
    var second := HeldValue(fields[0], 0, 59);
    var minute := HeldValue(fields[1], 0, 59);
    var hour := HeldValue(fields[2], 0, 23);
    PlainIsParsed(fields[0], second, 0, 59);
    PlainIsParsed(fields[1], minute, 0, 59);
    PlainIsParsed(fields[2], hour, 0, 23);
    forall v | 0 <= v <= 59 && FieldSays(AsParsed, fields[0], v, 0, 59)
      ensures FieldSays(Plain, fields[0], v, 0, 59)
    {
      SameAt(fields, day, hour, minute, v);
    }
    forall v | 0 <= v <= 59 && FieldSays(AsParsed, fields[1], v, 0, 59)
      ensures FieldSays(Plain, fields[1], v, 0, 59)
    {
      SameAt(fields, day, hour, v, second);
    }
    forall v | 0 <= v <= 23 && FieldSays(AsParsed, fields[2], v, 0, 23)
      ensures FieldSays(Plain, fields[2], v, 0, 23)
    {
      SameAt(fields, day, v, minute, second);
    }
    FieldPlain(fields[0], 0, 59);
    FieldPlain(fields[1], 0, 59);
    FieldPlain(fields[2], 0, 23);
    forall n
      ensures FiresOn(AsParsed, fields, n) <==> FiresOn(Plain, fields, n)
    {
      if FiresOn(AsParsed, fields, n) {
        SameAt(fields, n, hour, minute, second);
      } else if FiresOn(Plain, fields, n) {
        PlainDayIsParsed(fields, n);
      }
    }
  }

  /** The parser's reading of an expression fires exactly when the plain one does, if and only if it fires on
      no day at all, or its time fields are read plainly and its day fields agree day by day. */
  lemma AlwaysPlainExactly(fields: seq<seq<PartSyntax>>)
    requires |fields| == 6 && forall i | 0 <= i < 6 :: Accepted(fields[i], FIELD_MIN[i], FIELD_MAX[i])
    ensures AlwaysPlain(fields)
            <==> NoDays(fields) || (TimesPlain(fields) && DaysPlain(fields))
  {
    hide Fires, FiresOn, Accepted, TimesPlain;
    if n :| AlwaysPlain(fields) && FiresOn(AsParsed, fields, n) {
      PlainParts(fields, n);
    }
    if TimesPlain(fields) && DaysPlain(fields) {
      forall t
        ensures Fires(AsParsed, fields, t) <==> Fires(Plain, fields, t)
      {
        FiresPlainly(fields, t);
      }
    }
    if NoDays(fields) {
      forall t
        ensures !Fires(AsParsed, fields, t) && !Fires(Plain, fields, t)
      {
        NoDayNoTime(fields, t);
      }
    }
  }

  lemma NoDayNoTime(fields: seq<seq<PartSyntax>>, t: int)
    requires |fields| == 6 && !FiresOn(AsParsed, fields, DayOf(t))
    ensures !Fires(AsParsed, fields, t) && !Fires(Plain, fields, t)
  {
    hide FiresOn, FieldSays, Second, Minute, Hour, DayOf;
    if FiresOn(Plain, fields, DayOf(t)) {
      PlainDayIsParsed(fields, DayOf(t));
    }
  }

  // ---- The days there are ----

  /** The combinations of month, day of month and weekday that occur. */
  predicate Possible(month: int, day: int, weekday: int) {
    1 <= month <= 12 && 1 <= day <= MonthLength(4, month) && 0 <= weekday <= 6
  }

  /** A finite check: no day that there is, or the two readings agree on every one. */
  predicate NoPossibleDay(fields: seq<seq<PartSyntax>>)
    requires |fields| == 6
  {
    forall m, d, w | 1 <= m <= 12 && 1 <= d <= 31 && 0 <= w <= 6 && Possible(m, d, w) :: !DayRule(AsParsed, fields, m, d, w)
  }

  predicate PossibleDaysPlain(fields: seq<seq<PartSyntax>>)
    requires |fields| == 6
  {
    forall m, d, w | 1 <= m <= 12 && 1 <= d <= 31 && 0 <= w <= 6 && Possible(m, d, w) ::
      DayRule(AsParsed, fields, m, d, w) <==> DayRule(Plain, fields, m, d, w)
  }

  lemma DayIsPossible(n: int)
    ensures Possible(DateOf(n).month, DateOf(n).day, Weekday(n)) && 1 <= DateOf(n).day <= 31
  {
    DayNumberOfDate(n);
    assert 0 <= Weekday(n) < 7;
    hide DateOf, Weekday, DayNumber;
  }

  /** The leap years 2004, 2008, ..., 2028 start on the seven weekdays. */
  lemma LeapYears(j: int)
    requires 0 <= j <= 6
    ensures DaysBeforeYear(2004 + 4 * j) == DaysBeforeYear(2004) + 1461 * j && IsLeap(2004 + 4 * j)
  {}

  lemma SameDayLater(m: int, d: int, j: int)
    requires 1 <= m <= 12 && 0 <= j <= 6
    ensures DayNumber(2004 + 4 * j, m, d) == DayNumber(2004, m, d) + 1461 * j
    ensures MonthLength(2004 + 4 * j, m) == MonthLength(4, m)
  {
    LeapYears(j);
    LeapYears(0);
    hide DaysBeforeYear, DayNumber;
    NoMonthCarry(2004, m, d);
    NoMonthCarry(2004 + 4 * j, m, d);
  }

  lemma Remainder7(x: int, q: int, r: int)
    requires x == 7 * q + r && 0 <= r < 7
    ensures x % 7 == r
  {}

  lemma DividedBy7(x: int)
    ensures x == 7 * (x / 7) + x % 7 && 0 <= x % 7 < 7
  {}

  /** 1461 is 5 modulo 7, and 3 * 5 is 1. */
  lemma WeekdayReached(n: int, w: int) returns (j: int)
    requires 0 <= w <= 6
    ensures 0 <= j <= 6 && Weekday(n + 1461 * j) == w
  {
    var k := w - Weekday(n);
    var p, q := (n + 1) / 7, 3 * k / 7;
    j := 3 * k % 7;
    DividedBy7(n + 1);
    DividedBy7(3 * k);
    Remainder7(n + 1461 * j + 1, p + 626 * k - 1461 * q, w);
  }

  /** Every combination occurs. */
  lemma PossibleIsDay(m: int, d: int, w: int) returns (n: int)
    requires Possible(m, d, w)
    ensures DateOf(n).month == m && DateOf(n).day == d && Weekday(n) == w
  {
    var j := WeekdayReached(DayNumber(2004, m, d), w);
    SameDayLater(m, d, j);
    hide DateOf, Weekday, DayNumber;
    n := DayNumber(2004 + 4 * j, m, d);
    DateOfDayNumber(Date(2004 + 4 * j, m, d));
  }

  lemma DaysArePossible(fields: seq<seq<PartSyntax>>)
    requires |fields| == 6
    ensures NoDays(fields) <==> NoPossibleDay(fields)
    ensures DaysPlain(fields) <==> PossibleDaysPlain(fields)
  {
    hide DateOf, Weekday, DayRule, Possible;
    forall m, d, w | Possible(m, d, w)
      ensures NoDays(fields) ==> !DayRule(AsParsed, fields, m, d, w)
      ensures DaysPlain(fields) ==> (DayRule(AsParsed, fields, m, d, w) <==> DayRule(Plain, fields, m, d, w))
    {
      var n := PossibleIsDay(m, d, w);
      assert FiresOn(AsParsed, fields, n) == DayRule(AsParsed, fields, m, d, w);
      assert FiresOn(Plain, fields, n) == DayRule(Plain, fields, m, d, w);
    }
    forall n
      ensures NoPossibleDay(fields) ==> !FiresOn(AsParsed, fields, n)
      ensures PossibleDaysPlain(fields) ==> (FiresOn(AsParsed, fields, n) <==> FiresOn(Plain, fields, n))
    {
      PossibleOn(fields, n);
    }
  }

  lemma PossibleOn(fields: seq<seq<PartSyntax>>, n: int)
    requires |fields| == 6
    ensures NoPossibleDay(fields) ==> !FiresOn(AsParsed, fields, n)
    ensures PossibleDaysPlain(fields) ==> (FiresOn(AsParsed, fields, n) <==> FiresOn(Plain, fields, n))
  {
    DayIsPossible(n);
    MonthOf(n);
    hide DateOf, Weekday, DayRule, Possible;
  }

  lemma MonthOf(n: int)
    ensures 1 <= DateOf(n).month <= 12 && 0 <= Weekday(n) <= 6
  {
    DayNumberOfDate(n);
    hide DateOf, DayNumber;
  }

  /** End to end: a written expression matches exactly when the plain notation and the cron day rule say so,
      at every second, if and only if its fields as parsed fire on no day there is, or its time fields are
      read plainly and its day fields agree on the days there are. */
  lemma PlainCronMatches(fields: seq<seq<PartSyntax>>)
    requires |fields| == 6 && forall i | 0 <= i < 6 :: fields[i] != [] && Accepted(fields[i], FIELD_MIN[i], FIELD_MAX[i])
    ensures var got := ReadCron(ShowCron(fields));
            && got.Success?
            && ((forall t :: Match(ScheduleOf(got.value), t) <==> Fires(Plain, fields, t))
                <==> NoPossibleDay(fields) || (TimesPlain(fields) && PossibleDaysPlain(fields)))
  {
    hide Accepted, ReadCron, ShowCron, Match, Fires, ScheduleOf, FiresOn, TimesPlain, DaysPlain, NoDays,
         NoPossibleDay, PossibleDaysPlain;
    WrittenCronMatches(fields, 0);
    var c := ScheduleOf(ReadCron(ShowCron(fields)).value);
    forall t
      ensures Match(c, t) <==> Fires(AsParsed, fields, t)
    {
      WrittenCronMatches(fields, t);
    }
    AlwaysPlainExactly(fields);
    DaysArePossible(fields);
  }

  /** In particular an expression with small steps only. */
  lemma SmallStepsCronMatches(fields: seq<seq<PartSyntax>>, t: int)
    requires |fields| == 6 && forall i | 0 <= i < 6 :: fields[i] != [] && Accepted(fields[i], FIELD_MIN[i], FIELD_MAX[i])
    requires forall i | 0 <= i < 6 :: SmallSteps(fields[i], FIELD_MIN[i], FIELD_MAX[i])
    ensures var got := ReadCron(ShowCron(fields));
            got.Success? && (Match(ScheduleOf(got.value), t) <==> Fires(Plain, fields, t))
  {
    hide Accepted, SmallSteps, ReadPlainly, ReadCron, ShowCron, Match, Fires, FiresOn, ScheduleOf;
    forall i | 0 <= i < 6
      ensures ReadPlainly(fields[i], FIELD_MIN[i], FIELD_MAX[i])
    {
      SmallStepsPlainly(fields[i], FIELD_MIN[i], FIELD_MAX[i]);
    }
    assert ReadPlainly(fields[0], FIELD_MIN[0], FIELD_MAX[0]) && ReadPlainly(fields[1], FIELD_MIN[1], FIELD_MAX[1]);
    assert ReadPlainly(fields[2], FIELD_MIN[2], FIELD_MAX[2]);
    forall n
      ensures FiresOn(AsParsed, fields, n) <==> FiresOn(Plain, fields, n)
    {
      DayPlainly(fields, n);
    }
    DaysArePossible(fields);
    PlainCronMatches(fields);
  }

  // ---- Two expressions that do not mean what they seem to ----

  /** "*" is a star field, and so is "*" with step 1, but no other step is one. */
  lemma StepStar(n: nat, min: int, max: int)
    requires 0 <= min <= max < 64 && 1 <= n <= MAX_INT64
    ensures var field := [PartSyntax(Star, Some(n))];
            && ReadField(ShowField(field), min, max).Success?
            && (AnyStar(ReadField(ShowField(field), min, max).value) <==> n == 1)
  {
    var field := [PartSyntax(Star, Some(n))];
    ReadShownField(field, min, max);
    var ms := Meanings(field, min, max);
    assert ms == [Part(min, max, n, n == 1)];
  }

  /** "2/9223372036854775807" as day of month also sets bit 0, below the field's minimum. */
  lemma WrappedStep()
    ensures var field := [PartSyntax(Single(2), Some(MAX_INT64))];
            && ReadField(ShowField(field), 1, 31).Success?
            && 0 in Union(ReadField(ShowField(field), 1, 31).value)
  {
    hide *;
    WrappedField();
    WrappedToZero(Part(2, 2, MAX_INT64, false));
    UnionOfOne(Part(2, 2, MAX_INT64, false));
  }

  lemma WrappedField()
    ensures ReadField(ShowField([PartSyntax(Single(2), Some(MAX_INT64))]), 1, 31)
            == Success([Part(2, 2, MAX_INT64, false)])
  {
    hide ReadField, ShowField;
    ReadShownField([PartSyntax(Single(2), Some(MAX_INT64))], 1, 31);
    assert Meanings([PartSyntax(Single(2), Some(MAX_INT64))], 1, 31) == [Part(2, 2, MAX_INT64, false)];
  }

  lemma UnionOfOne(p: Part)
    ensures Union([p]) == Values(p)
  {
    hide Values;
    assert [p][..0] == [];
    assert Union([p]) == {} + Values(p);
  }

  lemma WrappedToZero(p: Part)
    requires p == Part(2, 2, MAX_INT64, false)
    ensures 0 in Values(p)
  {
    MultipleOf(2, 1);
    assert Wrapped(p, 0);
  }
}

/** Cron expressions: src/scheduler/cron.go, parseCron and parseField. */
module CronParser {
  import opened Wrappers
  import opened Text

  // ---- Bitmasks ----

  /** A uint64 mask as the set of its bit positions: `|` is union, `&` with one bit is membership. */
  type Mask = m: set<int> | forall v | v in m :: 0 <= v < 64

  /** `1 << uint(v)`: a negative v becomes a huge shift count, which gives the empty mask. */
  function OneShl(v: int): Mask {
    if 0 <= v < 64 then {v} else {}
  }

  // ---- Fields as text denotes them ----

  datatype FieldError =
    | EmptyField
    | InvalidStep(text: string)
    | InvalidRangeStart(text: string)
    | InvalidRangeEnd(text: string)
    | InvalidValue(text: string)
    | OutOfRange(min: int, max: int)
    | NoValues

  /** One comma part of a field: lo, lo + step, ... up to hi. `star` is set for "*" with step 1. */
  datatype Part = Part(lo: int, hi: int, step: int, star: bool)

  const TWO63 := 0x8000_0000_0000_0000

  /** What parseField checks of a part before it sets bits; a star part is the whole range. */
  predicate InRange(p: Part, min: int, max: int) {
    && min <= p.lo <= p.hi <= max && 1 <= p.step <= MAX_INT64
    && (p.star ==> p == Part(min, max, 1, true))
  }

  predicate Multiple(x: int, d: int)
    requires d > 0
  {
    x % d == 0
  }

  /** The values a cron part denotes. */
  ghost predicate InProgression(p: Part, v: int)
    requires p.step > 0
  {
    p.lo <= v <= p.hi && Multiple(v - p.lo, p.step)
  }

  /** The values below lo that the loop also sets when `v += step` wraps around:
      two wrap-arounds together subtract 2 * (2^63 - step) from v. */
  predicate Wrapped(p: Part, v: int)
    requires p.step <= MAX_INT64
  {
    0 <= v < p.lo && Multiple(p.lo - v, 2 * (TWO63 - p.step))
  }

  ghost function Values(p: Part): (values: set<int>)
    ensures forall v | v in values :: 0 <= v < 64
  {
    if 1 <= p.step <= MAX_INT64 then set v | 0 <= v < 64 && (InProgression(p, v) || Wrapped(p, v)) else {}
  }

  ghost function Denoted(p: Part): set<int>
    requires 1 <= p.step
  {
    set v | p.lo <= v <= p.hi && InProgression(p, v)
  }

  /** Exactly when the 64-bit loop computes what the part denotes. */
  lemma WrapThreshold(p: Part, min: int, max: int)
    requires 0 <= min && max < 64 && InRange(p, min, max)
    ensures Values(p) == Denoted(p) <==> p.lo + 2 * p.step < 0x1_0000_0000_0000_0000
  {
    var d := 2 * (TWO63 - p.step);
    if p.lo >= d {
      MultipleOf(d, 1);
      assert Wrapped(p, p.lo - d);
      assert p.lo - d in Values(p) && p.lo - d !in Denoted(p);
    } else {
      forall v: int
        ensures !Wrapped(p, v)
      {
        if 0 <= v < p.lo {
          SmallRemainder(p.lo - v, d);
        }
      }
      assert Values(p) == Denoted(p);
    }
  }

  lemma SmallRemainder(x: int, d: int)
    requires 0 < x < d
    ensures !Multiple(x, d)
  {}

  function ReadRange(text: string, min: int, max: int, step: int): (r: Result<Part, FieldError>)
    ensures r.Success? ==> r.value.step == step && (r.value.star ==> r.value == Part(min, max, 1, true))
  {
    if text == "*" then Success(Part(min, max, step, step == 1))
    else if '-' in text then
      var i := Find(text, '-');
      var a := Atoi(text[..i]);
      if a.None? then Failure(InvalidRangeStart(text[..i])) else
      var b := Atoi(text[i + 1..]);
      if b.None? then Failure(InvalidRangeEnd(text[i + 1..])) else
      Success(Part(a.value, b.value, step, false))
    else
      var v := Atoi(text);
      if v.None? then Failure(InvalidValue(text)) else
      Success(Part(v.value, v.value, step, false))
  }

  function ReadPart(text: string, min: int, max: int): (r: Result<Part, FieldError>)
    ensures r.Success? ==> InRange(r.value, min, max)
  {
    hide ReadRange, Atoi, Find;
    var i := Find(text, '/');
    var step := if i == |text| then Some(1) else Atoi(text[i + 1..]);
    if step.None? || step.value <= 0 then Failure(InvalidStep(text[i + 1..])) else
    var p :- ReadRange(text[..i], min, max, step.value);
    if p.lo < min || p.hi > max || p.lo > p.hi then Failure(OutOfRange(min, max)) else
    Success(p)
  }

  // ---- The errors of a part ----

  /** A bad step is reported first, whatever the range is. */
  lemma BadStep(range: string, step: string, min: int, max: int)
    requires '/' !in range && (Atoi(step).None? || Atoi(step).value <= 0)
    ensures ReadPart(range + ['/'] + step, min, max) == Failure(InvalidStep(step))
  {
    FindAfter(range, '/', step);
    hide Atoi, Find, ReadRange;
    var text := range + ['/'] + step;
    assert text[|range| + 1..] == step;
  }

  /** Then the start of a range, its end, and whether it lies within the field. */
  lemma SpanErrors(a: string, b: string, min: int, max: int)
    requires '/' !in a && '/' !in b && '-' !in a
    ensures ReadPart(a + ['-'] + b, min, max)
            == if Atoi(a).None? then Failure(InvalidRangeStart(a))
               else if Atoi(b).None? then Failure(InvalidRangeEnd(b))
               else if min <= Atoi(a).value <= Atoi(b).value <= max
               then Success(Part(Atoi(a).value, Atoi(b).value, 1, false))
               else Failure(OutOfRange(min, max))
  {
    var text := a + ['-'] + b;
    FindAfter(text, '/', []);
    SpanRead(a, b, min, max);
    hide Atoi, Find, ReadRange;
    assert text + [] == text && text[..|text|] == text;
  }

  lemma SpanRead(a: string, b: string, min: int, max: int)
    requires '-' !in a
    ensures ReadRange(a + ['-'] + b, min, max, 1)
            == if Atoi(a).None? then Failure(InvalidRangeStart(a))
               else if Atoi(b).None? then Failure(InvalidRangeEnd(b))
               else Success(Part(Atoi(a).value, Atoi(b).value, 1, false))
  {
    FindAfter(a, '-', b);
    hide Atoi, Find;
    var text := a + ['-'] + b;
    assert text[|a|] == '-' && text != "*";
    assert text[..|a|] == a && text[|a| + 1..] == b;
  }

  lemma ValueErrors(v: string, min: int, max: int)
    requires '/' !in v && '-' !in v && v != "*"
    ensures ReadPart(v, min, max)
            == if Atoi(v).None? then Failure(InvalidValue(v))
               else if min <= Atoi(v).value <= max then Success(Part(Atoi(v).value, Atoi(v).value, 1, false))
               else Failure(OutOfRange(min, max))
  {
    FindAfter(v, '/', []);
    hide Atoi, Find;
    assert v[..|v|] == v;
  }

  predicate AllInRange(parts: seq<Part>, min: int, max: int) {
    forall i | 0 <= i < |parts| :: InRange(parts[i], min, max)
  }

  /** The parts of a field in order, or the error of the first bad one. */
  function ReadParts(texts: seq<string>, min: int, max: int): (r: Result<seq<Part>, FieldError>)
    ensures r.Success? ==> |r.value| == |texts| && AllInRange(r.value, min, max)
    ensures r.Success? ==> forall i | 0 <= i < |texts| :: ReadPart(texts[i], min, max) == Success(r.value[i])
  {
    if texts == [] then Success([]) else
    var p :- ReadPart(texts[0], min, max);
    var ps :- ReadParts(texts[1..], min, max);
    Success([p] + ps)
  }

  function ReadField(text: string, min: int, max: int): (r: Result<seq<Part>, FieldError>)
    ensures r.Success? ==> r.value != [] && AllInRange(r.value, min, max)
  {
    if text == "" then Failure(EmptyField) else ReadParts(Split(text, ','), min, max)
  }

  ghost function Union(parts: seq<Part>): (values: set<int>)
    ensures forall v | v in values :: 0 <= v < 64
  {
    if parts == [] then {} else Union(parts[..|parts| - 1]) + Values(parts[|parts| - 1])
  }

  predicate AnyStar(parts: seq<Part>) {
    exists i | 0 <= i < |parts| :: parts[i].star
  }

  lemma {:induction false} ReadPartsFailAt(texts: seq<string>, k: nat, min: int, max: int)
    requires k < |texts| && ReadPart(texts[k], min, max).Failure?
    requires forall i | 0 <= i < k :: ReadPart(texts[i], min, max).Success?
    ensures ReadParts(texts, min, max) == Failure(ReadPart(texts[k], min, max).error)
  {
    if k == 0 {
    } else {
      var ts := texts[1..];
      forall i | 0 <= i < k - 1
        ensures ReadPart(ts[i], min, max).Success?
      {
        assert ts[i] == texts[i + 1];
      }
      assert ts[k - 1] == texts[k];
      hide ReadPart;
      ReadPartsFailAt(ts, k - 1, min, max);
    }
  }

  lemma {:induction false} ReadPartsAll(texts: seq<string>, parts: seq<Part>, min: int, max: int)
    requires |texts| == |parts|
    requires forall i | 0 <= i < |texts| :: ReadPart(texts[i], min, max) == Success(parts[i])
    ensures ReadParts(texts, min, max) == Success(parts)
  {
    hide ReadPart, InRange;
    if texts == [] {
    } else {
      var ts, ps := texts[1..], parts[1..];
      forall i | 0 <= i < |ts|
        ensures ReadPart(ts[i], min, max) == Success(ps[i])
      {
        assert ts[i] == texts[i + 1] && ps[i] == parts[i + 1];
      }
      ReadPartsAll(ts, ps, min, max);
      assert parts == [parts[0]] + ps;
    }
  }

  // ---- parseField ----

  lemma Factor(d: int, a: int, b: int)
    requires d > 0 && d * a < d * b
    ensures a < b
  {
    assert d * (b - a) > 0;
  }

  /** After a multiple of d the next one is d further on. */
  lemma NextMultiple(x: int, d: int)
    requires d > 0 && Multiple(x, d)
    ensures Multiple(x + d, d)
    ensures forall y | x < y < x + d :: !Multiple(y, d)
  {
    var q := x / d;
    assert x == d * q;
    assert x + d == d * (q + 1);
    MultipleOf(d, q + 1);
    forall y | x < y < x + d
      ensures !Multiple(y, d)
    {
      BetweenMultiples(d, q, y);
    }
  }

  lemma BetweenMultiples(d: int, q: int, y: int)
    requires d > 0 && d * q < y < d * (q + 1)
    ensures !Multiple(y, d)
  {
    var r := y / d;
    if y == d * r {
      Factor(d, q, r);
      Factor(d, r, q + 1);
    }
  }

  lemma MultipleOf(d: int, q: int)
    requires d > 0
    ensures Multiple(d * q, d)
  {
    var r := d * q % d;
    var p := d * q / d;
    assert d * q == d * p + r;
    if r != 0 {
      assert d * (q - p) == r;
      Factor(d, 0, q - p);
      Factor(d, q - p, 1);
    }
  }

  // The inner loop runs in one of two ways. While step is far from 2^63 nothing wraps and v climbs
  // the progression. Otherwise, with e = 2^63 - step, v falls from u = lo by 2e at a time:
  // in phase 0 v is u itself, in phase 1 the wrapped value on the way to u - 2e, in phase 2 past the end.

  ghost predicate Climbing(base: set<int>, r: set<int>, p: Part, v: int)
    requires p.step >= 1
  {
    && p.lo <= v <= p.hi + p.step && Multiple(v - p.lo, p.step)
    && (forall w :: w in r <==> w in base || (w < v && InProgression(p, w)))
  }

  lemma ClimbStep(base: set<int>, r: set<int>, p: Part, v: int)
    requires 0 <= p.lo <= p.hi < 64 && 1 <= p.step < TWO63 - 128
    requires Climbing(base, r, p, v) && v <= p.hi
    ensures Climbing(base, r + OneShl(v), p, Wrap64(v + p.step))
  {
    hide Multiple;
    NextMultiple(v - p.lo, p.step);
    assert Wrap64(v + p.step) == v + p.step;
    assert v + p.step - p.lo == v - p.lo + p.step;
  }

  /** A step far from 2^63 sets the progression and nothing else. */
  lemma ValuesOfSmallStep(p: Part, w: int)
    requires 0 <= p.lo <= p.hi < 64 && 1 <= p.step < TWO63 - 128
    ensures w in Values(p) <==> InProgression(p, w)
  {
    if 0 <= w < p.lo {
      SmallRemainder(p.lo - w, 2 * (TWO63 - p.step));
    }
    hide Multiple;
  }

  lemma ClimbEnd(base: set<int>, r: set<int>, p: Part, v: int)
    requires 0 <= p.lo <= p.hi < 64 && 1 <= p.step < TWO63 - 128
    requires Climbing(base, r, p, v) && v > p.hi
    ensures r == base + Values(p)
  {
    forall w: int
      ensures w in Values(p) <==> InProgression(p, w)
    {
      ValuesOfSmallStep(p, w);
    }
    hide Multiple, Values;
    assert forall w :: w in r <==> w in base + Values(p);
  }

  ghost predicate Fallen(p: Part, w: int, from: int)
    requires p.step <= MAX_INT64
  {
    0 <= w <= p.lo && from <= w && Multiple(p.lo - w, 2 * (TWO63 - p.step))
  }

  ghost predicate Falling(base: set<int>, r: set<int>, p: Part, v: int, u: int, phase: int)
    requires p.step <= MAX_INT64
  {
    var e := TWO63 - p.step;
    && -2 * e <= u <= p.lo && Multiple(p.lo - u, 2 * e)
    && (|| (phase == 0 && v == u)
        || (phase == 1 && v == u - e - TWO63 && e <= u)
        || (phase == 2 && v > p.hi && u < e))
    && (forall w :: w in r <==> w in base || Fallen(p, w, if phase == 0 then u + 1 else u))
  }

  lemma FallFromLanding(base: set<int>, r: set<int>, p: Part, v: int)
    requires 0 <= p.lo <= p.hi < 64 && TWO63 - 128 <= p.step <= MAX_INT64
    requires Falling(base, r, p, v, v, 0) && v <= p.hi
    ensures Falling(base, r + OneShl(v), p, Wrap64(v + p.step), v, if v >= TWO63 - p.step then 1 else 2)
  {
    hide Multiple;
  }

  lemma FallToLanding(base: set<int>, r: set<int>, p: Part, v: int, u: int)
    requires 0 <= p.lo <= p.hi < 64 && TWO63 - 128 <= p.step <= MAX_INT64
    requires Falling(base, r, p, v, u, 1)
    ensures Falling(base, r + OneShl(v), p, Wrap64(v + p.step), u - 2 * (TWO63 - p.step), 0)
  {
    hide Multiple;
    var d := 2 * (TWO63 - p.step);
    NextMultiple(p.lo - u, d);
    assert p.lo - (u - d) == p.lo - u + d;
    assert Wrap64(v + p.step) == u - d;
  }

  lemma FallEnd(base: set<int>, r: set<int>, p: Part, v: int, u: int)
    requires 0 <= p.lo <= p.hi < 64 && TWO63 - 128 <= p.step <= MAX_INT64
    requires Falling(base, r, p, v, u, 2)
    ensures r == base + Values(p)
  {
    NextMultiple(p.lo - u, 2 * (TWO63 - p.step));
    MultipleOf(2 * (TWO63 - p.step), 0);
    MultipleOf(p.step, 0);
    forall w: int
      ensures InProgression(p, w) <==> w == p.lo
    {
      if p.lo < w <= p.hi {
        SmallRemainder(w - p.lo, p.step);
      }
    }
    hide Multiple;
    assert forall w :: w in r <==> w in base + Values(p);
  }

  /** The inner loop of parseField, with the 64-bit `v += step`. */
  method SetValues(mask: Mask, p: Part) returns (r: Mask)
    requires 0 <= p.lo <= p.hi < 64 && 1 <= p.step <= MAX_INT64
    ensures r == mask + Values(p)
  {
    r := mask;
    var v := p.lo;
    ghost var e, u, phase := TWO63 - p.step, p.lo, 0;
    MultipleOf(p.step, 0);
    MultipleOf(2 * e, 0);
    while v <= p.hi
      invariant if e > 128 then Climbing(mask, r, p, v) else Falling(mask, r, p, v, u, phase)
      decreases if e > 128 then p.hi + 1 - v else 4 * u - phase + 8 * e + 2
    {
      if e > 128 {
        ClimbStep(mask, r, p, v);
      } else if phase == 0 {
        FallFromLanding(mask, r, p, v);
        phase := if v >= e then 1 else 2;
      } else {
        FallToLanding(mask, r, p, v, u);
        u, phase := u - 2 * e, 0;
      }
      r := r + OneShl(v);
      v := Wrap64(v + p.step);
    }
    if e > 128 {
      ClimbEnd(mask, r, p, v);
    } else {
      FallEnd(mask, r, p, v, u);
    }
  }

  /** parseField: the mask is the union of what the comma parts set, the first bad part is the error. */
  method ParseField(field: string, min: int, max: int) returns (r: Result<(Mask, bool), FieldError>)
    requires 0 <= min <= max < 64
    ensures ReadField(field, min, max).Failure? ==> r == Failure(ReadField(field, min, max).error)
    ensures ReadField(field, min, max).Success? ==>
              var parts := ReadField(field, min, max).value;
              r.Success? && r.value.0 == Union(parts) && r.value.1 == AnyStar(parts)
  {
    hide ReadPart, Values, Split;
    if field == "" {
      return Failure(EmptyField);
    }
    var mask: Mask, star := {}, false;
    var texts := Split(field, ',');
    var parts: seq<Part> := [];
    for i := 0 to |texts|
      invariant |parts| == i
      invariant forall j | 0 <= j < i :: ReadPart(texts[j], min, max) == Success(parts[j])
      invariant mask == Union(parts) && star == AnyStar(parts)
      invariant i > 0 ==> mask != {}
    {
      var p := ReadPart(texts[i], min, max);
      if p.Failure? {
        ReadPartsFailAt(texts, i, min, max);
        return Failure(p.error);
      }
      if p.value.star {
        star := true;
      }
      mask := SetValues(mask, p.value);
      LowIsSet(p.value);
      assert (parts + [p.value])[..i] == parts;
      parts := parts + [p.value];
    }
    ReadPartsAll(texts, parts, min, max);
    if mask == {} {
      return Failure(NoValues);
    }
    return Success((mask, star));
  }

  lemma LowIsSet(p: Part)
    requires 0 <= p.lo <= p.hi < 64 && 1 <= p.step <= MAX_INT64
    ensures p.lo in Values(p)
  {
    MultipleOf(p.step, 0);
  }

  /** A field that parses holds a value of its range, nothing above it, and everything when starred. */
  lemma {:induction false} FieldMask(parts: seq<Part>, min: int, max: int)
    requires 0 <= min <= max < 64 && parts != [] && AllInRange(parts, min, max)
    ensures exists v :: min <= v <= max && v in Union(parts)
    ensures forall v | v in Union(parts) :: 0 <= v <= max
    ensures AnyStar(parts) ==> forall v | min <= v <= max :: v in Union(parts)
  {
    hide Values;
    var last := parts[|parts| - 1];
    PartMask(last, min, max);
    assert min <= last.lo <= max && last.lo in Union(parts);
    if |parts| == 1 {
    } else {
      FieldMask(parts[..|parts| - 1], min, max);
    }
  }

  lemma PartMask(p: Part, min: int, max: int)
    requires 0 <= min <= max < 64 && InRange(p, min, max)
    ensures min <= p.lo <= max && p.lo in Values(p)
    ensures forall v | v in Values(p) :: 0 <= v <= max
    ensures p.star ==> forall v | min <= v <= max :: v in Values(p)
  {
    LowIsSet(p);
  }

  lemma {:induction false} UnionMember(parts: seq<Part>, v: int)
    ensures v in Union(parts) <==> exists i | 0 <= i < |parts| :: v in Values(parts[i])
  {
    hide Values;
    if parts == [] {
    } else {
      var n := |parts| - 1;
      UnionMember(parts[..n], v);
      if v in Union(parts[..n]) {
        var i :| 0 <= i < n && v in Values(parts[..n][i]);
        assert v in Values(parts[i]);
      }
    }
  }

  lemma ZeroWrapped(p: Part, max: int)
    requires max < 64 && InRange(p, 1, max)
    ensures 0 in Values(p) <==> Multiple(p.lo, 2 * (TWO63 - p.step))
  {
    hide Multiple;
    assert p.lo - 0 == p.lo;
    assert Wrapped(p, 0) <==> Multiple(p.lo, 2 * (TWO63 - p.step));
  }

  /** No value below the field's minimum is set, exactly unless the minimum is 1 and the steps of
      some part lead back to 0 after wrapping around. */
  lemma FieldWithinRange(parts: seq<Part>, min: int, max: int)
    requires 0 <= min <= 1 && min <= max < 64 && AllInRange(parts, min, max)
    ensures (forall v | v in Union(parts) :: min <= v)
            <==> min == 0 || forall i | 0 <= i < |parts| :: !Multiple(parts[i].lo, 2 * (TWO63 - parts[i].step))
  {
    if min == 1 {
      UnionMember(parts, 0);
      forall i | 0 <= i < |parts|
        ensures 0 in Values(parts[i]) <==> Multiple(parts[i].lo, 2 * (TWO63 - parts[i].step))
      {
        ZeroWrapped(parts[i], max);
      }
    }
    hide Values, Multiple, Union;
  }
}

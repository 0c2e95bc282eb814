/** Slugs: src/server/service/profile_service.go. The profiles table's slugs are a finite set that
    does not change during a search, and `fails(k)` says whether the k-th query of it fails. */
module Slugs {
  import opened Wrappers
  import opened Text

  // ---- From a display name to a slug ----

  predicate IsSlugChar(c: char) {
    'a' <= c <= 'z' || '0' <= c <= '9' || c == '_' || c == '-'
  }

  /** `unicode.ToLower`, known for ASCII; `other` is its value elsewhere. */
  function Lower(c: char, other: char -> char): char {
    if 'A' <= c <= 'Z' then c + 32 as char else if c < '\U{80}' then c else other(c)
  }

  function ToLower(s: string, other: char -> char): string {
    seq(|s|, i requires 0 <= i < |s| => Lower(s[i], other))
  }

  /** The regular expression's removal of every run of other characters. */
  function KeepSlugChars(s: string): (r: string)
    ensures forall i | 0 <= i < |r| :: IsSlugChar(r[i])
  {
    if s == [] then [] else (if IsSlugChar(s[0]) then [s[0]] else []) + KeepSlugChars(s[1..])
  }

  /** The slug of a name before it is made unique: three passes. */
  function Base(name: string, other: char -> char): (slug: string)
    ensures forall i | 0 <= i < |slug| :: IsSlugChar(slug[i])
  {
    KeepSlugChars(ReplaceAll(ToLower(name, other), ' ', "-"))
  }

  /** What one character of a name contributes. */
  function SlugPiece(c: char, other: char -> char): string {
    var d := Lower(c, other);
    if d == ' ' then "-" else if IsSlugChar(d) then [d] else ""
  }

  /** The three passes work character by character. */
  lemma {:induction false} BaseByCharacter(name: string, other: char -> char)
    ensures Base(name, other) == if name == [] then [] else SlugPiece(name[0], other) + Base(name[1..], other)
  {
    if name == [] {
    } else {
      var low, rest := ToLower(name, other), ToLower(name[1..], other);
      assert low == [Lower(name[0], other)] + rest;
      assert low[1..] == rest;
      var x := ReplaceAll(low, ' ', "-");
      assert x[1..] == ReplaceAll(rest, ' ', "-");
    }
  }

  predicate IsSmall(c: char) {
    'a' <= c <= 'z' || '0' <= c <= '9' || c in "_-"
  }

  /** What an ASCII character of a name contributes: a capital its small letter, which is 32 code points on, a
      small letter, digit, underscore or hyphen itself, a blank a hyphen, and anything else nothing. Any other
      character counts as what it is in lower case. */
  lemma AsciiPieces(c: char, other: char -> char)
    ensures c < '\U{80}' ==>
              SlugPiece(c, other) == if 'A' <= c <= 'Z' then [(c as int + 32) as char]
                                     else if IsSmall(c) then [c] else if c == ' ' then "-" else ""
    ensures c >= '\U{80}' ==>
              SlugPiece(c, other) == if IsSmall(other(c)) then [other(c)] else if other(c) == ' ' then "-" else ""
  {}

  /** The same ASCII letter up to its case, or the same character. */
  predicate SameLetter(c: char, d: char) {
    || c == d
    || ('A' <= c <= 'Z' && d as int == c as int + 32)
    || ('A' <= d <= 'Z' && c as int == d as int + 32)
  }

  /** Names that differ in ASCII case only have the same slug. */
  lemma {:induction false} CaseDoesNotMatter(s: string, t: string, other: char -> char)
    requires |s| == |t| && forall i | 0 <= i < |s| :: SameLetter(s[i], t[i])
    ensures Base(s, other) == Base(t, other)
  {
    BaseByCharacter(s, other);
    BaseByCharacter(t, other);
    hide Base;
    if s == [] {
    } else {
      assert SameLetter(s[0], t[0]);
      forall i | 0 <= i < |s| - 1
        ensures SameLetter(s[1..][i], t[1..][i])
      {
        assert SameLetter(s[i + 1], t[i + 1]);
      }
      CaseDoesNotMatter(s[1..], t[1..], other);
    }
  }

  /** A name of small letters, digits, underscores and hyphens is its own slug. */
  lemma {:induction false} SlugsAreFixed(name: string, other: char -> char)
    requires forall i | 0 <= i < |name| :: IsSmall(name[i])
    ensures Base(name, other) == name
  {
    BaseByCharacter(name, other);
    hide Base;
    if name == [] {
    } else {
      assert IsSmall(name[0]);
      AsciiPieces(name[0], other);
      forall i | 0 <= i < |name| - 1
        ensures IsSmall(name[1..][i])
      {
        assert IsSmall(name[i + 1]);
      }
      SlugsAreFixed(name[1..], other);
    }
  }

  predicate IsValidSlug(slug: string) {
    && slug != []
    && (forall i | 0 <= i < |slug| :: IsSlugChar(slug[i]) || 'A' <= slug[i] <= 'Z')
    && 3 <= |slug| <= 100
  }

  // ---- The sequence of candidates ----

  /** stem, stem-1, stem-2, ... */
  function Candidate(stem: string, k: nat): string {
    if k == 0 then stem else stem + "-" + Itoa(k)
  }

  lemma CandidatesDiffer(stem: string, j: nat, k: nat)
    requires j != k
    ensures Candidate(stem, j) != Candidate(stem, k)
  {
    if j > 0 && k > 0 {
      assert Candidate(stem, j)[|stem| + 1..] == Itoa(j);
      assert Candidate(stem, k)[|stem| + 1..] == Itoa(k);
      assert Value(Itoa(j)) != Value(Itoa(k));
    }
  }

  lemma CandidateChars(stem: string, k: nat)
    requires forall i | 0 <= i < |stem| :: IsSlugChar(stem[i])
    ensures forall i | 0 <= i < |Candidate(stem, k)| :: IsSlugChar(Candidate(stem, k)[i])
  {}

  /** The first k candidates are taken, and their queries went through. */
  ghost predicate Exhausted(table: set<string>, fails: nat -> bool, stem: string, k: nat) {
    forall j: nat | j < k :: Candidate(stem, j) in table && !fails(j)
  }

  /** Distinct candidates cannot all be taken: a search looks at no more than |table| + 1 of them. */
  lemma {:induction false} Pigeonhole(table: set<string>, stem: string, k: nat)
    requires forall j: nat | j < k :: Candidate(stem, j) in table
    ensures k <= |table|
  {
    if k == 0 {
    } else {
      var last := Candidate(stem, k - 1);
      forall j: nat | j < k - 1
        ensures Candidate(stem, j) in table - {last}
      {
        CandidatesDiffer(stem, j, k - 1);
      }
      Pigeonhole(table - {last}, stem, k - 1);
    }
  }

  /** Where a search from candidate k on stops: at the first candidate that is free or whose query fails. */
  ghost function StopFrom(table: set<string>, fails: nat -> bool, stem: string, k: nat): (stop: nat)
    requires Exhausted(table, fails, stem, k)
    ensures k <= stop <= |table| && Exhausted(table, fails, stem, stop)
    ensures fails(stop) || Candidate(stem, stop) !in table
    decreases |table| + 1 - k
  {
    Pigeonhole(table, stem, k);
    if fails(k) || Candidate(stem, k) !in table then k else
    assert k < |table| by { Pigeonhole(table, stem, k + 1); }
    StopFrom(table, fails, stem, k + 1)
  }

  ghost function Stop(table: set<string>, fails: nat -> bool, stem: string): nat {
    StopFrom(table, fails, stem, 0)
  }

  /** There is only one such place. */
  lemma StopIsUnique(table: set<string>, fails: nat -> bool, stem: string, k: nat)
    requires Exhausted(table, fails, stem, k) && (fails(k) || Candidate(stem, k) !in table)
    ensures k == Stop(table, fails, stem)
  {}

  // ---- The two searches ----

  method GenerateSlug(displayName: string, other: char -> char, table: set<string>, fails: nat -> bool)
      returns (r: Result<string, nat>)
    ensures var base, stop := Base(displayName, other), Stop(table, fails, Base(displayName, other));
            r == if fails(stop) then Failure(stop) else Success(Candidate(base, stop))
    ensures r.Success? ==> r.value !in table && forall i | 0 <= i < |r.value| :: IsSlugChar(r.value[i])
  {
    var slug := Base(displayName, other);
    var originalSlug := slug;
    var counter := 1;
    while true
      invariant counter >= 1 && slug == Candidate(originalSlug, counter - 1)
      invariant Exhausted(table, fails, originalSlug, counter - 1)
      decreases |table| + 2 - counter
    {
      Pigeonhole(table, originalSlug, counter - 1);
      if fails(counter - 1) {
        StopIsUnique(table, fails, originalSlug, counter - 1);
        return Failure(counter - 1);
      }
      if slug !in table {
        break;
      }
      Pigeonhole(table, originalSlug, counter);
      slug := originalSlug + "-" + Itoa(counter);
      counter := counter + 1;
    }
    StopIsUnique(table, fails, originalSlug, counter - 1);
    CandidateChars(originalSlug, counter - 1);
    return Success(slug);
  }

  /** A failed query counts as "does not exist" here. */
  method GenerateUniqueSlug(baseSlug: string, table: set<string>, fails: nat -> bool) returns (slug: string)
    ensures slug == Candidate(baseSlug + "-copy", Stop(table, fails, baseSlug + "-copy"))
  {
    var stem := baseSlug + "-copy";
    var counter := 1;
    slug := stem;
    while true
      invariant counter >= 1 && slug == Candidate(stem, counter - 1)
      invariant Exhausted(table, fails, stem, counter - 1)
      decreases |table| + 2 - counter
    {
      Pigeonhole(table, stem, counter - 1);
      var taken := !fails(counter - 1) && slug in table;
      if !taken {
        break;
      }
      Pigeonhole(table, stem, counter);
      slug := stem + "-" + Itoa(counter);
      counter := counter + 1;
    }
    StopIsUnique(table, fails, stem, counter - 1);
  }

  /** The slug of a copy is taken exactly when some query fails before a free candidate was reached. */
  lemma CopyTaken(table: set<string>, fails: nat -> bool, stem: string)
    ensures Candidate(stem, Stop(table, fails, stem)) in table
            <==> exists k: nat :: fails(k) && forall j: nat | j <= k :: Candidate(stem, j) in table
    ensures Candidate(stem, Stop(table, fails, stem)) in table ==> fails(Stop(table, fails, stem))
  {
    var stop := Stop(table, fails, stem);
    if k: nat :| fails(k) && forall j: nat | j <= k :: Candidate(stem, j) in table {
      assert stop <= k;
    }
    if Candidate(stem, stop) in table {
      assert fails(stop) && forall j: nat | j <= stop :: Candidate(stem, j) in table;
    }
  }

  /** With every query failing, the only profile's copy gets the slug of an earlier copy. */
  lemma TakenCopy(baseSlug: string)
    ensures var stem := baseSlug + "-copy";
            Candidate(stem, Stop({stem}, _ => true, stem)) in {stem}
  {
    StopIsUnique({baseSlug + "-copy"}, _ => true, baseSlug + "-copy", 0);
  }

  /** A second copy is numbered. */
  lemma SecondCopy()
    ensures Candidate("base-copy", Stop({"base-copy"}, _ => false, "base-copy")) == "base-copy-1"
  {
    assert Itoa(1) == "1";
    assert Candidate("base-copy", 1) == "base-copy" + "-" + "1" == "base-copy-1";
    StopIsUnique({"base-copy"}, _ => false, "base-copy", 1);
  }

  /** isValidSlug takes capitals too: the ASCII case of a slug does not matter. */
  lemma CaseDoesNotInvalidate(s: string, t: string)
    requires |s| == |t| && (forall i | 0 <= i < |s| :: SameLetter(s[i], t[i])) && IsValidSlug(s)
    ensures IsValidSlug(t)
  {
    forall i | 0 <= i < |t|
      ensures IsSlugChar(t[i]) || 'A' <= t[i] <= 'Z'
    {
      assert SameLetter(s[i], t[i]);
    }
  }

  /** A generated slug passes isValidSlug exactly when it has 3 to 100 characters. */
  lemma GeneratedSlugValid(displayName: string, other: char -> char, k: nat)
    ensures var slug := Candidate(Base(displayName, other), k);
            IsValidSlug(slug) <==> 3 <= |slug| <= 100
  {
    CandidateChars(Base(displayName, other), k);
  }

  /** A name without any letter, digit, space, hyphen or underscore gives the empty slug. */
  lemma {:induction false} NothingLeft(name: string, other: char -> char)
    requires forall i | 0 <= i < |name| :: SlugPiece(name[i], other) == ""
    ensures Base(name, other) == "" && !IsValidSlug(Base(name, other))
  {
    BaseByCharacter(name, other);
    hide Base, SlugPiece;
    if name == [] {
    } else {
      NothingLeft(name[1..], other);
    }
  }
}

/** The string functions the source takes from Go's standard library:
    decimal printing and reading, `strings.Split`, `strings.Fields`, `strings.ReplaceAll`. */
module Text {
  import opened Wrappers

  // ---- Concatenation ----

  lemma Associate<T>(a: seq<T>, b: seq<T>, c: seq<T>)
    ensures a + b + c == a + (b + c)
  {}

  lemma Regroup<T>(a: seq<T>, b: seq<T>, c: seq<T>, d: seq<T>)
    ensures a + b + (c + d) == a + b + c + d == a + (b + c) + d
  {}

  // ---- Decimal numbers ----

  predicate IsDigit(c: char) {
    '0' <= c <= '9'
  }

  predicate AllDigits(s: string) {
    forall i | 0 <= i < |s| :: IsDigit(s[i])
  }

  function Digit(n: nat): (c: char)
    requires n < 10
  {
    '0' + n as char
  }

  function DigitValue(c: char): nat
    requires IsDigit(c)
  {
    c as int - '0' as int
  }

  /** The number a digit string stands for. */
  function Value(s: string): nat
    requires AllDigits(s)
  {
    if s == [] then 0 else 10 * Value(s[..|s| - 1]) + DigitValue(s[|s| - 1])
  }

  /** `%d` of a natural number. */
  function Itoa(n: nat): (s: string)
    ensures s != [] && AllDigits(s) && Value(s) == n
    ensures |s| > 1 ==> s[0] != '0'
  {
    if n < 10 then [Digit(n)] else
      var s := Itoa(n / 10);
      var t := s + [Digit(n % 10)];
      assert t[..|t| - 1] == s;
      t
  }

  /** A number below 10^k prints in at most k digits, any other number in more. */
  lemma {:induction false} ItoaLength(n: nat, k: nat)
    requires k > 0
    ensures |Itoa(n)| <= k <==> n < Pow10(k)
  {
    if n < 10 {
      assert Pow10(k) >= 10 * Pow10(k - 1) && Pow10(k - 1) >= 1;
    } else if k == 1 {
      assert Pow10(1) == 10 * Pow10(0);
    } else {
      ItoaLength(n / 10, k - 1);
    }
  }

  function Pow10(k: nat): (p: nat)
    ensures p >= 1
  {
    if k == 0 then 1 else 10 * Pow10(k - 1)
  }

  lemma {:induction false} LeadingZeros(k: nat, s: string)
    requires AllDigits(s)
    ensures AllDigits(Repeat('0', k) + s)
    ensures Value(Repeat('0', k) + s) == Value(s)
  {
    var t := Repeat('0', k) + s;
    if s == [] && k == 0 {
    } else if s == [] {
      LeadingZeros(k - 1, []);
      assert t[..|t| - 1] == Repeat('0', k - 1) + [];
    } else {
      LeadingZeros(k, s[..|s| - 1]);
      assert t[..|t| - 1] == Repeat('0', k) + s[..|s| - 1];
    }
  }

  function Repeat(c: char, k: nat): (s: string)
    ensures |s| == k && forall i | 0 <= i < k :: s[i] == c
  {
    if k == 0 then [] else Repeat(c, k - 1) + [c]
  }

  const MIN_INT64 := -0x8000_0000_0000_0000
  const MAX_INT64 := 0x7fff_ffff_ffff_ffff

  /** A mathematical integer as a 64-bit `int` holds it. */
  function Wrap64(x: int): int {
    (x - MIN_INT64) % 0x1_0000_0000_0000_0000 + MIN_INT64
  }

  /** `strconv.Atoi` on a 64-bit platform: an optional sign, then digits in range. */
  function Atoi(s: string): Option<int> {
    var digits := if s != [] && (s[0] == '+' || s[0] == '-') then s[1..] else s;
    if digits == [] || !AllDigits(digits) then None else
    var v := if s[0] == '-' then 0 - Value(digits) else Value(digits) as int;
    if MIN_INT64 <= v <= MAX_INT64 then Some(v) else None
  }

  lemma AtoiItoa(n: nat)
    ensures Atoi(Itoa(n)) == if n <= MAX_INT64 then Some(n) else None
  {
    var s := Itoa(n);
    assert IsDigit(s[0]);
  }

  lemma AtoiDigits(digits: string)
    requires digits != [] && AllDigits(digits)
    ensures Atoi(digits) == if Value(digits) <= MAX_INT64 then Some(Value(digits)) else None
  {
    hide Value;
    assert IsDigit(digits[0]);
  }

  lemma AtoiPlus(digits: string)
    requires digits != [] && AllDigits(digits)
    ensures Atoi("+" + digits) == if Value(digits) <= MAX_INT64 then Some(Value(digits)) else None
  {
    hide Value, AllDigits;
    assert ("+" + digits)[1..] == digits;
  }

  lemma AtoiMinus(digits: string)
    requires digits != [] && AllDigits(digits)
    ensures Atoi("-" + digits) == if MIN_INT64 + Value(digits) <= 0 then Some(0 - Value(digits) as int) else None
  {
    hide Value, AllDigits;
    assert ("-" + digits)[1..] == digits;
  }

  /** It reads an optional sign and any number of leading zeros. */
  lemma AtoiSigned(k: nat, n: nat)
    ensures var digits := Repeat('0', k) + Itoa(n);
            && Atoi(digits) == Atoi("+" + digits) == (if n <= MAX_INT64 then Some(n) else None)
            && Atoi("-" + digits) == (if MIN_INT64 + n <= 0 then Some(0 - n as int) else None)
  {
    var digits := Repeat('0', k) + Itoa(n);
    LeadingZeros(k, Itoa(n));
    hide Itoa, Repeat, Value, Atoi, AllDigits;
    AtoiDigits(digits);
    AtoiPlus(digits);
    AtoiMinus(digits);
  }

  /** Nothing else: a word that is not all digits after its sign is no number. */
  lemma AtoiOther(s: string, i: nat)
    requires i < |s| && !IsDigit(s[i]) && (i > 0 || s[0] !in "+-" || |s| == 1)
    ensures Atoi(s) == None
  {
    if s[0] in "+-" && |s| > 1 {
      assert s[1..][i - 1] == s[i];
    }
  }

  /** Decimal notation itself. */
  lemma KnownNumbers()
    ensures Itoa(0) == "0" && Itoa(7) == "7" && Itoa(2024) == "2024" && Itoa(65535) == "65535"
  {
    assert Itoa(20) == "20" && Itoa(202) == "202";
    assert Itoa(65) == "65" && Itoa(655) == "655" && Itoa(6553) == "6553";
  }

  // ---- Splitting ----

  /** The first position of `c` in `s`, or |s| when there is none. */
  function Find(s: string, c: char): (i: nat)
    ensures i <= |s| && c !in s[..i]
    ensures i < |s| ==> s[i] == c
  {
    if s == [] || s[0] == c then 0 else
      var i := 1 + Find(s[1..], c);
      assert s[..i] == [s[0]] + s[1..][..i - 1];
      i
  }

  lemma {:induction false} FindAfter(a: string, c: char, b: string)
    requires c !in a
    ensures Find(a + [c] + b, c) == |a|
    ensures Find(a, c) == |a|
  {
    if a == [] {
    } else {
      assert (a + [c] + b)[1..] == a[1..] + [c] + b;
      FindAfter(a[1..], c, b);
    }
  }

  /** `strings.Split` by a one-character separator. */
  function Split(s: string, c: char): (parts: seq<string>)
    ensures parts != [] && forall i | 0 <= i < |parts| :: c !in parts[i]
    decreases |s|
  {
    var i := Find(s, c);
    if i == |s| then assert s[..i] == s; [s] else [s[..i]] + Split(s[i + 1..], c)
  }

  function Join(parts: seq<string>, c: char): string
    requires parts != []
  {
    if |parts| == 1 then parts[0] else parts[0] + [c] + Join(parts[1..], c)
  }

  /** Splitting what was joined gives the parts back. */
  lemma {:induction false} SplitJoin(parts: seq<string>, c: char)
    requires parts != [] && forall i | 0 <= i < |parts| :: c !in parts[i]
    ensures Split(Join(parts, c), c) == parts
  {
    if |parts| == 1 {
      FindAfter(parts[0], c, []);
    } else {
      var rest := Join(parts[1..], c);
      var s := parts[0] + [c] + rest;
      FindAfter(parts[0], c, rest);
      assert s[..|parts[0]|] == parts[0];
      assert s[|parts[0]| + 1..] == rest;
      SplitJoin(parts[1..], c);
    }
  }

  /** Joining what was split gives the string back. */
  lemma {:induction false} JoinSplit(s: string, c: char)
    ensures Join(Split(s, c), c) == s
    decreases |s|
  {
    var i := Find(s, c);
    if i == |s| {
    } else {
      var rest := Split(s[i + 1..], c);
      assert Split(s, c) == [s[..i]] + rest;
      assert ([s[..i]] + rest)[1..] == rest;
      JoinSplit(s[i + 1..], c);
      assert Join([s[..i]] + rest, c) == s[..i] + [c] + s[i + 1..];
    }
  }

  /** `unicode.IsSpace`. */
  predicate IsSpace(c: char) {
    || c in {'\t', '\n', '\U{b}', '\U{c}', '\r', ' ', '\U{85}', '\U{a0}', '\U{1680}'}
    || '\U{2000}' <= c <= '\U{200a}'
    || c in {'\U{2028}', '\U{2029}', '\U{202f}', '\U{205f}', '\U{3000}'}
  }

  predicate IsWord(s: string) {
    s != [] && forall i | 0 <= i < |s| :: !IsSpace(s[i])
  }

  /** The length of the leading run of non-spaces. */
  function WordLength(s: string): (k: nat)
    ensures k <= |s| && forall i | 0 <= i < k :: !IsSpace(s[i])
    ensures k < |s| ==> IsSpace(s[k])
  {
    if s == [] || IsSpace(s[0]) then 0 else 1 + WordLength(s[1..])
  }

  /** `strings.Fields`: the maximal runs of non-spaces. */
  function Fields(s: string): (words: seq<string>)
    ensures forall i | 0 <= i < |words| :: IsWord(words[i])
    decreases |s|
  {
    if s == [] then []
    else if IsSpace(s[0]) then Fields(s[1..])
    else [s[..WordLength(s)]] + Fields(s[WordLength(s)..])
  }

  lemma {:induction false} FieldsJoin(words: seq<string>)
    requires words != [] && forall i | 0 <= i < |words| :: IsWord(words[i])
    ensures Fields(Join(words, ' ')) == words
  {
    var s := Join(words, ' ');
    var w := words[0];
    if |words| == 1 {
      assert WordLength(s) == |s|;
      assert s[..|s|] == s;
    } else {
      var rest := Join(words[1..], ' ');
      assert s == w + [' '] + rest;
      assert s[0] == w[0] && !IsSpace(w[0]);
      WordLengthOf(w, ' ', rest);
      assert s[..|w|] == w;
      assert s[|w|..] == [' '] + rest;
      assert ([' '] + rest)[1..] == rest;
      FieldsJoin(words[1..]);
    }
  }

  lemma {:induction false} WordLengthOf(w: string, c: char, rest: string)
    requires (forall i | 0 <= i < |w| :: !IsSpace(w[i])) && IsSpace(c)
    ensures WordLength(w + [c] + rest) == |w|
  {
    if w == [] {
    } else {
      assert (w + [c] + rest)[1..] == w[1..] + [c] + rest;
      WordLengthOf(w[1..], c, rest);
    }
  }

  /** In ASCII the spaces are the blank and the five control characters from tab to carriage return. */
  lemma AsciiSpaces(c: char)
    requires c < '\U{80}'
    ensures IsSpace(c) <==> c as int == 32 || 9 <= c as int <= 13
  {}

  predicate AllSpaces(s: string) {
    forall i | 0 <= i < |s| :: IsSpace(s[i])
  }

  /** Words with gaps before, between and after them. */
  function Spaced(gaps: seq<string>, words: seq<string>): string
    requires |gaps| == |words| + 1
  {
    if words == [] then gaps[0] else gaps[0] + (words[0] + Spaced(gaps[1..], words[1..]))
  }

  lemma {:induction false} FieldsSkip(gap: string, rest: string)
    requires AllSpaces(gap)
    ensures Fields(gap + rest) == Fields(rest)
  {
    if gap == [] {
      assert gap + rest == rest;
    } else {
      assert (gap + rest)[1..] == gap[1..] + rest;
      FieldsSkip(gap[1..], rest);
    }
  }

  lemma FieldsWord(w: string, rest: string)
    requires IsWord(w) && (rest == [] || IsSpace(rest[0]))
    ensures Fields(w + rest) == [w] + Fields(rest)
  {
    var s := w + rest;
    hide IsSpace;
    if rest == [] {
      assert s == w && WordLength(s) == |s|;
    } else {
      assert s == w + [rest[0]] + rest[1..];
      WordLengthOf(w, rest[0], rest[1..]);
    }
    assert s[0] == w[0] && s[..|w|] == w && s[|w|..] == rest;
  }

  /** Whatever the spaces are and however many: Fields finds the words that stand between them. */
  lemma {:induction false} FieldsSpaced(gaps: seq<string>, words: seq<string>)
    requires |gaps| == |words| + 1 && (forall i | 0 <= i < |gaps| :: AllSpaces(gaps[i]))
    requires forall i | 0 < i < |words| :: gaps[i] != []
    requires forall i | 0 <= i < |words| :: IsWord(words[i])
    ensures Fields(Spaced(gaps, words)) == words
  {
    hide Fields, IsSpace;
    if words == [] {
      FieldsSkip(gaps[0], []);
      assert gaps[0] + [] == gaps[0];
      NoFields();
    } else {
      var rest := Spaced(gaps[1..], words[1..]);
      FieldsSkip(gaps[0], words[0] + rest);
      assert rest == [] || IsSpace(rest[0]);
      FieldsWord(words[0], rest);
      FieldsSpaced(gaps[1..], words[1..]);
    }
  }

  lemma NoFields()
    ensures Fields([]) == []
  {}

  // ---- strings.ReplaceAll ----

  /** `strings.ReplaceAll` of a one-character string. */
  function ReplaceAll(s: string, from: char, to: string): string {
    if s == [] then [] else (if s[0] == from then to else [s[0]]) + ReplaceAll(s[1..], from, to)
  }

  lemma {:induction false} ReplaceAppend(a: string, b: string, from: char, to: string)
    ensures ReplaceAll(a + b, from, to) == ReplaceAll(a, from, to) + ReplaceAll(b, from, to)
  {
    if a == [] {
      assert a + b == b;
    } else {
      assert (a + b)[1..] == a[1..] + b;
      ReplaceAppend(a[1..], b, from, to);
    }
  }

  lemma {:induction false} ReplaceAbsent(s: string, from: char, to: string)
    requires from !in s
    ensures ReplaceAll(s, from, to) == s
  {
    if s == [] {
    } else {
      ReplaceAbsent(s[1..], from, to);
    }
  }

  lemma ReplaceOne(c: char, from: char, to: string)
    ensures ReplaceAll([c], from, to) == if c == from then to else [c]
  {
    assert [c][1..] == [];
    assert to + [] == to;
  }
}

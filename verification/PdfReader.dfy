/** A reader for PDF files of the kind src/server/service/pdf.go writes, after ISO 32000-1:
    literal strings (7.3.4.2), streams (7.3.8), the cross-reference table (7.5.4), the trailer
    (7.5.5) and content streams (7.8.2). A file is a string with one char for each byte. */
module PdfReader {
  import opened Wrappers
  import opened Text

  /** The bytes of `token` stand at `pos`. */
  predicate At(file: string, pos: nat, token: string) {
    pos + |token| <= |file| && file[pos..pos + |token|] == token
  }

  // ---- 7.3.4.2: literal strings ----

  predicate IsOctal(c: char) {
    '0' <= c <= '7'
  }

  /** The end of an escape's octal digits: at most three. */
  function OctalLength(s: string): (k: nat)
    requires s != [] && IsOctal(s[0])
    ensures 1 <= k <= |s|
  {
    if |s| < 2 || !IsOctal(s[1]) then 1 else if |s| < 3 || !IsOctal(s[2]) then 2 else 3
  }

  function OctalValue(s: string): nat
    requires forall i | 0 <= i < |s| :: IsOctal(s[i])
  {
    if s == [] then 0 else
    var last := s[|s| - 1];
    assert IsOctal(last);
    8 * OctalValue(s[..|s| - 1]) + DigitValue(last)
  }

  datatype Escape = Escape(text: string, length: nat)

  /** The characters an escape stands for, and how many characters follow its backslash. */
  function ReadEscape(s: string): (e: Escape)
    requires s != []
    ensures 1 <= e.length <= |s|
  {
    match s[0]
    case 'n' => Escape("\n", 1)
    case 'r' => Escape("\r", 1)
    case 't' => Escape("\t", 1)
    case 'b' => Escape(['\U{8}'], 1)
    case 'f' => Escape(['\U{c}'], 1)
    case '\n' => Escape("", 1)
    case '\r' => Escape("", if |s| > 1 && s[1] == '\n' then 2 else 1)
    case c =>
      if IsOctal(c) then
        var k := OctalLength(s);
        Escape([(OctalValue(s[..k]) % 256) as char], k)
      else Escape([c], 1)
  }

  datatype Literal = Literal(text: string, rest: string)

  /** Reads a literal string from after its opening parenthesis, `depth` parentheses being open. */
  function ReadLiteral(s: string, depth: nat): (r: Option<Literal>)
    requires depth > 0
    ensures r.Some? ==> |r.value.rest| < |s|
    decreases |s|
  {
    if s == [] then None
    else if s[0] == ')' && depth == 1 then Some(Literal("", s[1..]))
    else if s[0] == ')' then Prefixed(")", ReadLiteral(s[1..], depth - 1))
    else if s[0] == '(' then Prefixed("(", ReadLiteral(s[1..], depth + 1))
    else if s[0] == '\\' then
      if |s| == 1 then None else
      var e := ReadEscape(s[1..]);
      Prefixed(e.text, ReadLiteral(s[1 + e.length..], depth))
    else if s[0] == '\r' then
      Prefixed("\n", ReadLiteral(s[if |s| > 1 && s[1] == '\n' then 2 else 1..], depth))
    else Prefixed([s[0]], ReadLiteral(s[1..], depth))
  }

  function Prefixed(text: string, r: Option<Literal>): Option<Literal> {
    if r.None? then None else Some(Literal(text + r.value.text, r.value.rest))
  }

  // ---- 7.5.5: the end of the file ----

  const EOF_MARK := "\n%%EOF\n"
  const STARTXREF := "startxref\n"

  /** Where the maximal run of digits at the end of s begins. */
  function TrailingDigits(s: string): (k: nat)
    ensures k <= |s| && AllDigits(s[k..]) && (k > 0 ==> !IsDigit(s[k - 1]))
  {
    if s == [] || !IsDigit(s[|s| - 1]) then |s| else TrailingDigits(s[..|s| - 1])
  }

  /** The position of the cross-reference table. */
  function StartXref(file: string): Option<nat> {
    if |file| < |EOF_MARK| || !At(file, |file| - |EOF_MARK|, EOF_MARK) then None else
    var s := file[..|file| - |EOF_MARK|];
    var k := TrailingDigits(s);
    if k == |s| || k < |STARTXREF| || !At(s, k - |STARTXREF|, STARTXREF) then None else
    Some(Value(s[k..]))
  }

  // ---- 7.5.4: the cross-reference table ----

  datatype Entry = Entry(offset: nat, generation: nat, inUse: bool)

  /** An entry is 20 bytes: ten digits, a space, five digits, a space, n or f, and a two-byte end of line. */
  function ReadEntry(file: string, pos: nat): Option<Entry> {
    if pos + 20 > |file| then None else
    var e := file[pos..pos + 20];
    if AllDigits(e[..10]) && e[10] == ' ' && AllDigits(e[11..16]) && e[16] == ' ' && e[17] in "nf"
       && e[18..] in [" \n", " \r", "\r\n"]
    then Some(Entry(Value(e[..10]), Value(e[11..16]), e[17] == 'n'))
    else None
  }

  /** n consecutive entries from pos on. */
  function ReadEntries(file: string, pos: nat, n: nat): (r: Option<seq<Entry>>)
    ensures r.Some? ==> |r.value| == n
  {
    if n == 0 then Some([]) else
    var before := ReadEntries(file, pos, n - 1);
    if before.None? then None else
    var e := ReadEntry(file, pos + 20 * (n - 1));
    if e.None? then None else Some(before.value + [e.value])
  }

  /** The end of the run of digits that starts at pos. */
  function DigitsEnd(file: string, pos: nat): (end: nat)
    requires pos <= |file|
    ensures pos <= end <= |file| && AllDigits(file[pos..end])
    decreases |file| - pos
  {
    if pos < |file| && IsDigit(file[pos]) then
      var end := DigitsEnd(file, pos + 1);
      assert file[pos..end] == [file[pos]] + file[pos + 1..end];
      end
    else pos
  }

  const XREF := "xref\n0 "

  function ReadXref(file: string, pos: nat): Option<seq<Entry>> {
    if !At(file, pos, XREF) then None else
    var end := DigitsEnd(file, pos + |XREF|);
    if !At(file, end, "\n") then None else
    ReadEntries(file, end + 1, Value(file[pos + |XREF|..end]))
  }

  // ---- 7.3.8 and 7.3.10: objects ----

  datatype Object = Plain(text: string) | Stream(data: string)

  const OBJ := " 0 obj\n"
  const ENDOBJ := "\nendobj\n"
  const LENGTH := "<< /Length "
  const STREAM := " >>\nstream\n"
  const ENDSTREAM := "\nendstream\nendobj\n"

  /** The first position from pos on where an object ends. */
  function FindEndobj(file: string, pos: nat): (r: Option<nat>)
    ensures r.Some? ==> pos <= r.value <= |file|
    decreases |file| - pos
  {
    if pos >= |file| then None
    else if At(file, pos, ENDOBJ) then Some(pos)
    else FindEndobj(file, pos + 1)
  }

  function ReadBody(file: string, pos: nat): Option<Object> {
    if At(file, pos, LENGTH) then
      var start := pos + |LENGTH|;
      var end := DigitsEnd(file, start);
      var data := end + |STREAM|;
      var n := Value(file[start..end]);
      if At(file, end, STREAM) && data + n <= |file| && At(file, data + n, ENDSTREAM)
      then Some(Stream(file[data..data + n]))
      else None
    else
      var end := FindEndobj(file, pos);
      if end.None? then None else Some(Plain(file[pos..end.value]))
  }

  function ReadObject(file: string, pos: nat, number: nat): Option<Object> {
    var header := Itoa(number) + OBJ;
    if At(file, pos, header) then ReadBody(file, pos + |header|) else None
  }

  /** The objects 1..n of the table's in-use entries 1..n. */
  function ReadObjects(file: string, entries: seq<Entry>, n: nat): Option<seq<Object>>
    requires n < |entries|
  {
    if n == 0 then Some([]) else
    var before := ReadObjects(file, entries, n - 1);
    if before.None? || !entries[n].inUse then None else
    var o := ReadObject(file, entries[n].offset, n);
    if o.None? then None else Some(before.value + [o.value])
  }

  /** 7.5.2: the first line. */
  const VERSION := "%PDF-1."

  function ReadFile(file: string): Option<seq<Object>> {
    var pos := StartXref(file);
    if pos.None? || !At(file, 0, VERSION) then None else
    var entries := ReadXref(file, pos.value);
    if entries.None? || entries.value == [] then None else
    ReadObjects(file, entries.value, |entries.value| - 1)
  }

  // ---- 7.2.2 and 7.8.2: tokens, and the operators of a content stream ----

  predicate IsBlank(c: char) {
    c in {'\0', '\t', '\n', '\U{c}', '\r', ' '}
  }

  predicate IsDelimiter(c: char) {
    c in {'(', ')', '<', '>', '[', ']', '{', '}', '/', '%'}
  }

  predicate IsRegular(c: char) {
    !IsBlank(c) && !IsDelimiter(c)
  }

  predicate AllRegular(s: string) {
    forall i | 0 <= i < |s| :: IsRegular(s[i])
  }

  /** Symbols are the delimiters of arrays and dictionaries. */
  datatype Token = Word(text: string) | Name(text: string) | Text(text: string) | Symbol(text: string)

  /** The length of the leading run of regular characters. */
  function RegularRun(s: string): (k: nat)
    ensures k <= |s|
  {
    if s == [] || !IsRegular(s[0]) then 0 else 1 + RegularRun(s[1..])
  }

  function Then(t: Token, ts: Option<seq<Token>>): Option<seq<Token>> {
    if ts.None? then None else Some([t] + ts.value)
  }

  function ReadTokens(s: string): Option<seq<Token>>
    decreases |s|
  {
    if s == [] then Some([])
    else if IsBlank(s[0]) then ReadTokens(s[1..])
    else if s[0] == '(' then
      var r := ReadLiteral(s[1..], 1);
      if r.None? then None else Then(Text(r.value.text), ReadTokens(r.value.rest))
    else if s[0] == '/' then
      var k := RegularRun(s[1..]);
      Then(Name(s[1..][..k]), ReadTokens(s[1..][k..]))
    else if s[0] == '[' || s[0] == ']' then Then(Symbol([s[0]]), ReadTokens(s[1..]))
    else if |s| > 1 && (s[..2] == "<<" || s[..2] == ">>") then Then(Symbol(s[..2]), ReadTokens(s[2..]))
    else
      var k := RegularRun(s);
      if k == 0 then None else Then(Word(s[..k]), ReadTokens(s[k..]))
  }

  /** 7.3.3, without exponents or letters. */
  predicate IsNumeral(s: string) {
    forall i | 0 <= i < |s| :: IsDigit(s[i]) || s[i] in "+-."
  }

  /** Numbers, names and strings are operands, any other word is an operator. */
  predicate IsOperand(t: Token) {
    t.Word? ==> IsNumeral(t.text)
  }

  datatype Operation = Operation(operands: seq<Token>, operator: string)

  /** Each operator with the operands before it. */
  function Operators(ts: seq<Token>, pending: seq<Token>): seq<Operation>
    decreases |ts|
  {
    if ts == [] then []
    else if IsOperand(ts[0]) then Operators(ts[1..], pending + [ts[0]])
    else [Operation(pending, ts[0].text)] + Operators(ts[1..], [])
  }

  function ReadContent(content: string): Option<seq<Operation>> {
    var ts := ReadTokens(content);
    if ts.None? then None else Some(Operators(ts.value, []))
  }

  // ---- Facts about positions ----

  lemma AtFirst(file: string, pos: nat, token: string)
    requires token != []
    ensures At(file, pos, token) ==> pos < |file| && file[pos] == token[0]
  {
    assert pos + |token| <= |file| ==> file[pos..pos + |token|][0] == file[pos];
  }

  lemma AtInside(a: string, b: string, c: string)
    ensures At(a + b + c, |a|, b)
  {}

  lemma AtParts(file: string, pos: nat, a: string, b: string)
    requires At(file, pos, a + b)
    ensures At(file, pos, a) && At(file, pos + |a|, b)
  {
    assert file[pos..pos + |a|] == (a + b)[..|a|];
    assert file[pos + |a|..pos + |a| + |b|] == (a + b)[|a|..];
  }

  lemma AtSuffix(file: string, pos: nat, a: string, b: string, c: string)
    requires At(file, pos, a + b + c)
    ensures At(file, pos + |a|, b + c) && At(file, pos, a)
  {
    assert a + b + c == a + (b + c);
    AtParts(file, pos, a, b + c);
  }

  lemma {:induction false} DigitsEndAt(file: string, pos: nat, digits: string, c: char)
    requires At(file, pos, digits + [c]) && AllDigits(digits) && !IsDigit(c)
    ensures DigitsEnd(file, pos) == pos + |digits|
    ensures file[pos..pos + |digits|] == digits
    decreases |digits|
  {
    AtParts(file, pos, digits, [c]);
    if digits == [] {
      assert file[pos] == c;
    } else {
      assert digits + [c] == [digits[0]] + (digits[1..] + [c]);
      AtParts(file, pos, [digits[0]], digits[1..] + [c]);
      assert file[pos] == digits[0];
      DigitsEndAt(file, pos + 1, digits[1..], c);
    }
  }

  lemma {:induction false} TrailingDigitsAt(a: string, c: char, digits: string)
    requires AllDigits(digits) && !IsDigit(c)
    ensures TrailingDigits(a + [c] + digits) == |a| + 1
  {
    var s := a + [c] + digits;
    if digits == [] {
    } else {
      assert s[..|s| - 1] == a + [c] + digits[..|digits| - 1];
      TrailingDigitsAt(a, c, digits[..|digits| - 1]);
    }
  }

  lemma {:induction false} FindEndobjAt(file: string, pos: nat, text: string)
    requires At(file, pos, text + ENDOBJ) && '\n' !in text
    ensures FindEndobj(file, pos) == Some(pos + |text|)
    decreases |text|
  {
    AtParts(file, pos, text, ENDOBJ);
    if text == [] {
    } else {
      assert text + ENDOBJ == [text[0]] + (text[1..] + ENDOBJ);
      AtParts(file, pos, [text[0]], text[1..] + ENDOBJ);
      assert file[pos] == text[0] && text[0] in text;
      AtFirst(file, pos, ENDOBJ);
      hide At;
      FindEndobjAt(file, pos + 1, text[1..]);
    }
  }
}

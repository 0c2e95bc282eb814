/** The page content that src/server/service/pdf.go writes, and its text strings. Numbers arrive as the
    text Go's %.2f, %.3f and %.4f verbs print for them; strings have one char for each byte. */
module PdfContent {
  import opened Wrappers
  import opened Text
  import opened PdfReader

  /** What a floating-point verb can print, "+Inf" and "NaN" included. */
  predicate IsNumberText(s: string) {
    s != [] && forall i | 0 <= i < |s| :: IsDigit(s[i]) || s[i] in "+-.InfNa"
  }

  predicate Ascii(s: string) {
    forall i | 0 <= i < |s| :: s[i] < '\U{80}'
  }

  // ---- pdfEscapeString ----

  predicate IsPrintable(c: char) {
    '\U{20}' <= c < '\U{7f}'
  }

  /** From the blank to the tilde. */
  lemma PrintableRange(c: char)
    ensures IsPrintable(c) <==> ' ' <= c <= '~'
  {}

  function EscapedChar(c: char): string {
    if c == '\\' then "\\\\" else if c == '(' then "\\(" else if c == ')' then "\\)"
    else if IsPrintable(c) then [c] else ""
  }

  function Escaped(s: string): string {
    if s == [] then [] else Escaped(s[..|s| - 1]) + EscapedChar(s[|s| - 1])
  }

  /** The printable ASCII characters of s, in order. */
  function Printable(s: string): string {
    if s == [] then [] else Printable(s[..|s| - 1]) + if IsPrintable(s[|s| - 1]) then [s[|s| - 1]] else []
  }

  method PdfEscapeString(s: string) returns (b: string)
    ensures b == Escaped(s)
  {
    b := "";
    for i := 0 to |s|
      invariant b == Escaped(s[..i])
    {
      var r := s[i];
      assert s[..i + 1][..i] == s[..i];
      match r {
        case '\\' => b := b + "\\\\";
        case '(' => b := b + "\\(";
        case ')' => b := b + "\\)";
        case _ =>
          if r >= '\U{20}' && r < '\U{7f}' {
            b := b + [r];
          } else {
            assert b + "" == b;
          }
      }
    }
    assert s[..|s|] == s;
  }

  lemma ReadEscapedChar(c: char, rest: string)
    ensures ReadLiteral(EscapedChar(c) + rest, 1)
            == Prefixed(if IsPrintable(c) then [c] else [], ReadLiteral(rest, 1))
  {
    var s := EscapedChar(c) + rest;
    if c == '\\' || c == '(' || c == ')' {
      assert s == ['\\', c] + rest;
      assert s[1..] == [c] + rest;
      assert s[2..] == rest;
      assert ReadEscape(s[1..]) == Escape([c], 1);
    } else if IsPrintable(c) {
      assert s[1..] == rest;
    } else {
      assert s == rest;
      var r := ReadLiteral(rest, 1);
      assert r.Some? ==> [] + r.value.text == r.value.text;
    }
  }

  lemma EscapedLast(s: string)
    requires s != []
    ensures var init, c := s[..|s| - 1], s[|s| - 1];
            && Escaped(s) == Escaped(init) + EscapedChar(c)
            && Printable(s) == Printable(init) + if IsPrintable(c) then [c] else []
  {
    hide EscapedChar, IsPrintable;
  }

  lemma ReadNothing(rest: string)
    ensures ReadLiteral(Escaped([]) + rest, 1) == Prefixed(Printable([]), ReadLiteral(rest, 1))
  {
    hide ReadLiteral;
    var r := ReadLiteral(rest, 1);
    assert [] + rest == rest;
    assert r.Some? ==> [] + r.value.text == r.value.text;
  }

  /** A literal-string reader finds the closing parenthesis where it was put and reads exactly the
      printable characters. */
  lemma {:induction false} ReadEscaped(s: string, rest: string)
    ensures ReadLiteral(Escaped(s) + rest, 1) == Prefixed(Printable(s), ReadLiteral(rest, 1))
  {
    hide *;
    if s == [] {
      ReadNothing(rest);
    } else {
      var init, c := s[..|s| - 1], s[|s| - 1];
      EscapedLast(s);
      Associate(Escaped(init), EscapedChar(c), rest);
      ReadEscaped(init, EscapedChar(c) + rest);
      ReadEscapedChar(c, rest);
      PrefixedTwice(Printable(init), if IsPrintable(c) then [c] else [], ReadLiteral(rest, 1));
    }
  }

  lemma PrefixedTwice(a: string, b: string, r: Option<Literal>)
    ensures Prefixed(a, Prefixed(b, r)) == Prefixed(a + b, r)
  {
    if r.Some? {
      assert a + (b + r.value.text) == a + b + r.value.text;
    }
  }

  lemma ReadTextOperand(s: string, rest: string)
    ensures ReadLiteral(Escaped(s) + [')'] + rest, 1) == Some(Literal(Printable(s), rest))
  {
    assert Escaped(s) + [')'] + rest == Escaped(s) + ([')'] + rest);
    ReadEscaped(s, [')'] + rest);
    assert ([')'] + rest)[1..] == rest;
    assert Printable(s) + "" == Printable(s);
  }

  lemma {:induction false} EscapedAscii(s: string)
    ensures Ascii(Escaped(s))
  {
    if s == [] {
    } else {
      EscapedAscii(s[..|s| - 1]);
    }
  }

  /** Only the printable characters matter. */
  lemma {:induction false} EscapedPrintable(s: string)
    ensures Escaped(Printable(s)) == Escaped(s) && Printable(Printable(s)) == Printable(s)
  {
    if s == [] {
    } else {
      var init, c := s[..|s| - 1], s[|s| - 1];
      EscapedPrintable(init);
      if IsPrintable(c) {
        assert Printable(s)[..|Printable(s)| - 1] == Printable(init);
      } else {
        assert Printable(init) + [] == Printable(init);
        assert Escaped(s) == Escaped(init) + "" == Escaped(init);
      }
    }
  }

  // ---- What is drawn, as operations of a content stream ----

  datatype Drawing =
    | FillColor(r: string, g: string, b: string)
    | Rectangle(x: string, y: string, w: string, h: string)
    | TextLine(x: string, y: string, size: string, text: string)

  function Numbers(d: Drawing): seq<string> {
    match d
    case FillColor(r, g, b) => [r, g, b]
    case Rectangle(x, y, w, h) => [x, y, w, h]
    case TextLine(x, y, size, _) => [x, y, size]
  }

  ghost predicate Drawable(ds: seq<Drawing>) {
    forall i, x | 0 <= i < |ds| && x in Numbers(ds[i]) :: IsNumberText(x)
  }

  /** None of the numbers drawn with is an infinity or NaN. */
  ghost predicate Numeric(ds: seq<Drawing>) {
    forall i, x | 0 <= i < |ds| && x in Numbers(ds[i]) :: IsNumeral(x)
  }

  /** What a page description has to say for a drawing. */
  function Operations(d: Drawing): seq<Operation> {
    match d
    case FillColor(r, g, b) => [Operation([Word(r), Word(g), Word(b)], "rg")]
    case Rectangle(x, y, w, h) => [Operation([Word(x), Word(y), Word(w), Word(h)], "re"), Operation([], "f")]
    case TextLine(x, y, size, text) =>
      [Operation([], "BT"), Operation([Name("F1"), Word(size)], "Tf"), Operation([Word(x), Word(y)], "Td"),
       Operation([Token.Text(Printable(text))], "Tj"), Operation([], "ET")]
  }

  function AllOperations(ds: seq<Drawing>): seq<Operation> {
    if ds == [] then [] else AllOperations(ds[..|ds| - 1]) + Operations(ds[|ds| - 1])
  }

  // ---- How it is written: one line for each drawing ----

  /** Operands first, then the operator. */
  function Tokens(d: Drawing): (ts: seq<Token>)
    ensures ts != []
  {
    match d
    case FillColor(r, g, b) => [Word(r), Word(g), Word(b), Word("rg")]
    case Rectangle(x, y, w, h) => [Word(x), Word(y), Word(w), Word(h), Word("re"), Word("f")]
    case TextLine(x, y, size, text) =>
      [Word("BT"), Name("F1"), Word(size), Word("Tf"), Word(x), Word(y), Word("Td"),
       Token.Text(Printable(text)), Word("Tj"), Word("ET")]
  }

  function ShowToken(t: Token): string {
    match t
    case Word(w) => w
    case Name(n) => "/" + n
    case Text(s) => "(" + Escaped(s) + ")"
    case Symbol(x) => x
  }

  function ShowLine(ts: seq<Token>): string
    requires ts != []
  {
    if |ts| == 1 then ShowToken(ts[0]) + "\n" else ShowToken(ts[0]) + " " + ShowLine(ts[1..])
  }

  function Shown(ds: seq<Drawing>): string {
    if ds == [] then [] else Shown(ds[..|ds| - 1]) + ShowLine(Tokens(ds[|ds| - 1]))
  }

  function AllTokens(ds: seq<Drawing>): seq<Token> {
    if ds == [] then [] else AllTokens(ds[..|ds| - 1]) + Tokens(ds[|ds| - 1])
  }

  lemma ShownMore(ds: seq<Drawing>, d: Drawing)
    requires Drawable(ds) && forall x | x in Numbers(d) :: IsNumberText(x)
    ensures Shown(ds + [d]) == Shown(ds) + ShowLine(Tokens(d)) && Drawable(ds + [d])
  {
    hide ShowLine, Tokens, IsNumberText, Numbers;
    assert (ds + [d])[..|ds|] == ds;
  }

  lemma LineStep(t: Token, rest: seq<Token>)
    ensures ShowLine([t] + rest) == if rest == [] then ShowToken(t) + "\n" else ShowToken(t) + " " + ShowLine(rest)
  {
    hide ShowToken;
    assert ([t] + rest)[1..] == rest;
  }

  // ---- The three format strings ----

  /** A line goes out token by token. */
  lemma Put(content: string, t: Token, rest: seq<Token>)
    requires rest != []
    ensures content + ShowLine([t] + rest) == content + ShowToken(t) + " " + ShowLine(rest)
  {
    LineStep(t, rest);
    hide ShowLine, ShowToken;
  }

  lemma PutLast(content: string, t: Token)
    ensures content + ShowLine([t] + []) == content + ShowToken(t) + "\n"
  {
    LineStep(t, []);
    hide ShowLine, ShowToken;
  }

  /** A space and a word, and what follows, of one literal. */
  lemma Glue(content: string, word: string, after: string)
    ensures content + " " + word + after == content + (" " + word + after)
  {}

  lemma FillColorLine(content: string, r: string, g: string, b: string)
    ensures content + r + " " + g + " " + b + " rg\n" == content + ShowLine(Tokens(FillColor(r, g, b)))
  {
    assert Tokens(FillColor(r, g, b)) == [Word(r)] + ([Word(g)] + ([Word(b)] + ([Word("rg")] + [])));
    hide ShowLine, Tokens;
    var c1 := content + r + " ";
    var c2 := c1 + g + " ";
    Put(content, Word(r), [Word(g)] + ([Word(b)] + ([Word("rg")] + [])));
    Put(c1, Word(g), [Word(b)] + ([Word("rg")] + []));
    Put(c2, Word(b), [Word("rg")] + []);
    PutLast(c2 + b + " ", Word("rg"));
    Glue(c2 + b, "rg", "\n");
    assert " " + "rg" + "\n" == " rg\n";
  }

  lemma RectangleLine(content: string, x: string, y: string, w: string, h: string)
    ensures content + x + " " + y + " " + w + " " + h + " re f\n" == content + ShowLine(Tokens(Rectangle(x, y, w, h)))
  {
    var re := [Word("re")] + ([Word("f")] + []);
    assert Tokens(Rectangle(x, y, w, h)) == [Word(x)] + ([Word(y)] + ([Word(w)] + ([Word(h)] + re)));
    hide ShowLine, Tokens;
    var c1 := content + x + " ";
    var c2 := c1 + y + " ";
    var c3 := c2 + w + " ";
    Put(content, Word(x), [Word(y)] + ([Word(w)] + ([Word(h)] + re)));
    Put(c1, Word(y), [Word(w)] + ([Word(h)] + re));
    Put(c2, Word(w), [Word(h)] + re);
    Put(c3, Word(h), re);
    Put(c3 + h + " ", Word("re"), [Word("f")] + []);
    PutLast(c3 + h + " " + "re" + " ", Word("f"));
    Glue(c3 + h, "re", " ");
    Glue(c3 + h + " " + "re", "f", "\n");
    Literals(c3 + h);
  }

  lemma Literals(a: string)
    ensures a + " " + "re" + " " + "f" + "\n" == a + " re f\n"
  {}

  lemma TextTokens(x: string, y: string, size: string, text: string)
    ensures var show := [Token.Text(Printable(text))] + ([Word("Tj")] + ([Word("ET")] + []));
            var move := [Word(x)] + ([Word(y)] + ([Word("Td")] + show));
            Tokens(TextLine(x, y, size, text)) == [Word("BT")] + ([Name("F1")] + ([Word(size)] + ([Word("Tf")] + move)))
  {
    hide Printable;
  }

  lemma TextLineLine(content: string, x: string, y: string, size: string, text: string)
    ensures content + "BT /F1 " + size + " Tf " + x + " " + y + " Td (" + Escaped(text) + ") Tj ET\n"
            == content + ShowLine(Tokens(TextLine(x, y, size, text)))
  {
    EscapedPrintable(text);
    TextTokens(x, y, size, text);
    hide *;
    var p := Printable(text);
    var show := [Token.Text(p)] + ([Word("Tj")] + ([Word("ET")] + []));
    var start := content + "BT /F1 " + size + " Tf ";
    PutFont(content, size, [Word(x)] + ([Word(y)] + ([Word("Td")] + show)));
    PutMove(start, x, y, show);
    PutText(start + x + " " + y, p);
  }

  lemma PutFont(content: string, size: string, rest: seq<Token>)
    requires rest != []
    ensures content + ShowLine([Word("BT")] + ([Name("F1")] + ([Word(size)] + ([Word("Tf")] + rest))))
            == content + "BT /F1 " + size + " Tf " + ShowLine(rest)
  {
    hide ShowLine;
    var c1 := content + "BT" + " ";
    var c2 := c1 + "/F1" + " ";
    Put(content, Word("BT"), [Name("F1")] + ([Word(size)] + ([Word("Tf")] + rest)));
    Put(c1, Name("F1"), [Word(size)] + ([Word("Tf")] + rest));
    assert "/" + "F1" == "/F1";
    Put(c2, Word(size), [Word("Tf")] + rest);
    Put(c2 + size + " ", Word("Tf"), rest);
    assert c2 == content + "BT /F1 ";
    Glue(c2 + size, "Tf", " ");
    assert " " + "Tf" + " " == " Tf ";
  }

  lemma PutMove(content: string, x: string, y: string, rest: seq<Token>)
    requires rest != []
    ensures content + ShowLine([Word(x)] + ([Word(y)] + ([Word("Td")] + rest)))
            == content + x + " " + y + " " + "Td" + " " + ShowLine(rest)
  {
    hide ShowLine;
    var c1 := content + x + " ";
    Put(content, Word(x), [Word(y)] + ([Word("Td")] + rest));
    Put(c1, Word(y), [Word("Td")] + rest);
    Put(c1 + y + " ", Word("Td"), rest);
  }

  lemma PutText(content: string, p: string)
    ensures content + " " + "Td" + " " + ShowLine([Token.Text(p)] + ([Word("Tj")] + ([Word("ET")] + [])))
            == content + " Td (" + Escaped(p) + ") Tj ET\n"
  {
    hide ShowLine, Escaped;
    var c := content + " " + "Td" + " ";
    var c1 := c + ("(" + Escaped(p) + ")") + " ";
    Put(c, Token.Text(p), [Word("Tj")] + ([Word("ET")] + []));
    Put(c1, Word("Tj"), [Word("ET")] + []);
    PutLast(c1 + "Tj" + " ", Word("ET"));
    TextLiterals(content, Escaped(p));
  }

  lemma TextLiterals(content: string, e: string)
    ensures content + " " + "Td" + " " + ("(" + e + ")") + " " + "Tj" + " " + "ET" + "\n"
            == content + " Td (" + e + ") Tj ET\n"
  {}

  // ---- Reading a line back ----

  /** Tokens that read back as they are written. */
  predicate Writable(t: Token) {
    match t
    case Word(w) => w != [] && AllRegular(w)
    case Name(n) => AllRegular(n)
    case Text(s) => Printable(s) == s
    case Symbol(x) => x in {"[", "]", "<<", ">>"}
  }

  function ThenAll(ts: seq<Token>, more: Option<seq<Token>>): Option<seq<Token>> {
    if more.None? then None else Some(ts + more.value)
  }

  /** What follows a word or a name has to end it. */
  predicate Ends(rest: string) {
    rest == [] || !IsRegular(rest[0])
  }

  lemma {:induction false} RegularRunAt(w: string, rest: string)
    requires AllRegular(w) && Ends(rest)
    ensures RegularRun(w + rest) == |w|
  {
    hide IsRegular;
    if w == [] {
      assert w + rest == rest;
    } else {
      assert (w + rest)[1..] == w[1..] + rest;
      RegularRunAt(w[1..], rest);
    }
  }

  lemma ReadBlank(c: char, rest: string)
    requires IsBlank(c)
    ensures ReadTokens([c] + rest) == ReadTokens(rest)
  {
    hide ReadLiteral, RegularRun;
    assert ([c] + rest)[1..] == rest;
  }

  lemma ReadWord(w: string, rest: string)
    requires w != [] && AllRegular(w) && Ends(rest)
    ensures ReadTokens(w + rest) == Then(Word(w), ReadTokens(rest))
  {
    hide ReadLiteral, RegularRun;
    var s := w + rest;
    RegularRunAt(w, rest);
    assert s[0] == w[0] && IsRegular(w[0]);
    assert |s| > 1 ==> s[..2][0] == w[0];
    assert s[..|w|] == w && s[|w|..] == rest;
  }

  lemma ReadName(n: string, rest: string)
    requires AllRegular(n) && Ends(rest)
    ensures ReadTokens("/" + n + rest) == Then(Name(n), ReadTokens(rest))
  {
    hide ReadLiteral, RegularRun;
    var s := "/" + n + rest;
    RegularRunAt(n, rest);
    assert s[1..] == n + rest;
    assert s[1..][..|n|] == n && s[1..][|n|..] == rest;
  }

  lemma ReadParenthesis(body: string, text: string, rest: string)
    requires ReadLiteral(body, 1) == Some(Literal(text, rest))
    ensures ReadTokens(['('] + body) == Then(Token.Text(text), ReadTokens(rest))
  {
    hide ReadLiteral, RegularRun;
    assert (['('] + body)[1..] == body;
  }

  lemma ReadString(t: string, rest: string)
    requires Printable(t) == t
    ensures ReadTokens("(" + Escaped(t) + ")" + rest) == Then(Token.Text(t), ReadTokens(rest))
  {
    hide *;
    ReadTextOperand(t, rest);
    ReadParenthesis(Escaped(t) + [')'] + rest, t, rest);
    Parenthesised(Escaped(t), rest);
  }

  lemma Parenthesised(e: string, rest: string)
    ensures "(" + e + ")" + rest == ['('] + (e + [')'] + rest)
  {}

  lemma ReadSymbol(x: string, rest: string)
    requires x in {"[", "]", "<<", ">>"}
    ensures ReadTokens(x + rest) == Then(Symbol(x), ReadTokens(rest))
  {
    hide ReadLiteral, RegularRun;
    var s := x + rest;
    assert s[..|x|] == x && s[|x|..] == rest && s[0] == x[0];
  }

  /** A written token reads back, whatever follows it, if this ends a word. */
  lemma ReadTokenThen(t: Token, rest: string)
    requires Writable(t) && (t.Word? || t.Name? ==> Ends(rest))
    ensures ReadTokens(ShowToken(t) + rest) == Then(t, ReadTokens(rest))
  {
    hide ReadTokens, IsRegular, Escaped, Printable, Ends;
    match t
    case Word(w) => ReadWord(w, rest);
    case Name(n) => ReadName(n, rest);
    case Text(s) => ReadString(s, rest);
    case Symbol(x) => ReadSymbol(x, rest);
  }

  lemma ReadToken(t: Token, c: char, rest: string)
    requires Writable(t) && IsBlank(c)
    ensures ReadTokens(ShowToken(t) + [c] + rest) == Then(t, ReadTokens(rest))
  {
    hide ReadTokens, ShowToken, Writable;
    Associate(ShowToken(t), [c], rest);
    ReadTokenThen(t, [c] + rest);
    ReadBlank(c, rest);
  }

  /** A written line reads back token by token, whatever follows it. */
  lemma {:induction false} ReadLine(ts: seq<Token>, rest: string)
    requires ts != [] && forall i | 0 <= i < |ts| :: Writable(ts[i])
    ensures ReadTokens(ShowLine(ts) + rest) == ThenAll(ts, ReadTokens(rest))
  {
    hide ReadTokens, Writable, ShowToken;
    if |ts| == 1 {
      assert ShowLine(ts) == ShowToken(ts[0]) + ['\n'];
      ReadToken(ts[0], '\n', rest);
      assert ts == [ts[0]];
    } else {
      var line := ShowLine(ts[1..]);
      assert ShowLine(ts) == ShowToken(ts[0]) + [' '] + line;
      assert ShowToken(ts[0]) + [' '] + line + rest == ShowToken(ts[0]) + [' '] + (line + rest);
      ReadToken(ts[0], ' ', line + rest);
      ReadLine(ts[1..], rest);
      ThenThenAll(ts, ReadTokens(rest));
    }
  }

  lemma ThenThenAll(ts: seq<Token>, more: Option<seq<Token>>)
    requires ts != []
    ensures Then(ts[0], ThenAll(ts[1..], more)) == ThenAll(ts, more)
  {
    if more.Some? {
      assert [ts[0]] + (ts[1..] + more.value) == ts + more.value;
    }
  }

  lemma NumberWritable(s: string)
    requires IsNumberText(s)
    ensures Writable(Word(s))
  {}

  predicate IsLetter(c: char) {
    'A' <= c <= 'Z' || 'a' <= c <= 'z'
  }

  lemma LettersWritable(s: string)
    requires s != [] && forall i | 0 <= i < |s| :: IsLetter(s[i])
    ensures Writable(Word(s))
  {}

  lemma OperatorsWritable()
    ensures Writable(Word("rg")) && Writable(Word("re")) && Writable(Word("f")) && Writable(Word("BT"))
    ensures Writable(Word("Tf")) && Writable(Word("Td")) && Writable(Word("Tj")) && Writable(Word("ET"))
    ensures Writable(Name("F1"))
  {
    LettersWritable("rg");
    LettersWritable("re");
    LettersWritable("f");
    LettersWritable("BT");
    LettersWritable("Tf");
    LettersWritable("Td");
    LettersWritable("Tj");
    LettersWritable("ET");
    assert AllRegular("F1");
  }

  lemma DrawingWritable(d: Drawing)
    requires forall x | x in Numbers(d) :: IsNumberText(x)
    ensures forall t | t in Tokens(d) :: Writable(t)
  {
    forall x | x in Numbers(d)
      ensures Writable(Word(x))
    {
      NumberWritable(x);
    }
    OperatorsWritable();
    if d.TextLine? {
      EscapedPrintable(d.text);
    }
    hide IsNumberText, AllRegular, Printable, Escaped;
    forall t | t in Tokens(d)
      ensures Writable(t)
    {
      TokenKinds(d, t);
    }
  }

  lemma TokenKinds(d: Drawing, t: Token)
    requires t in Tokens(d)
    ensures || (t.Word? && (t.text in Numbers(d) || t.text in {"rg", "re", "f", "BT", "Tf", "Td", "Tj", "ET"}))
            || t == Name("F1") || (d.TextLine? && t == Token.Text(Printable(d.text)))
  {
    hide Printable;
  }

  lemma {:induction false} ReadShownTokens(ds: seq<Drawing>, rest: string)
    requires Drawable(ds)
    ensures ReadTokens(Shown(ds) + rest) == ThenAll(AllTokens(ds), ReadTokens(rest))
  {
    hide ReadTokens, IsNumberText, Numbers, Tokens, ShowLine, Writable;
    if ds == [] {
      assert [] + rest == rest;
      assert ReadTokens(rest).Some? ==> [] + ReadTokens(rest).value == ReadTokens(rest).value;
    } else {
      var init, d := ds[..|ds| - 1], ds[|ds| - 1];
      assert Shown(init) + ShowLine(Tokens(d)) + rest == Shown(init) + (ShowLine(Tokens(d)) + rest);
      ReadShownTokens(init, ShowLine(Tokens(d)) + rest);
      assert forall x | x in Numbers(d) :: IsNumberText(x);
      DrawingWritable(d);
      ReadLine(Tokens(d), rest);
      ThenAllTwice(AllTokens(init), Tokens(d), ReadTokens(rest));
    }
  }

  lemma ThenAllTwice(a: seq<Token>, b: seq<Token>, more: Option<seq<Token>>)
    ensures ThenAll(a, ThenAll(b, more)) == ThenAll(a + b, more)
  {
    if more.Some? {
      assert a + (b + more.value) == a + b + more.value;
    }
  }

  // ---- Reading the operations back ----

  function Flat(ops: seq<Operation>): seq<Token> {
    if ops == [] then [] else ops[0].operands + [Word(ops[0].operator)] + Flat(ops[1..])
  }

  lemma FlatStep(op: Operation, rest: seq<Operation>)
    ensures Flat([op] + rest) == op.operands + [Word(op.operator)] + Flat(rest)
  {
    assert ([op] + rest)[1..] == rest;
  }

  lemma {:induction false} FlatAppend(a: seq<Operation>, b: seq<Operation>)
    ensures Flat(a + b) == Flat(a) + Flat(b)
  {
    if a == [] {
      assert a + b == b;
    } else {
      assert a + b == [a[0]] + (a[1..] + b);
      FlatStep(a[0], a[1..] + b);
      FlatAppend(a[1..], b);
      Regroup(a[0].operands, [Word(a[0].operator)], Flat(a[1..]), Flat(b));
    }
  }

  lemma TokensAreOperations(d: Drawing)
    ensures Tokens(d) == Flat(Operations(d))
  {
    hide Printable;
    assert Flat([]) == [];
    match d
    case FillColor(r, g, b) =>
      FlatStep(Operations(d)[0], []);
      assert Operations(d) == [Operations(d)[0]] + [];
    case Rectangle(x, y, w, h) =>
      FlatStep(Operations(d)[1], []);
      FlatStep(Operations(d)[0], [Operations(d)[1]] + []);
      assert Operations(d) == [Operations(d)[0]] + ([Operations(d)[1]] + []);
    case TextLine(x, y, size, text) =>
      TextOperations(d);
  }

  lemma TextOperations(d: Drawing)
    requires d.TextLine?
    ensures Tokens(d) == Flat(Operations(d))
  {
    hide Flat, Printable;
    var ops := Operations(d);
    assert ops == [ops[0]] + ([ops[1]] + ([ops[2]] + ([ops[3]] + ([ops[4]] + []))));
    EmptyFlat();
    FlatStep(ops[4], []);
    FlatStep(ops[3], [ops[4]] + []);
    FlatStep(ops[2], [ops[3]] + ([ops[4]] + []));
    FlatStep(ops[1], [ops[2]] + ([ops[3]] + ([ops[4]] + [])));
    FlatStep(ops[0], [ops[1]] + ([ops[2]] + ([ops[3]] + ([ops[4]] + []))));
  }

  lemma EmptyFlat()
    ensures Flat([]) == []
  {}

  lemma {:induction false} AllTokensAreOperations(ds: seq<Drawing>)
    ensures AllTokens(ds) == Flat(AllOperations(ds))
  {
    hide Tokens, Operations, Flat;
    if ds == [] {
      EmptyFlat();
    } else {
      var init, d := ds[..|ds| - 1], ds[|ds| - 1];
      AllTokensAreOperations(init);
      TokensAreOperations(d);
      FlatAppend(AllOperations(init), Operations(d));
    }
  }

  /** The operands are numbers, names and strings. */
  predicate HasOperands(op: Operation) {
    forall i | 0 <= i < |op.operands| :: IsOperand(op.operands[i])
  }

  predicate HasOperator(op: Operation) {
    !IsOperand(Word(op.operator))
  }

  lemma {:induction false} ReadOperation(operands: seq<Token>, operator: string, rest: seq<Token>, pending: seq<Token>)
    requires (forall i | 0 <= i < |operands| :: IsOperand(operands[i])) && !IsOperand(Word(operator))
    ensures Operators(operands + [Word(operator)] + rest, pending)
            == [Operation(pending + operands, operator)] + Operators(rest, [])
    decreases |operands|
  {
    hide IsOperand;
    var ts := operands + [Word(operator)] + rest;
    if operands == [] {
      assert ts[1..] == rest && pending + [] == pending;
    } else {
      var t := operands[1..];
      assert ts[1..] == t + [Word(operator)] + rest;
      ReadOperation(t, operator, rest, pending + [operands[0]]);
      assert pending + [operands[0]] + t == pending + operands;
    }
  }

  lemma {:induction false} ReadFlat(ops: seq<Operation>)
    requires forall i | 0 <= i < |ops| :: HasOperands(ops[i]) && HasOperator(ops[i])
    ensures Operators(Flat(ops), []) == ops
  {
    hide IsOperand, Operators;
    if ops == [] {
      NoOperators();
    } else {
      var op := ops[0];
      assert HasOperands(op) && HasOperator(op);
      ReadOperation(op.operands, op.operator, Flat(ops[1..]), []);
      ReadFlat(ops[1..]);
      assert [] + op.operands == op.operands;
      assert ops == [op] + ops[1..];
    }
  }

  lemma NoOperators()
    ensures Operators([], []) == []
  {}

  /** How many tokens are read as operators. */
  function Verbs(ts: seq<Token>): nat {
    if ts == [] then 0 else (if IsOperand(ts[0]) then 0 else 1) + Verbs(ts[1..])
  }

  lemma {:induction false} OperatorsAreVerbs(ts: seq<Token>, pending: seq<Token>)
    ensures |Operators(ts, pending)| == Verbs(ts)
    decreases |ts|
  {
    hide IsOperand;
    if ts == [] {
    } else {
      OperatorsAreVerbs(ts[1..], if IsOperand(ts[0]) then pending + [ts[0]] else []);
    }
  }

  lemma {:induction false} VerbsAppend(a: seq<Token>, b: seq<Token>)
    ensures Verbs(a + b) == Verbs(a) + Verbs(b)
  {
    hide IsOperand;
    if a == [] {
      assert a + b == b;
    } else {
      assert (a + b)[1..] == a[1..] + b;
      VerbsAppend(a[1..], b);
    }
  }

  lemma {:induction false} NoVerbs(ts: seq<Token>)
    ensures Verbs(ts) == 0 <==> forall i | 0 <= i < |ts| :: IsOperand(ts[i])
  {
    hide IsOperand;
    if ts == [] {
    } else {
      NoVerbs(ts[1..]);
      assert ts == [ts[0]] + ts[1..];
    }
  }

  /** An operand that is not one is read as a further operator. */
  lemma {:induction false} VerbsFlat(ops: seq<Operation>)
    requires forall i | 0 <= i < |ops| :: HasOperator(ops[i])
    ensures Verbs(Flat(ops)) >= |ops|
    ensures Verbs(Flat(ops)) == |ops| ==> forall i | 0 <= i < |ops| :: HasOperands(ops[i])
  {
    hide IsOperand;
    if ops == [] {
    } else {
      var op := ops[0];
      assert HasOperator(op);
      VerbsFlat(ops[1..]);
      VerbsAppend(op.operands + [Word(op.operator)], Flat(ops[1..]));
      VerbsAppend(op.operands, [Word(op.operator)]);
      OneVerb(Word(op.operator));
      NoVerbs(op.operands);
      assert ops == [op] + ops[1..];
    }
  }

  lemma OneVerb(t: Token)
    ensures Verbs([t]) == if IsOperand(t) then 0 else 1
  {
    hide IsOperand;
    assert [t][1..] == [];
  }

  lemma OperatorsNamed(d: Drawing)
    ensures forall op | op in Operations(d) :: HasOperator(op)
    ensures (forall op | op in Operations(d) :: HasOperands(op)) <==> forall x | x in Numbers(d) :: IsNumeral(x)
  {
    hide IsNumeral, Printable;
    OperatorNames();
    NumeralOperations(d);
  }

  lemma LetterFirst(s: string)
    requires s != [] && IsLetter(s[0])
    ensures !IsNumeral(s)
  {}

  lemma OperatorNames()
    ensures !IsNumeral("rg") && !IsNumeral("re") && !IsNumeral("f") && !IsNumeral("BT") && !IsNumeral("Tf")
    ensures !IsNumeral("Td") && !IsNumeral("Tj") && !IsNumeral("ET")
  {
    LetterFirst("rg");
    LetterFirst("re");
    LetterFirst("f");
    LetterFirst("BT");
    LetterFirst("Tf");
    LetterFirst("Td");
    LetterFirst("Tj");
    LetterFirst("ET");
  }

  lemma NumeralOperations(d: Drawing)
    ensures (forall op | op in Operations(d) :: HasOperands(op)) <==> forall x | x in Numbers(d) :: IsNumeral(x)
  {
    match d
    case FillColor(r, g, b) =>
      WordOperands([Word(r), Word(g), Word(b)], [r, g, b]);
      hide IsNumeral, IsOperand;
      assert Operations(d)[0] in Operations(d);
    case Rectangle(x, y, w, h) =>
      WordOperands([Word(x), Word(y), Word(w), Word(h)], [x, y, w, h]);
      hide IsNumeral, IsOperand;
      assert Operations(d)[0] in Operations(d) && HasOperands(Operations(d)[1]);
    case TextLine(x, y, size, text) =>
      NumeralText(d);
  }

  lemma NumeralText(d: Drawing)
    requires d.TextLine?
    ensures (forall op | op in Operations(d) :: HasOperands(op)) <==> forall x | x in Numbers(d) :: IsNumeral(x)
  {
    hide IsNumeral, Printable;
    var ops := Operations(d);
    WordOperands([Word(d.x), Word(d.y)], [d.x, d.y]);
    assert ops[1] in ops && HasOperands(ops[1]) == IsNumeral(d.size) by {
      assert ops[1].operands == [Name("F1"), Word(d.size)] && ops[1].operands[1] == Word(d.size);
    }
    hide IsOperand;
    assert ops[2] in ops && HasOperands(ops[2]) == (IsNumeral(d.x) && IsNumeral(d.y));
    assert HasOperands(ops[0]) && HasOperands(ops[3]) && HasOperands(ops[4]);
  }

  lemma WordOperands(ts: seq<Token>, xs: seq<string>)
    requires |ts| == |xs| && forall i | 0 <= i < |ts| :: ts[i] == Word(xs[i])
    ensures (forall i | 0 <= i < |ts| :: IsOperand(ts[i])) <==> forall x | x in xs :: IsNumeral(x)
  {
    hide IsNumeral;
    assert forall i | 0 <= i < |ts| :: IsOperand(ts[i]) == IsNumeral(xs[i]);
  }

  lemma {:induction false} AllOperatorsNamed(ds: seq<Drawing>)
    ensures forall op | op in AllOperations(ds) :: HasOperator(op)
    ensures (forall op | op in AllOperations(ds) :: HasOperands(op)) <==> Numeric(ds)
  {
    hide HasOperator, HasOperands, Operations, Numbers, IsNumeral;
    if ds == [] {
    } else {
      AllOperatorsNamed(ds[..|ds| - 1]);
      OperatorsNamed(ds[|ds| - 1]);
    }
  }

  /** The content gives back everything drawn, texts as their printable characters, exactly when all numbers
      drawn with are numbers: an infinity or NaN prints a word, which reads as an operator. */
  lemma ReadDrawn(ds: seq<Drawing>)
    requires Drawable(ds)
    ensures ReadContent(Shown(ds)) == Some(AllOperations(ds)) <==> Numeric(ds)
  {
    var ops := AllOperations(ds);
    AllOperatorsNamed(ds);
    DrawnTokens(ds);
    hide *;
    assert forall i | 0 <= i < |ops| :: ops[i] in ops;
    if ReadContent(Shown(ds)) == Some(ops) {
      OperatorsAreVerbs(Flat(ops), []);
      VerbsFlat(ops);
    }
    if forall i | 0 <= i < |ops| :: HasOperands(ops[i]) {
      ReadFlat(ops);
    }
  }

  lemma DrawnTokens(ds: seq<Drawing>)
    requires Drawable(ds)
    ensures ReadContent(Shown(ds)) == Some(Operators(Flat(AllOperations(ds)), []))
  {
    ReadShownTokens(ds, "");
    AllTokensAreOperations(ds);
    assert ReadTokens("") == Some([]);
    hide ReadTokens, Operators, Flat, AllTokens;
    assert Shown(ds) + "" == Shown(ds);
    assert AllTokens(ds) + [] == AllTokens(ds);
  }

  /** Every byte written is ASCII, so a length in characters is a length in bytes. */
  lemma {:induction false} ShownAscii(ds: seq<Drawing>)
    requires Drawable(ds)
    ensures Ascii(Shown(ds))
  {
    if ds == [] {
    } else {
      var d := ds[|ds| - 1];
      ShownAscii(ds[..|ds| - 1]);
      assert forall x | x in Numbers(d) :: IsNumberText(x);
      hide Shown;
      LineAscii(d);
    }
  }

  lemma LineAscii(d: Drawing)
    requires forall x | x in Numbers(d) :: IsNumberText(x)
    ensures Ascii(ShowLine(Tokens(d)))
  {
    forall t | t in Tokens(d)
      ensures Ascii(ShowToken(t))
    {
      TokenAscii(d, t);
    }
    TokensAscii(Tokens(d));
  }

  lemma TokenAscii(d: Drawing, t: Token)
    requires (forall x | x in Numbers(d) :: IsNumberText(x)) && t in Tokens(d)
    ensures Ascii(ShowToken(t))
  {
    hide Escaped, Printable, Numbers, Tokens;
    TokenKinds(d, t);
    if t.Text? {
      EscapedAscii(t.text);
    }
  }

  lemma {:induction false} TokensAscii(ts: seq<Token>)
    requires ts != [] && forall t | t in ts :: Ascii(ShowToken(t))
    ensures Ascii(ShowLine(ts))
  {
    hide ShowToken;
    if |ts| == 1 {
    } else {
      TokensAscii(ts[1..]);
    }
  }
}

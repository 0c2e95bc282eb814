/** The PDF writer of src/server/service/pdf.go: documents and files. */
module PdfDoc {
  import opened Wrappers
  import opened Text
  import opened PdfReader
  import opened PdfContent

  // ---- The file as render lays it out ----

  const PAGE_TYPE := "<< /Type /Page /Parent 2 0 R"
  const PAGE_PREFIX := PAGE_TYPE + " /MediaBox [0 0 "
  const HEADER := "%PDF-1.4\n"
  const CATALOG := "<< /Type /Catalog /Pages 2 0 R >>"
  const PAGES_KIDS := "<< /Type /Pages /Kids [3 0 R]"
  const PAGES := PAGES_KIDS + " /Count 1 >>"
  const PAGE_SUFFIX := " /Contents 4 0 R /Resources "
  const PAGE_FONTS := "<< /Font << /F1 5 0 R >> >> >>"
  const FONT_TYPE := "<< /Type /Font /Subtype /Type1"
  const FONT := FONT_TYPE + " /BaseFont /Helvetica >>"

  function PageObject(width: string, height: string): string {
    PAGE_PREFIX + width + " " + height + "]" + PAGE_SUFFIX + PAGE_FONTS
  }

  function ContentObject(content: string): string {
    LENGTH + Itoa(|content|) + STREAM + content + "\nendstream"
  }

  function Objects(width: string, height: string, content: string): (objs: seq<string>)
    ensures |objs| == 5
  {
    [CATALOG, PAGES, PageObject(width, height), ContentObject(content), FONT]
  }

  function ObjectText(number: nat, body: string): string {
    Itoa(number) + OBJ + body + ENDOBJ
  }

  /** The file up to and including object n. */
  function Body(objs: seq<string>, n: nat): string
    requires n <= |objs|
  {
    if n == 0 then HEADER else Body(objs, n - 1) + ObjectText(n, objs[n - 1])
  }

  /** Where object n starts. */
  function Offset(objs: seq<string>, n: nat): nat
    requires 1 <= n <= |objs|
  {
    |Body(objs, n - 1)|
  }

  /** `%010d` */
  function Padded(n: nat): string {
    var s := Itoa(n);
    if |s| < 10 then Repeat('0', 10 - |s|) + s else s
  }

  function EntryText(offset: nat): string {
    Padded(offset) + " 00000 n \n"
  }

  const FREE_ENTRY := "0000000000 65535 f \n"

  function Table(objs: seq<string>, n: nat): string
    requires n <= |objs|
  {
    if n == 0 then FREE_ENTRY else Table(objs, n - 1) + EntryText(Offset(objs, n))
  }

  function TrailerDictionary(count: nat): string {
    "trailer\n<< /Size " + Itoa(count) + " /Root 1 0 R >>\n"
  }

  function Trailer(count: nat, pos: nat): string {
    TrailerDictionary(count) + STARTXREF + Itoa(pos) + EOF_MARK
  }

  /** The head of the only table section, from object 0 on. */
  function Section(count: nat): string {
    XREF + Itoa(count) + "\n"
  }

  function Rendered(objs: seq<string>): string {
    var n := |objs|;
    Body(objs, n) + Section(n + 1) + Table(objs, n) + Trailer(n + 1, |Body(objs, n)|)
  }

  class PdfDoc {
    const width: string
    const height: string
    var content: string
    /** What was drawn, in order. */
    ghost var drawn: seq<Drawing>

    ghost predicate Valid()
      reads this
    {
      && IsNumberText(width) && IsNumberText(height)
      && Drawable(drawn) && content == Shown(drawn)
    }

    constructor (width: string, height: string)
      requires IsNumberText(width) && IsNumberText(height)
      ensures Valid() && this.width == width && this.height == height && drawn == []
    {
      this.width, this.height, content, drawn := width, height, "", [];
    }

    method SetFillColor(r: string, g: string, b: string)
      requires Valid() && IsNumberText(r) && IsNumberText(g) && IsNumberText(b)
      modifies this
      ensures Valid() && drawn == old(drawn) + [FillColor(r, g, b)]
    {
      ShownMore(drawn, FillColor(r, g, b));
      FillColorLine(content, r, g, b);
      content := content + r + " " + g + " " + b + " rg\n";
      drawn := drawn + [FillColor(r, g, b)];
    }

    method FillRect(x: string, y: string, w: string, h: string)
      requires Valid() && IsNumberText(x) && IsNumberText(y) && IsNumberText(w) && IsNumberText(h)
      modifies this
      ensures Valid() && drawn == old(drawn) + [Rectangle(x, y, w, h)]
    {
      ShownMore(drawn, Rectangle(x, y, w, h));
      RectangleLine(content, x, y, w, h);
      content := content + x + " " + y + " " + w + " " + h + " re f\n";
      drawn := drawn + [Rectangle(x, y, w, h)];
    }

    method Text(x: string, y: string, size: string, s: string)
      requires Valid() && IsNumberText(x) && IsNumberText(y) && IsNumberText(size)
      modifies this
      ensures Valid() && drawn == old(drawn) + [TextLine(x, y, size, s)]
    {
      ShownMore(drawn, TextLine(x, y, size, s));
      TextLineLine(content, x, y, size, s);
      var e := PdfEscapeString(s);
      content := content + "BT /F1 " + size + " Tf " + x + " " + y + " Td (" + e + ") Tj ET\n";
      drawn := drawn + [TextLine(x, y, size, s)];
    }

    method Render() returns (buf: string)
      ensures buf == Rendered(Objects(width, height, content))
    {
      var objs := Objects(width, height, content);
      hide Objects, Itoa, Padded;
      buf := HEADER;
      var offsets := new nat[|objs| + 1](_ => 0);
      for i := 0 to |objs|
        invariant buf == Body(objs, i)
        invariant forall k | 1 <= k <= i :: offsets[k] == Offset(objs, k)
      {
        offsets[i + 1] := |buf|;
        buf := buf + (Itoa(i + 1) + OBJ + objs[i] + ENDOBJ);
      }
      var xrefPos := |buf|;
      var count := |objs| + 1;
      buf := buf + (XREF + Itoa(count) + "\n");
      ghost var before := buf;
      buf := buf + FREE_ENTRY;
      for i := 1 to count
        invariant forall k | 1 <= k <= |objs| :: offsets[k] == Offset(objs, k)
        invariant buf == before + Table(objs, i - 1)
      {
        Associate(before, Table(objs, i - 1), EntryText(offsets[i]));
        buf := buf + (Padded(offsets[i]) + " 00000 n \n");
      }
      buf := buf + ("trailer\n<< /Size " + Itoa(count) + " /Root 1 0 R >>\n" + STARTXREF + Itoa(xrefPos) + EOF_MARK);
    }
  }

  // ---- Reading it back ----

  /** What a reader should find: the five objects of the document. */
  function Contents(width: string, height: string, content: string): seq<Object> {
    [Plain(CATALOG), Plain(PAGES), Plain(PageObject(width, height)), Stream(content), Plain(FONT)]
  }

  /** Object n stands at its offset, whatever follows it. */
  lemma {:induction false} ObjectAt(objs: seq<string>, n: nat, m: nat, rest: string)
    requires 1 <= n <= m <= |objs|
    ensures At(Body(objs, m) + rest, Offset(objs, n), ObjectText(n, objs[n - 1]))
    decreases m
  {
    hide ObjectText, At;
    var last := ObjectText(m, objs[m - 1]);
    if n == m {
      AtInside(Body(objs, m - 1), last, rest);
    } else {
      Associate(Body(objs, m - 1), last, rest);
      ObjectAt(objs, n, m - 1, last + rest);
    }
  }

  /** Later objects start further on. */
  lemma {:induction false} OffsetsIncrease(objs: seq<string>, n: nat, m: nat)
    requires 1 <= n < m <= |objs|
    ensures Offset(objs, n) < Offset(objs, m)
  {
    if n == m - 1 {
    } else {
      OffsetsIncrease(objs, n, m - 1);
    }
  }

  /** One line that does not start like a stream's dictionary. */
  predicate IsPlain(text: string) {
    '\n' !in text && |text| >= |LENGTH| && text[..|LENGTH|] != LENGTH
  }

  /** An object reads back from its text as what it was made from. */
  lemma ReadPlain(file: string, pos: nat, number: nat, text: string)
    requires At(file, pos, ObjectText(number, text)) && IsPlain(text)
    ensures ReadObject(file, pos, number) == Some(Plain(text))
  {
    hide At, FindEndobj, Itoa;
    var header := Itoa(number) + OBJ;
    AtSuffix(file, pos, header, text, ENDOBJ);
    AtParts(file, pos + |header|, text, ENDOBJ);
    FindEndobjAt(file, pos + |header|, text);
    NotAt(file, pos + |header|, text, LENGTH);
  }

  lemma NotAt(file: string, pos: nat, text: string, token: string)
    requires At(file, pos, text) && |text| >= |token| && text[..|token|] != token
    ensures !At(file, pos, token) && file[pos..pos + |text|] == text
  {
    assert file[pos..pos + |token|] == file[pos..pos + |text|][..|token|];
  }

  lemma ReadStream(file: string, pos: nat, number: nat, content: string)
    requires At(file, pos, ObjectText(number, ContentObject(content)))
    ensures ReadObject(file, pos, number) == Some(Stream(content))
  {
    hide *;
    var digits := Itoa(|content|);
    var a := pos + |Itoa(number) + OBJ|;
    var b := a + |LENGTH|;
    var d := b + |digits| + |STREAM|;
    StreamParts(file, pos, number, content);
    StreamIsNoDigit();
    DigitsBefore(file, b, digits, STREAM);
    AtText(file, d, content);
    StreamBody(file, a, content);
    HeaderThenBody(file, pos, number);
  }

  lemma StreamIsNoDigit()
    ensures STREAM != [] && !IsDigit(STREAM[0])
  {}

  lemma HeaderThenBody(file: string, pos: nat, number: nat)
    requires At(file, pos, Itoa(number) + OBJ)
    ensures ReadObject(file, pos, number) == ReadBody(file, pos + |Itoa(number) + OBJ|)
  {}

  /** With these parts in place the stream is read. */
  lemma ReadBodyAt(file: string, a: nat, end: nat, n: nat)
    requires At(file, a, LENGTH) && a + |LENGTH| <= end <= |file| && DigitsEnd(file, a + |LENGTH|) == end
    requires AllDigits(file[a + |LENGTH|..end]) && Value(file[a + |LENGTH|..end]) == n
    requires At(file, end, STREAM) && end + |STREAM| + n <= |file| && At(file, end + |STREAM| + n, ENDSTREAM)
    ensures ReadBody(file, a) == Some(Stream(file[end + |STREAM|..end + |STREAM| + n]))
  {
    hide At, DigitsEnd, FindEndobj, Value, AllDigits;
  }

  lemma ItoaValue(n: nat)
    ensures AllDigits(Itoa(n)) && Value(Itoa(n)) == n
  {
    hide Itoa, Value, AllDigits;
  }

  lemma StreamBody(file: string, a: nat, content: string)
    requires At(file, a, LENGTH)
    requires DigitsEnd(file, a + |LENGTH|) == a + |LENGTH| + |Itoa(|content|)|
    requires file[a + |LENGTH|..a + |LENGTH| + |Itoa(|content|)|] == Itoa(|content|)
    requires At(file, a + |LENGTH| + |Itoa(|content|)|, STREAM)
    requires At(file, a + |LENGTH| + |Itoa(|content|)| + |STREAM|, content)
    requires At(file, a + |LENGTH| + |Itoa(|content|)| + |STREAM| + |content|, ENDSTREAM)
    ensures ReadBody(file, a) == Some(Stream(content))
  {
    hide *;
    var end := a + |LENGTH| + |Itoa(|content|)|;
    ItoaValue(|content|);
    AtText(file, end + |STREAM|, content);
    ReadBodyAt(file, a, end, |content|);
  }

  lemma StreamParts(file: string, pos: nat, number: nat, content: string)
    requires At(file, pos, ObjectText(number, ContentObject(content)))
    ensures var a := pos + |Itoa(number) + OBJ|;
            var b := a + |LENGTH|;
            var c := b + |Itoa(|content|)|;
            var d := c + |STREAM|;
            && At(file, pos, Itoa(number) + OBJ) && At(file, a, LENGTH) && At(file, b, Itoa(|content|))
            && At(file, c, STREAM) && At(file, d, content) && At(file, d + |content|, ENDSTREAM)
  {
    hide At, Itoa;
    assert ENDSTREAM == "\nendstream" + ENDOBJ;
    AtSixParts(file, pos, Itoa(number) + OBJ, LENGTH, Itoa(|content|), STREAM, content, "\nendstream", ENDOBJ);
  }

  lemma AtSixParts(file: string, pos: nat, a: string, b: string, c: string, d: string, e: string, f: string, g: string)
    requires At(file, pos, a + (b + c + d + e + f) + g)
    ensures At(file, pos, a) && At(file, pos + |a|, b) && At(file, pos + |a| + |b|, c)
    ensures At(file, pos + |a| + |b| + |c|, d) && At(file, pos + |a| + |b| + |c| + |d|, e)
    ensures At(file, pos + |a| + |b| + |c| + |d| + |e|, f + g)
  {
    hide At;
    assert a + (b + c + d + e + f) + g == a + (b + (c + (d + (e + (f + g)))));
    AtParts(file, pos, a, b + (c + (d + (e + (f + g)))));
    AtParts(file, pos + |a|, b, c + (d + (e + (f + g))));
    AtParts(file, pos + |a| + |b|, c, d + (e + (f + g)));
    AtParts(file, pos + |a| + |b| + |c|, d, e + (f + g));
    AtParts(file, pos + |a| + |b| + |c| + |d|, e, f + g);
  }

  lemma AtText(file: string, pos: nat, text: string)
    requires At(file, pos, text)
    ensures pos + |text| <= |file| && file[pos..pos + |text|] == text
  {}

  lemma DigitsBefore(file: string, pos: nat, digits: string, next: string)
    requires At(file, pos, digits) && At(file, pos + |digits|, next) && AllDigits(digits)
    requires next != [] && !IsDigit(next[0])
    ensures DigitsEnd(file, pos) == pos + |digits| && file[pos..pos + |digits|] == digits
  {
    AtFirst(file, pos + |digits|, next);
    assert file[pos..pos + |digits| + 1] == digits + [next[0]];
    DigitsEndAt(file, pos, digits, next[0]);
  }

  // ---- The table ----

  const LIMIT := 10_000_000_000

  lemma PaddedDigits(n: nat)
    ensures AllDigits(Padded(n)) && Value(Padded(n)) == n
    ensures if n < LIMIT then |Padded(n)| == 10 else |Padded(n)| > 10
  {
    ItoaLength(n, 10);
    TenDigits();
    hide Itoa, Repeat, Value, Pow10;
    if |Itoa(n)| < 10 {
      LeadingZeros(10 - |Itoa(n)|, Itoa(n));
    }
  }

  lemma TenDigits()
    ensures Pow10(10) == LIMIT
  {
    assert Pow10(5) == 100_000;
    assert Pow10(10) == 100_000 * Pow10(5);
  }

  lemma EntryParts(p: string)
    ensures var t := p + " 00000 n \n";
            && |t| == |p| + 10
            && (|p| == 10 ==> t[..10] == p && t[10] == ' ' && t[11..16] == "00000" && t[16] == ' ' && t[17] == 'n'
                              && t[18..] == " \n")
            && (|p| > 10 ==> t[10] == p[10])
  {}

  lemma EntrySlice(file: string, pos: nat, t: string)
    requires At(file, pos, t) && |t| >= 20 && pos + 20 <= |file|
    ensures |t| == 20 ==> file[pos..pos + 20] == t
    ensures file[pos..pos + 20][10] == t[10]
  {
    AtText(file, pos, t);
    hide At;
    assert file[pos..pos + |t|][10] == t[10];
  }

  lemma NotADigitSpace(p: string)
    requires AllDigits(p) && |p| > 10
    ensures p[10] != ' '
  {}

  /** A table entry takes 20 bytes and reads back when the offset has at most ten digits, and only then. */
  lemma ReadEntryText(file: string, pos: nat, offset: nat)
    requires At(file, pos, EntryText(offset))
    ensures ReadEntry(file, pos) == if offset < LIMIT then Some(Entry(offset, 0, true)) else None
    ensures offset < LIMIT ==> |EntryText(offset)| == 20
  {
    var p, t := Padded(offset), EntryText(offset);
    PaddedDigits(offset);
    FiveZeros();
    EntryParts(p);
    AtText(file, pos, t);
    EntrySlice(file, pos, t);
    hide At, Padded, Itoa, Value, AllDigits;
    if offset >= LIMIT {
      NotADigitSpace(p);
    }
  }

  lemma FiveZeros()
    ensures AllDigits("00000") && Value("00000") == 0
  {
    LeadingZeros(5, "");
    assert Repeat('0', 5) + "" == "00000";
  }

  /** What a reader should find in the table: the free entry and one entry for each object. */
  function TableEntries(objs: seq<string>, n: nat): (es: seq<Entry>)
    requires n <= |objs|
    ensures |es| == n + 1
    ensures forall k | 1 <= k <= n :: es[k] == Entry(Offset(objs, k), 0, true)
  {
    if n == 0 then [Entry(0, 65535, false)] else TableEntries(objs, n - 1) + [Entry(Offset(objs, n), 0, true)]
  }

  lemma {:induction false} OffsetBelow(objs: seq<string>, n: nat, m: nat)
    requires 1 <= n <= m <= |objs| && Offset(objs, m) < LIMIT
    ensures Offset(objs, n) < LIMIT
  {
    if n == m {
    } else {
      OffsetsIncrease(objs, n, m);
    }
  }

  lemma {:induction false} TableLength(objs: seq<string>, n: nat)
    requires n <= |objs| && (n > 0 ==> Offset(objs, n) < LIMIT)
    ensures |Table(objs, n)| == 20 * (n + 1)
  {
    if n == 0 {
    } else {
      if n > 1 {
        OffsetBelow(objs, n - 1, n);
      }
      hide Offset, Padded;
      TableLength(objs, n - 1);
      PaddedDigits(Offset(objs, n));
    }
  }

  lemma ReadFreeEntry(file: string, pos: nat)
    requires At(file, pos, FREE_ENTRY)
    ensures ReadEntry(file, pos) == Some(Entry(0, 65535, false))
  {
    FreeDigits();
    AtText(file, pos, FREE_ENTRY);
    hide Value;
    var e := file[pos..pos + 20];
    assert e[..10] == "0000000000" && e[11..16] == "65535" && e[18..] == " \n";
  }

  lemma FreeDigits()
    ensures AllDigits("0000000000") && Value("0000000000") == 0
    ensures AllDigits("65535") && Value("65535") == 65535
  {
    LeadingZeros(10, "");
    assert Repeat('0', 10) + "" == "0000000000";
    assert Itoa(6553) == "6553";
    assert Itoa(65535) == Itoa(6553) + "5" == "65535";
  }

  /** The table reads back entry by entry as long as the offsets have ten digits. */
  lemma {:induction false} ReadTable(file: string, pos: nat, objs: seq<string>, n: nat, rest: string)
    requires n <= |objs| && At(file, pos, Table(objs, n) + rest)
    ensures ReadEntries(file, pos, n + 1)
            == if n == 0 || Offset(objs, n) < LIMIT then Some(TableEntries(objs, n)) else None
  {
    hide *;
    if n == 0 {
      ReadEmptyTable(file, pos, objs, rest);
    } else {
      TableStep(objs, n, rest);
      ReadTable(file, pos, objs, n - 1, EntryText(Offset(objs, n)) + rest);
      ReadLastEntry(file, pos, objs, n, rest);
    }
  }

  lemma ReadEmptyTable(file: string, pos: nat, objs: seq<string>, rest: string)
    requires At(file, pos, Table(objs, 0) + rest)
    ensures ReadEntries(file, pos, 1) == Some(TableEntries(objs, 0))
  {
    hide ReadEntry, At;
    AtParts(file, pos, FREE_ENTRY, rest);
    ReadFreeEntry(file, pos);
    assert ReadEntries(file, pos, 0) == Some([]);
    OneMoreEntry(file, pos, 0, []);
    assert [] + [Entry(0, 65535, false)] == TableEntries(objs, 0);
  }

  lemma ReadLastEntry(file: string, pos: nat, objs: seq<string>, n: nat, rest: string)
    requires 1 <= n <= |objs| && At(file, pos, Table(objs, n - 1) + (EntryText(Offset(objs, n)) + rest))
    requires ReadEntries(file, pos, n)
             == if n == 1 || Offset(objs, n - 1) < LIMIT then Some(TableEntries(objs, n - 1)) else None
    ensures ReadEntries(file, pos, n + 1)
            == if Offset(objs, n) < LIMIT
               then Some(TableEntries(objs, n - 1) + [Entry(Offset(objs, n), 0, true)]) else None
  {
    hide *;
    var o := Offset(objs, n);
    if n > 1 && Offset(objs, n - 1) >= LIMIT {
      OffsetsIncrease(objs, n - 1, n);
      NoEntries(file, pos, n);
    } else {
      TableLength(objs, n - 1);
      AtParts(file, pos, Table(objs, n - 1), EntryText(o) + rest);
      AtParts(file, pos + 20 * n, EntryText(o), rest);
      ReadEntryText(file, pos + 20 * n, o);
      OneMoreEntry(file, pos, n, TableEntries(objs, n - 1));
    }
  }

  lemma TableStep(objs: seq<string>, n: nat, rest: string)
    requires 1 <= n <= |objs|
    ensures Table(objs, n) + rest == Table(objs, n - 1) + (EntryText(Offset(objs, n)) + rest)
    ensures TableEntries(objs, n) == TableEntries(objs, n - 1) + [Entry(Offset(objs, n), 0, true)]
  {
    hide EntryText, Offset;
    Associate(Table(objs, n - 1), EntryText(Offset(objs, n)), rest);
  }

  lemma NoEntries(file: string, pos: nat, n: nat)
    requires ReadEntries(file, pos, n).None?
    ensures ReadEntries(file, pos, n + 1).None?
  {
    hide ReadEntry;
  }

  lemma OneMoreEntry(file: string, pos: nat, n: nat, before: seq<Entry>)
    requires ReadEntries(file, pos, n) == Some(before)
    ensures var e := ReadEntry(file, pos + 20 * n);
            ReadEntries(file, pos, n + 1) == if e.None? then None else Some(before + [e.value])
  {
    hide ReadEntry;
  }

  // ---- The end of the file ----

  lemma ReadStart(front: string, pos: nat)
    ensures StartXref(front + STARTXREF + Itoa(pos) + EOF_MARK) == Some(pos)
  {
    hide Itoa;
    var digits := Itoa(pos);
    var file := front + STARTXREF + digits + EOF_MARK;
    var s := file[..|file| - |EOF_MARK|];
    assert s == front + STARTXREF + digits;
    assert file[|s|..|s| + |EOF_MARK|] == EOF_MARK;
    var a := front + "startxref";
    assert s == a + ['\n'] + digits;
    TrailingDigitsAt(a, '\n', digits);
    assert s[|a| + 1..] == digits;
    assert s[|front|..|front| + |STARTXREF|] == STARTXREF;
  }

  // ---- The whole file ----

  lemma ReadBackXref(objs: seq<string>)
    requires |objs| == 5
    ensures StartXref(Rendered(objs)) == Some(|Body(objs, 5)|)
    ensures ReadXref(Rendered(objs), |Body(objs, 5)|)
            == if Offset(objs, 5) < LIMIT then Some(TableEntries(objs, 5)) else None
  {
    hide *;
    RenderedParts(objs);
    var body := Body(objs, 5);
    ReadStart(body + Section(6) + Table(objs, 5) + TrailerDictionary(6), |body|);
    TableHeader(body, Table(objs, 5) + Trailer(6, |body|));
    ReadTable(Rendered(objs), |body| + |Section(6)|, objs, 5, Trailer(6, |body|));
  }

  lemma RenderedParts(objs: seq<string>)
    requires |objs| == 5
    ensures var body := Body(objs, 5);
            && Rendered(objs) == body + Section(6) + (Table(objs, 5) + Trailer(6, |body|))
            && Rendered(objs) == body + Section(6) + Table(objs, 5) + TrailerDictionary(6)
                                 + STARTXREF + Itoa(|body|) + EOF_MARK
  {
    hide Body, Table, Itoa, TrailerDictionary, Section, STARTXREF, EOF_MARK;
    var body := Body(objs, 5);
    RegroupEnd(body, Section(6), Table(objs, 5), TrailerDictionary(6), STARTXREF, Itoa(|body|), EOF_MARK);
  }

  lemma RegroupEnd(a: string, b: string, c: string, d: string, e: string, f: string, g: string)
    ensures a + b + c + (d + e + f + g) == a + b + (c + (d + e + f + g))
    ensures a + b + c + (d + e + f + g) == a + b + c + d + e + f + g
  {}

  /** The section header reads as six entries, which start right behind it. */
  lemma TableHeader(body: string, rest: string)
    ensures var file, pos := body + Section(6) + rest, |body|;
            && At(file, pos + |Section(6)|, rest)
            && ReadXref(file, pos) == ReadEntries(file, pos + |Section(6)|, 6)
  {
    hide ReadEntries, At, Itoa;
    var file, pos := body + Section(6) + rest, |body|;
    AtInside(body, Section(6), rest);
    AtInside(body + Section(6), rest, "");
    assert file + "" == file;
    Associate(XREF, Itoa(6), "\n");
    AtParts(file, pos, XREF, Itoa(6) + "\n");
    DigitsEndAt(file, pos + |XREF|, Itoa(6), '\n');
    AtParts(file, pos + |XREF|, Itoa(6), "\n");
  }

  lemma ReadRenderedObject(objs: seq<string>, n: nat, o: Object)
    requires |objs| == 5 && 1 <= n <= 5
    requires match o
             case Stream(data) => objs[n - 1] == ContentObject(data)
             case Plain(text) => objs[n - 1] == text && IsPlain(text)
    ensures ReadObject(Rendered(objs), Offset(objs, n), n) == Some(o)
  {
    hide *;
    ObjectInFile(objs, n);
    match o
    case Stream(data) => ReadStream(Rendered(objs), Offset(objs, n), n, data);
    case Plain(text) => ReadPlain(Rendered(objs), Offset(objs, n), n, text);
  }

  lemma ObjectInFile(objs: seq<string>, n: nat)
    requires 1 <= n <= |objs|
    ensures At(Rendered(objs), Offset(objs, n), ObjectText(n, objs[n - 1]))
  {
    hide Body, Table, Section, Trailer, At, ObjectText, Offset;
    var m := |objs|;
    var rest := Section(m + 1) + Table(objs, m) + Trailer(m + 1, |Body(objs, m)|);
    assert Rendered(objs) == Body(objs, m) + rest;
    ObjectAt(objs, n, m, rest);
  }

  lemma IsPlainText(text: string)
    requires |text| >= |LENGTH| && text[4] == 'T' && '\n' !in text
    ensures IsPlain(text)
  {
    assert LENGTH[4] == 'L';
  }

  lemma PlainCatalog()
    ensures IsPlain(CATALOG)
  {
    IsPlainText(CATALOG);
  }

  /** One line that starts like the page object. */
  predicate PageLike(s: string) {
    '\n' !in s && |s| >= |LENGTH| && |LENGTH| > 4 && s[4] == 'T'
  }

  lemma PageLikeMore(a: string, b: string)
    requires PageLike(a) && '\n' !in b
    ensures PageLike(a + b)
  {}

  lemma PageTypeLine()
    ensures PageLike(PAGE_TYPE)
  {}

  lemma PagePrefixLine()
    ensures PageLike(PAGE_PREFIX)
  {
    PageTypeLine();
    hide PageLike, PAGE_TYPE;
    PageLikeMore(PAGE_TYPE, " /MediaBox [0 0 ");
  }

  lemma PagesKidsLine()
    ensures PageLike(PAGES_KIDS)
  {}

  lemma PlainPages()
    ensures IsPlain(PAGES)
  {
    PagesKidsLine();
    hide PageLike, PAGES_KIDS;
    PageLikeMore(PAGES_KIDS, " /Count 1 >>");
    PagePlain(PAGES);
  }

  lemma PageSuffixLine()
    ensures '\n' !in PAGE_SUFFIX && '\n' !in PAGE_FONTS
  {}

  lemma PlainPage(width: string, height: string)
    requires IsNumberText(width) && IsNumberText(height)
    ensures IsPlain(PageObject(width, height))
  {
    PagePrefixLine();
    PageSuffixLine();
    assert '\n' !in width && '\n' !in height;
    hide PAGE_PREFIX, PAGE_SUFFIX, PAGE_FONTS, IsNumberText, PageLike;
    var a := PAGE_PREFIX + width;
    PageLikeMore(PAGE_PREFIX, width);
    PageLikeMore(a, " ");
    PageLikeMore(a + " ", height);
    PageLikeMore(a + " " + height, "]");
    PageLikeMore(a + " " + height + "]", PAGE_SUFFIX);
    PageLikeMore(a + " " + height + "]" + PAGE_SUFFIX, PAGE_FONTS);
    PagePlain(PageObject(width, height));
  }

  lemma FontTypeLine()
    ensures PageLike(FONT_TYPE)
  {}

  lemma PlainFont()
    ensures IsPlain(FONT)
  {
    FontTypeLine();
    hide PageLike, FONT_TYPE;
    PageLikeMore(FONT_TYPE, " /BaseFont /Helvetica >>");
    PagePlain(FONT);
  }

  lemma PagePlain(s: string)
    requires PageLike(s)
    ensures IsPlain(s)
  {
    IsPlainText(s);
  }

  lemma RenderedObjects(width: string, height: string, content: string, k: nat)
    requires IsNumberText(width) && IsNumberText(height) && 1 <= k <= 5
    ensures var objs := Objects(width, height, content);
            ReadObject(Rendered(objs), Offset(objs, k), k) == Some(Contents(width, height, content)[k - 1])
  {
    hide Rendered, Offset, ContentObject, ReadObject, PageObject, IsPlain, CATALOG, PAGES, FONT;
    PlainCatalog();
    PlainPages();
    PlainFont();
    PlainPage(width, height);
    ReadRenderedObject(Objects(width, height, content), k, Contents(width, height, content)[k - 1]);
  }

  lemma {:induction false} BodyHeader(objs: seq<string>, n: nat, rest: string)
    requires n <= |objs|
    ensures At(Body(objs, n) + rest, 0, VERSION)
  {
    hide ObjectText;
    if n == 0 {
      assert HEADER[..7] == VERSION;
    } else {
      Associate(Body(objs, n - 1), ObjectText(n, objs[n - 1]), rest);
      BodyHeader(objs, n - 1, ObjectText(n, objs[n - 1]) + rest);
    }
  }

  lemma VersionFirst(objs: seq<string>)
    requires |objs| == 5
    ensures At(Rendered(objs), 0, VERSION)
  {
    var rest := Section(6) + (Table(objs, 5) + Trailer(6, |Body(objs, 5)|));
    RenderedParts(objs);
    hide *;
    Associate(Body(objs, 5), Section(6), Table(objs, 5) + Trailer(6, |Body(objs, 5)|));
    BodyHeader(objs, 5, rest);
  }

  /** Every rendered document whose objects start below 10^10 bytes reads back as its five objects,
      whatever its content; any other one does not read back, for want of a digit in its table. */
  lemma ReadRendered(width: string, height: string, content: string)
    requires IsNumberText(width) && IsNumberText(height)
    ensures var objs := Objects(width, height, content);
            ReadFile(Rendered(objs)) == if Offset(objs, 5) < LIMIT then Some(Contents(width, height, content)) else None
  {
    hide Rendered, Offset, Objects, ReadObject, ReadXref, StartXref, ReadObjects, Body;
    var objs := Objects(width, height, content);
    hide At;
    VersionFirst(objs);
    ReadBackXref(objs);
    if Offset(objs, 5) < LIMIT {
      forall k: nat | 1 <= k <= 5
        ensures ReadObject(Rendered(objs), Offset(objs, k), k) == Some(Contents(width, height, content)[k - 1])
      {
        RenderedObjects(width, height, content, k);
      }
      ReadAllObjects(Rendered(objs), TableEntries(objs, 5), Contents(width, height, content), 5);
    }
  }

  lemma {:induction false} ReadAllObjects(file: string, entries: seq<Entry>, os: seq<Object>, n: nat)
    requires n < |entries| && n == |os|
    requires forall k: nat | 1 <= k <= n :: entries[k].inUse && ReadObject(file, entries[k].offset, k) == Some(os[k - 1])
    ensures ReadObjects(file, entries, n) == Some(os)
  {
    hide ReadObject;
    if n == 0 {
    } else {
      ReadAllObjects(file, entries, os[..n - 1], n - 1);
      assert os == os[..n - 1] + [os[n - 1]];
    }
  }
}

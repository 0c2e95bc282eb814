/** The documents of src/server/service/pdf.go read as a PDF reader does: from the trailer over the references
    to the page, its size, its content and its font. */
module PdfPage {
  import opened Wrappers
  import opened Text
  import opened PdfReader
  import opened PdfStructure
  import opened PdfContent
  import opened PdfDoc
  import PdfPicture

  // ---- Tokens as they are spelled in the dictionaries ----

  /** One blank between tokens, none inside brackets. */
  function Gap(t: Token, rest: seq<Token>): string {
    if t == Symbol("[") || rest == [] || rest[0] == Symbol("]") then "" else " "
  }

  function Spell(ts: seq<Token>): string {
    if ts == [] then "" else ShowToken(ts[0]) + (Gap(ts[0], ts[1..]) + Spell(ts[1..]))
  }

  lemma SpellStep(t: Token, rest: seq<Token>)
    ensures Spell([t] + rest) == ShowToken(t) + (Gap(t, rest) + Spell(rest))
  {
    hide ShowToken, Gap;
    assert ([t] + rest)[1..] == rest;
  }

  lemma GapEnds(t: Token, rest: seq<Token>)
    requires t.Word? || t.Name?
    ensures Ends(Gap(t, rest) + Spell(rest))
    ensures ReadTokens(Gap(t, rest) + Spell(rest)) == ReadTokens(Spell(rest))
  {
    hide ReadTokens;
    if Gap(t, rest) == " " {
      ReadBlank(' ', Spell(rest));
    } else {
      assert Gap(t, rest) + Spell(rest) == Spell(rest);
    }
  }

  lemma GapSkipped(t: Token, rest: seq<Token>)
    ensures ReadTokens(Gap(t, rest) + Spell(rest)) == ReadTokens(Spell(rest))
  {
    hide ReadTokens;
    if Gap(t, rest) == " " {
      ReadBlank(' ', Spell(rest));
    } else {
      assert Gap(t, rest) + Spell(rest) == Spell(rest);
    }
  }

  ghost predicate AllWritable(ts: seq<Token>) {
    forall t | t in ts :: Writable(t)
  }

  /** Spelled tokens read back. */
  lemma {:induction false} ReadSpelled(ts: seq<Token>)
    requires AllWritable(ts)
    ensures ReadTokens(Spell(ts)) == Some(ts)
  {
    hide ReadTokens, Writable, ShowToken, Gap, Ends;
    if ts == [] {
      NoTokens();
    } else {
      var t, rest := ts[0], ts[1..];
      ReadSpelled(rest);
      if t.Word? || t.Name? {
        GapEnds(t, rest);
      } else {
        GapSkipped(t, rest);
      }
      ReadTokenThen(t, Gap(t, rest) + Spell(rest));
      assert ts == [t] + rest;
    }
  }

  lemma NoTokens()
    ensures ReadTokens("") == Some([])
  {}

  /** A token goes out after what is there already. */
  lemma PutToken(done: string, t: Token, rest: seq<Token>)
    ensures done + Spell([t] + rest) == done + ShowToken(t) + Gap(t, rest) + Spell(rest)
  {
    SpellStep(t, rest);
    hide ShowToken, Gap, Spell;
  }

  lemma PutName(done: string, n: string, rest: seq<Token>)
    requires rest != [] && rest[0] != Symbol("]")
    ensures done + Spell([Name(n)] + rest) == done + "/" + n + " " + Spell(rest)
  {
    PutToken(done, Name(n), rest);
    hide Spell;
    Associate(done, "/", n);
  }

  lemma PutReference(done: string, number: nat, rest: seq<Token>)
    requires number < 10
    ensures done + Spell(Refers(number, 0) + rest) == done + [Digit(number)] + " 0 R" + Gap(Word("R"), rest) + Spell(rest)
  {
    assert Itoa(0) == "0";
    hide Spell, Gap;
    var r := [Word("R")] + rest;
    assert Refers(number, 0) + rest == [Word(Itoa(number))] + ([Word("0")] + r);
    PutToken(done, Word(Itoa(number)), [Word("0")] + r);
    PutToken(done + [Digit(number)] + " ", Word("0"), r);
    PutToken(done + [Digit(number)] + " " + "0" + " ", Word("R"), rest);
    GapBlank(Word(Itoa(number)), [Word("0")] + r);
    GapBlank(Word("0"), r);
    ZeroR(done + [Digit(number)]);
  }

  lemma GapBlank(t: Token, rest: seq<Token>)
    requires t.Word? && rest != [] && rest[0].Word?
    ensures Gap(t, rest) == " "
  {}

  lemma ZeroR(s: string)
    ensures s + " " + "0" + " " + "R" == s + " 0 R"
  {}

  // ---- The dictionaries written, as tokens ----

  const CLOSE := [Symbol(">>")]

  const CATALOG_TOKENS := [Symbol("<<")] + ([Name("Type")] + ([Name("Catalog")] + ([Name("Pages")] + (Refers(2, 0) + CLOSE))))

  lemma PutOpen(rest: seq<Token>)
    requires rest != [] && rest[0].Name?
    ensures Spell([Symbol("<<")] + rest) == "<< " + Spell(rest)
  {
    SpellStep(Symbol("<<"), rest);
    hide Spell;
    Associate("<<", " ", Spell(rest));
  }

  lemma SpellClose()
    ensures Spell(CLOSE) == ">>"
  {}

  lemma SpellCatalog()
    ensures Spell(CATALOG_TOKENS) == CATALOG
  {
    SpellClose();
    hide Spell, Refers;
    var r := Refers(2, 0) + CLOSE;
    PutOpen([Name("Type")] + ([Name("Catalog")] + ([Name("Pages")] + r)));
    PutName("<< ", "Type", [Name("Catalog")] + ([Name("Pages")] + r));
    PutName("<< " + "/" + "Type" + " ", "Catalog", [Name("Pages")] + r);
    RefersFirst(2, CLOSE);
    PutName("<< " + "/" + "Type" + " " + "/" + "Catalog" + " ", "Pages", r);
    PutReference("<< " + "/" + "Type" + " " + "/" + "Catalog" + " " + "/" + "Pages" + " ", 2, CLOSE);
    OpenType();
    CatalogLiteral();
    hide CATALOG;
  }

  lemma OpenType()
    ensures "<< " + "/" + "Type" + " " == "<< /Type "
  {}

  lemma CatalogLiteral()
    ensures "<< /Type " + "/" + "Catalog" + " " + "/" + "Pages" + " " + "2" + " 0 R" + " " + ">>" == CATALOG
  {
    CatalogStart();
    CatalogEnd("<< /Type /Catalog");
    CatalogWhole();
    hide CATALOG;
  }

  lemma CatalogStart()
    ensures "<< /Type " + "/" + "Catalog" + " " == "<< /Type /Catalog" + " "
  {}

  lemma CatalogEnd(s: string)
    ensures s + " " + "/" + "Pages" + " " + "2" + " 0 R" + " " + ">>" == s + " /Pages 2 0 R >>"
  {}

  lemma CatalogWhole()
    ensures "<< /Type /Catalog" + " /Pages 2 0 R >>" == CATALOG
  {}

  lemma RefersFirst(number: nat, rest: seq<Token>)
    ensures (Refers(number, 0) + rest) != [] && (Refers(number, 0) + rest)[0].Word?
  {}

  const KIDS := [Symbol("[")] + (Refers(3, 0) + ([Symbol("]")] + ([Name("Count")] + ([Word("1")] + CLOSE))))

  const PAGES_TOKENS := [Symbol("<<")] + ([Name("Type")] + ([Name("Pages")] + ([Name("Kids")] + KIDS)))

  /** An array opens and closes without blanks. */
  lemma PutBracket(done: string, rest: seq<Token>)
    ensures done + Spell([Symbol("[")] + rest) == done + "[" + Spell(rest)
  {
    PutToken(done, Symbol("["), rest);
    hide Spell;
  }

  lemma PutClosing(done: string, rest: seq<Token>)
    requires rest != [] && rest[0] != Symbol("]")
    ensures done + Spell([Symbol("]")] + rest) == done + "] " + Spell(rest)
  {
    PutToken(done, Symbol("]"), rest);
    hide Spell;
    Associate(done, "]", " ");
  }

  lemma PutWord(done: string, w: string, rest: seq<Token>)
    requires rest != [] && rest[0] != Symbol("]")
    ensures done + Spell([Word(w)] + rest) == done + w + " " + Spell(rest)
  {
    PutToken(done, Word(w), rest);
    hide Spell;
  }

  lemma SpellPages()
    ensures Spell(PAGES_TOKENS) == PAGES
  {
    SpellClose();
    hide Spell, Refers;
    var d2 := "<< " + "/" + "Type" + " " + "/" + "Pages" + " ";
    PutOpen([Name("Type")] + ([Name("Pages")] + ([Name("Kids")] + KIDS)));
    PutName("<< ", "Type", [Name("Pages")] + ([Name("Kids")] + KIDS));
    PutName("<< " + "/" + "Type" + " ", "Pages", [Name("Kids")] + KIDS);
    PutName(d2, "Kids", KIDS);
    PagesLiteral();
    SpellKids("<< /Type /Pages /Kids ");
    hide PAGES_KIDS;
  }

  lemma SpellKids(done: string)
    ensures done + Spell(KIDS) == done + "[3 0 R]" + " /Count 1 >>"
  {
    SpellClose();
    hide Spell, Refers;
    var count := [Name("Count")] + ([Word("1")] + CLOSE);
    PutBracket(done, Refers(3, 0) + ([Symbol("]")] + count));
    PutReference(done + "[", 3, [Symbol("]")] + count);
    var d := done + "[" + "3" + " 0 R";
    PutClosing(d, count);
    PutName(d + "] ", "Count", [Word("1")] + CLOSE);
    PutWord(d + "] " + "/" + "Count" + " ", "1", CLOSE);
    KidsLiteral(done);
  }

  lemma KidsLiteral(done: string)
    ensures done + "[" + "3" + " 0 R" + "" == done + "[" + "3" + " 0 R"
    ensures done + "[" + "3" + " 0 R" + "] " + "/" + "Count" + " " + "1" + " " + ">>" == done + "[3 0 R]" + " /Count 1 >>"
  {}

  lemma PagesLiteral()
    ensures "<< " + "/" + "Type" + " " + "/" + "Pages" + " " + "/" + "Kids" + " " == "<< /Type /Pages /Kids "
    ensures "<< /Type /Pages /Kids " + "[3 0 R]" == PAGES_KIDS
  {}

  const FONT_TOKENS :=
    [Symbol("<<")] + ([Name("Type")] + ([Name("Font")] + ([Name("Subtype")] + ([Name("Type1")] + ([Name("BaseFont")]
    + ([Name("Helvetica")] + CLOSE))))))

  lemma SpellFont()
    ensures Spell(FONT_TOKENS) == FONT
  {
    SpellClose();
    hide Spell;
    var base := [Name("BaseFont")] + ([Name("Helvetica")] + CLOSE);
    var d2 := "<< " + "/" + "Type" + " " + "/" + "Font" + " ";
    var d4 := d2 + "/" + "Subtype" + " " + "/" + "Type1" + " ";
    PutOpen([Name("Type")] + ([Name("Font")] + ([Name("Subtype")] + ([Name("Type1")] + base))));
    PutName("<< ", "Type", [Name("Font")] + ([Name("Subtype")] + ([Name("Type1")] + base)));
    PutName("<< " + "/" + "Type" + " ", "Font", [Name("Subtype")] + ([Name("Type1")] + base));
    PutName(d2, "Subtype", [Name("Type1")] + base);
    PutName(d2 + "/" + "Subtype" + " ", "Type1", base);
    PutName(d4, "BaseFont", [Name("Helvetica")] + CLOSE);
    PutName(d4 + "/" + "BaseFont" + " ", "Helvetica", CLOSE);
    FontLiteral();
    BaseLiteral(FONT_TYPE);
    hide FONT_TYPE;
  }

  lemma FontLiteral()
    ensures "<< " + "/" + "Type" + " " + "/" + "Font" + " " + "/" + "Subtype" + " " + "/" + "Type1" + " " == FONT_TYPE + " "
  {
    OpenType();
    FontStart();
    SubtypeLiteral("<< /Type /Font");
    FontWhole();
    hide FONT_TYPE;
  }

  lemma FontStart()
    ensures "<< /Type " + "/" + "Font" + " " == "<< /Type /Font" + " "
  {}

  lemma SubtypeLiteral(s: string)
    ensures s + " " + "/" + "Subtype" + " " + "/" + "Type1" + " " == s + " /Subtype /Type1" + " "
  {}

  lemma FontWhole()
    ensures "<< /Type /Font" + " /Subtype /Type1" == FONT_TYPE
  {}

  lemma BaseLiteral(s: string)
    ensures s + " " + "/" + "BaseFont" + " " + "/" + "Helvetica" + " " + ">>" == s + " /BaseFont /Helvetica >>"
  {}

  const TRAILER_TOKENS := [Symbol("<<")] + ([Name("Size")] + ([Word("6")] + ([Name("Root")] + (Refers(1, 0) + CLOSE))))

  const TRAILER_TEXT := "<< /Size " + "6" + " /Root 1 0 R >>"

  lemma SpellTrailer()
    ensures Spell(TRAILER_TOKENS) == TRAILER_TEXT
  {
    SpellClose();
    hide Spell, Refers, TRAILER_TEXT;
    var root := [Name("Root")] + (Refers(1, 0) + CLOSE);
    var d := "<< " + "/" + "Size" + " " + "6" + " ";
    PutOpen([Name("Size")] + ([Word("6")] + root));
    PutName("<< ", "Size", [Word("6")] + root);
    PutWord("<< " + "/" + "Size" + " ", "6", root);
    RefersFirst(1, CLOSE);
    PutName(d, "Root", Refers(1, 0) + CLOSE);
    PutReference(d + "/" + "Root" + " ", 1, CLOSE);
    TrailerLiteral();
  }

  lemma TrailerLiteral()
    ensures "<< " + "/" + "Size" + " " + "6" + " " + "/" + "Root" + " " + "1" + " 0 R" + " " + ">>" == TRAILER_TEXT
  {
    SizeLiteral();
    RootLiteral("<< /Size " + "6");
  }

  lemma SizeLiteral()
    ensures "<< " + "/" + "Size" + " " == "<< /Size " && "trailer\n" + "<< /Size " == "trailer\n<< /Size "
  {}

  lemma RootLiteral(s: string)
    ensures s + " " + "/" + "Root" + " " + "1" + " 0 R" + " " + ">>" == s + " /Root 1 0 R >>"
  {}

  lemma TrailerLine()
    ensures TrailerDictionary(6) == TRAILER + TRAILER_TEXT + ['\n'] && '\n' !in TRAILER_TEXT
  {
    SizeLiteral();
    RootLine();
    Regrouped(TRAILER, "<< /Size ", "6", " /Root 1 0 R >>", ['\n']);
    assert Itoa(6) == "6";
    assert '\n' !in "<< /Size " && '\n' !in "6" && '\n' !in " /Root 1 0 R >>";
  }

  lemma RootLine()
    ensures " /Root 1 0 R >>\n" == " /Root 1 0 R >>" + ['\n']
  {}

  lemma Regrouped(a: string, b: string, c: string, d: string, e: string)
    ensures a + b + c + (d + e) == a + (b + c + d) + e
  {}

  // ---- The page object ----

  const FONTS := [Name("Font")] + ([Symbol("<<")] + ([Name("F1")] + (Refers(5, 0) + (CLOSE + (CLOSE + CLOSE)))))

  const RESOURCES := [Name("Contents")] + (Refers(4, 0) + ([Name("Resources")] + ([Symbol("<<")] + FONTS)))

  function Box(width: string, height: string): seq<Token> {
    [Word("0")] + ([Word("0")] + ([Word(width)] + ([Word(height)] + ([Symbol("]")] + RESOURCES))))
  }

  function PageTokens(width: string, height: string): seq<Token> {
    [Symbol("<<")] + ([Name("Type")] + ([Name("Page")] + ([Name("Parent")] + (Refers(2, 0)
    + ([Name("MediaBox")] + ([Symbol("[")] + Box(width, height)))))))
  }

  lemma PutOpenAfter(done: string, rest: seq<Token>)
    requires rest != [] && rest[0].Name?
    ensures done + Spell([Symbol("<<")] + rest) == done + "<< " + Spell(rest)
  {
    PutToken(done, Symbol("<<"), rest);
    hide Spell;
    Associate(done, "<<", " ");
  }

  lemma PutCloses(done: string)
    ensures done + Spell(CLOSE + (CLOSE + CLOSE)) == done + ">> >> >>"
  {
    SpellClose();
    hide Spell;
    PutToken(done, Symbol(">>"), CLOSE + CLOSE);
    PutToken(done + ">>" + " ", Symbol(">>"), CLOSE);
    assert done + ">>" + " " + ">>" + " " + ">>" == done + ">> >> >>";
  }

  lemma SpellResources(done: string)
    ensures done + " " + Spell(RESOURCES) == done + PAGE_SUFFIX + PAGE_FONTS
  {
    hide Spell, Refers;
    var d := done + " " + "/" + "Contents" + " ";
    var resources := [Name("Resources")] + ([Symbol("<<")] + FONTS);
    RefersFirst(4, resources);
    PutName(done + " ", "Contents", Refers(4, 0) + resources);
    PutReference(d, 4, resources);
    var e := d + "4" + " 0 R" + " ";
    PutName(e, "Resources", [Symbol("<<")] + FONTS);
    SpellFonts(e + "/" + "Resources" + " ");
    ResourcesLiteral(done);
  }

  lemma ResourcesLiteral(done: string)
    ensures done + " " + "/" + "Contents" + " " + "4" + " 0 R" + " " + "/" + "Resources" + " " == done + PAGE_SUFFIX
  {}

  lemma SpellFonts(done: string)
    ensures done + Spell([Symbol("<<")] + FONTS) == done + PAGE_FONTS
  {
    hide Spell, Refers;
    var closes := CLOSE + (CLOSE + CLOSE);
    var d := done + "<< " + "/" + "Font" + " " + "<< " + "/" + "F1" + " ";
    PutOpenAfter(done, FONTS);
    PutName(done + "<< ", "Font", [Symbol("<<")] + ([Name("F1")] + (Refers(5, 0) + closes)));
    PutOpenAfter(done + "<< " + "/" + "Font" + " ", [Name("F1")] + (Refers(5, 0) + closes));
    RefersFirst(5, closes);
    PutName(done + "<< " + "/" + "Font" + " " + "<< ", "F1", Refers(5, 0) + closes);
    PutReference(d, 5, closes);
    PutCloses(d + "5" + " 0 R" + " ");
    FontsLiteral(done);
  }

  lemma FontsLiteral(done: string)
    ensures done + "<< " + "/" + "Font" + " " + "<< " + "/" + "F1" + " " + "5" + " 0 R" + " " + ">> >> >>" == done + PAGE_FONTS
  {}

  lemma SpellBox(done: string, width: string, height: string)
    ensures done + Spell(Box(width, height)) == done + "0 0 " + width + " " + height + "]" + PAGE_SUFFIX + PAGE_FONTS
  {
    hide Spell;
    var end := [Symbol("]")] + RESOURCES;
    PutWord(done, "0", [Word("0")] + ([Word(width)] + ([Word(height)] + end)));
    PutWord(done + "0" + " ", "0", [Word(width)] + ([Word(height)] + end));
    var d := done + "0" + " " + "0" + " ";
    PutWord(d, width, [Word(height)] + end);
    PutToken(d + width + " ", Word(height), end);
    PutClosing(d + width + " " + height, RESOURCES);
    SpellResources(d + width + " " + height + "]");
    BoxLiteral(done, d + width + " " + height, Spell(RESOURCES));
  }

  lemma BoxLiteral(done: string, s: string, rest: string)
    ensures done + "0" + " " + "0" + " " == done + "0 0 "
    ensures s + "" + "" == s && s + "] " + rest == s + "]" + " " + rest
  {}

  lemma SpellPage(width: string, height: string)
    ensures Spell(PageTokens(width, height)) == PageObject(width, height)
  {
    hide Spell, Refers, Box, PAGE_SUFFIX, PAGE_FONTS;
    var box := [Name("MediaBox")] + ([Symbol("[")] + Box(width, height));
    var d := "<< " + "/" + "Type" + " " + "/" + "Page" + " ";
    PutOpen([Name("Type")] + ([Name("Page")] + ([Name("Parent")] + (Refers(2, 0) + box))));
    PutName("<< ", "Type", [Name("Page")] + ([Name("Parent")] + (Refers(2, 0) + box)));
    PutName("<< " + "/" + "Type" + " ", "Page", [Name("Parent")] + (Refers(2, 0) + box));
    RefersFirst(2, box);
    PutName(d, "Parent", Refers(2, 0) + box);
    PutReference(d + "/" + "Parent" + " ", 2, box);
    var e := d + "/" + "Parent" + " " + "2" + " 0 R" + " ";
    PutName(e, "MediaBox", [Symbol("[")] + Box(width, height));
    PutBracket(e + "/" + "MediaBox" + " ", Box(width, height));
    SpellBox(e + "/" + "MediaBox" + " " + "[", width, height);
    PageLiteral();
  }

  lemma PageLiteral()
    ensures "<< " + "/" + "Type" + " " + "/" + "Page" + " " + "/" + "Parent" + " " + "2" + " 0 R" + " " == PAGE_TYPE + " "
    ensures PAGE_TYPE + " " + "/" + "MediaBox" + " " + "[" + "0 0 " == PAGE_PREFIX
  {
    OpenType();
    PageStart();
    ParentLiteral("<< /Type /Page");
    PageWhole();
    BoxStart(PAGE_TYPE);
    hide PAGE_TYPE;
  }

  lemma PageStart()
    ensures "<< /Type " + "/" + "Page" + " " == "<< /Type /Page" + " "
  {}

  lemma ParentLiteral(s: string)
    ensures s + " " + "/" + "Parent" + " " + "2" + " 0 R" + " " == s + " /Parent 2 0 R" + " "
  {}

  lemma PageWhole()
    ensures "<< /Type /Page" + " /Parent 2 0 R" == PAGE_TYPE
  {}

  lemma BoxStart(s: string)
    ensures s + " " + "/" + "MediaBox" + " " + "[" + "0 0 " == s + " /MediaBox [0 0 "
  {}

  // ---- The dictionaries read back ----

  lemma ReferenceWritable(number: nat)
    requires number < 10
    ensures AllWritable(Refers(number, 0))
  {
    assert Itoa(0) == "0" && Itoa(number) == [Digit(number)];
    assert IsRegular('0') && IsRegular(Digit(number)) && IsRegular('R');
  }

  lemma WritableMore(t: Token, rest: seq<Token>)
    requires Writable(t) && AllWritable(rest)
    ensures AllWritable([t] + rest)
  {
    hide Writable;
  }

  lemma WritableAppend(a: seq<Token>, b: seq<Token>)
    requires AllWritable(a) && AllWritable(b)
    ensures AllWritable(a + b)
  {
    hide Writable;
  }

  predicate IsKey(c: char) {
    IsLetter(c) || IsDigit(c)
  }

  /** A key and what follows it. */
  lemma WritableKey(n: string, rest: seq<Token>)
    requires (forall i | 0 <= i < |n| :: IsKey(n[i])) && AllWritable(rest)
    ensures AllWritable([Name(n)] + rest)
  {
    assert Writable(Name(n));
    WritableMore(Name(n), rest);
  }

  lemma WritableSymbol(x: string, rest: seq<Token>)
    requires x in {"[", "]", "<<", ">>"} && AllWritable(rest)
    ensures AllWritable([Symbol(x)] + rest)
  {
    WritableMore(Symbol(x), rest);
  }

  lemma WritableReference(number: nat, rest: seq<Token>)
    requires number < 10 && AllWritable(rest)
    ensures AllWritable(Refers(number, 0) + rest)
  {
    ReferenceWritable(number);
    hide Refers;
    WritableAppend(Refers(number, 0), rest);
  }

  lemma WritableWord(w: string, rest: seq<Token>)
    requires Writable(Word(w)) && AllWritable(rest)
    ensures AllWritable([Word(w)] + rest)
  {
    WritableMore(Word(w), rest);
  }

  lemma WritableClose()
    ensures AllWritable(CLOSE) && ParsePairs(CLOSE) == Some(Parsed([], []))
  {
    EndOfPairs([]);
    assert [Symbol(">>")] + [] == CLOSE;
  }

  const CATALOG_PAIRS := [Pair("Type", NameValue("Catalog"))] + ([Pair("Pages", Reference(2, 0))] + [])

  lemma CatalogRead()
    ensures ReadDictionary(CATALOG) == Some(CATALOG_PAIRS)
  {
    SpellCatalog();
    WritableClose();
    hide Refers, Spell, ParsePairs, ReadTokens, ReadDictionary, AllWritable, CATALOG;
    var pages := [Name("Pages")] + (Refers(2, 0) + CLOSE);
    WritableReference(2, CLOSE);
    WritableKey("Pages", Refers(2, 0) + CLOSE);
    WritableKey("Catalog", pages);
    WritableKey("Type", [Name("Catalog")] + pages);
    WritableSymbol("<<", [Name("Type")] + ([Name("Catalog")] + pages));
    ReadSpelled(CATALOG_TOKENS);
    ReferencePair("Pages", 2, 0, CLOSE, Parsed([], []));
    NamePair("Type", "Catalog", pages, Parsed([Pair("Pages", Reference(2, 0))] + [], []));
    DictionaryRead(CATALOG, [Name("Type")] + ([Name("Catalog")] + pages), CATALOG_PAIRS);
  }

  const PAGES_PAIRS := [Pair("Type", NameValue("Pages"))] + ([Pair("Kids", Array([Reference(3, 0)] + []))]
                       + ([Pair("Count", Number("1"))] + []))

  lemma OneNumeral()
    ensures NumberOrKeyword("1") == Number("1") && NumberOrKeyword("6") == Number("6") && NumberOrKeyword("0") == Number("0")
    ensures Writable(Word("1")) && Writable(Word("6")) && Writable(Word("0"))
  {}

  lemma PagesRead()
    ensures ReadDictionary(PAGES) == Some(PAGES_PAIRS)
  {
    SpellPages();
    WritableClose();
    OneNumeral();
    hide Refers, Spell, ParsePairs, ParseValue, ParseItems, ReadTokens, ReadDictionary, AllWritable, PAGES, NumberOrKeyword, Writable;
    var count := [Name("Count")] + ([Word("1")] + CLOSE);
    var kids := Refers(3, 0) + ([Symbol("]")] + count);
    WritableWord("1", CLOSE);
    WritableKey("Count", [Word("1")] + CLOSE);
    WritableSymbol("]", count);
    WritableReference(3, [Symbol("]")] + count);
    WritableSymbol("[", kids);
    WritableKey("Kids", KIDS);
    WritableKey("Pages", [Name("Kids")] + KIDS);
    WritableKey("Type", [Name("Pages")] + ([Name("Kids")] + KIDS));
    WritableSymbol("<<", [Name("Type")] + ([Name("Pages")] + ([Name("Kids")] + KIDS)));
    ReadSpelled(PAGES_TOKENS);
    NumberPair("Count", "1", CLOSE, Parsed([], []));
    EndOfItems(count);
    ParseReference(3, 0, [Symbol("]")] + count);
    RefersFirst(3, [Symbol("]")] + count);
    ItemStep(kids, Parsed(Reference(3, 0), [Symbol("]")] + count), Parsed([], count));
    ArrayPair("Kids", kids, [Reference(3, 0)] + [], count, Parsed([Pair("Count", Number("1"))] + [], []));
    NamePair("Type", "Pages", [Name("Kids")] + KIDS,
             Parsed([Pair("Kids", Array([Reference(3, 0)] + []))] + ([Pair("Count", Number("1"))] + []), []));
    DictionaryRead(PAGES, [Name("Type")] + ([Name("Pages")] + ([Name("Kids")] + KIDS)), PAGES_PAIRS);
  }

  const FONT_PAIRS := [Pair("Type", NameValue("Font"))] + ([Pair("Subtype", NameValue("Type1"))]
                      + ([Pair("BaseFont", NameValue("Helvetica"))] + []))

  lemma FontRead()
    ensures ReadDictionary(FONT) == Some(FONT_PAIRS)
  {
    SpellFont();
    WritableClose();
    hide Spell, ParsePairs, ReadTokens, ReadDictionary, AllWritable, FONT;
    var base := [Name("BaseFont")] + ([Name("Helvetica")] + CLOSE);
    var subtype := [Name("Subtype")] + ([Name("Type1")] + base);
    WritableKey("Helvetica", CLOSE);
    WritableKey("BaseFont", [Name("Helvetica")] + CLOSE);
    WritableKey("Type1", base);
    WritableKey("Subtype", [Name("Type1")] + base);
    WritableKey("Font", subtype);
    WritableKey("Type", [Name("Font")] + subtype);
    WritableSymbol("<<", [Name("Type")] + ([Name("Font")] + subtype));
    ReadSpelled(FONT_TOKENS);
    NamePair("BaseFont", "Helvetica", CLOSE, Parsed([], []));
    NamePair("Subtype", "Type1", base, Parsed([Pair("BaseFont", NameValue("Helvetica"))] + [], []));
    NamePair("Type", "Font", subtype,
             Parsed([Pair("Subtype", NameValue("Type1"))] + ([Pair("BaseFont", NameValue("Helvetica"))] + []), []));
    DictionaryRead(FONT, [Name("Type")] + ([Name("Font")] + subtype), FONT_PAIRS);
  }

  const TRAILER_PAIRS := [Pair("Size", Number("6"))] + ([Pair("Root", Reference(1, 0))] + [])

  lemma TrailerRead()
    ensures ReadDictionary(TRAILER_TEXT) == Some(TRAILER_PAIRS)
  {
    SpellTrailer();
    WritableClose();
    OneNumeral();
    hide Refers, Spell, ParsePairs, ReadTokens, ReadDictionary, AllWritable, TRAILER_TEXT, NumberOrKeyword, Writable;
    var root := [Name("Root")] + (Refers(1, 0) + CLOSE);
    WritableReference(1, CLOSE);
    WritableKey("Root", Refers(1, 0) + CLOSE);
    WritableWord("6", root);
    WritableKey("Size", [Word("6")] + root);
    WritableSymbol("<<", [Name("Size")] + ([Word("6")] + root));
    ReadSpelled(TRAILER_TOKENS);
    ReferencePair("Root", 1, 0, CLOSE, Parsed([], []));
    NumberPair("Size", "6", root, Parsed([Pair("Root", Reference(1, 0))] + [], []));
    DictionaryRead(TRAILER_TEXT, [Name("Size")] + ([Word("6")] + root), TRAILER_PAIRS);
  }

  // ---- The page read back ----

  function FontsPairs(): seq<Pair> {
    [Pair("F1", Reference(5, 0))] + []
  }

  function ResourcesPairs(): seq<Pair> {
    [Pair("Font", Dictionary(FontsPairs()))] + []
  }

  /** The end of the page object: its content and resources. */
  function TailPairs(): seq<Pair> {
    [Pair("Contents", Reference(4, 0))] + ([Pair("Resources", Dictionary(ResourcesPairs()))] + [])
  }

  lemma ResourcesRead()
    ensures ParsePairs(RESOURCES) == Some(Parsed(TailPairs(), [])) && AllWritable(RESOURCES)
  {
    WritableClose();
    hide Refers, ParsePairs, AllWritable;
    var closes := CLOSE + (CLOSE + CLOSE);
    var f1 := [Name("F1")] + (Refers(5, 0) + closes);
    EndOfPairs(CLOSE + CLOSE);
    EndOfPairs(CLOSE);
    WritableSymbol(">>", CLOSE);
    WritableSymbol(">>", CLOSE + CLOSE);
    WritableReference(5, closes);
    WritableKey("F1", Refers(5, 0) + closes);
    WritableSymbol("<<", f1);
    WritableKey("Font", [Symbol("<<")] + f1);
    WritableSymbol("<<", FONTS);
    WritableKey("Resources", [Symbol("<<")] + FONTS);
    WritableReference(4, [Name("Resources")] + ([Symbol("<<")] + FONTS));
    WritableKey("Contents", Refers(4, 0) + ([Name("Resources")] + ([Symbol("<<")] + FONTS)));
    ReferencePair("F1", 5, 0, closes, Parsed([], CLOSE + CLOSE));
    DictionaryPair("Font", f1, FontsPairs(), CLOSE + CLOSE, Parsed([], CLOSE));
    DictionaryPair("Resources", FONTS, ResourcesPairs(), CLOSE, Parsed([], []));
    ReferencePair("Contents", 4, 0, [Name("Resources")] + ([Symbol("<<")] + FONTS),
                  Parsed([Pair("Resources", Dictionary(ResourcesPairs()))] + [], []));
  }

  function BoxValues(width: string, height: string): seq<Value> {
    [Number("0")] + ([Number("0")] + ([NumberOrKeyword(width)] + ([NumberOrKeyword(height)] + [])))
  }

  lemma BoxRead(width: string, height: string)
    requires IsNumberText(width) && IsNumberText(height)
    ensures ParseItems(Box(width, height)) == Some(Parsed(BoxValues(width, height), RESOURCES))
    ensures AllWritable(Box(width, height))
  {
    ResourcesRead();
    OneNumeral();
    NumberWritable(width);
    NumberWritable(height);
    NotR(width);
    NotR(height);
    hide ParseItems, ParseValue, AllWritable, RESOURCES, NumberOrKeyword, Writable, IsNumberText;
    var end := [Symbol("]")] + RESOURCES;
    var h := [Word(height)] + end;
    var w := [Word(width)] + h;
    WritableSymbol("]", RESOURCES);
    WritableWord(height, end);
    WritableWord(width, h);
    WritableWord("0", w);
    WritableWord("0", [Word("0")] + w);
    EndOfItems(RESOURCES);
    ParseNumber(height, end);
    ItemStep(h, Parsed(NumberOrKeyword(height), end), Parsed([], RESOURCES));
    ParseNumber(width, h);
    ItemStep(w, Parsed(NumberOrKeyword(width), h), Parsed([NumberOrKeyword(height)] + [], RESOURCES));
    ParseNumber("0", w);
    ItemStep([Word("0")] + w, Parsed(Number("0"), w),
             Parsed([NumberOrKeyword(width)] + ([NumberOrKeyword(height)] + []), RESOURCES));
    ParseNumber("0", [Word("0")] + w);
    ItemStep([Word("0")] + ([Word("0")] + w), Parsed(Number("0"), [Word("0")] + w),
             Parsed([Number("0")] + ([NumberOrKeyword(width)] + ([NumberOrKeyword(height)] + [])), RESOURCES));
  }

  lemma NotR(w: string)
    requires IsNumberText(w)
    ensures w != "R"
  {
    assert IsDigit(w[0]) || w[0] in "+-.InfNa";
    assert "R"[0] == 'R';
  }

  function PagePairs(width: string, height: string): seq<Pair> {
    [Pair("Type", NameValue("Page"))] + ([Pair("Parent", Reference(2, 0))]
    + ([Pair("MediaBox", Array(BoxValues(width, height)))] + TailPairs()))
  }

  lemma PageWritable(width: string, height: string)
    requires AllWritable(Box(width, height))
    ensures AllWritable(PageTokens(width, height))
  {
    hide Refers, AllWritable, Box;
    var box := [Name("MediaBox")] + ([Symbol("[")] + Box(width, height));
    var parent := [Name("Parent")] + (Refers(2, 0) + box);
    WritableSymbol("[", Box(width, height));
    WritableKey("MediaBox", [Symbol("[")] + Box(width, height));
    WritableReference(2, box);
    WritableKey("Parent", Refers(2, 0) + box);
    WritableKey("Page", parent);
    WritableKey("Type", [Name("Page")] + parent);
    WritableSymbol("<<", [Name("Type")] + ([Name("Page")] + parent));
  }

  /** The tokens of the page's dictionary behind its opening. */
  function PageInner(width: string, height: string): seq<Token> {
    [Name("Type")] + ([Name("Page")] + ([Name("Parent")] + (Refers(2, 0)
    + ([Name("MediaBox")] + ([Symbol("[")] + Box(width, height))))))
  }

  lemma PageParsed(width: string, height: string)
    requires ParseItems(Box(width, height)) == Some(Parsed(BoxValues(width, height), RESOURCES))
    requires ParsePairs(RESOURCES) == Some(Parsed(TailPairs(), []))
    ensures ParsePairs(PageInner(width, height)) == Some(Parsed(PagePairs(width, height), []))
  {
    hide Refers, ParsePairs, ParseItems, Box, BoxValues, TailPairs, RESOURCES;
    var box := [Name("MediaBox")] + ([Symbol("[")] + Box(width, height));
    var parent := [Name("Parent")] + (Refers(2, 0) + box);
    ArrayPair("MediaBox", Box(width, height), BoxValues(width, height), RESOURCES, Parsed(TailPairs(), []));
    var b := [Pair("MediaBox", Array(BoxValues(width, height)))] + TailPairs();
    ReferencePair("Parent", 2, 0, box, Parsed(b, []));
    NamePair("Type", "Page", parent, Parsed([Pair("Parent", Reference(2, 0))] + b, []));
  }

  lemma PageRead(width: string, height: string)
    requires IsNumberText(width) && IsNumberText(height)
    ensures ReadDictionary(PageObject(width, height)) == Some(PagePairs(width, height))
  {
    PageTokensOpen(width, height);
    hide *;
    SpellPage(width, height);
    ResourcesRead();
    BoxRead(width, height);
    PageWritable(width, height);
    ReadSpelled(PageTokens(width, height));
    PageParsed(width, height);
    DictionaryRead(PageObject(width, height), PageInner(width, height), PagePairs(width, height));
  }

  lemma PageTokensOpen(width: string, height: string)
    ensures PageTokens(width, height) == [Symbol("<<")] + PageInner(width, height)
  {
    hide Refers, Box;
  }

  // ---- The whole document ----

  /** The references lead to the objects written. */
  lemma Resolved(width: string, height: string, content: string, k: nat)
    requires IsNumberText(width) && IsNumberText(height) && 1 <= k <= 5
    ensures var objs := Objects(width, height, content);
            Resolve(Rendered(objs), TableEntries(objs, 5), Some(Reference(k, 0))) == Some(Contents(width, height, content)[k - 1])
  {
    hide Rendered, TableEntries, Objects, Resolve, ReadObject, Offset, PageObject, CATALOG, PAGES, FONT, IsNumberText;
    var objs := Objects(width, height, content);
    FiveObjects(width, height, content);
    RenderedObjects(width, height, content, k);
    EntryIs(objs, k);
    ResolvedAt(Rendered(objs), TableEntries(objs, 5), k, Contents(width, height, content)[k - 1]);
  }

  lemma EntryIs(objs: seq<string>, k: nat)
    requires |objs| == 5 && 1 <= k <= 5
    ensures |TableEntries(objs, 5)| == 6 && TableEntries(objs, 5)[k] == Entry(Offset(objs, k), 0, true)
  {
    hide TableEntries, Offset;
  }

  lemma ResolvedAt(file: string, entries: seq<Entry>, k: nat, o: Object)
    requires k < |entries| && entries[k].inUse && entries[k].generation == 0 && ReadObject(file, entries[k].offset, k) == Some(o)
    ensures Resolve(file, entries, Some(Reference(k, 0))) == Some(o)
  {
    hide ReadObject;
  }

  /** The trailer dictionary stands behind the table. */
  lemma TrailerFound(objs: seq<string>)
    requires |objs| == 5 && Offset(objs, 5) < LIMIT
    ensures |Body(objs, 5)| + |XREF| <= |Rendered(objs)|
    ensures ReadTrailer(Rendered(objs), XrefEnd(Rendered(objs), |Body(objs, 5)|, 6)) == Some(TRAILER_PAIRS)
  {
    hide *;
    var body, file := Body(objs, 5), Rendered(objs);
    var front := body + Section(6) + Table(objs, 5);
    FullTable(objs);
    RenderedParts(objs);
    SectionEnd(body, Table(objs, 5) + Trailer(6, |body|));
    TrailerLine();
    TrailerRead();
    FileParts(front, TrailerDictionary(6), STARTXREF, Itoa(|body|), EOF_MARK);
    TrailerAt(front, TRAILER_TEXT, STARTXREF + Itoa(|body|) + EOF_MARK);
  }

  lemma FullTable(objs: seq<string>)
    requires |objs| == 5 && Offset(objs, 5) < LIMIT
    ensures |Table(objs, 5)| == 120
  {
    hide *;
    TableLength(objs, 5);
  }

  lemma FileParts(a: string, b: string, c: string, d: string, e: string)
    ensures a + b + c + d + e == a + b + (c + d + e)
  {}

  lemma TrailerAt(front: string, text: string, back: string)
    requires '\n' !in text
    ensures ReadTrailer(front + (TRAILER + text + ['\n']) + back, |front|) == ReadDictionary(text)
  {
    hide ReadDictionary, Find;
    var file := front + (TRAILER + text + ['\n']) + back;
    var s := text + ['\n'] + back;
    assert file == front + TRAILER + s;
    assert file[|front| + |TRAILER|..] == s;
    AtInside(front, TRAILER, s);
    FindAfter(text, '\n', back);
    assert s[..|text|] == text;
  }

  /** The table of six entries ends 120 bytes behind its head. */
  lemma SectionEnd(body: string, rest: string)
    ensures var file := body + Section(6) + rest;
            |body| + |XREF| <= |file| && XrefEnd(file, |body|, 6) == |body| + |Section(6)| + 120
  {
    hide Itoa, DigitsEnd;
    var file, pos := body + Section(6) + rest, |body|;
    AtInside(body, Section(6), rest);
    Associate(XREF, Itoa(6), "\n");
    AtParts(file, pos, XREF, Itoa(6) + "\n");
    DigitsEndAt(file, pos + |XREF|, Itoa(6), '\n');
  }

  /** What the pairs say. */
  lemma LookedUp()
    ensures LookUp(TRAILER_PAIRS, "Size") == Some(Number("6")) && LookUp(TRAILER_PAIRS, "Root") == Some(Reference(1, 0))
    ensures LookUp(CATALOG_PAIRS, "Type") == Some(NameValue("Catalog"))
    ensures LookUp(CATALOG_PAIRS, "Pages") == Some(Reference(2, 0))
  {
    LookUpAt(TRAILER_PAIRS, 0, "Size");
    LookUpAt(TRAILER_PAIRS, 1, "Root");
    LookUpAt(CATALOG_PAIRS, 0, "Type");
    LookUpAt(CATALOG_PAIRS, 1, "Pages");
  }

  lemma PagesLookedUp()
    ensures LookUp(PAGES_PAIRS, "Type") == Some(NameValue("Pages"))
    ensures LookUp(PAGES_PAIRS, "Kids") == Some(Array([Reference(3, 0)]))
    ensures LookUp(PAGES_PAIRS, "Count") == Some(Number("1"))
  {
    hide LookUp;
    assert [Reference(3, 0)] + [] == [Reference(3, 0)];
    LookUpAt(PAGES_PAIRS, 0, "Type");
    LookUpAt(PAGES_PAIRS, 1, "Kids");
    LookUpAt(PAGES_PAIRS, 2, "Count");
  }

  lemma FontLookedUp()
    ensures LookUp(FONT_PAIRS, "Type") == Some(NameValue("Font"))
    ensures LookUp(FONT_PAIRS, "Subtype") == Some(NameValue("Type1"))
    ensures LookUp(FONT_PAIRS, "BaseFont") == Some(NameValue("Helvetica"))
  {
    hide LookUp;
    LookUpAt(FONT_PAIRS, 0, "Type");
    LookUpAt(FONT_PAIRS, 1, "Subtype");
    LookUpAt(FONT_PAIRS, 2, "BaseFont");
  }

  lemma PageLookedUp(width: string, height: string)
    ensures var page := PagePairs(width, height);
            && LookUp(page, "Type") == Some(NameValue("Page")) && LookUp(page, "Parent") == Some(Reference(2, 0))
            && LookUp(page, "MediaBox") == Some(Array(BoxValues(width, height)))
            && LookUp(page, "Contents") == Some(Reference(4, 0))
            && LookUp(page, "Resources") == Some(Dictionary(ResourcesPairs()))
  {
    hide BoxValues, LookUp;
    var page := PagePairs(width, height);
    LookUpAt(page, 0, "Type");
    LookUpAt(page, 1, "Parent");
    LookUpAt(page, 2, "MediaBox");
    LookUpAt(page, 3, "Contents");
    LookUpAt(page, 4, "Resources");
  }

  lemma FontOfPage(width: string, height: string)
    ensures LookUp(SubDictionary(SubDictionary(PagePairs(width, height), "Resources"), "Font"), "F1") == Some(Reference(5, 0))
  {
    PageLookedUp(width, height);
    hide LookUp, PagePairs;
    LookUpAt(ResourcesPairs(), 0, "Font");
    LookUpAt(FontsPairs(), 0, "F1");
  }

  lemma BoxIsSize(width: string, height: string)
    ensures ReadBox(Some(Array(BoxValues(width, height))))
            == if IsNumeral(width) && IsNumeral(height) then Some((width, height)) else None
  {
    hide IsNumeral;
  }

  lemma PageFound(width: string, height: string, content: string)
    requires IsNumberText(width) && IsNumberText(height)
    ensures var objs := Objects(width, height, content);
            ReadOnlyPage(Rendered(objs), TableEntries(objs, 5), Some(Reference(2, 0)))
            == if IsNumeral(width) && IsNumeral(height) then Some(Page(width, height, content, "Helvetica")) else None
  {
    hide *;
    var objs := Objects(width, height, content);
    var file, entries, page := Rendered(objs), TableEntries(objs, 5), PagePairs(width, height);
    ObjectsResolved(width, height, content);
    PagesRead();
    PagesLookedUp();
    FoundDictionary(file, entries, Some(Reference(2, 0)), PAGES, PAGES_PAIRS, "Pages");
    PageRead(width, height);
    PageLookedUp(width, height);
    FoundDictionary(file, entries, Some(Reference(3, 0)), PageObject(width, height), page, "Page");
    FontRead();
    FontLookedUp();
    FoundDictionary(file, entries, Some(Reference(5, 0)), FONT, FONT_PAIRS, "Font");
    FoundFont(file, entries, Some(Reference(5, 0)), FONT_PAIRS, "Helvetica");
    FontOfPage(width, height);
    FoundPage(file, entries, page, content, "Helvetica");
    BoxIsSize(width, height);
    FoundOnlyPage(file, entries, Some(Reference(2, 0)), PAGES_PAIRS, Reference(3, 0), page);
  }

  lemma ObjectsResolved(width: string, height: string, content: string)
    requires IsNumberText(width) && IsNumberText(height)
    ensures var objs := Objects(width, height, content);
            var file, entries := Rendered(objs), TableEntries(objs, 5);
            && Resolve(file, entries, Some(Reference(1, 0))) == Some(Plain(CATALOG))
            && Resolve(file, entries, Some(Reference(2, 0))) == Some(Plain(PAGES))
            && Resolve(file, entries, Some(Reference(3, 0))) == Some(Plain(PageObject(width, height)))
            && Resolve(file, entries, Some(Reference(4, 0))) == Some(Stream(content))
            && Resolve(file, entries, Some(Reference(5, 0))) == Some(Plain(FONT))
  {
    hide Rendered, TableEntries, Objects, Resolve, CATALOG, PAGES, PageObject, FONT, IsNumberText;
    Resolved(width, height, content, 1);
    Resolved(width, height, content, 2);
    Resolved(width, height, content, 3);
    Resolved(width, height, content, 4);
    Resolved(width, height, content, 5);
  }

  lemma CatalogFound(width: string, height: string, content: string)
    requires IsNumberText(width) && IsNumberText(height)
    ensures var objs := Objects(width, height, content);
            ResolveDictionary(Rendered(objs), TableEntries(objs, 5), Some(Reference(1, 0)), "Catalog") == Some(CATALOG_PAIRS)
  {
    hide *;
    var objs := Objects(width, height, content);
    ObjectsResolved(width, height, content);
    CatalogRead();
    LookedUp();
    FoundDictionary(Rendered(objs), TableEntries(objs, 5), Some(Reference(1, 0)), CATALOG, CATALOG_PAIRS, "Catalog");
  }

  /** Followed from its trailer over the references, the file gives the page's size, its content and its font,
      exactly when both sizes are finite and the last object starts below 10^10 bytes. */
  lemma ReadPageBack(width: string, height: string, content: string)
    requires IsNumberText(width) && IsNumberText(height)
    ensures var objs := Objects(width, height, content);
            ReadDocument(Rendered(objs))
            == if IsNumeral(width) && IsNumeral(height) && Offset(objs, 5) < LIMIT
               then Some(Page(width, height, content, "Helvetica")) else None
  {
    hide *;
    var objs := Objects(width, height, content);
    FiveObjects(width, height, content);
    ReadBackXref(objs);
    if Offset(objs, 5) < LIMIT {
      VersionFirst(objs);
      TrailerFound(objs);
      LookedUp();
      SixEntries(objs);
      CatalogFound(width, height, content);
      PageFound(width, height, content);
      FoundDocument(Rendered(objs), |Body(objs, 5)|, TableEntries(objs, 5), TRAILER_PAIRS, CATALOG_PAIRS);
    } else {
      NoDocument(Rendered(objs), |Body(objs, 5)|);
    }
  }

  lemma FiveObjects(width: string, height: string, content: string)
    ensures |Objects(width, height, content)| == 5
  {
    hide CATALOG, PAGES, PageObject, ContentObject, FONT;
  }

  lemma SixEntries(objs: seq<string>)
    requires |objs| == 5
    ensures |TableEntries(objs, 5)| == 6 && Itoa(6) == "6"
  {
    hide Offset;
  }

  /** A reader of the file finds the page size, the font and everything drawn on the page. */
  predicate Recovers(file: string, width: string, height: string, drawn: seq<Drawing>) {
    var page := ReadDocument(file);
    && page.Some? && page.value.width == width && page.value.height == height && page.value.baseFont == "Helvetica"
    && ReadContent(page.value.content) == Some(AllOperations(drawn))
  }

  /** End to end: a rendered document gives back its page size and everything drawn on it, exactly when the
      page size and the numbers drawn with are neither infinite nor NaN and the last object starts below
      10^10 bytes. Then the page shows the picture that was drawn. */
  lemma ReadDrawnDocument(width: string, height: string, drawn: seq<Drawing>)
    requires IsNumberText(width) && IsNumberText(height) && Drawable(drawn)
    ensures var objs := Objects(width, height, Shown(drawn));
            Recovers(Rendered(objs), width, height, drawn)
            <==> IsNumeral(width) && IsNumeral(height) && Numeric(drawn) && Offset(objs, 5) < LIMIT
    ensures PdfPicture.Painted(PdfPicture.Painting(PdfPicture.INITIAL, []), AllOperations(drawn)).marks == PdfPicture.Picture(drawn)
  {
    ReadPageBack(width, height, Shown(drawn));
    ReadDrawn(drawn);
    PdfPicture.PictureDrawn(drawn);
    hide ReadDocument, Rendered, Offset, Objects, ReadContent, Shown, AllOperations, Numeric, Drawable, IsNumberText, IsNumeral,
         PdfPicture.Painted, PdfPicture.Picture;
  }
}

/** How a PDF file hangs together, after ISO 32000-1: values (7.3), the trailer dictionary (7.5.5), and the way
    from it over the catalog and the page tree to a page, its content and its font (7.7, 9.6). */
module PdfStructure {
  import opened Wrappers
  import opened Text
  import opened PdfReader

  // ---- 7.3: values ----

  datatype Value =
    | NameValue(name: string)
    | Number(text: string)
    | Keyword(text: string)
    | StringValue(text: string)
    | Reference(number: nat, generation: nat)
    | Array(items: seq<Value>)
    | Dictionary(pairs: seq<Pair>)

  datatype Pair = Pair(key: string, value: Value)

  datatype Parsed<T> = Parsed(value: T, rest: seq<Token>)

  predicate IsNatural(t: Token) {
    t.Word? && t.text != [] && AllDigits(t.text)
  }

  predicate IsReference(ts: seq<Token>) {
    |ts| >= 3 && IsNatural(ts[0]) && IsNatural(ts[1]) && ts[2] == Word("R")
  }

  function ParseWord(ts: seq<Token>): (r: Parsed<Value>)
    requires ts != [] && ts[0].Word?
    ensures |r.rest| < |ts|
  {
    if IsReference(ts) then Parsed(Reference(Text.Value(ts[0].text), Text.Value(ts[1].text)), ts[3..])
    else if IsNumeral(ts[0].text) then Parsed(Number(ts[0].text), ts[1..])
    else Parsed(Keyword(ts[0].text), ts[1..])
  }

  /** The value at the front, and the tokens behind it. */
  function ParseValue(ts: seq<Token>): (r: Option<Parsed<Value>>)
    ensures r.Some? ==> |r.value.rest| < |ts|
    decreases |ts|, 0
  {
    if ts == [] then None else
    match ts[0]
    case Name(n) => Some(Parsed(NameValue(n), ts[1..]))
    case Text(s) => Some(Parsed(StringValue(s), ts[1..]))
    case Word(_) => Some(ParseWord(ts))
    case Symbol(x) =>
      if x == "[" then
        var items := ParseItems(ts[1..]);
        if items.None? then None else Some(Parsed(Array(items.value.value), items.value.rest))
      else if x == "<<" then
        var pairs := ParsePairs(ts[1..]);
        if pairs.None? then None else Some(Parsed(Dictionary(pairs.value.value), pairs.value.rest))
      else None
  }

  /** The values up to the closing bracket. */
  function ParseItems(ts: seq<Token>): (r: Option<Parsed<seq<Value>>>)
    ensures r.Some? ==> |r.value.rest| < |ts|
    decreases |ts|, 1
  {
    if ts == [] then None
    else if ts[0] == Symbol("]") then Some(Parsed([], ts[1..]))
    else
      var v := ParseValue(ts);
      if v.None? then None else
      var more := ParseItems(v.value.rest);
      if more.None? then None else Some(Parsed([v.value.value] + more.value.value, more.value.rest))
  }

  /** The keys with their values up to the end of the dictionary. */
  function ParsePairs(ts: seq<Token>): (r: Option<Parsed<seq<Pair>>>)
    ensures r.Some? ==> |r.value.rest| < |ts|
    decreases |ts|, 1
  {
    if ts == [] then None
    else if ts[0] == Symbol(">>") then Some(Parsed([], ts[1..]))
    else if !ts[0].Name? then None
    else
      var v := ParseValue(ts[1..]);
      if v.None? then None else
      var more := ParsePairs(v.value.rest);
      if more.None? then None else Some(Parsed([Pair(ts[0].text, v.value.value)] + more.value.value, more.value.rest))
  }

  function ReadDictionary(text: string): Option<seq<Pair>> {
    var ts := ReadTokens(text);
    if ts.None? then None else
    var v := ParseValue(ts.value);
    if v.Some? && v.value.value.Dictionary? && v.value.rest == [] then Some(v.value.value.pairs) else None
  }

  function LookUp(pairs: seq<Pair>, key: string): Option<Value> {
    if pairs == [] then None else if pairs[0].key == key then Some(pairs[0].value) else LookUp(pairs[1..], key)
  }

  // ---- 7.5.5: the trailer ----

  const TRAILER := "trailer\n"

  /** The dictionary on the line after the table. */
  function ReadTrailer(file: string, pos: nat): Option<seq<Pair>> {
    if !At(file, pos, TRAILER) then None else
    var s := file[pos + |TRAILER|..];
    ReadDictionary(s[..Find(s, '\n')])
  }

  /** Where the table that starts at pos ends. */
  function XrefEnd(file: string, pos: nat, count: nat): nat
    requires pos + |XREF| <= |file|
  {
    DigitsEnd(file, pos + |XREF|) + 1 + 20 * count
  }

  // ---- 7.3.10: references ----

  function Resolve(file: string, entries: seq<Entry>, v: Option<Value>): Option<Object> {
    if v.None? || !v.value.Reference? then None else
    var n := v.value.number;
    if n < |entries| && entries[n].inUse && entries[n].generation == v.value.generation
    then ReadObject(file, entries[n].offset, n) else None
  }

  /** The dictionary referred to, if it has this type. */
  function ResolveDictionary(file: string, entries: seq<Entry>, v: Option<Value>, kind: string): Option<seq<Pair>> {
    var o := Resolve(file, entries, v);
    if o.None? || !o.value.Plain? then None else
    var pairs := ReadDictionary(o.value.text);
    if pairs.Some? && LookUp(pairs.value, "Type") == Some(NameValue(kind)) then pairs else None
  }

  // ---- 7.7: from the trailer to the page ----

  /** What a page is made of; the font is the one that content calls F1. */
  datatype Page = Page(width: string, height: string, content: string, baseFont: string)

  function SubDictionary(pairs: seq<Pair>, key: string): seq<Pair> {
    var v := LookUp(pairs, key);
    if v.Some? && v.value.Dictionary? then v.value.pairs else []
  }

  function ReadFont(file: string, entries: seq<Entry>, v: Option<Value>): Option<string> {
    var font := ResolveDictionary(file, entries, v, "Font");
    if font.None? || LookUp(font.value, "Subtype") != Some(NameValue("Type1")) then None else
    var base := LookUp(font.value, "BaseFont");
    if base.Some? && base.value.NameValue? then Some(base.value.name) else None
  }

  /** The page's box starts at the origin. */
  function ReadBox(v: Option<Value>): Option<(string, string)> {
    if v.Some? && v.value.Array? && |v.value.items| == 4 && v.value.items[0] == v.value.items[1] == Number("0")
       && v.value.items[2].Number? && v.value.items[3].Number?
    then Some((v.value.items[2].text, v.value.items[3].text)) else None
  }

  function ReadPage(file: string, entries: seq<Entry>, page: seq<Pair>): Option<Page> {
    var box := ReadBox(LookUp(page, "MediaBox"));
    var content := Resolve(file, entries, LookUp(page, "Contents"));
    var font := ReadFont(file, entries, LookUp(SubDictionary(SubDictionary(page, "Resources"), "Font"), "F1"));
    if box.None? || content.None? || !content.value.Stream? || font.None? then None else
    Some(Page(box.value.0, box.value.1, content.value.data, font.value))
  }

  /** The only page of a page tree, which has to name the tree as its parent. */
  function ReadOnlyPage(file: string, entries: seq<Entry>, tree: Option<Value>): Option<Page> {
    var pages := ResolveDictionary(file, entries, tree, "Pages");
    if pages.None? || LookUp(pages.value, "Count") != Some(Number("1")) then None else
    var kids := LookUp(pages.value, "Kids");
    if kids.None? || !kids.value.Array? || |kids.value.items| != 1 then None else
    var page := ResolveDictionary(file, entries, Some(kids.value.items[0]), "Page");
    if page.None? || LookUp(page.value, "Parent") != tree then None else
    ReadPage(file, entries, page.value)
  }

  /** A document of one page. */
  function ReadDocument(file: string): Option<Page> {
    var pos := StartXref(file);
    if pos.None? || !At(file, 0, VERSION) then None else
    var entries := ReadXref(file, pos.value);
    if entries.None? || pos.value + |XREF| > |file| then None else
    var trailer := ReadTrailer(file, XrefEnd(file, pos.value, |entries.value|));
    if trailer.None? || LookUp(trailer.value, "Size") != Some(Number(Itoa(|entries.value|))) then None else
    var catalog := ResolveDictionary(file, entries.value, LookUp(trailer.value, "Root"), "Catalog");
    if catalog.None? then None else
    ReadOnlyPage(file, entries.value, LookUp(catalog.value, "Pages"))
  }

  // ---- Reading values one by one ----

  /** A key and the tokens of its value. */
  lemma PairStep(key: string, value: seq<Token>, v: Value, rest: seq<Token>, more: Parsed<seq<Pair>>)
    requires ParseValue(value + rest) == Some(Parsed(v, rest)) && ParsePairs(rest) == Some(more)
    ensures ParsePairs([Name(key)] + (value + rest)) == Some(Parsed([Pair(key, v)] + more.value, more.rest))
  {
    hide ParseValue;
    assert ([Name(key)] + (value + rest))[1..] == value + rest;
  }

  lemma NamePair(key: string, n: string, rest: seq<Token>, more: Parsed<seq<Pair>>)
    requires ParsePairs(rest) == Some(more)
    ensures ParsePairs([Name(key)] + ([Name(n)] + rest)) == Some(Parsed([Pair(key, NameValue(n))] + more.value, more.rest))
  {
    hide ParsePairs;
    assert ([Name(n)] + rest)[1..] == rest;
    PairStep(key, [Name(n)], NameValue(n), rest, more);
  }

  /** The tokens of a reference. */
  function Refers(number: nat, generation: nat): seq<Token> {
    [Word(Itoa(number)), Word(Itoa(generation)), Word("R")]
  }

  lemma ParseReference(number: nat, generation: nat, rest: seq<Token>)
    ensures ParseValue(Refers(number, generation) + rest) == Some(Parsed(Reference(number, generation), rest))
  {
    hide Itoa, Text.Value;
    var ts := Refers(number, generation) + rest;
    assert ts[0] == Word(Itoa(number)) && ts[1] == Word(Itoa(generation)) && ts[2] == Word("R") && ts[3..] == rest;
  }

  lemma ReferencePair(key: string, number: nat, generation: nat, rest: seq<Token>, more: Parsed<seq<Pair>>)
    requires ParsePairs(rest) == Some(more)
    ensures ParsePairs([Name(key)] + (Refers(number, generation) + rest))
            == Some(Parsed([Pair(key, Reference(number, generation))] + more.value, more.rest))
  {
    hide Refers, ParseValue, ParsePairs;
    ParseReference(number, generation, rest);
    PairStep(key, Refers(number, generation), Reference(number, generation), rest, more);
  }

  function NumberOrKeyword(w: string): Value {
    if IsNumeral(w) then Number(w) else Keyword(w)
  }

  /** A word before something other than two more words is no reference. */
  lemma ParseNumber(w: string, rest: seq<Token>)
    requires |rest| >= 2 ==> !rest[0].Word? || rest[1] != Word("R")
    ensures ParseValue([Word(w)] + rest) == Some(Parsed(NumberOrKeyword(w), rest))
  {
    hide IsNumeral, AllDigits;
    var ts := [Word(w)] + rest;
    assert ts[1..] == rest;
    assert |ts| >= 3 ==> ts[1] == rest[0] && ts[2] == rest[1];
  }

  lemma NumberPair(key: string, w: string, rest: seq<Token>, more: Parsed<seq<Pair>>)
    requires (|rest| >= 2 ==> !rest[0].Word? || rest[1] != Word("R")) && ParsePairs(rest) == Some(more)
    ensures ParsePairs([Name(key)] + ([Word(w)] + rest)) == Some(Parsed([Pair(key, NumberOrKeyword(w))] + more.value, more.rest))
  {
    hide ParseValue, ParsePairs, NumberOrKeyword;
    ParseNumber(w, rest);
    PairStep(key, [Word(w)], NumberOrKeyword(w), rest, more);
  }

  lemma EndOfPairs(rest: seq<Token>)
    ensures ParsePairs([Symbol(">>")] + rest) == Some(Parsed([], rest))
  {
    assert ([Symbol(">>")] + rest)[1..] == rest;
  }

  /** A dictionary as a value, its pairs being read already. */
  lemma ParseDictionary(inner: seq<Token>, pairs: seq<Pair>, rest: seq<Token>)
    requires ParsePairs(inner) == Some(Parsed(pairs, rest))
    ensures ParseValue([Symbol("<<")] + inner) == Some(Parsed(Dictionary(pairs), rest))
  {
    hide ParsePairs;
    assert ([Symbol("<<")] + inner)[1..] == inner;
  }

  lemma DictionaryPair(key: string, inner: seq<Token>, pairs: seq<Pair>, rest: seq<Token>, more: Parsed<seq<Pair>>)
    requires ParsePairs(inner) == Some(Parsed(pairs, rest)) && ParsePairs(rest) == Some(more)
    ensures ParsePairs([Name(key)] + ([Symbol("<<")] + inner)) == Some(Parsed([Pair(key, Dictionary(pairs))] + more.value, more.rest))
  {
    ParseDictionary(inner, pairs, rest);
    hide ParseValue;
    assert ([Name(key)] + ([Symbol("<<")] + inner))[1..] == [Symbol("<<")] + inner;
  }

  lemma ParseArray(inner: seq<Token>, items: seq<Value>, rest: seq<Token>)
    requires ParseItems(inner) == Some(Parsed(items, rest))
    ensures ParseValue([Symbol("[")] + inner) == Some(Parsed(Array(items), rest))
  {
    hide ParseItems;
    assert ([Symbol("[")] + inner)[1..] == inner;
  }

  lemma ArrayPair(key: string, inner: seq<Token>, items: seq<Value>, rest: seq<Token>, more: Parsed<seq<Pair>>)
    requires ParseItems(inner) == Some(Parsed(items, rest)) && ParsePairs(rest) == Some(more)
    ensures ParsePairs([Name(key)] + ([Symbol("[")] + inner)) == Some(Parsed([Pair(key, Array(items))] + more.value, more.rest))
  {
    ParseArray(inner, items, rest);
    hide ParseValue, ParseItems;
    assert ([Name(key)] + ([Symbol("[")] + inner))[1..] == [Symbol("[")] + inner;
  }

  lemma ItemStep(ts: seq<Token>, v: Parsed<Value>, more: Parsed<seq<Value>>)
    requires ts != [] && ts[0] != Symbol("]") && ParseValue(ts) == Some(v) && ParseItems(v.rest) == Some(more)
    ensures ParseItems(ts) == Some(Parsed([v.value] + more.value, more.rest))
  {
    hide ParseValue;
  }

  lemma EndOfItems(rest: seq<Token>)
    ensures ParseItems([Symbol("]")] + rest) == Some(Parsed([], rest))
  {
    assert ([Symbol("]")] + rest)[1..] == rest;
  }

  /** A text whose tokens are a dictionary. */
  lemma DictionaryRead(text: string, inner: seq<Token>, pairs: seq<Pair>)
    requires ReadTokens(text) == Some([Symbol("<<")] + inner) && ParsePairs(inner) == Some(Parsed(pairs, []))
    ensures ReadDictionary(text) == Some(pairs)
  {
    ParseDictionary(inner, pairs, []);
    hide ReadTokens, ParseValue, ParsePairs;
  }

  /** A key is found at its first place. */
  lemma {:induction false} LookUpAt(pairs: seq<Pair>, k: nat, key: string)
    requires k < |pairs| && pairs[k].key == key && forall i | 0 <= i < k :: pairs[i].key != key
    ensures LookUp(pairs, key) == Some(pairs[k].value)
  {
    if k == 0 {
    } else {
      LookUpAt(pairs[1..], k - 1, key);
    }
  }

  lemma FoundDictionary(file: string, entries: seq<Entry>, v: Option<Value>, text: string, pairs: seq<Pair>, kind: string)
    requires Resolve(file, entries, v) == Some(Plain(text)) && ReadDictionary(text) == Some(pairs)
    requires LookUp(pairs, "Type") == Some(NameValue(kind))
    ensures ResolveDictionary(file, entries, v, kind) == Some(pairs)
  {
    hide Resolve, ReadDictionary, LookUp;
  }

  lemma FoundFont(file: string, entries: seq<Entry>, v: Option<Value>, pairs: seq<Pair>, name: string)
    requires ResolveDictionary(file, entries, v, "Font") == Some(pairs)
    requires LookUp(pairs, "Subtype") == Some(NameValue("Type1")) && LookUp(pairs, "BaseFont") == Some(NameValue(name))
    ensures ReadFont(file, entries, v) == Some(name)
  {
    hide ResolveDictionary, LookUp;
  }

  lemma FoundPage(file: string, entries: seq<Entry>, page: seq<Pair>, content: string, font: string)
    requires Resolve(file, entries, LookUp(page, "Contents")) == Some(Stream(content))
    requires ReadFont(file, entries, LookUp(SubDictionary(SubDictionary(page, "Resources"), "Font"), "F1")) == Some(font)
    ensures var box := ReadBox(LookUp(page, "MediaBox"));
            ReadPage(file, entries, page) == if box.None? then None else Some(Page(box.value.0, box.value.1, content, font))
  {
    hide Resolve, ReadFont, LookUp, SubDictionary, ReadBox;
  }

  lemma FoundOnlyPage(file: string, entries: seq<Entry>, tree: Option<Value>, pages: seq<Pair>, kid: Value, page: seq<Pair>)
    requires ResolveDictionary(file, entries, tree, "Pages") == Some(pages)
    requires LookUp(pages, "Count") == Some(Number("1")) && LookUp(pages, "Kids") == Some(Array([kid]))
    requires ResolveDictionary(file, entries, Some(kid), "Page") == Some(page) && LookUp(page, "Parent") == tree
    ensures ReadOnlyPage(file, entries, tree) == ReadPage(file, entries, page)
  {
    hide ResolveDictionary, LookUp, ReadPage;
  }

  lemma FoundDocument(file: string, pos: nat, entries: seq<Entry>, trailer: seq<Pair>, catalog: seq<Pair>)
    requires StartXref(file) == Some(pos) && At(file, 0, VERSION) && ReadXref(file, pos) == Some(entries)
    requires pos + |XREF| <= |file| && ReadTrailer(file, XrefEnd(file, pos, |entries|)) == Some(trailer)
    requires LookUp(trailer, "Size") == Some(Number(Itoa(|entries|)))
    requires ResolveDictionary(file, entries, LookUp(trailer, "Root"), "Catalog") == Some(catalog)
    ensures ReadDocument(file) == ReadOnlyPage(file, entries, LookUp(catalog, "Pages"))
  {
    hide StartXref, At, ReadXref, ReadTrailer, XrefEnd, LookUp, Itoa, ResolveDictionary, ReadOnlyPage, XREF;
  }

  lemma NoDocument(file: string, pos: nat)
    requires StartXref(file) == Some(pos) && ReadXref(file, pos) == None
    ensures ReadDocument(file) == None
  {
    hide StartXref, At, ReadXref;
  }
}

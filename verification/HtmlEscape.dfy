/** HTML escaping: src/server/service/export_service.go, escapeHTML. */
module HtmlEscape {
  import opened Text

  function EscapeHtml(s: string): string {
    var a := ReplaceAll(s, '&', "&amp;");
    var b := ReplaceAll(a, '<', "&lt;");
    var c := ReplaceAll(b, '>', "&gt;");
    var d := ReplaceAll(c, '\"', "&quot;");
    ReplaceAll(d, '\'', "&#39;")
  }

  /** What one character becomes. */
  function Entity(c: char): string {
    match c
    case '&' => "&amp;"
    case '<' => "&lt;"
    case '>' => "&gt;"
    case '\"' => "&quot;"
    case '\'' => "&#39;"
    case _ => [c]
  }

  /** One pass from left to right. */
  function Mapped(s: string): string {
    if s == [] then [] else Entity(s[0]) + Mapped(s[1..])
  }

  lemma EscapeAppend(a: string, b: string)
    ensures EscapeHtml(a + b) == EscapeHtml(a) + EscapeHtml(b)
  {
    ReplaceAppend(a, b, '&', "&amp;");
    var a1, b1 := ReplaceAll(a, '&', "&amp;"), ReplaceAll(b, '&', "&amp;");
    ReplaceAppend(a1, b1, '<', "&lt;");
    var a2, b2 := ReplaceAll(a1, '<', "&lt;"), ReplaceAll(b1, '<', "&lt;");
    ReplaceAppend(a2, b2, '>', "&gt;");
    var a3, b3 := ReplaceAll(a2, '>', "&gt;"), ReplaceAll(b2, '>', "&gt;");
    ReplaceAppend(a3, b3, '\"', "&quot;");
    var a4, b4 := ReplaceAll(a3, '\"', "&quot;"), ReplaceAll(b3, '\"', "&quot;");
    ReplaceAppend(a4, b4, '\'', "&#39;");
  }

  lemma EscapeOne(c: char)
    ensures EscapeHtml([c]) == Entity(c)
  {
    ReplaceOne(c, '&', "&amp;");
    if c == '&' {
      KeepEntity("&amp;");
    } else {
      ReplaceOne(c, '<', "&lt;");
      ReplaceOne(c, '>', "&gt;");
      ReplaceOne(c, '\"', "&quot;");
      ReplaceOne(c, '\'', "&#39;");
      if c == '<' {
        KeepEntity("&lt;");
      } else if c == '>' {
        KeepEntity("&gt;");
      } else if c == '\"' {
        KeepEntity("&quot;");
      }
    }
  }

  /** The later passes leave an entity alone. */
  lemma KeepEntity(e: string)
    requires '<' !in e && '>' !in e && '\"' !in e && '\'' !in e
    ensures ReplaceAll(e, '<', "&lt;") == ReplaceAll(e, '>', "&gt;") == e
    ensures ReplaceAll(e, '\"', "&quot;") == ReplaceAll(e, '\'', "&#39;") == e
  {
    ReplaceAbsent(e, '<', "&lt;");
    ReplaceAbsent(e, '>', "&gt;");
    ReplaceAbsent(e, '\"', "&quot;");
    ReplaceAbsent(e, '\'', "&#39;");
  }

  /** The five passes over the whole string are one pass, character by character. */
  lemma {:induction false} FivePassesAreOne(s: string)
    ensures EscapeHtml(s) == Mapped(s)
  {
    if s == [] {
    } else {
      assert s == [s[0]] + s[1..];
      EscapeAppend([s[0]], s[1..]);
      EscapeOne(s[0]);
      FivePassesAreOne(s[1..]);
    }
  }

  predicate IsMarkup(c: char) {
    c in "<>\"\'"
  }

  /** No markup character is left. */
  lemma {:induction false} NoMarkup(s: string)
    ensures forall i | 0 <= i < |Mapped(s)| :: !IsMarkup(Mapped(s)[i])
  {
    if s == [] {
    } else {
      NoMarkup(s[1..]);
    }
  }

  // ---- Decoding ----

  /** One pass that turns the five entities back into their characters. */
  function Decoded(s: string): string
    decreases |s|
  {
    if s == [] then []
    else if "&amp;" <= s then "&" + Decoded(s[5..])
    else if "&lt;" <= s then "<" + Decoded(s[4..])
    else if "&gt;" <= s then ">" + Decoded(s[4..])
    else if "&quot;" <= s then "\"" + Decoded(s[6..])
    else if "&#39;" <= s then "\'" + Decoded(s[5..])
    else [s[0]] + Decoded(s[1..])
  }

  lemma DecodePrefix(e: string, rest: string)
    ensures e <= e + rest && (e + rest)[|e|..] == rest
    ensures forall i | 0 <= i < |e| :: (e + rest)[i] == e[i]
  {}

  lemma DecodeAmp(rest: string)
    ensures Decoded("&amp;" + rest) == "&" + Decoded(rest)
  {
    DecodePrefix("&amp;", rest);
  }

  lemma DecodeLt(rest: string)
    ensures Decoded("&lt;" + rest) == "<" + Decoded(rest)
  {
    DecodePrefix("&lt;", rest);
    assert "&lt;"[1] == 'l' && "&amp;"[1] == 'a';
  }

  lemma DecodeGt(rest: string)
    ensures Decoded("&gt;" + rest) == ">" + Decoded(rest)
  {
    DecodePrefix("&gt;", rest);
    assert "&gt;"[1] == 'g' && "&amp;"[1] == 'a' && "&lt;"[1] == 'l';
  }

  lemma DecodeQuot(rest: string)
    ensures Decoded("&quot;" + rest) == "\"" + Decoded(rest)
  {
    DecodePrefix("&quot;", rest);
    assert "&quot;"[1] == 'q' && "&amp;"[1] == 'a' && "&lt;"[1] == 'l' && "&gt;"[1] == 'g';
  }

  lemma DecodeApostrophe(rest: string)
    ensures Decoded("&#39;" + rest) == "\'" + Decoded(rest)
  {
    DecodePrefix("&#39;", rest);
    assert "&#39;"[1] == '#' && "&amp;"[1] == 'a' && "&lt;"[1] == 'l' && "&gt;"[1] == 'g' && "&quot;"[1] == 'q';
  }

  lemma DecodeOther(c: char, rest: string)
    requires c != '&'
    ensures Decoded([c] + rest) == [c] + Decoded(rest)
  {
    var s := [c] + rest;
    assert s[0] == c && s[1..] == rest;
    assert "&amp;"[0] == "&lt;"[0] == "&gt;"[0] == "&quot;"[0] == "&#39;"[0] == '&';
  }

  lemma DecodeEntity(c: char, rest: string)
    ensures Decoded(Entity(c) + rest) == [c] + Decoded(rest)
  {
    hide Decoded;
    match c
    case '&' => DecodeAmp(rest);
    case '<' => DecodeLt(rest);
    case '>' => DecodeGt(rest);
    case '\"' => DecodeQuot(rest);
    case '\'' => DecodeApostrophe(rest);
    case _ => DecodeOther(c, rest);
  }

  /** Decoding recovers the text, so no two texts escape alike. */
  lemma {:induction false} DecodeMapped(s: string)
    ensures Decoded(Mapped(s)) == s
  {
    if s == [] {
    } else {
      DecodeEntity(s[0], Mapped(s[1..]));
      DecodeMapped(s[1..]);
    }
  }

  lemma EscapeInjective(s: string, t: string)
    requires EscapeHtml(s) == EscapeHtml(t)
    ensures s == t
  {
    FivePassesAreOne(s);
    FivePassesAreOne(t);
    DecodeMapped(s);
    DecodeMapped(t);
  }
}

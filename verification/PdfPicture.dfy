/** What a content stream paints, after ISO 32000-1: colour (8.6.8), paths (8.5.2, 8.5.3) and text (9.4). The
    operators are those that src/server/service/pdf.go writes; positions stay the text of their numbers. */
module PdfPicture {
  import opened Wrappers
  import opened Text
  import opened PdfReader
  import opened PdfContent

  datatype Color = Black | Rgb(r: string, g: string, b: string)

  datatype Box = Box(x: string, y: string, width: string, height: string)

  datatype Offset = Offset(dx: string, dy: string)

  /** Boxes filled in one go, or a text at the sum of the moves since its text object began. */
  datatype Mark =
    | Fill(boxes: seq<Box>, color: Color)
    | Glyphs(text: string, font: string, size: string, moves: seq<Offset>, color: Color)

  /** The initial colour is black; nothing else is set. */
  datatype Graphics = Graphics(color: Color, path: seq<Box>, font: string, size: string, moves: seq<Offset>, inText: bool)

  const INITIAL := Graphics(Black, [], "", "", [], false)

  datatype Painting = Painting(graphics: Graphics, marks: seq<Mark>)

  predicate AreWords(ts: seq<Token>, n: nat) {
    |ts| == n && forall i | 0 <= i < n :: ts[i].Word?
  }

  function Perform(p: Painting, op: Operation): Painting {
    var ts, g := op.operands, p.graphics;
    if op.operator == "rg" && AreWords(ts, 3) then
      p.(graphics := g.(color := Rgb(ts[0].text, ts[1].text, ts[2].text)))
    else if op.operator == "re" && AreWords(ts, 4) then
      p.(graphics := g.(path := g.path + [Box(ts[0].text, ts[1].text, ts[2].text, ts[3].text)]))
    else if op.operator == "f" then
      Painting(g.(path := []), p.marks + [Fill(g.path, g.color)])
    else if op.operator == "BT" then
      p.(graphics := g.(moves := [], inText := true))
    else if op.operator == "Tf" && |ts| == 2 && ts[0].Name? && ts[1].Word? then
      p.(graphics := g.(font := ts[0].text, size := ts[1].text))
    else if op.operator == "Td" && AreWords(ts, 2) && g.inText then
      p.(graphics := g.(moves := g.moves + [Offset(ts[0].text, ts[1].text)]))
    else if op.operator == "Tj" && |ts| == 1 && ts[0].Text? && g.inText then
      Painting(g, p.marks + [Glyphs(ts[0].text, g.font, g.size, g.moves, g.color)])
    else if op.operator == "ET" then
      p.(graphics := g.(inText := false))
    else p
  }

  function Painted(p: Painting, ops: seq<Operation>): Painting
    decreases |ops|
  {
    if ops == [] then p else Painted(Perform(p, ops[0]), ops[1..])
  }

  // ---- What the document's author drew ----

  /** The colour that is set after these drawings. */
  function ColorAfter(ds: seq<Drawing>): Color {
    if ds == [] then Black else
    match ds[|ds| - 1]
    case FillColor(r, g, b) => Rgb(r, g, b)
    case _ => ColorAfter(ds[..|ds| - 1])
  }

  /** The rectangles and texts in order, each in the colour set last. */
  function Picture(ds: seq<Drawing>): seq<Mark> {
    if ds == [] then [] else
    var before, color := Picture(ds[..|ds| - 1]), ColorAfter(ds[..|ds| - 1]);
    match ds[|ds| - 1]
    case FillColor(_, _, _) => before
    case Rectangle(x, y, w, h) => before + [Fill([Box(x, y, w, h)], color)]
    case TextLine(x, y, size, text) => before + [Glyphs(Printable(text), "F1", size, [Offset(x, y)], color)]
  }

  lemma PaintedStep(p: Painting, op: Operation, rest: seq<Operation>)
    ensures Painted(p, [op] + rest) == Painted(Perform(p, op), rest)
  {
    hide Perform;
    assert ([op] + rest)[1..] == rest;
  }

  lemma {:induction false} PaintedAppend(p: Painting, a: seq<Operation>, b: seq<Operation>)
    ensures Painted(p, a + b) == Painted(Painted(p, a), b)
    decreases |a|
  {
    hide Perform;
    if a == [] {
      assert a + b == b;
    } else {
      assert a + b == [a[0]] + (a[1..] + b);
      PaintedStep(p, a[0], a[1..] + b);
      PaintedAppend(Perform(p, a[0]), a[1..], b);
    }
  }

  lemma NothingPainted(p: Painting)
    ensures Painted(p, []) == p
  {}

  lemma ColorPainted(p: Painting, d: Drawing)
    requires d.FillColor?
    ensures Painted(p, Operations(d)) == p.(graphics := p.graphics.(color := Rgb(d.r, d.g, d.b)))
  {
    var op := Operations(d)[0];
    assert Operations(d) == [op] + [];
    PaintedStep(p, op, []);
    NothingPainted(Perform(p, op));
  }

  lemma RectanglePainted(p: Painting, d: Drawing)
    requires d.Rectangle? && p.graphics.path == []
    ensures Painted(p, Operations(d)) == p.(marks := p.marks + [Fill([Box(d.x, d.y, d.w, d.h)], p.graphics.color)])
  {
    var ops := Operations(d);
    assert ops == [ops[0]] + ([ops[1]] + []);
    PaintedStep(p, ops[0], [ops[1]] + []);
    PaintedStep(Perform(p, ops[0]), ops[1], []);
    NothingPainted(Perform(Perform(p, ops[0]), ops[1]));
    hide Painted;
    assert [] + [Box(d.x, d.y, d.w, d.h)] == [Box(d.x, d.y, d.w, d.h)];
  }

  lemma TextPainted(p: Painting, d: Drawing)
    requires d.TextLine?
    ensures var q := Painted(p, Operations(d));
            && q.marks == p.marks + [Glyphs(Printable(d.text), "F1", d.size, [Offset(d.x, d.y)], p.graphics.color)]
            && q.graphics.color == p.graphics.color && q.graphics.path == p.graphics.path
  {
    var ops := Operations(d);
    assert |ops| == 5 && ops == [ops[0]] + ([ops[1]] + ([ops[2]] + ([ops[3]] + ([ops[4]] + []))));
    TextPerformed(p, d);
    hide Painted, Perform, Operations;
    var p1 := Perform(p, ops[0]);
    var p2 := Perform(p1, ops[1]);
    var p3 := Perform(p2, ops[2]);
    var p4 := Perform(p3, ops[3]);
    PaintedStep(p, ops[0], [ops[1]] + ([ops[2]] + ([ops[3]] + ([ops[4]] + []))));
    PaintedStep(p1, ops[1], [ops[2]] + ([ops[3]] + ([ops[4]] + [])));
    PaintedStep(p2, ops[2], [ops[3]] + ([ops[4]] + []));
    PaintedStep(p3, ops[3], [ops[4]] + []);
    PaintedStep(p4, ops[4], []);
    NothingPainted(Perform(p4, ops[4]));
  }

  lemma TextPerformed(p: Painting, d: Drawing)
    requires d.TextLine?
    ensures var ops := Operations(d);
            |ops| == 5
    ensures var ops := Operations(d);
            var q := Perform(Perform(Perform(Perform(Perform(p, ops[0]), ops[1]), ops[2]), ops[3]), ops[4]);
            && q.marks == p.marks + [Glyphs(Printable(d.text), "F1", d.size, [Offset(d.x, d.y)], p.graphics.color)]
            && q.graphics.color == p.graphics.color && q.graphics.path == p.graphics.path
  {
    hide Printable;
    assert [] + [Offset(d.x, d.y)] == [Offset(d.x, d.y)];
  }

  /** The content paints what was drawn: each rectangle and each text's printable characters, in order, where
      they were put, in the colour set last, texts in font F1 at their size. */
  lemma {:induction false} PictureDrawn(ds: seq<Drawing>)
    ensures var p := Painted(Painting(INITIAL, []), AllOperations(ds));
            p.marks == Picture(ds) && p.graphics.color == ColorAfter(ds) && p.graphics.path == []
  {
    hide Painted, Operations, Perform, Printable;
    var start := Painting(INITIAL, []);
    if ds == [] {
      NothingPainted(start);
    } else {
      var init, d := ds[..|ds| - 1], ds[|ds| - 1];
      PictureDrawn(init);
      PaintedAppend(start, AllOperations(init), Operations(d));
      var p := Painted(start, AllOperations(init));
      match d
      case FillColor(_, _, _) => ColorPainted(p, d);
      case Rectangle(_, _, _, _) => RectanglePainted(p, d);
      case TextLine(_, _, _, _) => TextPainted(p, d);
    }
  }
}

/** The text layout of `txt_to_pdf_multilang` (and of its Hindi-only twin):
    the text is cut into sections at the page sentinel, each non-blank
    section is laid out line by line from the top of a fresh page, lines are
    greedily word-wrapped against the measured width, and the cursor `y`
    breaks to a new page at the bottom margin.

    The reportlab canvas is a log of the calls made on it; `stringWidth` at
    the chosen font and size is the parameter `width`. Layout units are
    PostScript points, the A4 sizes being reportlab's. */
module Layout {
  import opened Text

  const PageWidth: real := 595.2755905511812
  const PageHeight: real := 841.8897637795277
  /** Left margin, bottom margin, and distance of the first line from the top. */
  const Margin: real := 50.0
  /** Where every page's text starts. */
  const Top: real := PageHeight - Margin
  const MaxWidth: real := PageWidth - 100.0
  const LineHeight: real := 16.0
  const BlankAdvance: real := 8.0
  const FontSize: nat := 11
  /** The page sentinel the transcript is split on. */
  const Sentinel: string := "--- Page"

  /** A call made on the canvas. */
  datatype Event = Font(name: string, size: nat) | Draw(x: real, y: real, text: string) | NewPage

  /** A reportlab canvas, seen through the calls made on it. */
  class Canvas {
    var events: seq<Event>

    constructor ()
      ensures events == []
    {
      events := [];
    }

    method SetFont(name: string, size: nat)
      modifies this
      ensures events == old(events) + [Font(name, size)]
    {
      events := events + [Font(name, size)];
    }

    method DrawString(x: real, y: real, text: string)
      modifies this
      ensures events == old(events) + [Draw(x, y, text)]
    {
      events := events + [Draw(x, y, text)];
    }

    method ShowPage()
      modifies this
      ensures events == old(events) + [NewPage]
    {
      events := events + [NewPage];
    }
  }

  /** The cursor and the canvas log between source lines. */
  datatype Pen = Pen(y: real, events: seq<Event>)

  /** The state of the word-wrap loop: the pen and the line being built. */
  datatype Wrap = Wrap(pen: Pen, line: string)

  /** The line being built with one more word. */
  function Candidate(line: string, word: string): string {
    if line != "" then line + " " + word else word
  }

  function WordStep(w: Wrap, word: string, width: string -> real): Wrap {
    var test := Candidate(w.line, word);
    if width(test) > MaxWidth && w.line != "" then
      var events := w.pen.events + [Draw(Margin, w.pen.y, w.line)];
      var y := w.pen.y - LineHeight;
      if y < Margin then Wrap(Pen(Top, events + [NewPage]), word) else Wrap(Pen(y, events), word)
    else
      Wrap(w.pen, test)
  }

  function WrapWords(w: Wrap, words: seq<string>, width: string -> real): Wrap
    decreases |words|
  {
    if words == [] then w else WrapWords(WordStep(w, words[0], width), words[1..], width)
  }

  /** Drawing what is left of the line once the words run out. */
  function FinishLine(w: Wrap): Pen {
    if w.line != "" then Pen(w.pen.y - LineHeight, w.pen.events + [Draw(Margin, w.pen.y, w.line)]) else w.pen
  }

  /** The check made before every source line: below the bottom margin, a
      new page and the pen back at the top. */
  function PageCheck(p: Pen): Pen {
    if p.y < Margin then Pen(Top, p.events + [NewPage]) else p
  }

  /** The words of a non-blank line, wrapped in the given font. */
  function WordLine(q: Pen, words: seq<string>, font: string, width: string -> real): Pen {
    FinishLine(WrapWords(Wrap(Pen(q.y, q.events + [Font(font, FontSize)]), ""), words, width))
  }

  function LineStep(p: Pen, line: string, font: string, width: string -> real): Pen {
    var q := PageCheck(p);
    if Strip(line) == "" then Pen(q.y - BlankAdvance, q.events)
    else WordLine(q, Words(line), font, width)
  }

  function LayoutLines(p: Pen, lines: seq<string>, font: string, width: string -> real): Pen
    decreases |lines|
  {
    if lines == [] then p else LayoutLines(LineStep(p, lines[0], font, width), lines[1..], font, width)
  }

  /** A section adds nothing when blank; otherwise its lines from the top of a
      page, then a page break. */
  function SectionStep(events: seq<Event>, section: string, font: string, width: string -> real): seq<Event> {
    if Strip(section) == "" then events
    else LayoutLines(Pen(Top, events), Split(Strip(section), "\n"), font, width).events + [NewPage]
  }

  function LayoutSections(events: seq<Event>, sections: seq<string>, font: string, width: string -> real): seq<Event>
    decreases |sections|
  {
    if sections == [] then events
    else LayoutSections(SectionStep(events, sections[0], font, width), sections[1..], font, width)
  }

  /** The text cut at every sentinel (the whole text when there is none). */
  function Sections(text: string): seq<string> {
    if Contains(text, Sentinel) then Split(text, Sentinel) else [text]
  }

  /** Everything drawn for a text on a fresh canvas. */
  function Document(text: string, font: string, width: string -> real): seq<Event> {
    LayoutSections([], Sections(text), font, width)
  }

  /** One source line of the layout loop: the page-break check, then either
      the word-wrapped line or the half-line advance of a blank line. */
  method DrawLine(c: Canvas, y0: real, line: string, font: string, width: string -> real) returns (y: real)
    modifies c
    ensures Pen(y, c.events) == LineStep(Pen(y0, old(c.events)), line, font, width)
  {
    y := y0;
    if y < Margin {
      c.ShowPage();
      y := Top;
    }
    assert Pen(y, c.events) == PageCheck(Pen(y0, old(c.events)));
    if Strip(line) != "" {
      y := DrawWords(c, y, Words(line), font, width);
    } else {
      y := y - BlankAdvance;
    }
  }

  /** The words of a non-blank line: the font call, then the greedy wrap loop
      and the rest of the line. */
  method DrawWords(c: Canvas, y0: real, words: seq<string>, font: string, width: string -> real) returns (y: real)
    modifies c
    ensures Pen(y, c.events) == WordLine(Pen(y0, old(c.events)), words, font, width)
  {
    c.SetFont(font, FontSize);
    y := y0;
    var current := "";
    ghost var target := WrapWords(Wrap(Pen(y, c.events), current), words, width);
    var k := 0;
    while k < |words|
      invariant 0 <= k <= |words|
      invariant WrapWords(Wrap(Pen(y, c.events), current), words[k..], width) == target
    {
      var word := words[k];
      var test := if current != "" then current + " " + word else word;
      if width(test) > MaxWidth && current != "" {
        c.DrawString(Margin, y, current);
        y := y - LineHeight;
        current := word;
        if y < Margin {
          c.ShowPage();
          y := Top;
        }
      } else {
        current := test;
      }
      assert words[k..][1..] == words[k + 1..];
      k := k + 1;
    }
    if current != "" {
      c.DrawString(Margin, y, current);
      y := y - LineHeight;
    }
  }

  /** One section of the layout loop: nothing for a blank section, otherwise
      its lines from the top of a page and a page break. */
  method DrawSection(c: Canvas, section: string, font: string, width: string -> real)
    modifies c
    ensures c.events == SectionStep(old(c.events), section, font, width)
  {
    if Strip(section) != "" {
      var y := Top;
      var lines := Split(Strip(section), "\n");
      var j := 0;
      while j < |lines|
        invariant 0 <= j <= |lines|
        invariant LayoutLines(Pen(y, c.events), lines[j..], font, width) == LayoutLines(Pen(Top, old(c.events)), lines, font, width)
      {
        y := DrawLine(c, y, lines[j], font, width);
        assert lines[j..][1..] == lines[j + 1..];
        j := j + 1;
      }
      c.ShowPage();
    }
  }

  /** The layout of `txt_to_pdf_multilang` and `txt_to_pdf_with_hindi`: every
      section of the text in turn, on the canvas `c`. */
  method DrawSections(c: Canvas, text: string, font: string, width: string -> real)
    modifies c
    ensures c.events == LayoutSections(old(c.events), Sections(text), font, width)
  {
    var sections := Sections(text);
    ghost var target := LayoutSections(c.events, sections, font, width);
    var i := 0;
    while i < |sections|
      invariant 0 <= i <= |sections|
      invariant LayoutSections(c.events, sections[i..], font, width) == target
    {
      ghost var rest := sections[i..];
      DrawSection(c, sections[i], font, width);
      assert rest[1..] == sections[i + 1..];
      i := i + 1;
    }
  }
}

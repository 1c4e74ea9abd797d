/** What the layout of `txt_to_pdf_multilang` guarantees: the words of every
    source line are drawn in order and nothing else is drawn; each drawn line
    fits the usable width unless it is a single word too wide for it; a line
    is broken only when the next word does not fit; every string is drawn at
    the left margin, between the bottom margin and the top line; and each
    line on a page is at least a line height below the one before it. */
module LayoutProperties {
  import opened Wrappers
  import opened Text
  import opened Layout

  // ----- what is drawn -----

  /** The strings drawn, in order. */
  function DrawnTexts(events: seq<Event>): seq<string> {
    if events == [] then []
    else
      var e := events[|events| - 1];
      DrawnTexts(events[..|events| - 1]) + (if e.Draw? then [e.text] else [])
  }

  /** Greedy line filling, stated on words alone: a word joins the current
      line while the result fits in `MaxWidth`, otherwise it starts the next
      line. */
  function GreedyLines(line: string, words: seq<string>, width: string -> real): seq<string>
    decreases |words|
  {
    if words == [] then (if line != "" then [line] else [])
    else
      var test := Candidate(line, words[0]);
      if width(test) > MaxWidth && line != "" then [line] + GreedyLines(words[0], words[1..], width)
      else GreedyLines(test, words[1..], width)
  }

  lemma DrawnSnoc(events: seq<Event>, e: Event)
    ensures DrawnTexts(events + [e]) == DrawnTexts(events) + (if e.Draw? then [e.text] else [])
  {
    assert (events + [e])[..|events|] == events;
  }

  /** One word of the wrap loop draws what the greedy lines put before it. */
  lemma WordStepDraws(w: Wrap, words: seq<string>, width: string -> real)
    requires words != []
    ensures var w' := WordStep(w, words[0], width);
      DrawnTexts(w'.pen.events) + GreedyLines(w'.line, words[1..], width)
      == DrawnTexts(w.pen.events) + GreedyLines(w.line, words, width)
  {
    if width(Candidate(w.line, words[0])) > MaxWidth && w.line != "" {
      var events := w.pen.events + [Draw(Margin, w.pen.y, w.line)];
      DrawnSnoc(w.pen.events, Draw(Margin, w.pen.y, w.line));
      DrawnSnoc(events, NewPage);
    }
  }

  /** The wrap loop draws exactly the greedy lines of its words. */
  lemma {:induction false} WrapDraws(w: Wrap, words: seq<string>, width: string -> real)
    ensures DrawnTexts(FinishLine(WrapWords(w, words, width)).events)
         == DrawnTexts(w.pen.events) + GreedyLines(w.line, words, width)
    decreases |words|
  {
    if words == [] {
      if w.line != "" {
        DrawnSnoc(w.pen.events, Draw(Margin, w.pen.y, w.line));
      }
    } else {
      var w' := WordStep(w, words[0], width);
      assert WrapWords(w, words, width) == WrapWords(w', words[1..], width);
      WrapDraws(w', words[1..], width);
      WordStepDraws(w, words, width);
    }
  }

  /** A source line draws the greedy lines of its words, and a blank one
      draws nothing. */
  lemma LineDraws(p: Pen, line: string, font: string, width: string -> real)
    ensures DrawnTexts(LineStep(p, line, font, width).events)
         == DrawnTexts(p.events) + (if Strip(line) == "" then [] else GreedyLines("", Words(line), width))
  {
    if Strip(line) == "" {
      BlankLineDraws(p, line, font, width);
    } else {
      WordLineDraws(p, line, font, width);
    }
  }

  lemma BlankLineDraws(p: Pen, line: string, font: string, width: string -> real)
    requires Strip(line) == ""
    ensures DrawnTexts(LineStep(p, line, font, width).events) == DrawnTexts(p.events)
  {
    LineStepBlank(p, line, font, width);
    PageCheckDraws(p);
  }

  /** The page-break check draws nothing. */
  lemma PageCheckDraws(p: Pen)
    ensures DrawnTexts(PageCheck(p).events) == DrawnTexts(p.events)
  {
    DrawnSnoc(p.events, NewPage);
  }

  /** A blank line only moves the pen, after the page-break check. */
  lemma LineStepBlank(p: Pen, line: string, font: string, width: string -> real)
    requires Strip(line) == ""
    ensures var q := PageCheck(p);
      LineStep(p, line, font, width) == Pen(q.y - BlankAdvance, q.events)
  {
  }

  lemma WordLineDraws(p: Pen, line: string, font: string, width: string -> real)
    requires Strip(line) != ""
    ensures DrawnTexts(LineStep(p, line, font, width).events) == DrawnTexts(p.events) + GreedyLines("", Words(line), width)
  {
    LineStepWords(p, line, font, width);
    PageCheckDraws(p);
    WordsDraws(PageCheck(p), Words(line), font, width);
  }

  /** A non-blank line is the wrap loop over its words after the font call. */
  lemma LineStepWords(p: Pen, line: string, font: string, width: string -> real)
    requires Strip(line) != ""
    ensures LineStep(p, line, font, width) == WordLine(PageCheck(p), Words(line), font, width)
  {
  }

  lemma WordsDraws(q: Pen, words: seq<string>, font: string, width: string -> real)
    ensures DrawnTexts(WordLine(q, words, font, width).events) == DrawnTexts(q.events) + GreedyLines("", words, width)
  {
    var start := Wrap(Pen(q.y, q.events + [Font(font, FontSize)]), "");
    DrawnSnoc(q.events, Font(font, FontSize));
    WrapDraws(start, words, width);
  }

  // ----- the greedy lines -----

  /** A drawn line either fits the usable width or is one word that cannot be
      broken. */
  predicate Fits(s: string, width: string -> real) {
    s != "" && (width(s) <= MaxWidth || IsWord(s))
  }

  lemma {:induction false} GreedyFit(line: string, words: seq<string>, width: string -> real)
    requires line == "" || Fits(line, width)
    requires forall i :: 0 <= i < |words| ==> IsWord(words[i])
    ensures forall l | l in GreedyLines(line, words, width) :: Fits(l, width)
    decreases |words|
  {
    if words != [] {
      var test := Candidate(line, words[0]);
      if width(test) > MaxWidth && line != "" {
        GreedyFit(words[0], words[1..], width);
      } else {
        GreedyFit(test, words[1..], width);
      }
    }
  }

  /** The first greedy line starts with the line being built. */
  lemma {:induction false} GreedyHead(line: string, words: seq<string>, width: string -> real)
    requires line != ""
    ensures |GreedyLines(line, words, width)| > 0
    ensures var h := GreedyLines(line, words, width)[0];
      h == line || (|line| < |h| && h[..|line| + 1] == line + " ")
    decreases |words|
  {
    if words != [] {
      var test := Candidate(line, words[0]);
      if !(width(test) > MaxWidth) {
        GreedyHead(test, words[1..], width);
        var h := GreedyLines(test, words[1..], width)[0];
        assert h[..|line| + 1] == h[..|test|][..|line| + 1];
      }
    }
  }

  lemma JoinCons(sep: string, a: string, xs: seq<string>)
    requires xs != []
    ensures JoinWith(sep, [a] + xs) == a + sep + JoinWith(sep, xs)
  {
    assert ([a] + xs)[1..] == xs;
  }

  /** Joining the greedy lines with single spaces gives back the words joined
      with single spaces: no word is lost, repeated or reordered. */
  lemma {:induction false} GreedyJoin(line: string, words: seq<string>, width: string -> real)
    requires forall i :: 0 <= i < |words| ==> IsWord(words[i])
    ensures JoinWith(" ", GreedyLines(line, words, width))
         == JoinWith(" ", if line == "" then words else [line] + words)
    decreases |words|
  {
    if words != [] {
      var w0, rest := words[0], words[1..];
      assert words == [w0] + rest;
      var test := Candidate(line, w0);
      if width(test) > MaxWidth && line != "" {
        GreedyJoin(w0, rest, width);
        GreedyHead(w0, rest, width);
        JoinCons(" ", line, GreedyLines(w0, rest, width));
        JoinCons(" ", line, words);
      } else if line == "" {
        GreedyJoin(w0, rest, width);
      } else {
        GreedyJoin(test, rest, width);
        JoinCons(" ", line, words);
        if rest == [] {
          assert [test] + rest == [test];
        } else {
          JoinCons(" ", test, rest);
          JoinCons(" ", w0, rest);
          assert test + " " + JoinWith(" ", rest) == line + " " + (w0 + " " + JoinWith(" ", rest));
        }
      }
    }
  }

  /** The first whitespace-delimited word of a line. */
  function FirstWord(s: string): string {
    s[..WordLength(s)]
  }

  lemma FirstWordOf(w: string, h: string)
    requires IsWord(w)
    requires h == w || (|w| < |h| && h[..|w| + 1] == w + " ")
    ensures FirstWord(h) == w
  {
    forall i | 0 <= i < |w|
      ensures h[i] == w[i]
    {
      if h != w {
        assert h[i] == h[..|w| + 1][i];
      }
    }
    if h != w {
      assert h[|w|] == h[..|w| + 1][|w|];
    }
    assert WordLength(h) == |w|;
  }

  /** Each line but the last is full: the first word of the next line would
      not have fit on it. */
  predicate Full(ls: seq<string>, width: string -> real) {
    forall i :: 0 <= i < |ls| - 1 ==> width(ls[i] + " " + FirstWord(ls[i + 1])) > MaxWidth
  }

  /** A line is broken only when the next word does not fit on it. */
  lemma {:induction false} GreedyMaximal(line: string, words: seq<string>, width: string -> real)
    requires forall i :: 0 <= i < |words| ==> IsWord(words[i])
    ensures Full(GreedyLines(line, words, width), width)
    decreases |words|
  {
    if words != [] {
      var w0, rest := words[0], words[1..];
      var test := Candidate(line, w0);
      if width(test) > MaxWidth && line != "" {
        var tail := GreedyLines(w0, rest, width);
        GreedyMaximal(w0, rest, width);
        GreedyHead(w0, rest, width);
        FirstWordOf(w0, tail[0]);
        var ls := [line] + tail;
        assert GreedyLines(line, words, width) == ls;
        forall i | 0 <= i < |ls| - 1
          ensures width(ls[i] + " " + FirstWord(ls[i + 1])) > MaxWidth
        {
          if i > 0 {
            assert ls[i] == tail[i - 1] && ls[i + 1] == tail[i];
          }
        }
      } else {
        assert GreedyLines(line, words, width) == GreedyLines(test, rest, width);
        GreedyMaximal(test, rest, width);
      }
    }
  }

  lemma BlankWords(s: string)
    requires Strip(s) == ""
    ensures Words(s) == []
  {
    StripEmpty(s);
  }

  /** What a source line adds to the drawn strings: lines that fit, which
      joined with single spaces are the line's words joined with single
      spaces (`" ".join(line.split())`); nothing for a blank line. */
  lemma LineLayout(p: Pen, line: string, font: string, width: string -> real)
    ensures var drawn := DrawnTexts(LineStep(p, line, font, width).events);
      var before := DrawnTexts(p.events);
      && before <= drawn
      && JoinWith(" ", drawn[|before|..]) == JoinWith(" ", Words(line))
      && (forall t | t in drawn[|before|..] :: Fits(t, width))
      && Full(drawn[|before|..], width)
  {
    LineDraws(p, line, font, width);
    var drawn := DrawnTexts(LineStep(p, line, font, width).events);
    var before := DrawnTexts(p.events);
    if Strip(line) == "" {
      BlankWords(line);
      assert drawn[|before|..] == [];
    } else {
      var ws := Words(line);
      forall i | 0 <= i < |ws|
        ensures IsWord(ws[i])
      {
        assert ws[i] in ws;
      }
      assert drawn[|before|..] == GreedyLines("", ws, width);
      GreedyJoin("", ws, width);
      GreedyFit("", ws, width);
      GreedyMaximal("", ws, width);
    }
  }

  // ----- where things are drawn -----

  /** A drawn string is at the left margin, between the bottom margin and the
      top line, and fits (or is one word too wide to break). */
  predicate Placed(e: Event, width: string -> real) {
    e.Draw? ==> e.x == Margin && Margin <= e.y <= Top && Fits(e.text, width)
  }

  /** The height of the last string drawn on the current page, if any. */
  function LastLine(events: seq<Event>): Option<real> {
    if events == [] then None
    else
      match events[|events| - 1]
      case NewPage => None
      case Draw(_, y, _) => Some(y)
      case Font(_, _) => LastLine(events[..|events| - 1])
  }

  /** Every drawn string is placed, and at least a line height below the
      previous string on its page. */
  predicate WellPlaced(events: seq<Event>, width: string -> real) {
    if events == [] then true
    else
      var e, before := events[|events| - 1], events[..|events| - 1];
      && WellPlaced(before, width)
      && Placed(e, width)
      && (e.Draw? && LastLine(before).Some? ==> e.y <= LastLine(before).value - LineHeight)
  }

  lemma Extend(events: seq<Event>, e: Event, width: string -> real)
    ensures WellPlaced(events + [e], width)
        <==> (&& WellPlaced(events, width)
              && Placed(e, width)
              && (e.Draw? && LastLine(events).Some? ==> e.y <= LastLine(events).value - LineHeight))
    ensures LastLine(events + [e]) == (if e.NewPage? then None else if e.Draw? then Some(e.y) else LastLine(events))
  {
    assert (events + [e])[..|events|] == events;
  }

  /** The next string drawn goes at least a line height below the last one. */
  predicate Below(p: Pen) {
    LastLine(p.events).Some? ==> p.y <= LastLine(p.events).value - LineHeight
  }

  predicate PenOk(p: Pen, width: string -> real) {
    p.y <= Top && WellPlaced(p.events, width) && Below(p)
  }

  predicate WrapOk(w: Wrap, width: string -> real) {
    Margin <= w.pen.y && PenOk(w.pen, width) && (w.line == "" || Fits(w.line, width))
  }

  lemma WordStepOk(w: Wrap, word: string, width: string -> real)
    requires WrapOk(w, width) && IsWord(word)
    ensures WrapOk(WordStep(w, word, width), width)
    ensures w.pen.events <= WordStep(w, word, width).pen.events
  {
    var test := Candidate(w.line, word);
    if width(test) > MaxWidth && w.line != "" {
      var d := Draw(Margin, w.pen.y, w.line);
      Extend(w.pen.events, d, width);
      var events := w.pen.events + [d];
      if w.pen.y - LineHeight < Margin {
        Extend(events, NewPage, width);
      }
    }
  }

  lemma {:induction false} WrapWordsOk(w: Wrap, words: seq<string>, width: string -> real)
    requires WrapOk(w, width)
    requires forall i :: 0 <= i < |words| ==> IsWord(words[i])
    ensures WrapOk(WrapWords(w, words, width), width)
    ensures w.pen.events <= WrapWords(w, words, width).pen.events
    decreases |words|
  {
    if words != [] {
      WordStepOk(w, words[0], width);
      WrapWordsOk(WordStep(w, words[0], width), words[1..], width);
    }
  }

  lemma LineStepOk(p: Pen, line: string, font: string, width: string -> real)
    requires PenOk(p, width)
    ensures PenOk(LineStep(p, line, font, width), width)
    ensures p.events <= LineStep(p, line, font, width).events
  {
    var q := PageCheck(p);
    Extend(p.events, NewPage, width);
    if Strip(line) != "" {
      LineStepWords(p, line, font, width);
      WordsOk(q, Words(line), font, width);
    } else {
      LineStepBlank(p, line, font, width);
    }
  }

  /** The words of a line, wrapped from a pen inside the margins, keep the
      layout well placed. */
  lemma WordsOk(q: Pen, words: seq<string>, font: string, width: string -> real)
    requires PenOk(q, width) && Margin <= q.y
    requires forall w | w in words :: IsWord(w)
    ensures PenOk(WordLine(q, words, font, width), width)
    ensures q.events <= WordLine(q, words, font, width).events
  {
    var start := Wrap(Pen(q.y, q.events + [Font(font, FontSize)]), "");
    FontOk(q, font, width);
    forall i | 0 <= i < |words|
      ensures IsWord(words[i])
    {
      assert words[i] in words;
    }
    WrapWordsOk(start, words, width);
    FinishOk(WrapWords(start, words, width), width);
  }

  /** Choosing the font keeps the layout well placed and starts an empty line. */
  lemma FontOk(q: Pen, font: string, width: string -> real)
    requires PenOk(q, width) && Margin <= q.y
    ensures WrapOk(Wrap(Pen(q.y, q.events + [Font(font, FontSize)]), ""), width)
  {
    Extend(q.events, Font(font, FontSize), width);
  }

  /** Drawing the rest of the line keeps the layout well placed. */
  lemma FinishOk(w: Wrap, width: string -> real)
    requires WrapOk(w, width)
    ensures PenOk(FinishLine(w), width)
    ensures w.pen.events <= FinishLine(w).events
  {
    if w.line != "" {
      Extend(w.pen.events, Draw(Margin, w.pen.y, w.line), width);
    }
  }

  lemma {:induction false} LayoutLinesOk(p: Pen, lines: seq<string>, font: string, width: string -> real)
    requires PenOk(p, width)
    ensures PenOk(LayoutLines(p, lines, font, width), width)
    ensures p.events <= LayoutLines(p, lines, font, width).events
    decreases |lines|
  {
    if lines != [] {
      LineStepOk(p, lines[0], font, width);
      LayoutLinesOk(LineStep(p, lines[0], font, width), lines[1..], font, width);
    }
  }

  /** Any lines laid out from the top of a fresh page, then a page break, keep
      the layout well placed and only append. */
  lemma PageOk(events: seq<Event>, lines: seq<string>, font: string, width: string -> real)
    requires WellPlaced(events, width) && LastLine(events) == None
    ensures var after := LayoutLines(Pen(Top, events), lines, font, width).events + [NewPage];
      && WellPlaced(after, width)
      && LastLine(after) == None
      && |events| < |after| && after[..|events|] == events && after[|after| - 1] == NewPage
  {
    var p := LayoutLines(Pen(Top, events), lines, font, width);
    LayoutLinesOk(Pen(Top, events), lines, font, width);
    Extend(p.events, NewPage, width);
  }

  /** A blank section draws nothing and breaks no page; any other section only
      appends to the canvas, and ends with a page break. */
  lemma SectionStepOk(events: seq<Event>, section: string, font: string, width: string -> real)
    requires WellPlaced(events, width) && LastLine(events) == None
    ensures var after := SectionStep(events, section, font, width);
      && WellPlaced(after, width)
      && LastLine(after) == None
      && (IsBlank(section) ==> after == events)
      && (!IsBlank(section) ==> |events| < |after| && after[..|events|] == events && after[|after| - 1] == NewPage)
  {
    StripEmpty(section);
    if Strip(section) != "" {
      PageOk(events, Split(Strip(section), "\n"), font, width);
    }
  }

  // ----- one page break per section -----

  /** A non-blank section ends with a string drawn and then its single page
      break: the lines themselves never leave a page break of their own at
      its end, so the section breaks its last page exactly once. */
  lemma SectionOnePageBreak(events: seq<Event>, section: string, font: string, width: string -> real)
    requires Strip(section) != ""
    ensures var after := SectionStep(events, section, font, width);
      && |after| >= 2
      && after[|after| - 1] == NewPage
      && after[|after| - 2].Draw?
  {
    var s := Strip(section);
    var lines := Split(s, "\n");
    var e := LayoutLines(Pen(Top, events), lines, font, width).events;
    LastPieceNonBlank(s);
    LinesEndDraw(Pen(Top, events), lines, font, width);
    assert SectionStep(events, section, font, width) == e + [NewPage];
  }

  /** The last piece of a string split at line breaks is not blank when the
      string ends with a non-space character. */
  lemma {:induction false} LastPieceNonBlank(s: string)
    requires s != [] && !IsSpace(s[|s| - 1])
    ensures var pieces := Split(s, "\n");
      !IsBlank(pieces[|pieces| - 1])
    decreases |s|
  {
    var first := FirstIndex(s, "\n");
    if first.None? {
      assert Split(s, "\n") == [s];
    } else {
      var k := first.value;
      assert OccursAt(s, "\n", k);
      assert s[k] == s[k..k + 1][0] == '\n';
      var rest := s[k + 1..];
      var ps := Split(rest, "\n");
      assert Split(s, "\n") == [s[..k]] + ps;
      assert rest[|rest| - 1] == s[|s| - 1];
      LastPieceNonBlank(rest);
      assert ([s[..k]] + ps)[|ps|] == ps[|ps| - 1];
    }
  }

  /** The last call on the canvas drew a string. */
  predicate EndsWithDraw(events: seq<Event>) {
    |events| > 0 && events[|events| - 1].Draw?
  }

  /** Lines whose last one is not blank leave a drawn string last. */
  lemma {:induction false} LinesEndDraw(p: Pen, lines: seq<string>, font: string, width: string -> real)
    requires lines != [] && !IsBlank(lines[|lines| - 1])
    ensures EndsWithDraw(LayoutLines(p, lines, font, width).events)
    decreases |lines|
  {
    if |lines| == 1 {
      LineEndsDraw(p, lines[0], font, width);
      LayoutLinesCons(p, lines, font, width);
    } else {
      var rest := lines[1..];
      assert rest[|rest| - 1] == lines[|lines| - 1];
      LinesEndDraw(LineStep(p, lines[0], font, width), rest, font, width);
      LayoutLinesCons(p, lines, font, width);
    }
  }

  lemma LayoutLinesCons(p: Pen, lines: seq<string>, font: string, width: string -> real)
    requires lines != []
    ensures LayoutLines(p, lines, font, width) == LayoutLines(LineStep(p, lines[0], font, width), lines[1..], font, width)
    ensures |lines| == 1 ==> LayoutLines(p, lines, font, width) == LineStep(p, lines[0], font, width)
  {
  }

  /** A non-blank line ends with a drawn string. */
  lemma LineEndsDraw(p: Pen, line: string, font: string, width: string -> real)
    requires !IsBlank(line)
    ensures EndsWithDraw(LineStep(p, line, font, width).events)
  {
    StripEmpty(line);
    LineStepWords(p, line, font, width);
    assert StripLeft(line) != [];
    var q := PageCheck(p);
    var start := Wrap(Pen(q.y, q.events + [Font(font, FontSize)]), "");
    WrapLineNonEmpty(start, Words(line), width);
  }

  /** The wrap loop ends with a non-empty line being built once it has seen
      a word. */
  lemma {:induction false} WrapLineNonEmpty(w: Wrap, words: seq<string>, width: string -> real)
    requires w.line != "" || words != []
    requires forall v | v in words :: IsWord(v)
    ensures WrapWords(w, words, width).line != ""
    decreases |words|
  {
    if words != [] {
      assert words[0] in words;
      assert forall v | v in words[1..] :: v in words;
      WrapLineNonEmpty(WordStep(w, words[0], width), words[1..], width);
    }
  }

  lemma {:induction false} LayoutSectionsOk(events: seq<Event>, sections: seq<string>, font: string, width: string -> real)
    requires WellPlaced(events, width) && LastLine(events) == None
    ensures WellPlaced(LayoutSections(events, sections, font, width), width)
    ensures events <= LayoutSections(events, sections, font, width)
    decreases |sections|
  {
    if sections != [] {
      SectionStepOk(events, sections[0], font, width);
      LayoutSectionsOk(SectionStep(events, sections[0], font, width), sections[1..], font, width);
    }
  }

  lemma {:induction false} WellPlacedAll(events: seq<Event>, width: string -> real)
    requires WellPlaced(events, width)
    ensures forall i :: 0 <= i < |events| ==> Placed(events[i], width)
    decreases |events|
  {
    if events != [] {
      WellPlacedAll(events[..|events| - 1], width);
    }
  }

  /** Every string of a laid-out text is drawn at the left margin, between the
      bottom margin and the top line, fits the usable width unless it is a
      single word, and lies at least a line height below the previous string
      on its page. */
  lemma DocumentPlaced(text: string, font: string, width: string -> real)
    ensures WellPlaced(Document(text, font, width), width)
    ensures forall e | e in Document(text, font, width) :: Placed(e, width)
  {
    LayoutSectionsOk([], Sections(text), font, width);
    WellPlacedAll(Document(text, font, width), width);
  }

  // ----- sections -----

  /** The sections joined back with the sentinel are the text, and none of
      them contains the sentinel. */
  lemma SectionsJoin(text: string)
    ensures JoinWith(Sentinel, Sections(text)) == text
    ensures forall s | s in Sections(text) :: !Contains(s, Sentinel)
  {
    if Contains(text, Sentinel) {
      JoinSplit(text, Sentinel);
    }
  }
}

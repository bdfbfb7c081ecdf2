/** src/render.c: the two entry points, and what is true of everything they print. */
module Render {
  import opened Options
  import opened Decimal
  import opened Util
  import opened Snapshots
  import opened FrameBuffer
  import opened Frame
  import opened Escapes
  import opened FrameSize
  import opened FrameText
  import opened Leaks
  import opened CpuDelta
  import Paint

  /** CUP without parameters (section 8.3.21 of ECMA-48): the cursor to the top left. */
  const HOME: string := "\U{1B}[H"
  /** ED without parameters (section 8.3.39 of ECMA-48): erase to the end of the display. */
  const ERASE_DISPLAY: string := "\U{1B}[J"

  function OnceBytes(snap: ResourceSnapshot, opt: RenderOptions, clock: string): string {
    FrameBytes(FrameLines(snap, opt, clock), opt.color, false)
  }

  function LiveBytes(snap: ResourceSnapshot, opt: RenderOptions, clock: string): string {
    HOME + FrameBytes(FrameLines(snap, opt, clock), opt.color, true) + ERASE_DISPLAY
  }

  /** The lines both entry points print, without line ends. */
  function LineTexts(snap: ResourceSnapshot, opt: RenderOptions, clock: string): seq<string> {
    Texts(FrameLines(snap, opt, clock), opt.color)
  }

  function Texts(lines: seq<Line>, color: bool): (t: seq<string>)
    ensures |t| == |lines|
  {
    seq(|lines|, i requires 0 <= i < |lines| => LineBytes(lines[i], color))
  }

  /** Every line followed by `end`. */
  function Terminate(lines: seq<string>, end: string): string {
    if lines == [] then "" else Terminate(lines[..|lines| - 1], end) + lines[|lines| - 1] + end
  }

  lemma {:induction false} FrameIsTerminated(lines: seq<Line>, color: bool, live: bool)
    ensures FrameBytes(lines, color, live) == Terminate(Texts(lines, color), NlBytes(live))
  {
    if lines != [] {
      var front := lines[..|lines| - 1];
      FrameIsTerminated(front, color, live);
      FrameSnoc(lines, color, live);
      hide FrameBytes, LineBytes;
      assert Texts(lines, color)[..|lines| - 1] == Texts(front, color);
    }
  }

  method RenderDashboard(snap: ResourceSnapshot, opt: RenderOptions, clock: string) returns (out: string)
    ensures out == Kept(LiveBytes(snap, opt, clock))
    ensures Legal(snap) && LegalView(opt, clock) ==>
      out == "\U{1B}[H" + Terminate(LineTexts(snap, opt, clock), "\U{1B}[K\n") + "\U{1B}[J"
  {
    hide FrameBuf.Valid, FrameLines, Legal, Kept, Flat, Pieces, Terminate;
    var fb := new FrameBuf(true);
    fb.Add(HOME);
    Paint.Paint(fb, snap, opt, clock);
    fb.Add(ERASE_DISPLAY);
    LivePieces(FramePieces(snap, opt, clock, true));
    out := fb.Flush();
    if Legal(snap) && LegalView(opt, clock) {
      NoTruncation(snap, opt, clock, true);
      KeepsShort(LiveBytes(snap, opt, clock));
      FrameIsTerminated(FrameLines(snap, opt, clock), opt.color, true);
      assert NlBytes(true) == "\U{1B}[K\n";
    }
  }

  lemma LivePieces(p: seq<string>)
    ensures Flat([] + [HOME] + p + [ERASE_DISPLAY]) == HOME + Flat(p) + ERASE_DISPLAY
  {
    FlatSnoc([] + [HOME] + p, ERASE_DISPLAY);
    FlatAppend([] + [HOME], p);
    FlatSnoc([], HOME);
    assert Flat([]) + HOME == HOME;
  }

  lemma KeepsShort(s: string)
    requires |s| < FRAME_CAP
    ensures Kept(s) == s
  {
  }

  method RenderOnce(snap: ResourceSnapshot, opt: RenderOptions, clock: string) returns (out: string)
    ensures out == Kept(OnceBytes(snap, opt, clock))
    ensures Legal(snap) && LegalView(opt, clock) ==> out == Terminate(LineTexts(snap, opt, clock), "\n")
  {
    hide FrameBuf.Valid, FrameLines, Legal, Kept, Flat, Pieces, Terminate;
    var fb := new FrameBuf(false);
    Paint.Paint(fb, snap, opt, clock);
    assert [] + FramePieces(snap, opt, clock, false) == FramePieces(snap, opt, clock, false);
    out := fb.Flush();
    if Legal(snap) && LegalView(opt, clock) {
      NoTruncation(snap, opt, clock, false);
      KeepsShort(OnceBytes(snap, opt, clock));
      FrameIsTerminated(FrameLines(snap, opt, clock), opt.color, false);
    }
  }

  // ---------------------------------------------------------------- colour

  lemma GoodFrame(snap: ResourceSnapshot, opt: RenderOptions, clock: string, c: char)
    requires Control(c) && FieldsFree(snap, clock, c)
    ensures AllFree(FrameLines(snap, opt, clock), c)
  {
    FrameGood(snap, opt, clock, c);
    hide FrameLines, LineFree, Styled;
  }

  /** Colour never changes which lines there are. */
  lemma SameSegments(snap: ResourceSnapshot, opt: RenderOptions, clock: string, color: bool)
    ensures FrameLines(snap, opt, clock) == FrameLines(snap, opt.(color := color), clock)
  {
  }

  /** Removing the SGR sequences from a colour frame gives the colourless frame, live and one-shot: of what is asked
      for, and for legal input of what is printed. */
  lemma ColourIsRemovable(snap: ResourceSnapshot, opt: RenderOptions, clock: string)
    requires FieldsFree(snap, clock, ESC)
    ensures var color, plain := opt.(color := true), opt.(color := false);
      && StripSgr(OnceBytes(snap, color, clock)) == OnceBytes(snap, plain, clock)
      && StripSgr(LiveBytes(snap, color, clock)) == LiveBytes(snap, plain, clock)
      && (Legal(snap) && LegalView(opt, clock) ==>
            && StripSgr(Kept(OnceBytes(snap, color, clock))) == Kept(OnceBytes(snap, plain, clock))
            && StripSgr(Kept(LiveBytes(snap, color, clock))) == Kept(LiveBytes(snap, plain, clock)))
  {
    hide FrameLines, AllFree, FrameBytes, AllTidy, FieldsFree, StripSgr, Scan, Legal, Kept;
    var lines := FrameLines(snap, opt, clock);
    GoodFrame(snap, opt, clock, ESC);
    SameSegments(snap, opt, clock, true);
    SameSegments(snap, opt, clock, false);
    NothingLeft();
    FrameEffect(lines, false, "");
    FrameEffect(lines, true, ERASE_DISPLAY);
    var plain := FrameBytes(lines, false, true);
    assert FrameBytes(lines, true, false) + "" == FrameBytes(lines, true, false);
    assert FrameBytes(lines, false, false) + "" == FrameBytes(lines, false, false);
    OtherSequence('H', FrameBytes(lines, true, true) + ERASE_DISPLAY, false);
    OtherSequence('J', "", false);
    assert ERASE_DISPLAY + "" == ERASE_DISPLAY;
    Assoc(HOME, FrameBytes(lines, true, true), ERASE_DISPLAY);
    Assoc(HOME, plain, ERASE_DISPLAY);
    if Legal(snap) && LegalView(opt, clock) {
      AllKept(snap, opt.(color := true), clock);
      AllKept(snap, opt.(color := false), clock);
    }
  }

  /** Legal input is printed whole. */
  lemma AllKept(snap: ResourceSnapshot, opt: RenderOptions, clock: string)
    requires Legal(snap) && LegalView(opt, clock)
    ensures Kept(OnceBytes(snap, opt, clock)) == OnceBytes(snap, opt, clock)
    ensures Kept(LiveBytes(snap, opt, clock)) == LiveBytes(snap, opt, clock)
  {
    hide Legal, FrameLines, FrameBytes, Kept;
    NoTruncation(snap, opt, clock, false);
    NoTruncation(snap, opt, clock, true);
    KeepsShort(OnceBytes(snap, opt, clock));
    KeepsShort(LiveBytes(snap, opt, clock));
  }

  lemma NothingLeft()
    ensures StripSgr("") == "" && Scan("", false) == Some(false)
  {
  }

  /** A control sequence that is not SGR stays in the stream. */
  lemma OtherSequence(final: char, rest: string, styled: bool)
    requires final in {'H', 'J'}
    ensures StripSgr([ESC, '[', final] + rest) == [ESC, '[', final] + StripSgr(rest)
    ensures Scan([ESC, '[', final] + rest, styled) == Scan(rest, styled)
  {
    var s := [ESC, '[', final] + rest;
    assert s[2] == final && ParamEnd(s, 2) == 2;
    assert s == [ESC] + (['[', final] + rest);
    OneByte(ESC, ['[', final] + rest, styled);
    hide StripSgr, Scan, SgrLen;
    TextEffect(['[', final], rest, styled);
    assert [ESC, '[', final] + StripSgr(rest) == [ESC] + (['[', final] + StripSgr(rest));
  }

  /** At every newline of a colour frame, and at its end, the style is back to the default exactly when neither the
      host name nor a file system type holds a newline; a newline in any other text does no harm. */
  lemma NoColourLeak(snap: ResourceSnapshot, opt: RenderOptions, clock: string)
    requires FieldsFree(snap, clock, ESC)
    ensures var color := opt.(color := true);
      && (Scan(OnceBytes(snap, color, clock), false) == Some(false)
          <==> Free(snap.facts.hostname, '\n') && TypesFree(snap.disks, '\n'))
      && (Scan(LiveBytes(snap, color, clock), false) == Some(false)
          <==> Free(snap.facts.hostname, '\n') && TypesFree(snap.disks, '\n'))
  {
    hide FrameLines, AllFree, FrameBytes, AllTidy, FieldsFree, StripSgr, Scan, TypesFree, Free;
    var lines := FrameLines(snap, opt, clock);
    GoodFrame(snap, opt, clock, ESC);
    FrameTidy(snap, opt, clock);
    SameSegments(snap, opt, clock, true);
    NothingLeft();
    FrameEffect(lines, false, "");
    FrameEffect(lines, true, ERASE_DISPLAY);
    assert FrameBytes(lines, true, false) + "" == FrameBytes(lines, true, false);
    OtherSequence('H', FrameBytes(lines, true, true) + ERASE_DISPLAY, false);
    OtherSequence('J', "", false);
    assert ERASE_DISPLAY + "" == ERASE_DISPLAY;
    Assoc(HOME, FrameBytes(lines, true, true), ERASE_DISPLAY);
  }

  /** A host name of two lines carries its colour into the second. */
  lemma HostNameLeaks(snap: ResourceSnapshot, opt: RenderOptions, clock: string)
    requires FieldsFree(snap, clock, ESC) && snap.facts.hostname == "a\nb"
    ensures Scan(OnceBytes(snap, opt.(color := true), clock), false) != Some(false)
  {
    assert snap.facts.hostname[1] == '\n';
    hide FieldsFree, Scan, OnceBytes, TypesFree;
    NoColourLeak(snap, opt, clock);
  }

  // ---------------------------------------------------------------- lines

  /** Reader: the lines of a newline-terminated text. */
  function SplitLines(s: string): seq<string>
    decreases |s|
  {
    var i := Find(s, '\n');
    if i == |s| then [] else [s[..i]] + SplitLines(s[i + 1..])
  }

  lemma {:induction false} TerminateCons(first: string, rest: seq<string>, end: string)
    ensures Terminate([first] + rest, end) == first + end + Terminate(rest, end)
  {
    var all := [first] + rest;
    if rest == [] {
      assert all == [first] && all[..0] == [];
    } else {
      var front, last := rest[..|rest| - 1], rest[|rest| - 1];
      assert all[..|all| - 1] == [first] + front;
      TerminateCons(first, front, end);
      assert Terminate(all, end) == (first + end + Terminate(front, end)) + last + end;
    }
  }

  lemma {:induction false} SplitTerminated(lines: seq<string>)
    requires forall i :: 0 <= i < |lines| ==> Free(lines[i], '\n')
    ensures SplitLines(Terminate(lines, "\n")) == lines
  {
    if lines != [] {
      var first, rest := lines[0], lines[1..];
      assert lines == [first] + rest;
      TerminateCons(first, rest, "\n");
      FindAfter(first, '\n', Terminate(rest, "\n"));
      SplitTerminated(rest);
      hide Terminate;
      var s := first + ['\n'] + Terminate(rest, "\n");
      assert Find(s, '\n') == |first| < |s|;
    }
  }

  lemma CodeFree(c: Style)
    ensures Free(Code(c), '\n')
  {
  }

  lemma {:induction false} LineBytesFree(l: Line, color: bool)
    requires LineFree(l, '\n')
    ensures Free(LineBytes(l, color), '\n')
  {
    if l == [] {
      EmptyLine(color);
    } else {
      var front, last := l[..|l| - 1], l[|l| - 1];
      LineBytesFree(front, color);
      LineSnoc(l, color);
      if last.S? {
        CodeFree(last.style);
      }
      hide LineBytes, Code;
    }
  }

  /** How many newlines a text holds. */
  function Breaks(s: string): nat {
    if s == "" then 0 else Breaks(s[..|s| - 1]) + if s[|s| - 1] == '\n' then 1 else 0
  }

  lemma {:induction false} BreaksAppend(a: string, b: string)
    ensures Breaks(a + b) == Breaks(a) + Breaks(b)
  {
    if b == "" {
      assert a + b == a;
    } else {
      BreaksAppend(a, b[..|b| - 1]);
      assert (a + b)[..|a + b| - 1] == a + b[..|b| - 1];
    }
  }

  lemma {:induction false} NoBreaks(s: string)
    ensures Breaks(s) == 0 <==> Free(s, '\n')
  {
    if s != "" {
      NoBreaks(s[..|s| - 1]);
    }
  }

  /** The reader finds one line for every newline. */
  lemma {:induction false} SplitCounts(s: string)
    ensures |SplitLines(s)| == Breaks(s)
    decreases |s|
  {
    var i := Find(s, '\n');
    if i == |s| {
      NoBreaks(s);
    } else {
      var first, rest := s[..i], s[i + 1..];
      SplitCounts(rest);
      assert s == first + ("\n" + rest);
      BreaksAppend(first, "\n" + rest);
      BreaksAppend("\n", rest);
      NoBreaks(first);
      assert Breaks("\n") == 1 by {
        assert "\n"[..0] == "";
      }
    }
  }

  /** No line holds a newline of its own. */
  predicate OneLineEach(lines: seq<string>) {
    forall i :: 0 <= i < |lines| ==> Free(lines[i], '\n')
  }

  lemma EndBreaks(a: string, b: string)
    ensures Breaks(a + b + "\n") == Breaks(a) + Breaks(b) + 1
  {
    BreaksAppend(a + b, "\n");
    BreaksAppend(a, b);
    assert "\n"[..0] == "";
  }

  lemma OneLineSnoc(lines: seq<string>)
    requires lines != []
    ensures OneLineEach(lines) <==> OneLineEach(lines[..|lines| - 1]) && Free(lines[|lines| - 1], '\n')
  {
    hide Free;
    var front := lines[..|lines| - 1];
    assert forall i :: 0 <= i < |front| ==> front[i] == lines[i];
  }

  lemma {:induction false} TerminateBreaks(lines: seq<string>)
    ensures |lines| <= Breaks(Terminate(lines, "\n"))
    ensures Breaks(Terminate(lines, "\n")) == |lines| <==> OneLineEach(lines)
  {
    hide Free, Breaks, OneLineEach;
    if lines == [] {
      NoLines();
    } else {
      var front, last := lines[..|lines| - 1], lines[|lines| - 1];
      TerminateBreaks(front);
      EndBreaks(Terminate(front, "\n"), last);
      NoBreaks(last);
      OneLineSnoc(lines);
    }
  }

  lemma NoLines()
    ensures Breaks("") == 0 && OneLineEach([])
  {
  }

  /** One list of lines: cutting the one-shot output at its newlines gives exactly the lines the live frame shows if and
      only if no line holds a newline of its own, which no snapshot without newlines in its texts can make it do. */
  lemma LinesReadBack(snap: ResourceSnapshot, opt: RenderOptions, clock: string)
    ensures SplitLines(OnceBytes(snap, opt, clock)) == LineTexts(snap, opt, clock)
       <==> OneLineEach(LineTexts(snap, opt, clock))
    ensures OneLineEach(LineTexts(snap, opt, clock)) ==>
      LiveBytes(snap, opt, clock)
      == HOME + Terminate(SplitLines(OnceBytes(snap, opt, clock)), ERASE_LINE + "\n") + ERASE_DISPLAY
    ensures FieldsFree(snap, clock, '\n') ==> OneLineEach(LineTexts(snap, opt, clock))
  {
    hide FrameLines, FieldsFree, LineBytes, FrameBytes, Free, Texts, Terminate, SplitLines, Breaks;
    var lines := FrameLines(snap, opt, clock);
    var texts := Texts(lines, opt.color);
    FrameIsTerminated(lines, opt.color, false);
    FrameIsTerminated(lines, opt.color, true);
    SplitCounts(Terminate(texts, "\n"));
    TerminateBreaks(texts);
    if OneLineEach(texts) {
      SplitTerminated(texts);
    }
    if FieldsFree(snap, clock, '\n') {
      GoodFrame(snap, opt, clock, '\n');
      TextsOneLine(lines, opt.color);
    }
  }

  lemma TextsOneLine(lines: seq<Line>, color: bool)
    requires AllFree(lines, '\n')
    ensures OneLineEach(Texts(lines, color))
  {
    hide LineBytes, Free, LineFree;
    forall i | 0 <= i < |lines| ensures Free(Texts(lines, color)[i], '\n') {
      LineBytesFree(lines[i], color);
    }
  }

  // ---------------------------------------------------------------- bars

  /** The lit part of a bar is the nearest whole number of glyphs, the upper one when two are equally near. */
  lemma FilledIsNearest(pct: real, width: nat)
    ensures Filled(pct, width) as real - 0.5 <= ClampPct(pct) / 100.0 * width as real
    ensures ClampPct(pct) / 100.0 * width as real < Filled(pct, width) as real + 0.5
  {
    var x := ClampPct(pct) / 100.0 * width as real;
    assert 0.0 <= x <= width as real by {
      PartOf(ClampPct(pct), width as real);
    }
  }

  lemma PartOf(p: real, w: real)
    requires 0.0 <= p <= 100.0 && w >= 0.0
    ensures 0.0 <= p / 100.0 * w <= w
  {
  }

  lemma FilledMonotone(p: real, q: real, width: nat)
    requires p <= q
    ensures Filled(p, width) <= Filled(q, width)
  {
    assert ClampPct(p) <= ClampPct(q);
    hide Nearest, ClampPct;
    LitMonotone(ClampPct(p), ClampPct(q), width as real);
  }

  lemma FilledEnds(width: nat)
    ensures Filled(0.0, width) == 0 && Filled(100.0, width) == width
  {
    var w := width as real;
    assert ClampPct(100.0) == 100.0 && ClampPct(0.0) == 0.0;
    assert 100.0 / 100.0 == 1.0 && 0.0 / 100.0 == 0.0;
    assert 1.0 * w + 0.5 == w + 0.5 && 0.0 * w == 0.0;
    assert (w + 0.5).Floor == width;
  }

  lemma LitMonotone(a: real, b: real, w: real)
    requires 0.0 <= a <= b && w >= 0.0
    ensures Nearest(a, w) <= Nearest(b, w)
  {
    Scale(a, b, w);
    assert a / 100.0 * w == a * w / 100.0 && b / 100.0 * w == b * w / 100.0;
    var x, y := a * w / 100.0 + 0.5, b * w / 100.0 + 0.5;
    assert x <= y;
    assert x.Floor <= y.Floor;
  }

  lemma Scale(a: real, b: real, w: real)
    requires a <= b && w >= 0.0
    ensures a * w <= b * w
  {
    assert (b - a) * w >= 0.0;
    assert b * w == a * w + (b - a) * w;
  }

  /** How urgent a style looks. */
  function Heat(c: Style): nat {
    match c
    case Green => 1
    case Yellow => 2
    case Red => 3
    case _ => 0
  }

  /** A meter's percentage is the share of the total in use: 0 of nothing, never above 100. */
  lemma UsedIsShare(used: u64, total: u64)
    ensures total == 0 ==> UsedPct(used, total) == 0.0
    ensures 0 < total <= used ==> UsedPct(used, total) == 100.0
    ensures used <= total ==> UsedPct(used, total) * total as real == 100.0 * used as real
  {
    if total > 0 {
      PercentOfPart(used, total);
      assert UsedPct(used, total) == Percent(used, total);
    }
  }

  lemma UsedMonotone(used: u64, more: u64, total: u64)
    requires used <= more
    ensures UsedPct(used, total) <= UsedPct(more, total)
  {
    if total > 0 {
      var t := total as real;
      assert 100.0 * used as real <= 100.0 * more as real;
      DivMonotone(100.0 * used as real, 100.0 * more as real, t);
    }
  }

  lemma DivMonotone(x: real, y: real, t: real)
    requires x <= y && t > 0.0
    ensures x / t <= y / t
  {
  }

  /** A memory, swap or disk meter never shrinks as more is used. */
  lemma MeterNeverShrinks(used: u64, more: u64, total: u64, width: nat)
    requires used <= more
    ensures Filled(UsedPct(used, total), width) <= Filled(UsedPct(more, total), width)
  {
    UsedMonotone(used, more, total);
    FilledMonotone(UsedPct(used, total), UsedPct(more, total), width);
  }

  /** More used of the same total never looks less urgent. */
  lemma MeterNeverCools(used: u64, more: u64, total: u64)
    requires used <= more
    ensures 0 < Heat(PctStyle(UsedPct(used, total))) <= Heat(PctStyle(UsedPct(more, total)))
  {
    hide UsedPct;
    UsedMonotone(used, more, total);
  }

  function Times(s: string, n: nat): string {
    if n == 0 then "" else Times(s, n - 1) + s
  }

  lemma {:induction false} RepeatBytes(s: string, n: nat, color: bool)
    ensures LineBytes(Repeat(s, n), color) == Times(s, n)
  {
    if n == 0 {
      assert Repeat(s, 0) == [];
      EmptyLine(color);
    } else {
      RepeatBytes(s, n - 1, color);
      assert Repeat(s, n)[..n - 1] == Repeat(s, n - 1);
      LineSnoc(Repeat(s, n), color);
    }
  }

  lemma LineBytesAppend(a: Line, b: Line, color: bool)
    ensures LineBytes(a + b, color) == LineBytes(a, color) + LineBytes(b, color)
  {
    CodesAppend(a, b, color);
    FlatAppend(Codes(a, color), Codes(b, color));
  }

  lemma TwoSegs(x: Seg, y: Seg, color: bool)
    ensures LineBytes([x, y], color) == SegBytes(x, color) + SegBytes(y, color)
  {
    assert Codes([x, y], color) == [] + [SegBytes(x, color)] + [SegBytes(y, color)];
    FlatSnoc([] + [SegBytes(x, color)], SegBytes(y, color));
    FlatSnoc([], SegBytes(x, color));
    assert Flat([]) + SegBytes(x, color) == SegBytes(x, color);
  }

  /** A colourless bar is `max(width, 4)` glyphs between brackets, lit ones first. */
  lemma BarText(ascii: bool, pct: real, width: int)
    ensures var w := if width < 4 then 4 else width; var f := Filled(pct, w);
      LineBytes(BarSegs(ascii, pct, width), false)
      == "[" + Times(if ascii then "#" else "\U{E2}\U{96}\U{88}", f)
         + Times(if ascii then "." else "\U{E2}\U{96}\U{91}", w - f) + "]"
  {
    hide LineBytes, Times, Filled;
    var w := BarWidth(width);
    var f := Filled(pct, w);
    var head: Line, tail: Line := [S(PctStyle(ClampPct(pct))), T("[")], [T("]"), S(Reset)];
    var on, off := Repeat(OnGlyph(ascii), f), Repeat(OffGlyph(ascii), w - f);
    RepeatBytes(OnGlyph(ascii), f, false);
    RepeatBytes(OffGlyph(ascii), w - f, false);
    TwoSegs(S(PctStyle(ClampPct(pct))), T("["), false);
    TwoSegs(T("]"), S(Reset), false);
    LineBytesAppend(head, on, false);
    LineBytesAppend(head + on, off, false);
    LineBytesAppend(head + on + off, tail, false);
  }

  /** A colour bar is the colourless one between the escape its percentage calls for and a reset. */
  lemma BarColour(ascii: bool, pct: real, width: int)
    ensures var plain := LineBytes(BarSegs(ascii, pct, width), false);
      LineBytes(BarSegs(ascii, pct, width), true)
      == (if pct < 60.0 then "\U{1B}[32m" else if pct < 85.0 then "\U{1B}[33m" else "\U{1B}[31m") + plain + "\U{1B}[0m"
  {
    hide LineBytes, Filled, Repeat;
    var w := BarWidth(width);
    var f := Filled(pct, w);
    var style := PctStyle(ClampPct(pct));
    var open: Line, close: Line := [T("[")], [T("]")];
    var glyphs := open + (Repeat(OnGlyph(ascii), f) + Repeat(OffGlyph(ascii), w - f)) + close;
    assert BarSegs(ascii, pct, width) == [S(style)] + glyphs + [S(Reset)];
    SameGlyphs(open + (Repeat(OnGlyph(ascii), f) + Repeat(OffGlyph(ascii), w - f)) + close);
    LineBytesAppend([S(style)], glyphs, true);
    LineBytesAppend([S(style)] + glyphs, [S(Reset)], true);
    LineBytesAppend([S(style)], glyphs, false);
    LineBytesAppend([S(style)] + glyphs, [S(Reset)], false);
    OneStyle(style);
    OneStyle(Reset);
    assert "" + LineBytes(glyphs, false) + "" == LineBytes(glyphs, false);
  }

  lemma OneStyle(c: Style)
    ensures LineBytes([S(c)], true) == Code(c) && LineBytes([S(c)], false) == ""
  {
    hide Code;
    assert [S(c)][..0] == [];
    LineSnoc([S(c)], true);
    LineSnoc([S(c)], false);
    EmptyLine(true);
    EmptyLine(false);
  }

  lemma SameGlyphs(l: Line)
    requires forall i :: 0 <= i < |l| ==> l[i].T?
    ensures LineBytes(l, true) == LineBytes(l, false)
  {
    assert Codes(l, true) == Codes(l, false);
  }

  // ---------------------------------------------------------------- the core strip

  lemma FlatCons<A>(first: seq<A>, rest: seq<seq<A>>)
    ensures Flat([first] + rest) == first + Flat(rest)
  {
    FlatAppend([first], rest);
    assert [first][..0] == [] && [] + first == first;
  }

  /** Every core once, in order, in ceil(n / per) rows of which only the last may be short. */
  lemma {:induction false} StripPartition<A>(cores: seq<A>, per: nat)
    requires 2 <= per <= 4
    ensures var rows := Chunks(cores, per);
      && Flat(rows) == cores
      && |rows| == (|cores| + per - 1) / per
      && (forall i :: 0 <= i < |rows| - 1 ==> |rows[i]| == per)
    decreases |cores|
  {
    var rows := Chunks(cores, per);
    if |cores| > per {
      StripPartition(cores[per..], per);
      var rest := Chunks(cores[per..], per);
      assert rows == [cores[..per]] + rest && rows[1..] == rest;
      FlatCons(cores[..per], rest);
      Ceil(|cores|, per);
      hide Chunks;
    } else if cores != [] {
      FlatCons(cores, []);
      assert [cores] + [] == [cores] && cores + [] == cores;
      Ceil(|cores|, per);
    }
  }

  lemma Ceil(n: nat, per: nat)
    requires 2 <= per <= 4 && n > 0
    ensures n > per ==> (n + per - 1) / per == 1 + (n - per + per - 1) / per
    ensures n <= per ==> (n + per - 1) / per == 1
  {
  }

  // ---------------------------------------------------------------- widths

  lemma WidthOne(x: Seg)
    ensures LineWidth([x]) == if x.T? then Glyphs(x.text) else 0
  {
    assert [x][..0] == [];
  }

  lemma AsciiWidth(s: string)
    requires Ascii(s)
    ensures LineWidth([T(s)]) == |s|
  {
    AsciiGlyphs(s);
    WidthOne(T(s));
  }

  lemma {:induction false} RepeatWidth(s: string, n: int)
    requires Glyphs(s) == 1
    ensures LineWidth(Repeat(s, n)) == if n < 0 then 0 else n
  {
    if n > 0 {
      RepeatWidth(s, n - 1);
      assert Repeat(s, n)[..n - 1] == Repeat(s, n - 1);
    }
  }

  lemma GlyphWidths(ascii: bool)
    ensures Glyphs(OnGlyph(ascii)) == 1 && Glyphs(OffGlyph(ascii)) == 1 && Glyphs(RuleGlyph(ascii)) == 1
  {
    ThreeBytes('\U{96}', '\U{88}');
    ThreeBytes('\U{96}', '\U{91}');
    ThreeBytes('\U{94}', '\U{80}');
    AsciiGlyphs("#");
    AsciiGlyphs(".");
    AsciiGlyphs("-");
  }

  lemma ThreeBytes(b: char, c: char)
    requires !StartsGlyph(b) && !StartsGlyph(c)
    ensures Glyphs("\U{E2}" + [b, c]) == 1
    ensures "\U{E2}" + [b, c] == ['\U{E2}', b, c]
  {
    var s := ['\U{E2}', b, c];
    assert StartsGlyph('\U{E2}');
    assert s[..2] == ['\U{E2}', b] && s[..2][..1] == ['\U{E2}'] && s[..2][..1][..0] == "";
    assert Glyphs(s[..2][..1]) == 1;
    assert Glyphs(s[..2]) == 1;
    assert "\U{E2}" + [b, c] == s;
  }

  /** A rule fills the terminal's width exactly. */
  lemma RuleWidth(ascii: bool, cols: nat, color: bool)
    ensures VisibleWidth(LineBytes(RuleLine(ascii, cols), color)) == cols
  {
    RuleGood(ascii, cols, ESC);
    hide LineBytes, VisibleWidth, RuleGlyph;
    VisibleLine(RuleLine(ascii, cols), color);
    GlyphWidths(ascii);
    RepeatWidth(RuleGlyph(ascii), cols);
    WidthOne(S(Dim));
    WidthOne(S(Reset));
    LineWidthAppend([S(Dim)], Repeat(RuleGlyph(ascii), cols));
    LineWidthAppend([S(Dim)] + Repeat(RuleGlyph(ascii), cols), [S(Reset)]);
  }

  lemma PairWidth(x: Seg, y: Seg)
    ensures LineWidth([x, y]) == LineWidth([x]) + LineWidth([y])
  {
    LineWidthAppend([x], [y]);
    assert [x] + [y] == [x, y];
  }

  lemma BarCells(ascii: bool, pct: real, width: int)
    ensures LineWidth(BarSegs(ascii, pct, width)) == BarWidth(width) + 2
  {
    hide Filled, LineWidth, OnGlyph, OffGlyph;
    var w := BarWidth(width);
    var f := Filled(pct, w);
    var head: Line, tail: Line := [S(PctStyle(ClampPct(pct))), T("[")], [T("]"), S(Reset)];
    var on, off := Repeat(OnGlyph(ascii), f), Repeat(OffGlyph(ascii), w - f);
    GlyphWidths(ascii);
    RepeatWidth(OnGlyph(ascii), f);
    RepeatWidth(OffGlyph(ascii), w - f);
    AsciiGlyphs("[");
    AsciiGlyphs("]");
    WidthOne(T("["));
    WidthOne(T("]"));
    WidthOne(S(PctStyle(ClampPct(pct))));
    WidthOne(S(Reset));
    PairWidth(S(PctStyle(ClampPct(pct))), T("["));
    PairWidth(T("]"), S(Reset));
    LineWidthAppend(head, on);
    LineWidthAppend(head + on, off);
    LineWidthAppend(head + on + off, tail);
  }

  lemma TripleWidth(x: Seg, y: Seg, z: Seg)
    ensures LineWidth([x, y, z]) == LineWidth([x]) + LineWidth([y]) + LineWidth([z])
  {
    PairWidth(x, y);
    LineWidthAppend([x, y], [z]);
    assert [x, y] + [z] == [x, y, z];
  }

  lemma FixedAscii(x: real, d: Places, w: nat)
    ensures Ascii(FixedText(x, d)) && Ascii(PadLeft(FixedText(x, d), w))
  {
  }

  /** The name and the percentage around a core's bar. */
  lemma CellWidth(ascii: bool, c: CoreSample)
    requires |c.name| <= 3 && Ascii(c.name) && 0.0 <= c.usage <= 100.0
    ensures LineWidth(CoreCell(ascii, c)) <= 20
  {
    var name, pct := PadLeft(c.name, 2), PadLeft(FixedText(c.usage, 0), 4);
    assert Ascii(name);
    FixedAscii(c.usage, 0, 4);
    PctTextLength(c.usage, 0);
    hide LineWidth, BarSegs, PadLeft, FixedText;
    AsciiGlyphs(name);
    AsciiGlyphs(pct);
    AsciiGlyphs(" ");
    AsciiGlyphs("%");
    WidthOne(T(name));
    WidthOne(T(pct));
    WidthOne(T(" "));
    WidthOne(T("%"));
    PairWidth(T(name), T(" "));
    TripleWidth(T(" "), T(pct), T("%"));
    BarCells(ascii, c.usage, MINI_BAR_WIDTH);
    LineWidthAppend([T(name), T(" ")], BarSegs(ascii, c.usage, MINI_BAR_WIDTH));
    LineWidthAppend([T(name), T(" ")] + BarSegs(ascii, c.usage, MINI_BAR_WIDTH), [T(" "), T(pct), T("%")]);
  }

  predicate NarrowCore(c: CoreSample) {
    |c.name| <= 3 && Ascii(c.name) && Free(c.name, ESC) && 0.0 <= c.usage <= 100.0
  }

  lemma AsciiGaps()
    ensures LineWidth([T("  ")]) == 2 && LineWidth([T("   ")]) == 3
  {
    AsciiWidth("  ");
    AsciiWidth("   ");
  }

  lemma {:induction false} GappedWidth(ascii: bool, cs: seq<CoreSample>)
    requires forall i :: 0 <= i < |cs| ==> NarrowCore(cs[i])
    ensures LineWidth(GappedCells(ascii, cs)) <= 23 * |cs|
  {
    if cs != [] {
      hide LineWidth, CoreCell, Ascii;
      var front, last := cs[..|cs| - 1], cs[|cs| - 1];
      GappedWidth(ascii, front);
      CellWidth(ascii, last);
      AsciiGaps();
      LineWidthAppend(GappedCells(ascii, front), CoreCell(ascii, last));
      LineWidthAppend(GappedCells(ascii, front) + CoreCell(ascii, last), [T("   ")]);
    } else {
      assert GappedCells(ascii, cs) == [];
    }
  }

  lemma RowSafe(ascii: bool, cs: seq<CoreSample>)
    requires cs != [] && forall i :: 0 <= i < |cs| ==> NarrowCore(cs[i])
    ensures LineFree(CoreRow(ascii, cs), ESC)
  {
    RowGood(ascii, cs, ESC);
    hide CoreRow, LineFree;
  }

  /** A row of `per` narrow cores fits every terminal width that row length is chosen for. */
  lemma CoreRowFits(ascii: bool, cs: seq<CoreSample>, cols: int, color: bool)
    requires cols >= 60 && 0 < |cs| <= PerLine(cols) && forall i :: 0 <= i < |cs| ==> NarrowCore(cs[i])
    ensures VisibleWidth(LineBytes(CoreRow(ascii, cs), color)) <= cols
  {
    hide LineWidth, CoreCell, GappedCells, LineBytes, VisibleWidth, LineFree, Ascii;
    var front, last := cs[..|cs| - 1], cs[|cs| - 1];
    RowSafe(ascii, cs);
    VisibleLine(CoreRow(ascii, cs), color);
    GappedWidth(ascii, front);
    CellWidth(ascii, last);
    AsciiGaps();
    LineWidthAppend([T("  ")], GappedCells(ascii, front));
    LineWidthAppend([T("  ")] + GappedCells(ascii, front), CoreCell(ascii, last));
  }

  lemma {:induction false} ChunkSizes<A>(cs: seq<A>, per: nat, i: nat)
    requires per > 0 && i < |Chunks(cs, per)|
    ensures 0 < |Chunks(cs, per)[i]| <= per
    decreases |cs|
  {
    if |cs| > per && i > 0 {
      ChunkSizes(cs[per..], per, i - 1);
    }
  }

  /** The whole strip: a partition of the cores, no row wider than the terminal. */
  lemma CoreStripFits(snap: ResourceSnapshot, opt: RenderOptions)
    requires snap.primed && opt.cols >= 60 && forall i :: 0 <= i < |snap.cores| ==> NarrowCore(snap.cores[i])
    ensures var rows := Chunks(snap.cores, PerLine(opt.cols));
      var lines := CoreLines(opt.ascii, opt.cols, snap.primed, snap.cores);
      && Flat(rows) == snap.cores
      && |lines| == |rows| == (|snap.cores| + PerLine(opt.cols) - 1) / PerLine(opt.cols)
      && (forall i :: 0 <= i < |lines| ==>
            rows[i] != [] && lines[i] == CoreRow(opt.ascii, rows[i])
            && VisibleWidth(LineBytes(lines[i], opt.color)) <= opt.cols)
  {
    hide LineBytes, VisibleWidth, CoreRow, NarrowCore, Flat, Chunks;
    var per := PerLine(opt.cols);
    var rows := Chunks(snap.cores, per);
    StripPartition(snap.cores, per);
    forall i | 0 <= i < |rows|
      ensures rows[i] != [] && VisibleWidth(LineBytes(CoreRow(opt.ascii, rows[i]), opt.color)) <= opt.cols
    {
      ChunkSizes(snap.cores, per, i);
      ChunkMembers(snap.cores, per, i);
      forall j | 0 <= j < |rows[i]| ensures NarrowCore(rows[i][j]) {
        assert rows[i][j] in rows[i];
      }
      CoreRowFits(opt.ascii, rows[i], opt.cols, opt.color);
    }
  }

  /** The headline row fits, warming up or not. */
  lemma CpuRowFits(ascii: bool, cols: int, primed: bool, cpuTotal: real, color: bool)
    requires cols >= 60 && cpuTotal <= 100.0
    ensures VisibleWidth(LineBytes(CpuLine(ascii, cols, primed, cpuTotal), color)) <= cols
  {
    hide LineBytes, VisibleWidth;
    CpuSafe(ascii, cols, primed, cpuTotal);
    VisibleLine(CpuLine(ascii, cols, primed, cpuTotal), color);
    AsciiWidth("  CPU     ");
    if !primed || cpuTotal < 0.0 {
      WarmingWidth();
      hide LineWidth;
      var text := "(warming up " + DASH + " rates need two samples)";
      WidthOne(S(Dim));
      WidthOne(T(text));
      WidthOne(S(Reset));
      TripleWidth(S(Dim), T(text), S(Reset));
      LineWidthAppend([T("  CPU     ")], [S(Dim), T(text), S(Reset)]);
    } else {
      hide LineWidth, BarSegs, PadLeft, FixedText, LineFree;
      var pct := PadLeft(FixedText(cpuTotal, 1), 5);
      var meter := BarSegs(ascii, cpuTotal, MainBarWidth(cols));
      CpuTail(cpuTotal);
      BarCells(ascii, cpuTotal, MainBarWidth(cols));
      LineWidthAppend(meter, [T("  "), T(pct), T("%")]);
      LineWidthAppend([T("  CPU     ")], meter + [T("  "), T(pct), T("%")]);
    }
  }

  lemma CpuSafe(ascii: bool, cols: int, primed: bool, cpuTotal: real)
    ensures LineFree(CpuLine(ascii, cols, primed, cpuTotal), ESC)
  {
    CpuGood(ascii, cols, primed, cpuTotal, ESC);
    hide CpuLine, LineFree;
  }

  lemma CpuTail(cpuTotal: real)
    requires 0.0 <= cpuTotal <= 100.0
    ensures LineWidth([T("  "), T(PadLeft(FixedText(cpuTotal, 1), 5)), T("%")]) == 8
  {
    hide LineWidth, PadLeft, FixedText;
    var pct := PadLeft(FixedText(cpuTotal, 1), 5);
    PctTextLength(cpuTotal, 1);
    FixedAscii(cpuTotal, 1, 5);
    AsciiWidth(pct);
    AsciiWidth("  ");
    AsciiWidth("%");
    TripleWidth(T("  "), T(pct), T("%"));
  }

  lemma WarmingWidth()
    ensures Glyphs("(warming up " + DASH + " rates need two samples)") <= 39
  {
    GlyphsAtMost("(warming up " + DASH + " rates need two samples)");
  }

  lemma GlyphsAtMost(s: string)
    ensures Glyphs(s) <= |s|
  {
  }

  // ---------------------------------------------------------------- rows that may be too wide

  lemma BytesAscii(v: u64)
    ensures Ascii(BytesText(v))
  {
    var u := UnitOf(v as real, 5);
    FixedAscii(Down(v as real, u), Precision(u, Down(v as real, u)), 0);
    hide FixedText, Precision;
    assert Ascii(BYTE_UNITS[u]);
  }

  /** Characters the three figures of a memory or swap row take. */
  function FigureCells(used: u64, total: u64): nat {
    |BytesText(used)| + |BytesText(total)| + |PadLeft(FixedText(UsedPct(used, total), 1), 4)|
  }

  lemma SeparatorWidths()
    ensures LineWidth([T("  ")]) == 2 && LineWidth([T(" / ")]) == 3
    ensures LineWidth([T("  (")]) == 3 && LineWidth([T("%)")]) == 2
  {
    hide LineWidth;
    AsciiWidth("  ");
    AsciiWidth(" / ");
    AsciiWidth("  (");
    AsciiWidth("%)");
  }

  lemma MeterTail(a: string, b: string, pct: string)
    requires Ascii(a) && Ascii(b) && Ascii(pct)
    ensures LineWidth([T("  "), T(a), T(" / "), T(b), T("  ("), T(pct), T("%)")]) == 10 + |a| + |b| + |pct|
  {
    hide LineWidth;
    SeparatorWidths();
    AsciiWidth(a);
    AsciiWidth(b);
    AsciiWidth(pct);
    hide Ascii;
    TripleWidth(T("  "), T(a), T(" / "));
    TripleWidth(T(b), T("  ("), T(pct));
    var first, second: Line := [T("  "), T(a), T(" / ")], [T(b), T("  ("), T(pct)];
    LineWidthAppend(first, second);
    LineWidthAppend(first + second, [T("%)")]);
    assert first + second + [T("%)")] == [T("  "), T(a), T(" / "), T(b), T("  ("), T(pct), T("%)")];
  }

  /** A memory or swap row fits exactly when its texts do; nothing cuts them to the terminal's width. */
  lemma MeterRowFits(title: string, ascii: bool, cols: int, used: u64, total: u64, color: bool)
    requires |title| == 10 && Ascii(title) && Free(title, ESC)
    ensures VisibleWidth(LineBytes(MeterLine(title, ascii, cols, used, total), color)) <= cols
       <==> MainBarWidth(cols) + 22 + FigureCells(used, total) <= cols
  {
    hide BytesText, UsedPct, PadLeft, FixedText, LineBytes, VisibleWidth, BarSegs, MainBarWidth, Ascii, Free,
         LineWidth;
    MeterGood(title, ascii, cols, used, total, ESC);
    VisibleLine(MeterLine(title, ascii, cols, used, total), color);
    var p := UsedPct(used, total);
    var pct, a, b := PadLeft(FixedText(p, 1), 4), BytesText(used), BytesText(total);
    FixedAscii(p, 1, 4);
    BytesAscii(used);
    BytesAscii(total);
    var meter := BarSegs(ascii, p, MainBarWidth(cols));
    var tail: Line := [T("  "), T(a), T(" / "), T(b), T("  ("), T(pct), T("%)")];
    BarCells(ascii, p, MainBarWidth(cols));
    MainBarWide(cols);
    AsciiWidth(title);
    MeterTail(a, b, pct);
    LineWidthAppend([T(title)], meter);
    LineWidthAppend([T(title)] + meter, tail);
  }

  lemma MainBarWide(cols: int)
    ensures BarWidth(MainBarWidth(cols)) == MainBarWidth(cols)
  {
  }

  lemma FiguresAtMost(used: u64, total: u64)
    ensures FigureCells(used, total) <= 27
    ensures used >= 1024 && total >= 1024 ==> FigureCells(used, total) >= 18
  {
    hide BytesText, UsedPct, FixedText;
    BytesTextLength(used);
    BytesTextLength(total);
    UsedPctRange(used, total);
    PctTextLength(UsedPct(used, total), 1);
    if used >= 1024 && total >= 1024 {
      BytesTextAtLeast(used);
      BytesTextAtLeast(total);
    }
  }

  /** When a memory or swap row fits. Up to 84 columns the bar grows with the terminal, so the figures get 14 characters
      whatever the width; from there the bar stays and they get what is left. From 97 columns every row fits, and below
      88 none does once both amounts reach a kilobyte. */
  lemma MeterRowRule(title: string, ascii: bool, cols: int, used: u64, total: u64, color: bool)
    requires |title| == 10 && Ascii(title) && Free(title, ESC) && cols >= 60
    ensures var fits := VisibleWidth(LineBytes(MeterLine(title, ascii, cols, used, total), color)) <= cols;
      && (fits <==> FigureCells(used, total) <= if cols <= 84 then 14 else cols - 70)
      && (cols >= 97 ==> fits)
      && (cols < 88 && used >= 1024 && total >= 1024 ==> !fits)
  {
    hide BytesText, UsedPct, PadLeft, FixedText, LineBytes, VisibleWidth, MeterLine, Ascii, Free;
    MeterRowFits(title, ascii, cols, used, total, color);
    FiguresAtMost(used, total);
  }

  /** Twelve gigabytes of sixteen overflow the default 80 columns. */
  lemma UsualMemoryTooWide(ascii: bool, color: bool)
    ensures VisibleWidth(LineBytes(MeterLine("  Memory  ", ascii, 80, 0x3_0000_0000, 0x4_0000_0000), color)) > 80
  {
    hide VisibleWidth, LineBytes, MeterLine, FigureCells;
    MemoryTitle();
    MeterRowRule("  Memory  ", ascii, 80, 0x3_0000_0000, 0x4_0000_0000, color);
  }

  lemma MemoryTitle()
    ensures |"  Memory  "| == 10 && Ascii("  Memory  ") && Free("  Memory  ", ESC)
  {
  }

  /** One thousand bytes of one thousand already overflow a 60-column terminal. */
  lemma MemoryRowTooWide(ascii: bool, color: bool)
    ensures VisibleWidth(LineBytes(MeterLine("  Memory  ", ascii, 60, 1000, 1000), color)) > 60
  {
    Marks(ESC);
    MemoryLabels(ESC);
    MeterRowFits("  Memory  ", ascii, 60, 1000, 1000, color);
    ThousandBytes();
    hide VisibleWidth, LineBytes, MeterLine;
  }

  lemma ThousandBytes()
    ensures |BytesText(1000)| == 6
  {
    assert Down(1000.0, 0) == 1000.0;
    assert UnitOf(1000.0, 5) == 0;
    RoundExact(1000);
    assert Scaled(1000.0, 0) == 1000;
    assert NatText(1000) == NatText(100) + [Digit(0)];
    assert NatText(100) == NatText(10) + [Digit(0)];
    assert |NatText(1000)| == 4;
  }

  // ---------------------------------------------------------------- idle interfaces

  predicate AnyActive(nets: seq<NetSample>) {
    exists i :: 0 <= i < |nets| && !Idle(nets[i])
  }

  predicate AnyIdle(nets: seq<NetSample>) {
    exists i :: 0 <= i < |nets| && Idle(nets[i])
  }

  lemma IdleSnoc(nets: seq<NetSample>)
    requires nets != []
    ensures AnyIdle(nets) <==> AnyIdle(nets[..|nets| - 1]) || Idle(nets[|nets| - 1])
  {
    hide Idle;
    var front := nets[..|nets| - 1];
    assert forall i :: 0 <= i < |front| ==> front[i] == nets[i];
  }

  lemma {:induction false} HiddenRows(nets: seq<NetSample>)
    ensures |NetRows(nets, false)| == |nets|
    ensures |NetRows(nets, true)| <= |nets|
    ensures AnyIdle(nets) ==> |NetRows(nets, true)| < |nets|
    ensures !AnyIdle(nets) ==> NetRows(nets, true) == NetRows(nets, false)
  {
    if nets != [] {
      hide NetLine, Idle, AnyIdle;
      IdleSnoc(nets);
      HiddenRows(nets[..|nets| - 1]);
    } else {
      assert NetRows(nets, true) == [] == NetRows(nets, false);
    }
  }

  lemma BytesMeanActive(nets: seq<NetSample>)
    ensures AnyBytes(nets) ==> AnyActive(nets)
  {
    if AnyBytes(nets) {
      var i :| 0 <= i < |nets| && HasBytes(nets[i]);
      assert !Idle(nets[i]);
    }
  }

  /** Idle interfaces are hidden unless all are idle, except when every sum of counters wraps to zero
      while idle and active interfaces are mixed: then the idle ones are shown too. */
  lemma IdleRule(nets: seq<NetSample>)
    ensures NetRows(nets, AnyBytes(nets)) == NetRows(nets, AnyActive(nets))
       <==> !(AnyActive(nets) && AnyIdle(nets) && !AnyBytes(nets))
  {
    hide NetLine, Idle, AnyIdle, NetRows, AnyBytes, AnyActive;
    HiddenRows(nets);
    BytesMeanActive(nets);
  }

  /** The mixed case exists: one counter pair adding up to 2^64 beside an idle interface. */
  lemma IdleRuleBroken()
    ensures var nets := [NetSample("eth0", WORD / 2, WORD / 2, 0.0, 0.0), NetSample("eth1", 0, 0, 0.0, 0.0)];
      NetRows(nets, AnyBytes(nets)) != NetRows(nets, AnyActive(nets))
  {
    hide NetRows;
    var nets := [NetSample("eth0", WORD / 2, WORD / 2, 0.0, 0.0), NetSample("eth1", 0, 0, 0.0, 0.0)];
    IdleRule(nets);
    assert !Idle(nets[0]) && Idle(nets[1]);
    assert !HasBytes(nets[0]) && !HasBytes(nets[1]);
  }
}

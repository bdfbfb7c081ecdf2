/** Reading a byte stream the way an ECMA-48 terminal does: SGR sequences, style state, glyph count. */
module Escapes {
  import opened Options
  import opened Decimal
  import opened FrameBuffer
  import opened Frame

  /** First position from `i` that is not a parameter byte (0x30 to 0x3F, section 5.4 of ECMA-48). */
  function ParamEnd(s: string, i: nat): (e: nat)
    requires i <= |s|
    ensures i <= e <= |s|
    decreases |s| - i
  {
    if i < |s| && '0' <= s[i] <= '?' then ParamEnd(s, i + 1) else i
  }

  /** Length of the SGR sequence `s` begins with, 0 when it begins with none. */
  function SgrLen(s: string): (k: nat)
    ensures k <= |s|
  {
    if |s| >= 2 && s[0] == ESC && s[1] == '[' then
      var e := ParamEnd(s, 2);
      if e < |s| && s[e] == 'm' then e + 1 else 0
    else 0
  }

  /** The stream without its SGR sequences. */
  function StripSgr(s: string): string
    decreases |s|
  {
    if s == "" then ""
    else
      var k := SgrLen(s);
      if k > 0 then StripSgr(s[k..]) else [s[0]] + StripSgr(s[1..])
  }

  /** The style state after the stream, None when a newline is met while a style is on. */
  function Scan(s: string, styled: bool): Option<bool>
    decreases |s|
  {
    if s == "" then Some(styled)
    else
      var k := SgrLen(s);
      if k > 0 then Scan(s[k..], s[..k] != Code(Reset))
      else if s[0] == '\n' && styled then None
      else Scan(s[1..], styled)
  }

  lemma CodeLength(c: Style, rest: string)
    ensures SgrLen(Code(c) + rest) == |Code(c)| > 0
    ensures (Code(c) + rest)[..|Code(c)|] == Code(c) && (Code(c) + rest)[|Code(c)|..] == rest
    ensures |Code(c)| <= 5
    ensures c != Reset ==> Code(c) != Code(Reset)
  {
    var s := Code(c) + rest;
    var n := |Code(c)|;
    assert 4 <= n <= 5;
    assert s[0] == ESC && s[1] == '[' && '0' <= s[2] <= '?' && s[n - 1] == 'm';
    assert n == 5 ==> '0' <= s[3] <= '?';
    assert ParamEnd(s, n - 1) == n - 1;
    assert ParamEnd(s, n - 2) == n - 1;
    assert ParamEnd(s, 2) == n - 1;
    assert c != Reset ==> Code(c)[2] != '0';
    assert Code(Reset)[2] == '0';
  }

  lemma CodeEffect(c: Style, rest: string, styled: bool)
    ensures StripSgr(Code(c) + rest) == StripSgr(rest)
    ensures Scan(Code(c) + rest, styled) == Scan(rest, c != Reset)
  {
    CodeLength(c, rest);
    hide Code;
  }

  lemma OneByte(b: char, rest: string, styled: bool)
    requires SgrLen([b] + rest) == 0
    ensures StripSgr([b] + rest) == [b] + StripSgr(rest)
    ensures Scan([b] + rest, styled) == if b == '\n' && styled then None else Scan(rest, styled)
  {
    assert ([b] + rest)[1..] == rest;
    hide SgrLen, Code;
  }

  lemma {:induction false} TextEffect(t: string, rest: string, styled: bool)
    requires Free(t, ESC)
    ensures StripSgr(t + rest) == t + StripSgr(rest)
    ensures Scan(t + rest, styled) == if styled && !Free(t, '\n') then None else Scan(rest, styled)
  {
    hide StripSgr, Scan;
    if t == "" {
      assert t + rest == rest;
      assert t + StripSgr(rest) == StripSgr(rest);
    } else {
      var b, tail := t[0], t[1..];
      assert t + rest == [b] + (tail + rest);
      OneByte(b, tail + rest, styled);
      TextEffect(tail, rest, styled);
      assert t + StripSgr(rest) == [b] + (tail + StripSgr(rest));
    }
  }

  lemma EraseLineHead(rest: string)
    ensures SgrLen(ERASE_LINE + rest) == 0
    ensures ERASE_LINE + rest == [ESC] + ("[K" + rest)
  {
    var s := ERASE_LINE + rest;
    assert s[2] == 'K';
    assert ParamEnd(s, 2) == 2;
  }

  lemma NlEffect(live: bool, rest: string)
    ensures StripSgr(NlBytes(live) + rest) == NlBytes(live) + StripSgr(rest)
    ensures Scan(NlBytes(live) + rest, false) == Scan(rest, false)
    ensures Scan(NlBytes(live) + rest, true) == None
  {
    hide StripSgr, Scan;
    if live {
      EraseLineHead("\n" + rest);
      assert NlBytes(live) + rest == ERASE_LINE + ("\n" + rest);
      OneByte(ESC, "[K" + ("\n" + rest), false);
      OneByte(ESC, "[K" + ("\n" + rest), true);
      assert "[K" + ("\n" + rest) == "[K\n" + rest;
      assert "[K\n"[2] == '\n';
      TextEffect("[K\n", rest, false);
      TextEffect("[K\n", rest, true);
      assert NlBytes(live) + StripSgr(rest) == [ESC] + ("[K\n" + StripSgr(rest));
    } else {
      assert "\n"[0] == '\n';
      TextEffect("\n", rest, false);
      TextEffect("\n", rest, true);
    }
  }

  // ---------------------------------------------------------------- lines and frames

  predicate LineFree(l: Line, c: char) {
    forall i :: 0 <= i < |l| && l[i].T? ==> Free(l[i].text, c)
  }

  /** Whether a style is still on after the line. */
  function Styled(l: Line, styled: bool): bool {
    if l == [] then styled
    else if l[|l| - 1].S? then l[|l| - 1].style != Reset
    else Styled(l[..|l| - 1], styled)
  }

  /** The style state after a segment, None when it holds a newline while a style is on. */
  function SegScan(x: Seg, styled: bool): Option<bool> {
    match x
    case S(c) => Some(c != Reset)
    case T(t) => if styled && !Free(t, '\n') then None else Some(styled)
  }

  function LineScan(l: Line, styled: bool): Option<bool> {
    if l == [] then Some(styled)
    else
      match LineScan(l[..|l| - 1], styled)
      case None => None
      case Some(b) => SegScan(l[|l| - 1], b)
  }

  /** The scan goes on with the rest of the stream, unless it has failed. */
  function GoesOn(state: Option<bool>, rest: string): Option<bool> {
    match state
    case None => None
    case Some(b) => Scan(rest, b)
  }

  lemma SegEffect(x: Seg, rest: string, styled: bool)
    requires x.T? ==> Free(x.text, ESC)
    ensures StripSgr(SegBytes(x, true) + rest) == SegBytes(x, false) + StripSgr(rest)
    ensures Scan(SegBytes(x, true) + rest, styled) == GoesOn(SegScan(x, styled), rest)
  {
    match x
    case S(c) => CodeEffect(c, rest, styled);
    case T(t) => TextEffect(t, rest, styled);
  }

  lemma LineSnoc(l: Line, color: bool)
    requires l != []
    ensures LineBytes(l, color) == LineBytes(l[..|l| - 1], color) + SegBytes(l[|l| - 1], color)
  {
    var front, last := l[..|l| - 1], l[|l| - 1];
    assert Codes(l, color) == Codes(front, color) + [SegBytes(last, color)];
    FlatSnoc(Codes(front, color), SegBytes(last, color));
  }

  lemma {:induction false} LineEffect(l: Line, rest: string, styled: bool)
    requires LineFree(l, ESC)
    ensures StripSgr(LineBytes(l, true) + rest) == LineBytes(l, false) + StripSgr(rest)
    ensures Scan(LineBytes(l, true) + rest, styled) == GoesOn(LineScan(l, styled), rest)
  {
    hide StripSgr, Scan, SegBytes, Codes, Flat, SegScan;
    if l == [] {
      EmptyLine(true);
      EmptyLine(false);
      assert "" + rest == rest && "" + StripSgr(rest) == StripSgr(rest);
    } else {
      var front, last := l[..|l| - 1], l[|l| - 1];
      LineSnoc(l, true);
      LineSnoc(l, false);
      var tail := SegBytes(last, true) + rest;
      Assoc(LineBytes(front, true), SegBytes(last, true), rest);
      LineEffect(front, tail, styled);
      if LineScan(front, styled).Some? {
        SegEffect(last, rest, LineScan(front, styled).value);
      } else {
        SegEffect(last, rest, styled);
      }
      Assoc(LineBytes(front, false), SegBytes(last, false), StripSgr(rest));
    }
  }

  lemma EmptyLine(color: bool)
    ensures LineBytes([], color) == ""
  {
  }

  /** Everything the lines put into the buffer. */
  function FrameBytes(lines: seq<Line>, color: bool, live: bool): string {
    Flat(Pieces(lines, color, live))
  }

  lemma FrameSnoc(lines: seq<Line>, color: bool, live: bool)
    requires lines != []
    ensures FrameBytes(lines, color, live)
         == FrameBytes(lines[..|lines| - 1], color, live) + LineBytes(lines[|lines| - 1], color) + NlBytes(live)
  {
    var front, last := lines[..|lines| - 1], lines[|lines| - 1];
    var p, q := Pieces(front, color, live), Codes(last, color);
    assert Pieces(lines, color, live) == p + (q + [NlBytes(live)]) == (p + q) + [NlBytes(live)];
    hide Pieces, Codes;
    FlatSnoc(p + q, NlBytes(live));
    FlatAppend(p, q);
  }

  predicate AllFree(lines: seq<Line>, c: char) {
    forall i :: 0 <= i < |lines| ==> LineFree(lines[i], c)
  }

  /** No newline meets a style, and the line ends with the style off. */
  predicate Tidy(l: Line) {
    LineScan(l, false) == Some(false)
  }

  predicate AllTidy(lines: seq<Line>) {
    forall i :: 0 <= i < |lines| ==> Tidy(lines[i])
  }

  lemma TidySnoc(lines: seq<Line>)
    requires lines != []
    ensures AllTidy(lines) <==> AllTidy(lines[..|lines| - 1]) && Tidy(lines[|lines| - 1])
  {
    hide Tidy;
    var front := lines[..|lines| - 1];
    assert forall i :: 0 <= i < |front| ==> front[i] == lines[i];
  }

  /** A line with its end: the scan survives exactly when the line is tidy. */
  lemma EndedLine(l: Line, live: bool, rest: string)
    requires LineFree(l, ESC)
    ensures StripSgr(LineBytes(l, true) + (NlBytes(live) + rest))
         == LineBytes(l, false) + (NlBytes(live) + StripSgr(rest))
    ensures Scan(LineBytes(l, true) + (NlBytes(live) + rest), false) == if Tidy(l) then Scan(rest, false) else None
  {
    hide StripSgr, Scan, LineBytes, NlBytes, LineFree, LineScan;
    LineEffect(l, NlBytes(live) + rest, false);
    NlEffect(live, rest);
  }

  /** With whatever follows: stripping a colour frame gives the plain one, and the scan survives it exactly when every
      line is tidy. */
  lemma {:induction false} FrameEffect(lines: seq<Line>, live: bool, rest: string)
    requires AllFree(lines, ESC)
    ensures StripSgr(FrameBytes(lines, true, live) + rest) == FrameBytes(lines, false, live) + StripSgr(rest)
    ensures Scan(FrameBytes(lines, true, live) + rest, false) == if AllTidy(lines) then Scan(rest, false) else None
  {
    hide StripSgr, Scan, LineBytes, NlBytes, LineFree, Tidy;
    if lines == [] {
      assert FrameBytes(lines, true, live) == "" == FrameBytes(lines, false, live);
      assert "" + rest == rest && "" + StripSgr(rest) == StripSgr(rest);
    } else {
      var front, last := lines[..|lines| - 1], lines[|lines| - 1];
      FrameSnoc(lines, true, live);
      FrameSnoc(lines, false, live);
      TidySnoc(lines);
      var nl := NlBytes(live);
      Join4(FrameBytes(front, true, live), LineBytes(last, true), nl, rest);
      Join4(FrameBytes(front, false, live), LineBytes(last, false), nl, StripSgr(rest));
      FrameEffect(front, live, LineBytes(last, true) + (nl + rest));
      EndedLine(last, live, rest);
    }
  }

  lemma Join4(a: string, b: string, c: string, d: string)
    ensures a + b + c + d == a + (b + (c + d))
  {
  }

  // ---------------------------------------------------------------- glyphs

  /** A byte that starts a UTF-8 character: anything but a continuation byte 0x80 to 0xBF. */
  predicate StartsGlyph(b: char) {
    b < '\U{80}' || b >= '\U{C0}'
  }

  function Glyphs(s: string): nat {
    if s == "" then 0 else Glyphs(s[..|s| - 1]) + if StartsGlyph(s[|s| - 1]) then 1 else 0
  }

  /** Character cells a terminal needs for the stream. */
  function VisibleWidth(s: string): nat {
    Glyphs(StripSgr(s))
  }

  lemma {:induction false} GlyphsAppend(a: string, b: string)
    ensures Glyphs(a + b) == Glyphs(a) + Glyphs(b)
  {
    if b == "" {
      assert a + b == a;
    } else {
      GlyphsAppend(a, b[..|b| - 1]);
      assert (a + b)[..|a + b| - 1] == a + b[..|b| - 1];
    }
  }

  predicate Ascii(s: string) {
    forall i :: 0 <= i < |s| ==> s[i] < '\U{80}'
  }

  lemma {:induction false} AsciiGlyphs(s: string)
    requires Ascii(s)
    ensures Glyphs(s) == |s|
  {
    if s != "" {
      AsciiGlyphs(s[..|s| - 1]);
    }
  }

  /** Cells of a line, styles aside. */
  function LineWidth(l: Line): nat {
    if l == [] then 0
    else LineWidth(l[..|l| - 1]) + if l[|l| - 1].T? then Glyphs(l[|l| - 1].text) else 0
  }

  lemma {:induction false} LineWidthAppend(a: Line, b: Line)
    ensures LineWidth(a + b) == LineWidth(a) + LineWidth(b)
  {
    if b == [] {
      assert a + b == a;
    } else {
      LineWidthAppend(a, b[..|b| - 1]);
      assert (a + b)[..|a + b| - 1] == a + b[..|b| - 1];
    }
  }

  lemma {:induction false} PlainWidth(l: Line)
    ensures Glyphs(LineBytes(l, false)) == LineWidth(l)
  {
    if l == [] {
      EmptyLine(false);
    } else {
      PlainWidth(l[..|l| - 1]);
      LineSnoc(l, false);
      GlyphsAppend(LineBytes(l[..|l| - 1], false), SegBytes(l[|l| - 1], false));
    }
  }

  lemma {:induction false} PlainFree(l: Line, c: char)
    requires LineFree(l, c)
    ensures Free(LineBytes(l, false), c)
  {
    if l == [] {
      EmptyLine(false);
    } else {
      hide LineBytes;
      PlainFree(l[..|l| - 1], c);
      LineSnoc(l, false);
    }
  }

  /** With or without colour a line takes the same cells. */
  lemma VisibleLine(l: Line, color: bool)
    requires LineFree(l, ESC)
    ensures VisibleWidth(LineBytes(l, color)) == LineWidth(l)
  {
    PlainWidth(l);
    var plain := LineBytes(l, false);
    var s := LineBytes(l, color);
    assert s + "" == s && plain + "" == plain;
    if color {
      LineEffect(l, "", false);
    } else {
      PlainFree(l, ESC);
      TextEffect(plain, "", false);
    }
  }
}

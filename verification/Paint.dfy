/** src/render.c: `paint` and its helpers, each proved to request exactly the pieces of Frame's lines. */
module Paint {
  import opened Decimal
  import opened Util
  import opened Snapshots
  import opened FrameBuffer
  import opened Frame

  // ---------------------------------------------------------------- one request at a time

  /** fb_add of a text, or of `s(opt, code)`, which is the style code or nothing without colour. */
  method Put(fb: FrameBuf, opt: RenderOptions, x: Seg)
    requires fb.Valid()
    modifies fb, fb.data
    ensures fb.Valid()
    ensures fb.log == old(fb.log) + Codes([x], opt.color)
  {
    hide FrameBuf.Valid, SegBytes;
    fb.Add(SegBytes(x, opt.color));
    assert Codes([x], opt.color) == [SegBytes(x, opt.color)];
  }

  /** fb_printf: the literal runs and converted arguments of the format, in order. */
  method Format(fb: FrameBuf, opt: RenderOptions, parts: Line)
    requires fb.Valid()
    modifies fb, fb.data
    ensures fb.Valid()
    ensures fb.log == old(fb.log) + Codes(parts, opt.color)
  {
    hide FrameBuf.Valid, Codes;
    fb.Printf(Codes(parts, opt.color));
  }

  /** A style, a text, and the reset. */
  method Styled(fb: FrameBuf, opt: RenderOptions, c: Style, s: string)
    requires fb.Valid()
    modifies fb, fb.data
    ensures fb.Valid()
    ensures fb.log == old(fb.log) + Codes([S(c), T(s), S(Reset)], opt.color)
  {
    hide FrameBuf.Valid, Codes, SegBytes;
    Put(fb, opt, S(c));
    Put(fb, opt, T(s));
    Put(fb, opt, S(Reset));
    Join3(old(fb.log), [S(c)], [T(s)], [S(Reset)], opt.color);
    assert [S(c)] + [T(s)] + [S(Reset)] == [S(c), T(s), S(Reset)];
  }

  lemma Join2(base: seq<string>, a: Line, b: Line, color: bool)
    ensures base + Codes(a, color) + Codes(b, color) == base + Codes(a + b, color)
  {
    CodesAppend(a, b, color);
    hide Codes;
  }

  lemma Join3(base: seq<string>, a: Line, b: Line, c: Line, color: bool)
    ensures base + Codes(a, color) + Codes(b, color) + Codes(c, color) == base + Codes(a + b + c, color)
  {
    hide Codes;
    Join2(base, a, b, color);
    Join2(base, a + b, c, color);
  }

  lemma EndRow(base: seq<string>, l: Line, color: bool, live: bool)
    ensures base + Codes(l, color) + [NlBytes(live)] == base + LinePieces(l, color, live)
  {
    hide Codes;
  }

  /** fb_nl */
  method EndLine(fb: FrameBuf, opt: RenderOptions, ghost base: seq<string>, ghost l: Line)
    requires fb.Valid() && fb.log == base + Codes(l, opt.color)
    modifies fb, fb.data
    ensures fb.Valid()
    ensures fb.log == base + LinePieces(l, opt.color, fb.live)
  {
    hide FrameBuf.Valid, Codes, LinePieces;
    fb.Nl();
    EndRow(base, l, opt.color, fb.live);
  }

  // ---------------------------------------------------------------- bars and rules

  /** `n` copies of one glyph, added one at a time after `i` of them. */
  method Glyphs(fb: FrameBuf, opt: RenderOptions, glyph: string, from: int, to: int)
    requires fb.Valid() && from <= to
    modifies fb, fb.data
    ensures fb.Valid()
    ensures fb.log == old(fb.log) + Codes(Repeat(glyph, to - from), opt.color)
  {
    hide FrameBuf.Valid, Codes, SegBytes;
    ghost var base := fb.log;
    var i := from;
    NoCodes(base, opt.color);
    assert Repeat(glyph, 0) == [];
    while i < to
      invariant from <= i <= to && fb.Valid()
      invariant fb.log == base + Codes(Repeat(glyph, i - from), opt.color)
    {
      Put(fb, opt, T(glyph));
      Join2(base, Repeat(glyph, i - from), [T(glyph)], opt.color);
      assert Repeat(glyph, i - from) + [T(glyph)] == Repeat(glyph, i + 1 - from);
      i := i + 1;
    }
  }

  lemma NoCodes(base: seq<string>, color: bool)
    ensures base == base + Codes([], color)
  {
  }

  /** The rounding of a clamped percentage to glyphs. */
  method Lit(pct: real, p: real, w: nat) returns (filled: nat)
    requires p == ClampPct(pct)
    ensures filled == Filled(pct, w)
  {
    filled := (p / 100.0 * w as real + 0.5).Floor;
    if filled > w {
      filled := w;
    }
  }

  method Bar(fb: FrameBuf, opt: RenderOptions, pct: real, width: int)
    requires fb.Valid()
    modifies fb, fb.data
    ensures fb.Valid()
    ensures fb.log == old(fb.log) + Codes(BarSegs(opt.ascii, pct, width), opt.color)
  {
    hide FrameBuf.Valid, Codes, SegBytes, OnGlyph, OffGlyph, PctStyle, Repeat, Filled, ClampPct;
    var w := width;
    if w < 4 {
      w := 4;
    }
    var p := ClampPct(pct);
    var filled := Lit(pct, p, w);
    ghost var base := fb.log;
    var col := PctStyle(p);
    ghost var head := [S(col), T("[")];
    Put(fb, opt, S(col));
    Put(fb, opt, T("["));
    Join2(base, [S(col)], [T("[")], opt.color);
    assert [S(col)] + [T("[")] == head;
    Glyphs(fb, opt, OnGlyph(opt.ascii), 0, filled);
    Glyphs(fb, opt, OffGlyph(opt.ascii), filled, w);
    Join3(base, head, Repeat(OnGlyph(opt.ascii), filled), Repeat(OffGlyph(opt.ascii), w - filled), opt.color);
    ghost var body := head + Repeat(OnGlyph(opt.ascii), filled) + Repeat(OffGlyph(opt.ascii), w - filled);
    Put(fb, opt, T("]"));
    Put(fb, opt, S(Reset));
    Join3(base, body, [T("]")], [S(Reset)], opt.color);
    assert body + [T("]")] + [S(Reset)] == body + [T("]"), S(Reset)];
  }

  method HLine(fb: FrameBuf, opt: RenderOptions, cols: int)
    requires fb.Valid()
    modifies fb, fb.data
    ensures fb.Valid()
    ensures fb.log == old(fb.log) + LinePieces(RuleLine(opt.ascii, cols), opt.color, fb.live)
  {
    hide FrameBuf.Valid, Codes, SegBytes, LinePieces, RuleGlyph;
    ghost var base := fb.log;
    var ch := RuleGlyph(opt.ascii);
    Put(fb, opt, S(Dim));
    Glyphs(fb, opt, ch, 0, if cols < 0 then 0 else cols);
    Put(fb, opt, S(Reset));
    Join3(base, [S(Dim)], Repeat(ch, cols), [S(Reset)], opt.color);
    assert Repeat(ch, cols) == Repeat(ch, if cols < 0 then 0 else cols);
    EndLine(fb, opt, base, RuleLine(opt.ascii, cols));
  }

  method Title(fb: FrameBuf, opt: RenderOptions)
    requires fb.Valid()
    modifies fb, fb.data
    ensures fb.Valid()
    ensures fb.log == old(fb.log) + LinePieces(TitleLine(opt.paused), opt.color, fb.live)
  {
    hide FrameBuf.Valid, Codes, SegBytes, LinePieces;
    ghost var base := fb.log;
    Styled(fb, opt, Bold, "  Cross-Platform Resource Monitor");
    ghost var l := [S(Bold), T("  Cross-Platform Resource Monitor"), S(Reset)];
    if opt.paused {
      Styled(fb, opt, Yellow, "   PAUSED");
      Join2(base, l, [S(Yellow), T("   PAUSED"), S(Reset)], opt.color);
    } else {
      assert l + [] == l;
    }
    EndLine(fb, opt, base, TitleLine(opt.paused));
  }

  method Host(fb: FrameBuf, f: Facts, cpuCount: int, opt: RenderOptions)
    requires fb.Valid()
    modifies fb, fb.data
    ensures fb.Valid()
    ensures fb.log == old(fb.log) + LinePieces(HostLine(f, cpuCount), opt.color, fb.live)
  {
    hide FrameBuf.Valid, Codes, SegBytes, LinePieces;
    ghost var base := fb.log;
    var dot := "  " + DOT + "  ";
    Format(fb, opt, [T("  "), S(Cyan), T(OrElse(f.hostname, "unknown")), S(Reset),
                     T(dot), T(OrElse(f.hostLabel, f.osName)), T(" "), T(f.osRelease),
                     T(dot), T(f.arch), T(dot), T(IntText(cpuCount)), T(" cores")]);
    EndLine(fb, opt, base, HostLine(f, cpuCount));
  }

  method Cpu(fb: FrameBuf, snap: ResourceSnapshot, opt: RenderOptions)
    requires fb.Valid()
    modifies fb, fb.data
    ensures fb.Valid()
    ensures fb.log == old(fb.log)
                      + LinePieces(CpuLine(opt.ascii, opt.cols, snap.primed, snap.cpuTotal), opt.color, fb.live)
  {
    hide FrameBuf.Valid, Codes, SegBytes, LinePieces, BarSegs;
    ghost var base := fb.log;
    Put(fb, opt, T("  CPU     "));
    if !snap.primed || snap.cpuTotal < 0.0 {
      var text := "(warming up " + DASH + " rates need two samples)";
      Styled(fb, opt, Dim, text);
      Join2(base, [T("  CPU     ")], [S(Dim), T(text), S(Reset)], opt.color);
    } else {
      Bar(fb, opt, snap.cpuTotal, MainBarWidth(opt.cols));
      var tail := [T("  "), T(PadLeft(FixedText(snap.cpuTotal, 1), 5)), T("%")];
      Format(fb, opt, tail);
      Join3(base, [T("  CPU     ")], BarSegs(opt.ascii, snap.cpuTotal, MainBarWidth(opt.cols)), tail, opt.color);
      Assoc<Seg>([T("  CPU     ")], BarSegs(opt.ascii, snap.cpuTotal, MainBarWidth(opt.cols)), tail);
    }
    EndLine(fb, opt, base, CpuLine(opt.ascii, opt.cols, snap.primed, snap.cpuTotal));
  }

  // ---------------------------------------------------------------- the core strip

  lemma ChunksCons<A>(first: seq<A>, rest: seq<A>, per: nat)
    requires per > 0 && |first| == per && rest != []
    ensures Chunks(first + rest, per) == [first] + Chunks(rest, per)
  {
    assert (first + rest)[..per] == first && (first + rest)[per..] == rest;
  }

  lemma {:induction false} ChunksSnoc<A>(cs: seq<A>, b: seq<A>, per: nat)
    requires per > 0 && 0 < |b| <= per
    requires forall r :: r in Chunks(cs, per) ==> |r| == per
    ensures Chunks(cs + b, per) == Chunks(cs, per) + [b]
    decreases |cs|
  {
    if cs == [] {
      assert cs + b == b;
    } else if |cs| <= per {
      assert Chunks(cs, per) == [cs] && cs in Chunks(cs, per);
      assert Chunks(b, per) == [b];
      hide Chunks;
      ChunksCons(cs, b, per);
    } else {
      var first, rest := cs[..per], cs[per..];
      assert cs == first + rest;
      ChunksCons(first, rest, per);
      hide Chunks;
      SnocFull(first, Chunks(rest, per), per);
      ChunksSnoc(rest, b, per);
      ChunksCons(first, rest + b, per);
      calc {
        Chunks(cs + b, per);
        { Assoc(first, rest, b); }
        [first] + (Chunks(rest, per) + [b]);
        { Assoc([first], Chunks(rest, per), [b]); }
        Chunks(cs, per) + [b];
      }
    }
  }

  lemma SnocFull<A>(first: seq<A>, rows: seq<seq<A>>, per: nat)
    requires forall r :: r in [first] + rows ==> |r| == per
    ensures forall r :: r in rows ==> |r| == per
  {
    forall r | r in rows ensures |r| == per {
      assert r in [first] + rows;
    }
  }

  /** The row begun so far: the indent and the cells already followed by a gap. */
  ghost function OpenRow(ascii: bool, cs: seq<CoreSample>): Line {
    [T("  ")] + GappedCells(ascii, cs)
  }

  lemma GapStep(ascii: bool, cs: seq<CoreSample>, c: CoreSample)
    ensures OpenRow(ascii, cs) + CoreCell(ascii, c) + [T("   ")] == OpenRow(ascii, cs + [c])
  {
    hide CoreCell;
    assert (cs + [c])[..|cs|] == cs;
  }

  lemma RowStep(ascii: bool, cs: seq<CoreSample>, c: CoreSample)
    ensures OpenRow(ascii, cs) + CoreCell(ascii, c) == CoreRow(ascii, cs + [c])
  {
    hide CoreCell, GappedCells;
    assert (cs + [c])[..|cs|] == cs;
  }

  lemma RowsSnoc(ascii: bool, rows: seq<seq<CoreSample>>, row: seq<CoreSample>, color: bool, live: bool)
    requires row != [] && forall r :: r in rows ==> r != []
    ensures Pieces(CoreRows(ascii, rows + [row]), color, live)
         == Pieces(CoreRows(ascii, rows), color, live) + LinePieces(CoreRow(ascii, row), color, live)
  {
    hide LinePieces, CoreRow;
    assert CoreRows(ascii, rows + [row]) == CoreRows(ascii, rows) + [CoreRow(ascii, row)];
    PiecesSnoc(CoreRows(ascii, rows), CoreRow(ascii, row), color, live);
  }

  method CoreEntry(fb: FrameBuf, opt: RenderOptions, c: CoreSample)
    requires fb.Valid()
    modifies fb, fb.data
    ensures fb.Valid()
    ensures fb.log == old(fb.log) + Codes(CoreCell(opt.ascii, c), opt.color)
  {
    hide FrameBuf.Valid, Codes, SegBytes, BarSegs;
    ghost var base := fb.log;
    var head, tail := [T(PadLeft(c.name, 2)), T(" ")], [T(" "), T(PadLeft(FixedText(c.usage, 0), 4)), T("%")];
    Format(fb, opt, head);
    Bar(fb, opt, c.usage, MINI_BAR_WIDTH);
    Format(fb, opt, tail);
    Join3(base, head, BarSegs(opt.ascii, c.usage, MINI_BAR_WIDTH), tail, opt.color);
  }

  /** Everything requested once the rows of `cores[..start]` are complete. */
  ghost function RowsDone(base: seq<string>, ascii: bool, cores: seq<CoreSample>, per: nat, color: bool, live: bool)
      : seq<string>
    requires per > 0
  {
    base + Pieces(CoreRows(ascii, Chunks(cores, per)), color, live)
  }

  ghost predicate AllFull(cores: seq<CoreSample>, per: nat)
    requires per > 0
  {
    forall r :: r in Chunks(cores, per) ==> |r| == per
  }

  /** Closing a row: what was open becomes one more complete row. */
  lemma CloseRow(ascii: bool, base: seq<string>, cores: seq<CoreSample>, start: nat, i: nat, per: nat,
                 color: bool, live: bool)
    requires per > 0 && start <= i < |cores| && i - start < per
    requires AllFull(cores[..start], per)
    ensures RowsDone(base, ascii, cores[..start], per, color, live)
            + LinePieces(OpenRow(ascii, cores[start..i]) + CoreCell(ascii, cores[i]), color, live)
         == RowsDone(base, ascii, cores[..i + 1], per, color, live)
    ensures i + 1 - start == per ==> AllFull(cores[..i + 1], per)
  {
    hide LinePieces, Pieces, CoreCell, OpenRow, CoreRow, CoreRows, Chunks;
    var row := cores[start..i + 1];
    assert row == cores[start..i] + [cores[i]];
    RowStep(ascii, cores[start..i], cores[i]);
    RowsSnoc(ascii, Chunks(cores[..start], per), row, color, live);
    ChunksSnoc(cores[..start], row, per);
    assert cores[..start] + row == cores[..i + 1];
  }

  lemma NoRows(base: seq<string>, ascii: bool, per: nat, color: bool, live: bool)
    requires per > 0
    ensures base == RowsDone(base, ascii, [], per, color, live) && AllFull([], per)
    ensures OpenRow(ascii, []) == [T("  ")]
  {
  }

  method CoreStrip(fb: FrameBuf, opt: RenderOptions, cores: seq<CoreSample>, per: nat)
    requires fb.Valid() && cores != [] && per > 0
    modifies fb, fb.data
    ensures fb.Valid()
    ensures fb.log == RowsDone(old(fb.log), opt.ascii, cores, per, opt.color, fb.live)
  {
    hide FrameBuf.Valid, Codes, SegBytes, LinePieces, CoreCell, CoreRow, Pieces, CoreRows, Chunks, OpenRow, AllFull,
         RowsDone;
    ghost var base := fb.log;
    ghost var start := 0;
    ghost var full := base;
    NoRows(base, opt.ascii, per, opt.color, fb.live);
    assert cores[..0] == [] && cores[0..0] == [];
    var col := 0;
    Put(fb, opt, T("  "));
    var i := 0;
    while i < |cores|
      invariant 0 <= start <= i <= |cores| && fb.Valid()
      invariant full == RowsDone(base, opt.ascii, cores[..start], per, opt.color, fb.live)
      invariant i < |cores| ==> col == i - start < per && AllFull(cores[..start], per)
      invariant i < |cores| ==> fb.log == full + Codes(OpenRow(opt.ascii, cores[start..i]), opt.color)
      invariant i == |cores| ==> start == i && fb.log == full
    {
      CoreEntry(fb, opt, cores[i]);
      ghost var open := OpenRow(opt.ascii, cores[start..i]) + CoreCell(opt.ascii, cores[i]);
      Join2(full, OpenRow(opt.ascii, cores[start..i]), CoreCell(opt.ascii, cores[i]), opt.color);
      col := col + 1;
      if col >= per || i + 1 == |cores| {
        EndLine(fb, opt, full, open);
        CloseRow(opt.ascii, base, cores, start, i, per, opt.color, fb.live);
        full := fb.log;
        start := i + 1;
        if i + 1 < |cores| {
          Put(fb, opt, T("  "));
          NoRows(base, opt.ascii, per, opt.color, fb.live);
          assert cores[start..start] == [];
        }
        col := 0;
      } else {
        Put(fb, opt, T("   "));
        Join2(full, open, [T("   ")], opt.color);
        GapStep(opt.ascii, cores[start..i], cores[i]);
        assert cores[start..i + 1] == cores[start..i] + [cores[i]];
      }
      i := i + 1;
    }
    assert cores[..|cores|] == cores;
  }

  method Cores(fb: FrameBuf, snap: ResourceSnapshot, opt: RenderOptions)
    requires fb.Valid()
    modifies fb, fb.data
    ensures fb.Valid()
    ensures fb.log == old(fb.log)
                      + Pieces(CoreLines(opt.ascii, opt.cols, snap.primed, snap.cores), opt.color, fb.live)
  {
    hide FrameBuf.Valid;
    if |snap.cores| > 0 && snap.primed {
      var perLine := if opt.cols >= 100 then 4 else if opt.cols >= 80 then 3 else 2;
      CoreStrip(fb, opt, snap.cores, perLine);
    }
  }

  // ---------------------------------------------------------------- memory, disks, network

  method Meter(fb: FrameBuf, opt: RenderOptions, title: string, used: u64, total: u64)
    requires fb.Valid()
    modifies fb, fb.data
    ensures fb.Valid()
    ensures fb.log == old(fb.log) + LinePieces(MeterLine(title, opt.ascii, opt.cols, used, total), opt.color, fb.live)
  {
    hide FrameBuf.Valid, Codes, SegBytes, LinePieces, BarSegs, BytesText;
    ghost var base := fb.log;
    var pct := UsedPct(used, total);
    var b1 := FormatBytes(used, 64);
    var b2 := FormatBytes(total, 64);
    BytesTextLength(used);
    BytesTextLength(total);
    Put(fb, opt, T(title));
    Bar(fb, opt, pct, MainBarWidth(opt.cols));
    var tail := [T("  "), T(b1), T(" / "), T(b2), T("  ("), T(PadLeft(FixedText(pct, 1), 4)), T("%)")];
    Format(fb, opt, tail);
    Join3(base, [T(title)], BarSegs(opt.ascii, pct, MainBarWidth(opt.cols)), tail, opt.color);
    EndLine(fb, opt, base, MeterLine(title, opt.ascii, opt.cols, used, total));
  }

  method Dimmed(fb: FrameBuf, opt: RenderOptions, s: string)
    requires fb.Valid()
    modifies fb, fb.data
    ensures fb.Valid()
    ensures fb.log == old(fb.log) + LinePieces(DimLine(s), opt.color, fb.live)
  {
    hide FrameBuf.Valid, Codes, SegBytes, LinePieces;
    ghost var base := fb.log;
    Styled(fb, opt, Dim, s);
    EndLine(fb, opt, base, DimLine(s));
  }

  method Disk(fb: FrameBuf, opt: RenderOptions, d: DiskSample)
    requires fb.Valid()
    modifies fb, fb.data
    ensures fb.Valid()
    ensures fb.log == old(fb.log) + LinePieces(DiskLine(opt.ascii, opt.cols, d), opt.color, fb.live)
  {
    hide FrameBuf.Valid, Codes, SegBytes, LinePieces, BarSegs, BytesText;
    ghost var base := fb.log;
    var dp := UsedPct(d.usedBytes, d.totalBytes);
    var mount := Trunc(d.mount, 28);
    var b1 := FormatBytes(d.usedBytes, 64);
    var b2 := FormatBytes(d.totalBytes, 64);
    BytesTextLength(d.usedBytes);
    BytesTextLength(d.totalBytes);
    var head := [T("  Disk "), T(PadRight(mount, 18)), T(" ")];
    var tail := [T("  "), T(b1), T(" / "), T(b2), T("  "), S(Dim), T(d.fstype), S(Reset)];
    Format(fb, opt, head);
    Bar(fb, opt, dp, ClampInt(MainBarWidth(opt.cols) - 10, 10, 40));
    Format(fb, opt, tail);
    Join3(base, head, BarSegs(opt.ascii, dp, DiskBarWidth(opt.cols)), tail, opt.color);
    EndLine(fb, opt, base, DiskLine(opt.ascii, opt.cols, d));
  }

  lemma OneLine(base: seq<string>, l: Line, color: bool, live: bool)
    ensures base + LinePieces(l, color, live) == base + Pieces([l], color, live)
  {
    hide LinePieces;
    PiecesSnoc([], l, color, live);
    assert [] + [l] == [l];
  }

  lemma Grow(base: seq<string>, lines: seq<Line>, l: Line, color: bool, live: bool)
    ensures base + Pieces(lines, color, live) + LinePieces(l, color, live) == base + Pieces(lines + [l], color, live)
  {
    hide LinePieces;
    PiecesSnoc(lines, l, color, live);
  }

  lemma GrowAll(base: seq<string>, lines: seq<Line>, more: seq<Line>, color: bool, live: bool)
    ensures base + Pieces(lines, color, live) + Pieces(more, color, live) == base + Pieces(lines + more, color, live)
  {
    PiecesAppend(lines, more, color, live);
    hide Pieces;
  }

  method Disks(fb: FrameBuf, snap: ResourceSnapshot, opt: RenderOptions)
    requires fb.Valid()
    modifies fb, fb.data
    ensures fb.Valid()
    ensures fb.log == old(fb.log) + Pieces(DiskLines(opt.ascii, opt.cols, snap.disks), opt.color, fb.live)
  {
    hide FrameBuf.Valid, Codes, SegBytes, LinePieces, DiskLine;
    var disks := snap.disks;
    ghost var base := fb.log;
    ghost var shown := DiskLines(opt.ascii, opt.cols, disks);
    if |disks| == 0 {
      Dimmed(fb, opt, "  Disk    (none reported)");
      OneLine(base, DimLine("  Disk    (none reported)"), opt.color, fb.live);
    }
    assert shown[..0] == [];
    var i := 0;
    while i < |disks|
      invariant 0 <= i <= |disks| && fb.Valid()
      invariant disks == [] ==> fb.log == base + Pieces(shown, opt.color, fb.live)
      invariant disks != [] ==> |shown| == |disks| && fb.log == base + Pieces(shown[..i], opt.color, fb.live)
    {
      hide Pieces;
      Disk(fb, opt, disks[i]);
      assert shown[..i + 1] == shown[..i] + [DiskLine(opt.ascii, opt.cols, disks[i])];
      Grow(base, shown[..i], DiskLine(opt.ascii, opt.cols, disks[i]), opt.color, fb.live);
      i := i + 1;
    }
    assert disks != [] ==> shown[..|disks|] == shown;
  }

  method Net(fb: FrameBuf, opt: RenderOptions, n: NetSample)
    requires fb.Valid()
    modifies fb, fb.data
    ensures fb.Valid()
    ensures fb.log == old(fb.log) + LinePieces(NetLine(n), opt.color, fb.live)
  {
    hide FrameBuf.Valid, Codes, SegBytes, LinePieces, RateText;
    ghost var base := fb.log;
    var b1 := FormatRate(n.rxBps, 64);
    var b2 := FormatRate(n.txBps, 64);
    Format(fb, opt, [T("  Net  "), T(PadRight(n.name, 8)), T("   "), S(Cyan), T(DOWN_ARROW), S(Reset), T(" "),
                     T(PadRight(b1, 10)), T("    "), S(Yellow), T(UP_ARROW), S(Reset), T(" "), T(b2)]);
    EndLine(fb, opt, base, NetLine(n));
  }

  method AnyNetBytes(nets: seq<NetSample>) returns (anyBytes: bool)
    ensures anyBytes == AnyBytes(nets)
  {
    anyBytes := false;
    var i := 0;
    while i < |nets|
      invariant 0 <= i <= |nets| && !anyBytes
      invariant forall j :: 0 <= j < i ==> !HasBytes(nets[j])
    {
      if (nets[i].rxBytes + nets[i].txBytes) % WORD > 0 {
        assert HasBytes(nets[i]);
        anyBytes := true;
        break;
      }
      i := i + 1;
    }
  }

  lemma NetRowsAt(nets: seq<NetSample>, i: nat, hideIdle: bool)
    requires i < |nets|
    ensures NetRows(nets[..i + 1], hideIdle)
         == NetRows(nets[..i], hideIdle) + if hideIdle && Idle(nets[i]) then [] else [NetLine(nets[i])]
  {
    hide NetLine;
    assert nets[..i + 1][..i] == nets[..i];
  }

  method Nets(fb: FrameBuf, snap: ResourceSnapshot, opt: RenderOptions)
    requires fb.Valid()
    modifies fb, fb.data
    ensures fb.Valid()
    ensures fb.log == old(fb.log) + Pieces(NetLines(snap.nets), opt.color, fb.live)
  {
    hide FrameBuf.Valid, Codes, SegBytes, LinePieces, NetLine, AnyBytes;
    var nets := snap.nets;
    ghost var base := fb.log;
    var shown := 0;
    var anyBytes := AnyNetBytes(nets);
    ghost var rows: seq<Line> := [];
    assert nets[..0] == [] && NetRows([], anyBytes) == [] && Pieces([], opt.color, fb.live) == [];
    assert nets[..|nets|] == nets;
    hide NetRows, Pieces, DimLine;
    var i := 0;
    while i < |nets|
      invariant 0 <= i <= |nets| && fb.Valid()
      invariant rows == NetRows(nets[..i], anyBytes) && shown == |rows|
      invariant fb.log == base + Pieces(rows, opt.color, fb.live)
    {
      NetRowsAt(nets, i, anyBytes);
      if anyBytes && nets[i].rxBytes == 0 && nets[i].txBytes == 0 {
        i := i + 1;
        continue;
      }
      Net(fb, opt, nets[i]);
      Grow(base, rows, NetLine(nets[i]), opt.color, fb.live);
      rows := rows + [NetLine(nets[i])];
      shown := shown + 1;
      i := i + 1;
    }
    if shown == 0 {
      NoPieces(base, opt.color, fb.live);
      assert rows == [] && fb.log == base;
      Dimmed(fb, opt, "  Net     (no active interfaces)");
      OneLine(base, DimLine("  Net     (no active interfaces)"), opt.color, fb.live);
    }
  }

  lemma NoPieces(base: seq<string>, color: bool, live: bool)
    ensures base + Pieces([], color, live) == base
  {
  }

  // ---------------------------------------------------------------- footer

  method FactsRow(fb: FrameBuf, f: Facts, opt: RenderOptions)
    requires fb.Valid()
    modifies fb, fb.data
    ensures fb.Valid()
    ensures fb.log == old(fb.log) + LinePieces(FactsLine(f), opt.color, fb.live)
  {
    hide FrameBuf.Valid, Codes, SegBytes, LinePieces, UptimeText;
    ghost var base := fb.log;
    var b1 := FormatUptime(f.uptimeSec, 64);
    UptimeTextLength(f.uptimeSec);
    if f.loadValid {
      Format(fb, opt, [T("  Load  "), T(PadLeft(FixedText(f.load1, 2), 5)), T("  "),
                       T(PadLeft(FixedText(f.load5, 2), 5)), T("  "), T(PadLeft(FixedText(f.load15, 2), 5)),
                       T("     Processes  "), T(PadRight(NatText(f.processCount), 5)), T("     Up  "), T(b1)]);
    } else {
      Format(fb, opt, [T("  Processes  "), T(PadRight(NatText(f.processCount), 5)), T("     Up  "), T(b1)]);
    }
    EndLine(fb, opt, base, FactsLine(f));
  }

  method Battery(fb: FrameBuf, f: Facts, opt: RenderOptions)
    requires fb.Valid()
    modifies fb, fb.data
    ensures fb.Valid()
    ensures fb.log == old(fb.log) + Pieces(BatteryLines(opt.ascii, f), opt.color, fb.live)
  {
    hide FrameBuf.Valid, Codes, SegBytes, LinePieces, BarSegs;
    if f.batteryPresent {
      hide Pieces;
      ghost var base := fb.log;
      var bp := if f.batteryPercent >= 0 then f.batteryPercent as real else 0.0;
      Put(fb, opt, T("  Battery "));
      ghost var meter: Line;
      if f.batteryPercent >= 0 {
        Bar(fb, opt, bp, 12);
        var tail := [T("  "), T(PadLeft(IntText(f.batteryPercent), 3)), T("%")];
        Format(fb, opt, tail);
        Join3(base, [T("  Battery ")], BarSegs(opt.ascii, bp, 12), tail, opt.color);
        Assoc<Seg>([T("  Battery ")], BarSegs(opt.ascii, bp, 12), tail);
        meter := BarSegs(opt.ascii, bp, 12) + tail;
      } else {
        Styled(fb, opt, Dim, "  unknown %");
        meter := [S(Dim), T("  unknown %"), S(Reset)];
        Join2(base, [T("  Battery ")], meter, opt.color);
      }
      var power;
      if f.batteryCharging {
        power := "  charging";
      } else if f.batteryPlugged {
        power := "  on AC";
      } else {
        power := "  on battery";
      }
      Put(fb, opt, T(power));
      Join2(base, [T("  Battery ")] + meter, [T(power)], opt.color);
      EndLine(fb, opt, base, [T("  Battery ")] + meter + [T(power)]);
      OneLine(base, [T("  Battery ")] + meter + [T(power)], opt.color, fb.live);
    }
  }

  method Footer(fb: FrameBuf, opt: RenderOptions, clock: string)
    requires fb.Valid()
    modifies fb, fb.data
    ensures fb.Valid()
    ensures fb.log == old(fb.log) + LinePieces(FooterLine(opt.intervalSec, clock), opt.color, fb.live)
  {
    hide FrameBuf.Valid, Codes, SegBytes, LinePieces;
    ghost var base := fb.log;
    var b3 := Trunc(FixedText(opt.intervalSec, 1) + "s", 64);
    Format(fb, opt, [T("  "), S(Bold), T("q"), S(Reset), T(" quit   "), S(Bold), T("space"), S(Reset),
                     T(" pause   refresh "), T(b3), T("          "), T(clock)]);
    EndLine(fb, opt, base, FooterLine(opt.intervalSec, clock));
  }

  method Blank(fb: FrameBuf, opt: RenderOptions)
    requires fb.Valid()
    modifies fb, fb.data
    ensures fb.Valid()
    ensures fb.log == old(fb.log) + LinePieces([], opt.color, fb.live)
  {
    NoCodes(fb.log, opt.color);
    EndLine(fb, opt, fb.log, []);
  }

  // ---------------------------------------------------------------- the whole frame

  method Header(fb: FrameBuf, snap: ResourceSnapshot, opt: RenderOptions)
    requires fb.Valid()
    modifies fb, fb.data
    ensures fb.Valid()
    ensures fb.log == old(fb.log) + Pieces(HeaderLines(snap, opt), opt.color, fb.live)
  {
    hide FrameBuf.Valid, Codes, LinePieces, TitleLine, HostLine, RuleLine, CpuLine, Pieces;
    ghost var base := fb.log;
    ghost var a, b, c := TitleLine(opt.paused), HostLine(snap.facts, snap.cpuCount), RuleLine(opt.ascii, opt.cols);
    ghost var d := CpuLine(opt.ascii, opt.cols, snap.primed, snap.cpuTotal);
    Title(fb, opt);
    OneLine(base, a, opt.color, fb.live);
    Host(fb, snap.facts, snap.cpuCount, opt);
    Grow(base, [a], b, opt.color, fb.live);
    HLine(fb, opt, opt.cols);
    Grow(base, [a] + [b], c, opt.color, fb.live);
    Cpu(fb, snap, opt);
    Grow(base, [a] + [b] + [c], d, opt.color, fb.live);
    assert [a] + [b] + [c] + [d] == [a, b, c, d];
  }

  method MemoryBlock(fb: FrameBuf, snap: ResourceSnapshot, opt: RenderOptions)
    requires fb.Valid()
    modifies fb, fb.data
    ensures fb.Valid()
    ensures fb.log == old(fb.log) + Pieces(MemoryLines(snap, opt), opt.color, fb.live)
  {
    hide FrameBuf.Valid, Codes, LinePieces, MeterLine, Pieces, DimLine;
    ghost var base := fb.log;
    var f := snap.facts;
    ghost var a := MeterLine("  Memory  ", opt.ascii, opt.cols, f.memUsed, f.memTotal);
    ghost var b := SwapLine(opt.ascii, opt.cols, f.swapUsed, f.swapTotal);
    Blank(fb, opt);
    OneLine(base, [], opt.color, fb.live);
    Meter(fb, opt, "  Memory  ", f.memUsed, f.memTotal);
    Grow(base, [[]], a, opt.color, fb.live);
    if f.swapTotal > 0 {
      Meter(fb, opt, "  Swap    ", f.swapUsed, f.swapTotal);
    } else {
      Dimmed(fb, opt, "  Swap    none");
    }
    Grow(base, [[]] + [a], b, opt.color, fb.live);
    Blank(fb, opt);
    Grow(base, [[]] + [a] + [b], [], opt.color, fb.live);
    assert [[]] + [a] + [b] + [[]] == [[], a, b, []];
  }

  method FooterBlock(fb: FrameBuf, snap: ResourceSnapshot, opt: RenderOptions, clock: string)
    requires fb.Valid()
    modifies fb, fb.data
    ensures fb.Valid()
    ensures fb.log == old(fb.log) + Pieces(FooterLines(snap, opt, clock), opt.color, fb.live)
  {
    hide FrameBuf.Valid, Codes, LinePieces, FactsLine, RuleLine, FooterLine, BatteryLines, Pieces;
    ghost var base := fb.log;
    ghost var a, b := FactsLine(snap.facts), BatteryLines(opt.ascii, snap.facts);
    ghost var c, d := RuleLine(opt.ascii, opt.cols), FooterLine(opt.intervalSec, clock);
    Blank(fb, opt);
    OneLine(base, [], opt.color, fb.live);
    FactsRow(fb, snap.facts, opt);
    Grow(base, [[]], a, opt.color, fb.live);
    assert [[]] + [a] == [[], a];
    Battery(fb, snap.facts, opt);
    GrowAll(base, [[], a], b, opt.color, fb.live);
    HLine(fb, opt, opt.cols);
    Grow(base, [[], a] + b, c, opt.color, fb.live);
    Footer(fb, opt, clock);
    Grow(base, [[], a] + b + [c], d, opt.color, fb.live);
    assert [[], a] + b + [c] + [d] == [[], a] + b + [c, d];
  }

  /** The request list grows by exactly the frame's pieces; `clock` is the strftime text or "--". */
  method Paint(fb: FrameBuf, snap: ResourceSnapshot, opt: RenderOptions, clock: string)
    requires fb.Valid()
    modifies fb, fb.data
    ensures fb.Valid()
    ensures fb.log == old(fb.log) + FramePieces(snap, opt, clock, fb.live)
  {
    hide FrameBuf.Valid, Codes, LinePieces, HeaderLines, CoreLines, MemoryLines, DiskLines, NetLines, FooterLines,
         Pieces;
    ghost var base := fb.log;
    ghost var a, b := HeaderLines(snap, opt), CoreLines(opt.ascii, opt.cols, snap.primed, snap.cores);
    ghost var c, d := MemoryLines(snap, opt), DiskLines(opt.ascii, opt.cols, snap.disks);
    ghost var e, f := NetLines(snap.nets), FooterLines(snap, opt, clock);
    Header(fb, snap, opt);
    Cores(fb, snap, opt);
    GrowAll(base, a, b, opt.color, fb.live);
    MemoryBlock(fb, snap, opt);
    GrowAll(base, a + b, c, opt.color, fb.live);
    Disks(fb, snap, opt);
    GrowAll(base, a + b + c, d, opt.color, fb.live);
    Blank(fb, opt);
    Grow(base, a + b + c + d, [], opt.color, fb.live);
    Nets(fb, snap, opt);
    GrowAll(base, a + b + c + d + [[]], e, opt.color, fb.live);
    FooterBlock(fb, snap, opt, clock);
    GrowAll(base, a + b + c + d + [[]] + e, f, opt.color, fb.live);
  }
}

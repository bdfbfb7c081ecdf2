/** Texts without control bytes, and styles that are off at the end of every line. */
module FrameText {
  import opened Decimal
  import opened Util
  import opened Snapshots
  import opened Frame
  import opened Escapes

  /** No control byte; UTF-8 glyphs and ordinary text qualify. */
  predicate Printable(s: string) {
    forall i :: 0 <= i < |s| ==> s[i] >= ' '
  }

  predicate Control(c: char) {
    c < ' '
  }

  predicate FactsFree(f: Facts, c: char) {
    Free(f.hostname, c) && Free(f.osName, c) && Free(f.osRelease, c) && Free(f.arch, c) && Free(f.hostLabel, c)
  }

  /** The text fields of a snapshot, and the clock, do not contain `c`. */
  predicate FieldsFree(snap: ResourceSnapshot, clock: string, c: char) {
    && FactsFree(snap.facts, c) && Free(clock, c)
    && (forall i :: 0 <= i < |snap.cores| ==> Free(snap.cores[i].name, c))
    && (forall i :: 0 <= i < |snap.disks| ==> Free(snap.disks[i].mount, c) && Free(snap.disks[i].fstype, c))
    && (forall i :: 0 <= i < |snap.nets| ==> Free(snap.nets[i].name, c))
  }

  /** A line fit for the frame: free of `c`, and with no style left on. */
  predicate Good(l: Line, c: char) {
    LineFree(l, c) && !Styled(l, false)
  }

  predicate AllGood(lines: seq<Line>, c: char) {
    forall i :: 0 <= i < |lines| ==> Good(lines[i], c)
  }

  // ---------------------------------------------------------------- pieces

  lemma {:induction false} StyledAppend(a: Line, b: Line, styled: bool)
    ensures Styled(a + b, styled) == Styled(b, Styled(a, styled))
  {
    if b == [] {
      assert a + b == a;
    } else {
      StyledAppend(a, b[..|b| - 1], styled);
      assert (a + b)[..|a + b| - 1] == a + b[..|b| - 1];
    }
  }

  /** Plain text after the segment at `k` leaves the style as that segment left it. */
  lemma {:induction false} ResetAt(l: Line, k: nat)
    requires k < |l| && l[k] == S(Reset) && forall j :: k < j < |l| ==> l[j].T?
    ensures !Styled(l, true) && !Styled(l, false)
    decreases |l|
  {
    if k < |l| - 1 {
      ResetAt(l[..|l| - 1], k);
    }
  }

  lemma {:induction false} PlainStyled(l: Line, styled: bool)
    requires forall j :: 0 <= j < |l| ==> l[j].T?
    ensures Styled(l, styled) == styled
  {
    if l != [] {
      PlainStyled(l[..|l| - 1], styled);
    }
  }

  lemma GoodAppend(a: Line, b: Line, c: char)
    requires Good(a, c) && Good(b, c)
    ensures Good(a + b, c)
  {
    hide Styled, Free;
    StyledAppend(a, b, false);
  }

  lemma GoodPlain(l: Line, c: char)
    requires forall j :: 0 <= j < |l| ==> l[j].T? && Free(l[j].text, c)
    ensures Good(l, c)
  {
    hide Free, Styled;
    PlainStyled(l, false);
  }

  lemma BarGood(ascii: bool, pct: real, width: int, c: char)
    requires Control(c)
    ensures Good(BarSegs(ascii, pct, width), c)
  {
    var segs := BarSegs(ascii, pct, width);
    ResetAt(segs, |segs| - 1);
    hide Styled, Filled;
  }

  lemma FixedPrintable(x: real, d: Places)
    ensures Printable(FixedText(x, d))
  {
  }

  lemma UnitPrintable(u: nat)
    ensures u < 6 ==> Printable(BYTE_UNITS[u])
    ensures u < 5 ==> Printable(RATE_UNITS[u])
  {
  }

  lemma BytesPrintable(v: u64)
    ensures Printable(BytesText(v))
  {
    hide FixedText, Precision;
    var u := UnitOf(v as real, 5);
    UnitPrintable(u);
    FixedPrintable(Down(v as real, u), Precision(u, Down(v as real, u)));
  }

  lemma RatePrintable(bps: real)
    ensures Printable(Trunc(RateText(bps), 64))
  {
    hide FixedText, Precision;
    var v := NonNegative(bps);
    var u := UnitOf(v, 4);
    UnitPrintable(u);
    FixedPrintable(Down(v, u), Precision(u, Down(v, u)));
  }

  lemma UptimePrintable(seconds: nat)
    ensures Printable(UptimeText(seconds))
  {
    hide NatText;
    FieldsPrintable(seconds / 86400, seconds % 86400 / 3600, seconds % 3600 / 60, seconds % 60);
  }

  lemma FieldsPrintable(days: nat, hours: nat, mins: nat, secs: nat)
    ensures Printable(FieldsText(days, hours, mins, secs))
  {
    hide NatText;
  }

  lemma PrintableFree(s: string, c: char)
    requires Printable(s) && Control(c)
    ensures Free(s, c)
  {
  }

  lemma DimGood(s: string, c: char)
    requires Free(s, c)
    ensures Good(DimLine(s), c)
  {
    ResetAt(DimLine(s), 2);
    hide Styled, Free;
  }

  // ---------------------------------------------------------------- the literal texts

  lemma Marks(c: char)
    requires Control(c)
    ensures Free("  ", c)
    ensures Free(" ", c)
    ensures Free("   ", c)
    ensures Free("    ", c)
    ensures Free("%", c)
    ensures Free("  (", c)
    ensures Free("%)", c)
    ensures Free(" / ", c)
    ensures Free("q", c)
    ensures Free("          ", c)
  {
    PrintableFree("  ", c);
    PrintableFree(" ", c);
    PrintableFree("   ", c);
    PrintableFree("    ", c);
    PrintableFree("%", c);
    PrintableFree("  (", c);
    PrintableFree("%)", c);
    PrintableFree(" / ", c);
    PrintableFree("q", c);
    PrintableFree("          ", c);
  }

  lemma HeaderLabels(c: char)
    requires Control(c)
    ensures Free("  Cross-Platform Resource Monitor", c)
    ensures Free("   PAUSED", c)
    ensures Free("unknown", c)
    ensures Free(" cores", c)
    ensures Free("  CPU     ", c)
    ensures Free("  " + DOT + "  ", c)
  {
    PrintableFree("  Cross-Platform Resource Monitor", c);
    PrintableFree("   PAUSED", c);
    PrintableFree("unknown", c);
    PrintableFree(" cores", c);
    PrintableFree("  CPU     ", c);
    PrintableFree("  " + DOT + "  ", c);
  }

  lemma MemoryLabels(c: char)
    requires Control(c)
    ensures Free("  Memory  ", c)
    ensures Free("  Swap    ", c)
    ensures Free("  Swap    none", c)
    ensures Free("  Disk ", c)
    ensures Free("  Disk    (none reported)", c)
  {
    PrintableFree("  Memory  ", c);
    PrintableFree("  Swap    ", c);
    PrintableFree("  Swap    none", c);
    PrintableFree("  Disk ", c);
    PrintableFree("  Disk    (none reported)", c);
  }

  lemma NetLabels(c: char)
    requires Control(c)
    ensures Free("  Net  ", c)
    ensures Free("  Net     (no active interfaces)", c)
    ensures Free(DOWN_ARROW, c)
    ensures Free(UP_ARROW, c)
  {
    PrintableFree("  Net  ", c);
    PrintableFree("  Net     (no active interfaces)", c);
    PrintableFree(DOWN_ARROW, c);
    PrintableFree(UP_ARROW, c);
  }

  lemma FactsLabels(c: char)
    requires Control(c)
    ensures Free("  Load  ", c)
    ensures Free("     Processes  ", c)
    ensures Free("  Processes  ", c)
    ensures Free("     Up  ", c)
  {
    PrintableFree("  Load  ", c);
    PrintableFree("     Processes  ", c);
    PrintableFree("  Processes  ", c);
    PrintableFree("     Up  ", c);
  }

  lemma BatteryLabels(c: char)
    requires Control(c)
    ensures Free("  Battery ", c)
    ensures Free("  charging", c)
    ensures Free("  on AC", c)
    ensures Free("  on battery", c)
    ensures Free("  unknown %", c)
  {
    PrintableFree("  Battery ", c);
    PrintableFree("  charging", c);
    PrintableFree("  on AC", c);
    PrintableFree("  on battery", c);
    PrintableFree("  unknown %", c);
  }

  lemma FooterLabels(c: char)
    requires Control(c)
    ensures Free(" quit   ", c)
    ensures Free("space", c)
    ensures Free(" pause   refresh ", c)
  {
    PrintableFree(" quit   ", c);
    PrintableFree("space", c);
    PrintableFree(" pause   refresh ", c);
  }

  // ---------------------------------------------------------------- rows

  lemma TitleGood(paused: bool, c: char)
    requires Control(c)
    ensures Good(TitleLine(paused), c)
  {
    HeaderLabels(c);
    var a: Line := [S(Bold), T("  Cross-Platform Resource Monitor"), S(Reset)];
    var b: Line := [S(Yellow), T("   PAUSED"), S(Reset)];
    ResetAt(a, 2);
    ResetAt(b, 2);
    hide Styled, Free, Printable;
    GoodAppend(a, b, c);
    assert a + [] == a;
  }

  lemma IntPrintable(n: int)
    ensures Printable(IntText(n))
  {
  }

  lemma HostGood(f: Facts, cpuCount: int, c: char)
    requires Control(c) && FactsFree(f, c)
    ensures Good(HostLine(f, cpuCount), c)
  {
    HeaderLabels(c);
    Marks(c);
    IntPrintable(cpuCount);
    PrintableFree(IntText(cpuCount), c);
    ResetAt(HostLine(f, cpuCount), 3);
    hide Free, Styled, Printable, IntText;
  }

  lemma RuleGood(ascii: bool, cols: int, c: char)
    requires Control(c)
    ensures Good(RuleLine(ascii, cols), c)
  {
    var l := RuleLine(ascii, cols);
    PrintableFree(RuleGlyph(ascii), c);
    ResetAt(l, |l| - 1);
    hide Styled, Free, Printable, RuleGlyph;
  }

  lemma PadFree(s: string, w: nat, c: char)
    requires Control(c) && Free(s, c)
    ensures Free(PadLeft(s, w), c) && Free(PadRight(s, w), c)
  {
  }

  lemma PctFree(x: real, d: Places, w: nat, c: char)
    requires Control(c)
    ensures Free(PadLeft(FixedText(x, d), w), c)
  {
    hide FixedText;
    FixedPrintable(x, d);
    PadFree(FixedText(x, d), w, c);
  }

  lemma CpuGood(ascii: bool, cols: int, primed: bool, cpuTotal: real, c: char)
    requires Control(c)
    ensures Good(CpuLine(ascii, cols, primed, cpuTotal), c)
  {
    HeaderLabels(c);
    Marks(c);
    var head: Line := [T("  CPU     ")];
    GoodPlain(head, c);
    if !primed || cpuTotal < 0.0 {
      var text := "(warming up " + DASH + " rates need two samples)";
      PrintableFree(text, c);
      hide Free, Styled, Printable;
      DimGood(text, c);
      GoodAppend(head, DimLine(text), c);
    } else {
      hide Free, Styled, BarSegs, Printable;
      PctFree(cpuTotal, 1, 5, c);
      var meter := BarSegs(ascii, cpuTotal, MainBarWidth(cols));
      var tail: Line := [T("  "), T(PadLeft(FixedText(cpuTotal, 1), 5)), T("%")];
      BarGood(ascii, cpuTotal, MainBarWidth(cols), c);
      GoodPlain(tail, c);
      GoodAppend(meter, tail, c);
      GoodAppend(head, meter + tail, c);
    }
  }

  lemma CellGood(ascii: bool, s: CoreSample, c: char)
    requires Control(c) && Free(s.name, c)
    ensures Good(CoreCell(ascii, s), c)
  {
    Marks(c);
    hide Free, Styled, BarSegs, Printable;
    PadFree(s.name, 2, c);
    PctFree(s.usage, 0, 4, c);
    var head: Line := [T(PadLeft(s.name, 2)), T(" ")];
    var tail: Line := [T(" "), T(PadLeft(FixedText(s.usage, 0), 4)), T("%")];
    GoodPlain(head, c);
    GoodPlain(tail, c);
    BarGood(ascii, s.usage, MINI_BAR_WIDTH, c);
    GoodAppend(head, BarSegs(ascii, s.usage, MINI_BAR_WIDTH), c);
    GoodAppend(head + BarSegs(ascii, s.usage, MINI_BAR_WIDTH), tail, c);
  }

  lemma {:induction false} GappedGood(ascii: bool, cs: seq<CoreSample>, c: char)
    requires Control(c) && forall i :: 0 <= i < |cs| ==> Free(cs[i].name, c)
    ensures Good(GappedCells(ascii, cs), c)
  {
    Marks(c);
    if cs != [] {
      hide Free, Styled, CoreCell, Good, Printable;
      GappedGood(ascii, cs[..|cs| - 1], c);
      CellGood(ascii, cs[|cs| - 1], c);
      GoodPlain([T("   ")], c);
      GoodAppend(GappedCells(ascii, cs[..|cs| - 1]), CoreCell(ascii, cs[|cs| - 1]), c);
      GoodAppend(GappedCells(ascii, cs[..|cs| - 1]) + CoreCell(ascii, cs[|cs| - 1]), [T("   ")], c);
    }
  }

  lemma RowGood(ascii: bool, cs: seq<CoreSample>, c: char)
    requires cs != [] && Control(c) && forall i :: 0 <= i < |cs| ==> Free(cs[i].name, c)
    ensures Good(CoreRow(ascii, cs), c)
  {
    Marks(c);
    hide Free, Styled, CoreCell, Good, GappedCells, Printable;
    GappedGood(ascii, cs[..|cs| - 1], c);
    CellGood(ascii, cs[|cs| - 1], c);
    GoodPlain([T("  ")], c);
    GoodAppend([T("  ")], GappedCells(ascii, cs[..|cs| - 1]), c);
    GoodAppend([T("  ")] + GappedCells(ascii, cs[..|cs| - 1]), CoreCell(ascii, cs[|cs| - 1]), c);
  }

  /** Every core of a chunk is a core of the strip. */
  lemma {:induction false} ChunkMembers<A>(cs: seq<A>, per: nat, i: nat)
    requires per > 0 && i < |Chunks(cs, per)|
    ensures forall x :: x in Chunks(cs, per)[i] ==> x in cs
    decreases |cs|
  {
    if |cs| > per && i > 0 {
      ChunkMembers(cs[per..], per, i - 1);
    }
  }

  lemma CoresGood(ascii: bool, cols: int, primed: bool, cores: seq<CoreSample>, c: char)
    requires Control(c) && forall i :: 0 <= i < |cores| ==> Free(cores[i].name, c)
    ensures AllGood(CoreLines(ascii, cols, primed, cores), c)
  {
    hide Free, Good, CoreRow;
    if primed {
      var rows := Chunks(cores, PerLine(cols));
      forall i | 0 <= i < |rows| ensures Good(CoreRows(ascii, rows)[i], c) {
        ChunkMembers(cores, PerLine(cols), i);
        hide Chunks;
        assert rows[i] in rows;
        forall j | 0 <= j < |rows[i]| ensures Free(rows[i][j].name, c) {
          assert rows[i][j] in rows[i];
        }
        RowGood(ascii, rows[i], c);
      }
    }
  }

  lemma MeterGood(title: string, ascii: bool, cols: int, used: u64, total: u64, c: char)
    requires Control(c) && Free(title, c)
    ensures Good(MeterLine(title, ascii, cols, used, total), c)
  {
    Marks(c);
    var pct := UsedPct(used, total);
    BytesPrintable(used);
    BytesPrintable(total);
    PrintableFree(BytesText(used), c);
    PrintableFree(BytesText(total), c);
    hide Free, Styled, BarSegs, Printable, BytesText, UsedPct;
    PctFree(pct, 1, 4, c);
    var head: Line, meter := [T(title)], BarSegs(ascii, pct, MainBarWidth(cols));
    var tail: Line := [T("  "), T(BytesText(used)), T(" / "), T(BytesText(total)), T("  ("),
                       T(PadLeft(FixedText(pct, 1), 4)), T("%)")];
    GoodPlain(head, c);
    GoodPlain(tail, c);
    BarGood(ascii, pct, MainBarWidth(cols), c);
    GoodAppend(head, meter, c);
    GoodAppend(head + meter, tail, c);
  }

  lemma DiskGood(ascii: bool, cols: int, d: DiskSample, c: char)
    requires Control(c) && Free(d.mount, c) && Free(d.fstype, c)
    ensures Good(DiskLine(ascii, cols, d), c)
  {
    Marks(c);
    MemoryLabels(c);
    var pct := UsedPct(d.usedBytes, d.totalBytes);
    assert Free(Trunc(d.mount, 28), c);
    PadFree(Trunc(d.mount, 28), 18, c);
    BytesPrintable(d.usedBytes);
    BytesPrintable(d.totalBytes);
    PrintableFree(BytesText(d.usedBytes), c);
    PrintableFree(BytesText(d.totalBytes), c);
    var head: Line := [T("  Disk "), T(PadRight(Trunc(d.mount, 28), 18)), T(" ")];
    var tail: Line := [T("  "), T(BytesText(d.usedBytes)), T(" / "), T(BytesText(d.totalBytes)), T("  "),
                       S(Dim), T(d.fstype), S(Reset)];
    ResetAt(tail, 7);
    hide Free, Styled, BarSegs, Printable, BytesText, UsedPct, PadRight;
    GoodPlain(head, c);
    BarGood(ascii, pct, DiskBarWidth(cols), c);
    GoodAppend(head, BarSegs(ascii, pct, DiskBarWidth(cols)), c);
    GoodAppend(head + BarSegs(ascii, pct, DiskBarWidth(cols)), tail, c);
  }

  lemma RateFree(bps: real, c: char)
    requires Control(c)
    ensures Free(Trunc(RateText(bps), 64), c)
  {
    hide RateText, Trunc;
    RatePrintable(bps);
    PrintableFree(Trunc(RateText(bps), 64), c);
  }

  lemma NetGood(n: NetSample, c: char)
    requires Control(c) && Free(n.name, c)
    ensures Good(NetLine(n), c)
  {
    hide Free, Printable, RateText, PadRight, Trunc, Styled;
    NetLabels(c);
    Marks(c);
    RateFree(n.rxBps, c);
    RateFree(n.txBps, c);
    PadFree(n.name, 8, c);
    PadFree(Trunc(RateText(n.rxBps), 64), 10, c);
    ResetAt(NetLine(n), 11);
  }

  lemma {:induction false} NetRowsGood(nets: seq<NetSample>, hideIdle: bool, c: char)
    requires Control(c) && forall i :: 0 <= i < |nets| ==> Free(nets[i].name, c)
    ensures AllGood(NetRows(nets, hideIdle), c)
  {
    if nets != [] {
      hide Free, Good, NetLine;
      NetRowsGood(nets[..|nets| - 1], hideIdle, c);
      NetGood(nets[|nets| - 1], c);
    }
  }

  lemma FactsGood(f: Facts, c: char)
    requires Control(c)
    ensures Good(FactsLine(f), c)
  {
    FactsLabels(c);
    Marks(c);
    var count := PadRight(NatText(f.processCount), 5);
    UptimePrintable(f.uptimeSec);
    PrintableFree(UptimeText(f.uptimeSec), c);
    PrintableFree(NatText(f.processCount), c);
    PadFree(NatText(f.processCount), 5, c);
    PctFree(f.load1, 2, 5, c);
    PctFree(f.load5, 2, 5, c);
    PctFree(f.load15, 2, 5, c);
    hide Free, Styled, Printable, UptimeText, NatText, PadLeft, PadRight, FixedText, Good;
    GoodPlain(FactsLine(f), c);
  }

  lemma BatteryGood(ascii: bool, f: Facts, c: char)
    requires Control(c)
    ensures AllGood(BatteryLines(ascii, f), c)
  {
    BatteryLabels(c);
    Marks(c);
    if f.batteryPresent {
      var head: Line := [T("  Battery ")];
      var power: Line :=
        [T(if f.batteryCharging then "  charging" else if f.batteryPlugged then "  on AC" else "  on battery")];
      IntPrintable(f.batteryPercent);
      PrintableFree(IntText(f.batteryPercent), c);
      PadFree(IntText(f.batteryPercent), 3, c);
      hide Free, Styled, Printable, BarSegs, PadLeft, IntText;
      GoodPlain(head, c);
      GoodPlain(power, c);
      var meter: Line;
      if f.batteryPercent >= 0 {
        var segs := BarSegs(ascii, f.batteryPercent as real, 12);
        var tail: Line := [T("  "), T(PadLeft(IntText(f.batteryPercent), 3)), T("%")];
        BarGood(ascii, f.batteryPercent as real, 12, c);
        GoodPlain(tail, c);
        GoodAppend(segs, tail, c);
        meter := segs + tail;
      } else {
        DimGood("  unknown %", c);
        meter := DimLine("  unknown %");
      }
      hide Good;
      GoodAppend(head, meter, c);
      GoodAppend(head + meter, power, c);
      assert BatteryLines(ascii, f) == [head + meter + power];
    }
  }

  lemma FooterGood(intervalSec: real, clock: string, c: char)
    requires Control(c) && Free(clock, c)
    ensures Good(FooterLine(intervalSec, clock), c)
  {
    Marks(c);
    FooterLabels(c);
    FixedPrintable(intervalSec, 1);
    var text := Trunc(FixedText(intervalSec, 1) + "s", 64);
    assert Printable(text);
    PrintableFree(text, c);
    ResetAt(FooterLine(intervalSec, clock), 7);
    hide Free, Styled, Printable, FixedText, Trunc;
  }

  // ---------------------------------------------------------------- the whole frame

  lemma AllGoodAppend(a: seq<Line>, b: seq<Line>, c: char)
    requires AllGood(a, c) && AllGood(b, c)
    ensures AllGood(a + b, c)
  {
    hide Good;
  }

  lemma BlankGood(c: char)
    ensures AllGood([[]], c)
  {
  }

  lemma HeaderGood(snap: ResourceSnapshot, opt: RenderOptions, c: char)
    requires Control(c) && FactsFree(snap.facts, c)
    ensures AllGood(HeaderLines(snap, opt), c)
  {
    TitleGood(opt.paused, c);
    HostGood(snap.facts, snap.cpuCount, c);
    RuleGood(opt.ascii, opt.cols, c);
    CpuGood(opt.ascii, opt.cols, snap.primed, snap.cpuTotal, c);
    hide Good, TitleLine, HostLine, RuleLine, CpuLine;
  }

  lemma MemoryGood(snap: ResourceSnapshot, opt: RenderOptions, c: char)
    requires Control(c)
    ensures AllGood(MemoryLines(snap, opt), c)
  {
    hide Good, Free, Printable, MeterLine, DimLine;
    MemoryLabels(c);
    var f := snap.facts;
    BlankGood(c);
    assert Good([[]][0], c);
    MeterGood("  Memory  ", opt.ascii, opt.cols, f.memUsed, f.memTotal, c);
    MeterGood("  Swap    ", opt.ascii, opt.cols, f.swapUsed, f.swapTotal, c);
    DimGood("  Swap    none", c);
  }

  lemma DisksGood(snap: ResourceSnapshot, opt: RenderOptions, c: char)
    requires Control(c)
    requires forall i :: 0 <= i < |snap.disks| ==> Free(snap.disks[i].mount, c) && Free(snap.disks[i].fstype, c)
    ensures AllGood(DiskLines(opt.ascii, opt.cols, snap.disks), c)
  {
    MemoryLabels(c);
    DimGood("  Disk    (none reported)", c);
    hide Good, Free, Printable, DiskLine, DimLine;
    forall i | 0 <= i < |snap.disks| ensures Good(DiskLine(opt.ascii, opt.cols, snap.disks[i]), c) {
      DiskGood(opt.ascii, opt.cols, snap.disks[i], c);
    }
  }

  lemma NetsGood(snap: ResourceSnapshot, c: char)
    requires Control(c) && forall i :: 0 <= i < |snap.nets| ==> Free(snap.nets[i].name, c)
    ensures AllGood(NetLines(snap.nets), c)
  {
    NetLabels(c);
    DimGood("  Net     (no active interfaces)", c);
    hide Good, Free, Printable, NetLine, DimLine, NetRows;
    NetRowsGood(snap.nets, AnyBytes(snap.nets), c);
  }

  lemma FootGood(snap: ResourceSnapshot, opt: RenderOptions, clock: string, c: char)
    requires Control(c) && Free(clock, c)
    ensures AllGood(FooterLines(snap, opt, clock), c)
  {
    BlankGood(c);
    assert Good([[]][0], c);
    FactsGood(snap.facts, c);
    BatteryGood(opt.ascii, snap.facts, c);
    RuleGood(opt.ascii, opt.cols, c);
    FooterGood(opt.intervalSec, clock, c);
    hide Good, FactsLine, RuleLine, FooterLine, BatteryLines;
    AllGoodAppend([[], FactsLine(snap.facts)], BatteryLines(opt.ascii, snap.facts), c);
    AllGoodAppend([[], FactsLine(snap.facts)] + BatteryLines(opt.ascii, snap.facts),
                  [RuleLine(opt.ascii, opt.cols), FooterLine(opt.intervalSec, clock)], c);
  }

  /** If the text fields are free of a control byte so is the frame, and every line ends with its style off. */
  lemma FrameGood(snap: ResourceSnapshot, opt: RenderOptions, clock: string, c: char)
    requires Control(c) && FieldsFree(snap, clock, c)
    ensures AllGood(FrameLines(snap, opt, clock), c)
  {
    HeaderGood(snap, opt, c);
    CoresGood(opt.ascii, opt.cols, snap.primed, snap.cores, c);
    MemoryGood(snap, opt, c);
    DisksGood(snap, opt, c);
    NetsGood(snap, c);
    FootGood(snap, opt, clock, c);
    BlankGood(c);
    hide AllGood, HeaderLines, CoreLines, MemoryLines, DiskLines, NetLines, FooterLines;
    var a, b := HeaderLines(snap, opt), CoreLines(opt.ascii, opt.cols, snap.primed, snap.cores);
    var m, d := MemoryLines(snap, opt), DiskLines(opt.ascii, opt.cols, snap.disks);
    AllGoodAppend(a, b, c);
    AllGoodAppend(a + b, m, c);
    AllGoodAppend(a + b + m, d, c);
    AllGoodAppend(a + b + m + d, [[]], c);
    AllGoodAppend(a + b + m + d + [[]], NetLines(snap.nets), c);
    AllGoodAppend(a + b + m + d + [[]] + NetLines(snap.nets), FooterLines(snap, opt, clock), c);
  }
}

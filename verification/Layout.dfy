/** Which row stands where in a frame, and that every figure of the snapshot is read back off its row. */
module Layout {
  import opened Decimal
  import opened Snapshots
  import opened Frame
  import opened Escapes
  import opened FrameText
  import opened FrameBuffer
  import opened FrameSize
  import opened Render
  import opened Rows
  import opened Figures

  /** Processors to a row of the strip. */
  function PerRow(cols: int): (n: nat)
    ensures n > 0
  {
    if cols < 80 then 2 else if cols < 100 then 3 else 4
  }

  /** Rows of the core strip. */
  function StripRows(snap: ResourceSnapshot, cols: int): nat {
    if snap.primed then (|snap.cores| + PerRow(cols) - 1) / PerRow(cols) else 0
  }

  /** The processors of row `r`. */
  function RowCores(cores: seq<CoreSample>, per: nat, r: nat): seq<CoreSample>
    requires r * per <= |cores|
  {
    if |cores| - r * per < per then cores[r * per..] else cores[r * per..r * per + per]
  }

  /** Some sum of counters is not zero modulo 2^64. */
  predicate AnyTraffic(nets: seq<NetSample>) {
    exists i :: 0 <= i < |nets| && (nets[i].rxBytes + nets[i].txBytes) % 0x1_0000_0000_0000_0000 != 0
  }

  /** Has a row: some counter of its own is not zero, or there is no traffic at all. */
  predicate HasRow(nets: seq<NetSample>, j: nat)
    requires j < |nets|
  {
    nets[j].rxBytes != 0 || nets[j].txBytes != 0 || !AnyTraffic(nets)
  }

  /** How many of the first `n` interfaces have a row. */
  function RowsBefore(nets: seq<NetSample>, n: nat): nat
    requires n <= |nets|
  {
    if n == 0 then 0 else RowsBefore(nets, n - 1) + if HasRow(nets, n - 1) then 1 else 0
  }

  function AtLeastOne(n: nat): nat {
    if n == 0 then 1 else n
  }

  // ---------------------------------------------------------------- the strip

  lemma {:induction false} ChunkIs(cs: seq<CoreSample>, per: nat, r: nat)
    requires 2 <= per <= 4 && r < |Chunks(cs, per)|
    ensures r * per <= |cs| && Chunks(cs, per)[r] == RowCores(cs, per, r)
    decreases |cs|
  {
    if |cs| > per {
      if r > 0 {
        ChunkIs(cs[per..], per, r - 1);
        ShiftRow(cs, per, r);
      }
    }
  }

  lemma ShiftRow(cs: seq<CoreSample>, per: nat, r: nat)
    requires 2 <= per <= 4 && r > 0 && per <= |cs| && (r - 1) * per <= |cs[per..]|
    ensures r * per <= |cs| && RowCores(cs[per..], per, r - 1) == RowCores(cs, per, r)
  {
    var at := (r - 1) * per;
    assert r * per == at + per;
    assert cs[per..][at..] == cs[at + per..];
    if |cs| - r * per >= per {
      assert cs[per..][at..at + per] == cs[at + per..at + per + per];
    }
  }

  lemma StripIs(ascii: bool, cols: int, snap: ResourceSnapshot)
    ensures var lines := CoreLines(ascii, cols, snap.primed, snap.cores);
      && |lines| == StripRows(snap, cols)
      && forall r :: 0 <= r < |lines| ==>
           && r * PerRow(cols) <= |snap.cores| && RowCores(snap.cores, PerRow(cols), r) != []
           && lines[r] == CoreRow(ascii, RowCores(snap.cores, PerRow(cols), r))
  {
    hide Chunks, RowCores, CoreRow;
    if snap.primed {
      var rows := Chunks(snap.cores, PerRow(cols));
      assert PerLine(cols) == PerRow(cols);
      StripPartition(snap.cores, PerRow(cols));
      forall r | 0 <= r < |rows|
        ensures r * PerRow(cols) <= |snap.cores| && rows[r] == RowCores(snap.cores, PerRow(cols), r) && rows[r] in rows
      {
        ChunkIs(snap.cores, PerRow(cols), r);
      }
    }
  }

  // ---------------------------------------------------------------- the interfaces

  lemma TrafficIs(nets: seq<NetSample>)
    ensures AnyTraffic(nets) <==> AnyBytes(nets)
  {
    forall i | 0 <= i < |nets|
      ensures HasBytes(nets[i]) <==> (nets[i].rxBytes + nets[i].txBytes) % 0x1_0000_0000_0000_0000 != 0
    {
    }
  }

  predicate Numbered(nets: seq<NetSample>, n: nat, rows: seq<Line>)
    requires n <= |nets|
  {
    && |rows| == RowsBefore(nets, n)
    && forall j :: 0 <= j < n && HasRow(nets, j) ==>
         RowsBefore(nets, j) < |rows| && rows[RowsBefore(nets, j)] == NetLine(nets[j])
  }

  lemma NumberedStep(nets: seq<NetSample>, n: nat, rows: seq<Line>, more: seq<Line>)
    requires 0 < n <= |nets| && Numbered(nets, n - 1, rows)
    requires more == rows + if HasRow(nets, n - 1) then [NetLine(nets[n - 1])] else []
    ensures Numbered(nets, n, more)
  {
    hide NetLine, AnyTraffic, HasRow;
  }

  /** Rows of the first `n` interfaces. */
  lemma {:induction false} RowsUpTo(nets: seq<NetSample>, n: nat)
    requires n <= |nets|
    ensures Numbered(nets, n, NetRows(nets[..n], AnyTraffic(nets)))
  {
    hide NetLine, AnyTraffic, Numbered;
    if n > 0 {
      RowsUpTo(nets, n - 1);
      assert nets[..n][..n - 1] == nets[..n - 1];
      NumberedStep(nets, n, NetRows(nets[..n - 1], AnyTraffic(nets)), NetRows(nets[..n], AnyTraffic(nets)));
    } else {
      NoneNumbered(nets);
    }
  }

  lemma NoneNumbered(nets: seq<NetSample>)
    ensures Numbered(nets, 0, NetRows(nets[..0], AnyTraffic(nets)))
  {
    assert nets[..0] == [];
  }

  lemma NetsAre(nets: seq<NetSample>)
    ensures var lines := NetLines(nets); var m := RowsBefore(nets, |nets|);
      && |lines| == AtLeastOne(m) && (m == 0 ==> lines[0] == DimLine("  Net     (no active interfaces)"))
      && forall j :: 0 <= j < |nets| && HasRow(nets, j) ==>
           RowsBefore(nets, j) < m && lines[RowsBefore(nets, j)] == NetLine(nets[j])
  {
    hide NetLine, AnyTraffic, HasRow, NetRows, DimLine;
    TrafficIs(nets);
    RowsUpTo(nets, |nets|);
    assert nets[..|nets|] == nets;
  }

  // ---------------------------------------------------------------- the frame

  /** Title, host, rule, headline and the strip. */
  predicate HeadRead(snap: ResourceSnapshot, opt: RenderOptions, rows: seq<string>) {
    var c := StripRows(snap, opt.cols); var f := snap.facts;
    && |rows| == 4 + c
    && rows[0] == "  Cross-Platform Resource Monitor" + (if opt.paused then "   PAUSED" else "")
    && rows[1] == "  " + (if f.hostname != "" then f.hostname else "unknown")
                  + ("  \U{C2}\U{B7}  " + (if f.hostLabel != "" then f.hostLabel else f.osName) + " " + f.osRelease)
                  + ("  \U{C2}\U{B7}  " + f.arch + "  \U{C2}\U{B7}  " + IntText(snap.cpuCount) + " cores")
    && CpuReads(rows[3], snap.primed, snap.cpuTotal)
    && forall r :: 0 <= r < c ==>
         r * PerRow(opt.cols) <= |snap.cores| && CellsRead(rows[4 + r], RowCores(snap.cores, PerRow(opt.cols), r))
  }

  predicate MemoryRead(f: Facts, rows: seq<string>) {
    && |rows| == 4 && rows[0] == "" == rows[3]
    && MeterReads(rows[1], "  Memory  ", f.memUsed, f.memTotal)
    && if f.swapTotal > 0 then MeterReads(rows[2], "  Swap    ", f.swapUsed, f.swapTotal)
       else rows[2] == "  Swap    none"
  }

  predicate DisksRead(disks: seq<DiskSample>, rows: seq<string>) {
    if disks == [] then rows == ["  Disk    (none reported)"]
    else |rows| == |disks| && forall i :: 0 <= i < |rows| ==> DiskReads(rows[i], disks[i])
  }

  predicate NetsRead(nets: seq<NetSample>, rows: seq<string>) {
    && (RowsBefore(nets, |nets|) == 0 ==> rows == ["  Net     (no active interfaces)"])
    && (RowsBefore(nets, |nets|) > 0 ==> |rows| == RowsBefore(nets, |nets|))
    && forall j :: 0 <= j < |nets| && HasRow(nets, j) ==>
         RowsBefore(nets, j) < |rows| && NetReads(rows[RowsBefore(nets, j)], nets[j])
  }

  predicate FootRead(snap: ResourceSnapshot, opt: RenderOptions, clock: string, rows: seq<string>) {
    var b := if snap.facts.batteryPresent then 1 else 0;
    && |rows| == 4 + b && rows[0] == ""
    && FactsRead(rows[1], snap.facts)
    && (b == 1 ==> BatteryReads(rows[2], snap.facts))
    && FooterReads(rows[3 + b], opt.intervalSec, clock)
  }

  /** Every figure of the snapshot is read back off its row. */
  predicate FiguresRead(snap: ResourceSnapshot, opt: RenderOptions, clock: string, rows: seq<string>) {
    var c := 4 + StripRows(snap, opt.cols);
    var d := c + 4 + AtLeastOne(|snap.disks|);
    var m := d + 1 + AtLeastOne(RowsBefore(snap.nets, |snap.nets|));
    && m <= |rows| && HeadRead(snap, opt, rows[..c]) && MemoryRead(snap.facts, rows[c..c + 4])
    && DisksRead(snap.disks, rows[c + 4..d]) && rows[d] == "" && NetsRead(snap.nets, rows[d + 1..m])
    && FootRead(snap, opt, clock, rows[m..])
  }

  lemma HeadReads(snap: ResourceSnapshot, opt: RenderOptions)
    ensures HeadRead(snap, opt, Texts(HeaderLines(snap, opt)
                                      + CoreLines(opt.ascii, opt.cols, snap.primed, snap.cores), false))
  {
    hide LineBytes, TitleLine, HostLine, RuleLine, CpuLine, CoreLines, CoreRow, CpuReads, CellsRead, RowCores,
         StripRows, PerRow, IntText;
    PlainTitle(opt.paused);
    PlainHost(snap.facts, snap.cpuCount);
    CpuRowReads(opt.ascii, opt.cols, snap.primed, snap.cpuTotal);
    StripIs(opt.ascii, opt.cols, snap);
    var per := PerRow(opt.cols);
    forall r | 0 <= r < StripRows(snap, opt.cols)
      ensures r * per <= |snap.cores|
      ensures CellsRead(LineBytes(CoreRow(opt.ascii, RowCores(snap.cores, per, r)), false),
                        RowCores(snap.cores, per, r))
    {
      CoreRowReads(opt.ascii, RowCores(snap.cores, per, r));
    }
  }

  lemma MemoryReads(snap: ResourceSnapshot, opt: RenderOptions)
    ensures MemoryRead(snap.facts, Texts(MemoryLines(snap, opt), false))
  {
    hide LineBytes, MeterLine, MeterReads, DimLine;
    EmptyLine(false);
    MeterRowReads("  Memory  ", opt.ascii, opt.cols, snap.facts.memUsed, snap.facts.memTotal);
    MeterRowReads("  Swap    ", opt.ascii, opt.cols, snap.facts.swapUsed, snap.facts.swapTotal);
    PlainDim("  Swap    none");
  }

  lemma DisksReads(ascii: bool, cols: int, disks: seq<DiskSample>)
    ensures DisksRead(disks, Texts(DiskLines(ascii, cols, disks), false))
  {
    hide LineBytes, DiskLine, DiskReads, DimLine;
    PlainDim("  Disk    (none reported)");
    forall i | 0 <= i < |disks| ensures DiskReads(LineBytes(DiskLine(ascii, cols, disks[i]), false), disks[i]) {
      DiskRowReads(ascii, cols, disks[i]);
    }
  }

  lemma NetsReads(nets: seq<NetSample>)
    ensures NetsRead(nets, Texts(NetLines(nets), false))
  {
    hide LineBytes, NetLine, NetReads, DimLine, NetLines, HasRow, RowsBefore;
    NetsAre(nets);
    PlainDim("  Net     (no active interfaces)");
    forall j | 0 <= j < |nets| ensures NetReads(LineBytes(NetLine(nets[j]), false), nets[j]) {
      NetRowReads(nets[j]);
    }
  }

  lemma FootReads(snap: ResourceSnapshot, opt: RenderOptions, clock: string)
    ensures FootRead(snap, opt, clock, Texts(FooterLines(snap, opt, clock), false))
  {
    hide LineBytes, BarSegs, IntText, PadLeft, FactsLine, RuleLine, FooterLine, FactsRead, BatteryReads, FooterReads;
    EmptyLine(false);
    FactsRowReads(snap.facts);
    FooterRowReads(opt.intervalSec, clock);
    if snap.facts.batteryPresent {
      BatteryRowReads(opt.ascii, snap.facts);
    }
  }

  lemma TextsParts(a: seq<Line>, b: seq<Line>, color: bool)
    ensures Texts(a + b, color) == Texts(a, color) + Texts(b, color)
  {
    hide LineBytes;
  }

  /** Colourless frames, live or one-shot: every figure of the snapshot is read back off its row. */
  lemma FrameReads(snap: ResourceSnapshot, opt: RenderOptions, clock: string)
    requires !opt.color
    ensures FiguresRead(snap, opt, clock, LineTexts(snap, opt, clock))
  {
    hide HeadRead, MemoryRead, DisksRead, NetsRead, FootRead, HeaderLines, CoreLines, MemoryLines, DiskLines, NetLines,
         FooterLines, LineBytes, Texts, StripRows, RowsBefore;
    HeadReads(snap, opt);
    MemoryReads(snap, opt);
    DisksReads(opt.ascii, opt.cols, snap.disks);
    NetsReads(snap.nets);
    FootReads(snap, opt, clock);
    var a := HeaderLines(snap, opt) + CoreLines(opt.ascii, opt.cols, snap.primed, snap.cores);
    var b, d := MemoryLines(snap, opt), DiskLines(opt.ascii, opt.cols, snap.disks);
    var n, f := NetLines(snap.nets), FooterLines(snap, opt, clock);
    TextsParts(a, b, false);
    TextsParts(a + b, d, false);
    TextsParts(a + b + d, [[]], false);
    TextsParts(a + b + d + [[]], n, false);
    TextsParts(a + b + d + [[]] + n, f, false);
    BlankRow();
    Sizes(snap, opt);
    Placed(Texts(a, false), Texts(b, false), Texts(d, false), Texts(n, false), Texts(f, false));
  }

  lemma BlankRow()
    ensures Texts([[]], false) == [""]
  {
    EmptyLine(false);
  }

  lemma Sizes(snap: ResourceSnapshot, opt: RenderOptions)
    ensures |HeaderLines(snap, opt) + CoreLines(opt.ascii, opt.cols, snap.primed, snap.cores)|
         == 4 + StripRows(snap, opt.cols)
    ensures |MemoryLines(snap, opt)| == 4
    ensures |DiskLines(opt.ascii, opt.cols, snap.disks)| == AtLeastOne(|snap.disks|)
    ensures |NetLines(snap.nets)| == AtLeastOne(RowsBefore(snap.nets, |snap.nets|))
  {
    hide CoreLines, NetLines, StripRows, RowsBefore;
    StripIs(opt.ascii, opt.cols, snap);
    NetsAre(snap.nets);
  }

  lemma Placed(a: seq<string>, b: seq<string>, d: seq<string>, n: seq<string>, f: seq<string>)
    ensures var rows := a + b + d + [""] + n + f;
      var i := |a| + |b| + |d|;
      && rows[..|a|] == a && rows[|a|..|a| + |b|] == b && rows[|a| + |b|..i] == d && rows[i] == ""
      && rows[i + 1..i + 1 + |n|] == n && rows[i + 1 + |n|..] == f
  {
  }

  /** Rows without their SGR sequences. */
  function Stripped(rows: seq<string>): (r: seq<string>)
    ensures |r| == |rows|
  {
    seq(|rows|, i requires 0 <= i < |rows| => StripSgr(rows[i]))
  }

  lemma RowStripped(l: Line, color: bool)
    requires LineFree(l, ESC)
    ensures StripSgr(LineBytes(l, color)) == LineBytes(l, false)
  {
    hide LineBytes, LineScan, Scan, StripSgr;
    NothingLeft();
    assert LineBytes(l, color) + "" == LineBytes(l, color) && LineBytes(l, false) + "" == LineBytes(l, false);
    if color {
      LineEffect(l, "", false);
    } else {
      PlainFree(l, ESC);
      TextEffect(LineBytes(l, false), "", false);
    }
  }

  /** Any frame whose texts hold no ESC byte: once its SGR sequences are removed every figure of the snapshot is read
      back off its row. */
  lemma AnyFrameReads(snap: ResourceSnapshot, opt: RenderOptions, clock: string)
    requires FieldsFree(snap, clock, ESC)
    ensures FiguresRead(snap, opt, clock, Stripped(LineTexts(snap, opt, clock)))
  {
    hide FiguresRead, FrameLines, LineBytes, FieldsFree, StripSgr, LineFree;
    var plain := opt.(color := false);
    GoodFrame(snap, opt, clock, ESC);
    SameSegments(snap, opt, clock, false);
    FrameReads(snap, plain, clock);
    SameFigures(snap, opt, clock, LineTexts(snap, plain, clock));
    var lines := FrameLines(snap, opt, clock);
    forall i | 0 <= i < |lines| ensures StripSgr(LineBytes(lines[i], opt.color)) == LineBytes(lines[i], false) {
      RowStripped(lines[i], opt.color);
    }
    assert Stripped(LineTexts(snap, opt, clock)) == LineTexts(snap, plain, clock);
  }

  /** From the bytes both entry points print: cut at its newlines, the one-shot output gives rows off which every figure
      is read back, and the live output is the same rows, each erased to its end, between home and the closing erase. */
  lemma OutputReads(snap: ResourceSnapshot, opt: RenderOptions, clock: string)
    requires Legal(snap) && LegalView(opt, clock) && FieldsFree(snap, clock, ESC) && FieldsFree(snap, clock, '\n')
    ensures var rows := SplitLines(Kept(OnceBytes(snap, opt, clock)));
      && FiguresRead(snap, opt, clock, Stripped(rows))
      && Kept(LiveBytes(snap, opt, clock)) == "\U{1B}[H" + Terminate(rows, "\U{1B}[K\n") + "\U{1B}[J"
  {
    hide FiguresRead, FieldsFree, Stripped, LineTexts, SplitLines, OnceBytes, LiveBytes, Kept, Terminate, Legal,
         OneLineEach;
    AnyFrameReads(snap, opt, clock);
    LinesReadBack(snap, opt, clock);
    AllKept(snap, opt, clock);
    assert ERASE_LINE + "\n" == "\U{1B}[K\n";
  }

  lemma SameFigures(snap: ResourceSnapshot, opt: RenderOptions, clock: string, rows: seq<string>)
    requires FiguresRead(snap, opt.(color := false), clock, rows)
    ensures FiguresRead(snap, opt, clock, rows)
  {
    hide MemoryRead, DisksRead, NetsRead, CpuReads, CellsRead, FactsRead, BatteryReads, FooterReads, StripRows,
         RowCores, RowsBefore;
  }

  lemma PlainHost(f: Facts, cpuCount: int)
    ensures LineBytes(HostLine(f, cpuCount), false)
         == "  " + (if f.hostname != "" then f.hostname else "unknown")
            + ("  \U{C2}\U{B7}  " + (if f.hostLabel != "" then f.hostLabel else f.osName) + " " + f.osRelease)
            + ("  \U{C2}\U{B7}  " + f.arch + "  \U{C2}\U{B7}  " + IntText(cpuCount) + " cores")
  {
    hide LineBytes, IntText;
    HostText(f, cpuCount, false);
    Bare(if f.hostname != "" then f.hostname else "unknown");
  }

  lemma PlainDim(s: string)
    ensures LineBytes(DimLine(s), false) == s
  {
    hide LineBytes;
    DimText(s, false);
    assert "" + s + "" == s;
  }

  lemma PlainTitle(paused: bool)
    ensures LineBytes(TitleLine(paused), false)
         == "  Cross-Platform Resource Monitor" + (if paused then "   PAUSED" else "")
  {
    hide LineBytes;
    TitleText(paused, false);
    Bare("  Cross-Platform Resource Monitor");
    Bare("   PAUSED");
  }
}

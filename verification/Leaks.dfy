/** Which newlines can let a colour run into the next row: only those in a text printed with a style on. */
module Leaks {
  import opened Options
  import opened Decimal
  import opened Util
  import opened Snapshots
  import opened Frame
  import opened Escapes
  import opened FrameText

  const LF: char := '\n'

  lemma {:induction false} ScanAppend(a: Line, b: Line, styled: bool)
    ensures LineScan(a + b, styled)
         == match LineScan(a, styled) { case None => None case Some(x) => LineScan(b, x) }
  {
    hide SegScan;
    if b == [] {
      assert a + b == a;
    } else {
      ScanAppend(a, b[..|b| - 1], styled);
      assert (a + b)[..|a + b| - 1] == a + b[..|b| - 1];
    }
  }

  lemma TidyAppend(a: Line, b: Line)
    requires Tidy(a) && Tidy(b)
    ensures Tidy(a + b)
  {
    hide LineScan;
    ScanAppend(a, b, false);
  }

  lemma {:induction false} PlainTidy(l: Line)
    requires forall i :: 0 <= i < |l| ==> l[i].T?
    ensures Tidy(l)
  {
    if l != [] {
      PlainTidy(l[..|l| - 1]);
    }
  }

  /** A line without newlines never fails the scan. */
  lemma {:induction false} FreeScan(l: Line, styled: bool)
    requires LineFree(l, LF)
    ensures LineScan(l, styled) == Some(Styled(l, styled))
  {
    if l != [] {
      FreeScan(l[..|l| - 1], styled);
    }
  }

  lemma GoodTidy(l: Line)
    requires Good(l, LF)
    ensures Tidy(l)
  {
    FreeScan(l, false);
  }

  lemma AllGoodTidy(lines: seq<Line>)
    requires AllGood(lines, LF)
    ensures AllTidy(lines)
  {
    hide Tidy, Good;
    forall i | 0 <= i < |lines| ensures Tidy(lines[i]) {
      GoodTidy(lines[i]);
    }
  }

  /** Text printed with the style off can hold anything. */
  lemma FreeText(head: Line, s: string, t: string, tail: Line)
    requires Tidy(head + [T(s)] + tail) && !Styled(head, false)
    ensures Tidy(head + [T(t)] + tail)
  {
    ScanAppend(head + [T(s)], tail, false);
    ScanAppend(head + [T(t)], tail, false);
    assert (head + [T(s)])[..|head|] == head && (head + [T(t)])[..|head|] == head;
    ScanStyled(head, false);
  }

  lemma {:induction false} ScanStyled(l: Line, styled: bool)
    ensures LineScan(l, styled).Some? ==> LineScan(l, styled) == Some(Styled(l, styled))
  {
    if l != [] {
      ScanStyled(l[..|l| - 1], styled);
    }
  }

  // ---------------------------------------------------------------- rows

  /** The host row leaks exactly when the host name holds a newline. */
  lemma HostTidy(f: Facts, cpuCount: int)
    ensures Tidy(HostLine(f, cpuCount)) <==> Free(f.hostname, LF)
  {
    var host := OrElse(f.hostname, "unknown");
    var head: Line := [T("  "), S(Cyan)];
    var tail: Line := [S(Reset),
     T("  " + DOT + "  "), T(OrElse(f.hostLabel, f.osName)), T(" "), T(f.osRelease),
     T("  " + DOT + "  "), T(f.arch), T("  " + DOT + "  "), T(IntText(cpuCount)), T(" cores")];
    assert HostLine(f, cpuCount) == head + [T(host)] + tail;
    HeaderLabels(LF);
    StyledText(head, Cyan, host, tail);
    assert head[..1] == [T("  ")] && head[1] == S(Cyan);
    PlainTidy([T("  ")]);
    ResetTail(tail);
  }

  /** A text between a style and the reset after it: the line is tidy exactly when the text has no newline. */
  lemma StyledText(head: Line, c: Style, t: string, tail: Line)
    requires c != Reset && head != [] && head[|head| - 1] == S(c) && Tidy(head[..|head| - 1])
    requires tail != [] && tail[0] == S(Reset) && forall i :: 1 <= i < |tail| ==> tail[i].T?
    ensures Tidy(head + [T(t)] + tail) <==> Free(t, LF)
  {
    ScanAppend(head + [T(t)], tail, false);
    assert (head + [T(t)])[..|head|] == head;
    ResetTail(tail);
  }

  lemma {:induction false} ResetTail(tail: Line)
    requires tail != [] && tail[0] == S(Reset) && forall i :: 1 <= i < |tail| ==> tail[i].T?
    ensures LineScan(tail, true) == Some(false) == LineScan(tail, false)
  {
    assert tail == [S(Reset)] + tail[1..];
    ScanAppend([S(Reset)], tail[1..], true);
    ScanAppend([S(Reset)], tail[1..], false);
    assert [S(Reset)][..0] == [];
    PlainTidy(tail[1..]);
  }

  lemma MarkTidy(c: Style, t: string)
    requires Free(t, LF)
    ensures Tidy([S(c), T(t), S(Reset)])
  {
    var l: Line := [S(c), T(t), S(Reset)];
    ResetAt(l, 2);
    FreeScan(l, false);
    hide LineScan;
  }

  lemma NetTidy(n: NetSample)
    ensures Tidy(NetLine(n))
  {
    hide Tidy, PadRight, Trunc, RateText, Free;
    var name: Line := [T("  Net  "), T(PadRight(n.name, 8)), T("   ")];
    var rx: Line := [T(" "), T(PadRight(Trunc(RateText(n.rxBps), 64), 10)), T("    ")];
    var tx: Line := [T(" "), T(Trunc(RateText(n.txBps), 64))];
    var down: Line, up: Line := [S(Cyan), T(DOWN_ARROW), S(Reset)], [S(Yellow), T(UP_ARROW), S(Reset)];
    NetLabels(LF);
    MarkTidy(Cyan, DOWN_ARROW);
    MarkTidy(Yellow, UP_ARROW);
    PlainTidy(name);
    PlainTidy(rx);
    PlainTidy(tx);
    TidyAppend(name, down);
    TidyAppend(name + down, rx);
    TidyAppend(name + down + rx, up);
    TidyAppend(name + down + rx + up, tx);
    assert NetLine(n) == name + down + rx + up + tx;
  }

  lemma CellTidy(ascii: bool, c: CoreSample)
    ensures Tidy(CoreCell(ascii, c))
  {
    hide BarSegs, Tidy, PadLeft, FixedText;
    var head: Line := [T(PadLeft(c.name, 2)), T(" ")];
    var bar := BarSegs(ascii, c.usage, MINI_BAR_WIDTH);
    var tail: Line := [T(" "), T(PadLeft(FixedText(c.usage, 0), 4)), T("%")];
    PlainTidy(head);
    PlainTidy(tail);
    BarGood(ascii, c.usage, MINI_BAR_WIDTH, LF);
    GoodTidy(bar);
    TidyAppend(head, bar);
    TidyAppend(head + bar, tail);
  }

  lemma {:induction false} GappedTidy(ascii: bool, cs: seq<CoreSample>)
    ensures Tidy(GappedCells(ascii, cs))
  {
    hide CoreCell, Tidy;
    PlainTidy([]);
    PlainTidy([T("   ")]);
    if cs != [] {
      var front, last := cs[..|cs| - 1], cs[|cs| - 1];
      GappedTidy(ascii, front);
      CellTidy(ascii, last);
      TidyAppend(GappedCells(ascii, front), CoreCell(ascii, last));
      TidyAppend(GappedCells(ascii, front) + CoreCell(ascii, last), [T("   ")]);
    }
  }

  lemma RowTidy(ascii: bool, cs: seq<CoreSample>)
    requires cs != []
    ensures Tidy(CoreRow(ascii, cs))
  {
    hide CoreCell, GappedCells, Tidy;
    var front, last := cs[..|cs| - 1], cs[|cs| - 1];
    PlainTidy([T("  ")]);
    GappedTidy(ascii, front);
    CellTidy(ascii, last);
    TidyAppend([T("  ")], GappedCells(ascii, front));
    TidyAppend([T("  ")] + GappedCells(ascii, front), CoreCell(ascii, last));
  }

  lemma CoresTidy(ascii: bool, cols: int, primed: bool, cores: seq<CoreSample>)
    ensures AllTidy(CoreLines(ascii, cols, primed, cores))
  {
    hide Tidy, CoreRow, Chunks;
    if primed {
      var rows := Chunks(cores, PerLine(cols));
      forall i | 0 <= i < |rows| ensures Tidy(CoreRows(ascii, rows)[i]) {
        assert rows[i] in rows;
        RowTidy(ascii, rows[i]);
      }
    }
  }

  /** A disk row leaks exactly when the file system type holds a newline; a newline in the mount path cannot leak. */
  lemma DiskTidy(ascii: bool, cols: int, d: DiskSample)
    ensures Tidy(DiskLine(ascii, cols, d)) <==> Free(d.fstype, LF)
  {
    hide BarSegs, Tidy, UsedPct, PadRight, BytesText, Free, Trunc;
    var mount: Line := [T("  Disk "), T(PadRight(Trunc(d.mount, 28), 18)), T(" ")];
    var bar := BarSegs(ascii, UsedPct(d.usedBytes, d.totalBytes), DiskBarWidth(cols));
    var sizes: Line := [T("  "), T(BytesText(d.usedBytes)), T(" / "), T(BytesText(d.totalBytes)), T("  ")];
    PlainTidy(mount);
    BarGood(ascii, UsedPct(d.usedBytes, d.totalBytes), DiskBarWidth(cols), LF);
    GoodTidy(bar);
    PlainTidy(sizes);
    TidyAppend(mount, bar);
    TidyAppend(mount + bar, sizes);
    var head := mount + bar + sizes + [S(Dim)];
    assert head[..|head| - 1] == mount + bar + sizes;
    StyledText(head, Dim, d.fstype, [S(Reset)]);
    assert DiskLine(ascii, cols, d) == head + [T(d.fstype)] + [S(Reset)];
  }

  lemma FooterTidy(intervalSec: real, clock: string)
    ensures Tidy(FooterLine(intervalSec, clock))
  {
    FooterGood(intervalSec, "", LF);
    GoodTidy(FooterLine(intervalSec, ""));
    hide Tidy, Trunc, FixedText;
    var l := FooterLine(intervalSec, clock);
    var head := l[..|l| - 1];
    assert FooterLine(intervalSec, "") == head + [T("")] + [];
    assert l == head + [T(clock)] + [];
    ResetAt(head, 7);
    FreeText(head, "", clock, []);
  }

  // ---------------------------------------------------------------- blocks

  lemma TidyBoth(a: seq<Line>, b: seq<Line>)
    ensures AllTidy(a + b) <==> AllTidy(a) && AllTidy(b)
  {
    hide Tidy;
    assert forall i :: 0 <= i < |a| ==> (a + b)[i] == a[i];
    assert forall i :: 0 <= i < |b| ==> (a + b)[|a| + i] == b[i];
  }

  lemma HeaderTidy(snap: ResourceSnapshot, opt: RenderOptions)
    ensures AllTidy(HeaderLines(snap, opt)) <==> Free(snap.facts.hostname, LF)
  {
    hide Tidy, TitleLine, HostLine, RuleLine, CpuLine, Free;
    TitleGood(opt.paused, LF);
    RuleGood(opt.ascii, opt.cols, LF);
    CpuGood(opt.ascii, opt.cols, snap.primed, snap.cpuTotal, LF);
    GoodTidy(TitleLine(opt.paused));
    GoodTidy(RuleLine(opt.ascii, opt.cols));
    GoodTidy(CpuLine(opt.ascii, opt.cols, snap.primed, snap.cpuTotal));
    HostTidy(snap.facts, snap.cpuCount);
    assert HeaderLines(snap, opt)[1] == HostLine(snap.facts, snap.cpuCount);
  }

  predicate TypesFree(disks: seq<DiskSample>, c: char) {
    forall i :: 0 <= i < |disks| ==> Free(disks[i].fstype, c)
  }

  lemma DisksTidy(ascii: bool, cols: int, disks: seq<DiskSample>)
    ensures AllTidy(DiskLines(ascii, cols, disks)) <==> TypesFree(disks, LF)
  {
    MemoryLabels(LF);
    DimGood("  Disk    (none reported)", LF);
    GoodTidy(DimLine("  Disk    (none reported)"));
    hide Tidy, DiskLine, DimLine, Free;
    forall i | 0 <= i < |disks| ensures Tidy(DiskRows(ascii, cols, disks)[i]) <==> Free(disks[i].fstype, LF) {
      DiskTidy(ascii, cols, disks[i]);
    }
  }

  lemma {:induction false} NetRowsTidy(nets: seq<NetSample>, hideIdle: bool)
    ensures AllTidy(NetRows(nets, hideIdle))
  {
    hide Tidy, NetLine;
    if nets != [] {
      NetRowsTidy(nets[..|nets| - 1], hideIdle);
      NetTidy(nets[|nets| - 1]);
    }
  }

  lemma NetsTidy(nets: seq<NetSample>)
    ensures AllTidy(NetLines(nets))
  {
    NetLabels(LF);
    DimGood("  Net     (no active interfaces)", LF);
    GoodTidy(DimLine("  Net     (no active interfaces)"));
    hide Tidy, NetRows, DimLine;
    NetRowsTidy(nets, AnyBytes(nets));
  }

  lemma FootTidy(snap: ResourceSnapshot, opt: RenderOptions, clock: string)
    ensures AllTidy(FooterLines(snap, opt, clock))
  {
    hide Tidy, FactsLine, BatteryLines, RuleLine, FooterLine;
    var facts := [[], FactsLine(snap.facts)];
    var bottom := [RuleLine(opt.ascii, opt.cols), FooterLine(opt.intervalSec, clock)];
    PlainTidy([]);
    FactsGood(snap.facts, LF);
    GoodTidy(FactsLine(snap.facts));
    RuleGood(opt.ascii, opt.cols, LF);
    GoodTidy(RuleLine(opt.ascii, opt.cols));
    FooterTidy(opt.intervalSec, clock);
    BatteryGood(opt.ascii, snap.facts, LF);
    AllGoodTidy(BatteryLines(opt.ascii, snap.facts));
    TidyBoth(facts, BatteryLines(opt.ascii, snap.facts));
    TidyBoth(facts + BatteryLines(opt.ascii, snap.facts), bottom);
  }

  /** Of all texts only the host name and the file system types are printed with a style on. */
  lemma FrameTidy(snap: ResourceSnapshot, opt: RenderOptions, clock: string)
    ensures AllTidy(FrameLines(snap, opt, clock)) <==> Free(snap.facts.hostname, LF) && TypesFree(snap.disks, LF)
  {
    hide AllTidy, HeaderLines, CoreLines, MemoryLines, DiskLines, NetLines, FooterLines, Free, TypesFree;
    var a, b := HeaderLines(snap, opt), CoreLines(opt.ascii, opt.cols, snap.primed, snap.cores);
    var c, d := MemoryLines(snap, opt), DiskLines(opt.ascii, opt.cols, snap.disks);
    var e, f := NetLines(snap.nets), FooterLines(snap, opt, clock);
    HeaderTidy(snap, opt);
    CoresTidy(opt.ascii, opt.cols, snap.primed, snap.cores);
    MemoryGood(snap, opt, LF);
    AllGoodTidy(c);
    DisksTidy(opt.ascii, opt.cols, snap.disks);
    BlankGood(LF);
    AllGoodTidy([[]]);
    NetsTidy(snap.nets);
    FootTidy(snap, opt, clock);
    TidyBoth(a, b);
    TidyBoth(a + b, c);
    TidyBoth(a + b + c, d);
    TidyBoth(a + b + c + d, [[]]);
    TidyBoth(a + b + c + d + [[]], e);
    TidyBoth(a + b + c + d + [[]] + e, f);
  }
}

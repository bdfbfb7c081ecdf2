/** No frame is ever truncated: a byte budget for every row of the dashboard. */
module FrameSize {
  import opened Decimal
  import opened Util
  import opened Snapshots
  import opened FrameBuffer
  import opened Frame
  import opened Escapes

  /** An upper bound on the bytes of one segment, with colour or without. */
  function SegCost(x: Seg): nat {
    if x.S? then 5 else |x.text|
  }

  function Cost(l: Line): nat {
    if l == [] then 0 else Cost(l[..|l| - 1]) + SegCost(l[|l| - 1])
  }

  lemma {:induction false} CostAppend(a: Line, b: Line)
    ensures Cost(a + b) == Cost(a) + Cost(b)
  {
    if b == [] {
      assert a + b == a;
    } else {
      CostAppend(a, b[..|b| - 1]);
      assert (a + b)[..|a + b| - 1] == a + b[..|b| - 1];
    }
  }

  function Sum(b: seq<nat>): nat {
    if b == [] then 0 else b[0] + Sum(b[1..])
  }

  /** A row's cost is below the sum of its segments' limits. */
  lemma {:induction false} CostWithin(l: Line, limits: seq<nat>)
    requires |l| == |limits| && forall i :: 0 <= i < |l| ==> SegCost(l[i]) <= limits[i]
    ensures Cost(l) <= Sum(limits)
    decreases |l|
  {
    if l != [] {
      CostWithin(l[1..], limits[1..]);
      CostAppend([l[0]], l[1..]);
      assert [l[0]] + l[1..] == l;
      CostOne(l[0]);
    }
  }

  lemma CostOne(x: Seg)
    ensures Cost([x]) == SegCost(x)
  {
    assert [x][..0] == [];
  }

  lemma {:induction false} CostEach(l: Line, k: nat)
    requires forall i :: 0 <= i < |l| ==> SegCost(l[i]) <= k
    ensures Cost(l) <= k * |l|
  {
    if l != [] {
      CostEach(l[..|l| - 1], k);
      assert k * |l| == k * (|l| - 1) + k;
    }
  }

  lemma {:induction false} LineCost(l: Line, color: bool)
    ensures |LineBytes(l, color)| <= Cost(l)
  {
    hide LineBytes;
    if l == [] {
      EmptyLine(color);
    } else {
      LineSnoc(l, color);
      LineCost(l[..|l| - 1], color);
    }
  }

  // ---------------------------------------------------------------- what the C structs can hold

  predicate LegalCore(c: CoreSample) {
    |c.name| < NAME_LEN && 0.0 <= c.usage <= 100.0
  }

  predicate LegalDisk(d: DiskSample) {
    |d.mount| < PATH_LEN && |d.fstype| < NAME_LEN
  }

  predicate LegalNet(n: NetSample) {
    |n.name| < NAME_LEN
  }

  /** Every finite double is below 10^309. */
  predicate Finite(x: real) {
    Abs(x) + 1.0 <= Pow10(309) as real
  }

  predicate LegalFacts(f: Facts) {
    && |f.hostname| < HOST_LEN && |f.osName| < NAME_LEN && |f.osRelease| < NAME_LEN
    && |f.arch| < NAME_LEN && |f.hostLabel| < NAME_LEN
    && Finite(f.load1) && Finite(f.load5) && Finite(f.load15)
    && f.processCount < 0x1_0000_0000 && -0x8000_0000 <= f.batteryPercent < 0x8000_0000
  }

  /** The limits of the snapshot struct: array sizes, string sizes, percentages up to 100. */
  predicate Legal(snap: ResourceSnapshot) {
    && LegalFacts(snap.facts)
    && -0x8000_0000 <= snap.cpuCount < 0x8000_0000 && snap.cpuTotal <= 100.0
    && |snap.cores| <= MAX_CORES && |snap.disks| <= MAX_DISKS && |snap.nets| <= MAX_NETS
    && (forall i :: 0 <= i < |snap.cores| ==> LegalCore(snap.cores[i]))
    && (forall i :: 0 <= i < |snap.disks| ==> LegalDisk(snap.disks[i]))
    && (forall i :: 0 <= i < |snap.nets| ==> LegalNet(snap.nets[i]))
  }

  /** term_size clamps the width; the clock is a 64-byte strftime buffer. */
  predicate LegalView(opt: RenderOptions, clock: string) {
    60 <= opt.cols <= 240 && |clock| < 64
  }

  // ---------------------------------------------------------------- rows

  lemma TitleCost(paused: bool)
    ensures Cost(TitleLine(paused)) <= 62
  {
    var a: Line := [S(Bold), T("  Cross-Platform Resource Monitor"), S(Reset)];
    var b: Line := [S(Yellow), T("   PAUSED"), S(Reset)];
    CostWithin(a, [5, 33, 5]);
    CostWithin(b, [5, 9, 5]);
    CostAppend(a, b);
    assert a + [] == a;
  }

  lemma IntTextLength(n: int)
    requires -0x8000_0000 <= n < 0x8000_0000
    ensures |IntText(n)| <= 11
  {
    assert Pow10(5) == 100000;
    assert Pow10(10) == 10000000000;
    NatTextLength(if n < 0 then -n else n, 10);
  }

  lemma HostCost(f: Facts, cpuCount: int)
    requires LegalFacts(f) && -0x8000_0000 <= cpuCount < 0x8000_0000
    ensures Cost(HostLine(f, cpuCount)) <= 500
  {
    hide Cost, IntText;
    IntTextLength(cpuCount);
    CostWithin(HostLine(f, cpuCount), [2, 5, 255, 5, 6, 63, 1, 63, 6, 63, 6, 11, 6]);
  }

  lemma RuleCost(ascii: bool, cols: int)
    requires 0 <= cols <= 240
    ensures Cost(RuleLine(ascii, cols)) <= 730
  {
    var glyphs := Repeat(RuleGlyph(ascii), cols);
    CostEach(glyphs, 3);
    CostWithin([S(Dim)], [5]);
    CostWithin([S(Reset)], [5]);
    CostAppend([S(Dim)], glyphs);
    CostAppend([S(Dim)] + glyphs, [S(Reset)]);
  }

  lemma BarCost(ascii: bool, pct: real, width: int)
    ensures Cost(BarSegs(ascii, pct, width)) <= 12 + 3 * BarWidth(width)
  {
    var w := BarWidth(width);
    var f := Filled(pct, w);
    var head: Line, tail: Line := [S(PctStyle(ClampPct(pct))), T("[")], [T("]"), S(Reset)];
    var on, off := Repeat(OnGlyph(ascii), f), Repeat(OffGlyph(ascii), w - f);
    assert BarSegs(ascii, pct, width) == head + on + off + tail;
    hide BarSegs, Filled, Cost;
    CostEach(on, 3);
    CostEach(off, 3);
    CostWithin(head, [5, 1]);
    CostWithin(tail, [1, 5]);
    CostAppend(head, on);
    CostAppend(head + on, off);
    CostAppend(head + on + off, tail);
  }

  lemma PctTextLength(x: real, d: Places)
    requires 0.0 <= x <= 100.0
    ensures |FixedText(x, d)| <= if d == 0 then 3 else 4 + d
  {
    assert Pow10(3) == 1000;
    FixedTextLength(x, d, 3);
  }

  lemma CpuCost(ascii: bool, cols: int, primed: bool, cpuTotal: real)
    requires cpuTotal <= 100.0
    ensures Cost(CpuLine(ascii, cols, primed, cpuTotal)) <= 174
  {
    hide Cost, BarSegs, FixedText;
    var head: Line := [T("  CPU     ")];
    CostWithin(head, [10]);
    if !primed || cpuTotal < 0.0 {
      var rest: Line := [S(Dim), T("(warming up " + DASH + " rates need two samples)"), S(Reset)];
      CostWithin(rest, [5, 39, 5]);
      CostAppend(head, rest);
    } else {
      var meter := BarSegs(ascii, cpuTotal, MainBarWidth(cols));
      PctTextLength(cpuTotal, 1);
      var tail: Line := [T("  "), T(PadLeft(FixedText(cpuTotal, 1), 5)), T("%")];
      BarCost(ascii, cpuTotal, MainBarWidth(cols));
      CostWithin(tail, [2, 5, 1]);
      CostAppend(meter, tail);
      CostAppend(head, meter + tail);
    }
  }

  lemma CellCost(ascii: bool, c: CoreSample)
    requires LegalCore(c)
    ensures Cost(CoreCell(ascii, c)) <= 106
  {
    hide Cost, BarSegs, FixedText;
    var head: Line := [T(PadLeft(c.name, 2)), T(" ")];
    PctTextLength(c.usage, 0);
    var tail: Line := [T(" "), T(PadLeft(FixedText(c.usage, 0), 4)), T("%")];
    CostWithin(head, [63, 1]);
    CostWithin(tail, [1, 4, 1]);
    BarCost(ascii, c.usage, MINI_BAR_WIDTH);
    CostAppend(head, BarSegs(ascii, c.usage, MINI_BAR_WIDTH));
    CostAppend(head + BarSegs(ascii, c.usage, MINI_BAR_WIDTH), tail);
  }

  lemma {:induction false} GappedCost(ascii: bool, cs: seq<CoreSample>)
    requires forall i :: 0 <= i < |cs| ==> LegalCore(cs[i])
    ensures Cost(GappedCells(ascii, cs)) <= 109 * |cs|
  {
    if cs != [] {
      hide Cost, CoreCell;
      var front, last := cs[..|cs| - 1], cs[|cs| - 1];
      GappedCost(ascii, front);
      CellCost(ascii, last);
      CostWithin([T("   ")], [3]);
      CostAppend(GappedCells(ascii, front), CoreCell(ascii, last));
      CostAppend(GappedCells(ascii, front) + CoreCell(ascii, last), [T("   ")]);
    } else {
      assert GappedCells(ascii, cs) == [];
    }
  }

  lemma RowCost(ascii: bool, cs: seq<CoreSample>)
    requires cs != [] && forall i :: 0 <= i < |cs| ==> LegalCore(cs[i])
    ensures Cost(CoreRow(ascii, cs)) + 4 <= 112 * |cs|
  {
    hide Cost, CoreCell, GappedCells;
    var front, last := cs[..|cs| - 1], cs[|cs| - 1];
    var head: Line := [T("  ")];
    GappedCost(ascii, front);
    CellCost(ascii, last);
    CostWithin(head, [2]);
    CostAppend(head, GappedCells(ascii, front));
    CostAppend(head + GappedCells(ascii, front), CoreCell(ascii, last));
  }

  lemma UsedPctRange(used: u64, total: u64)
    ensures 0.0 <= UsedPct(used, total) <= 100.0
  {
  }

  lemma MeterCost(title: string, ascii: bool, cols: int, used: u64, total: u64)
    requires |title| == 10
    ensures Cost(MeterLine(title, ascii, cols, used, total)) <= 203
  {
    hide Cost, BarSegs, FixedText, BytesText, UsedPct;
    var pct := UsedPct(used, total);
    var head: Line, meter := [T(title)], BarSegs(ascii, pct, MainBarWidth(cols));
    UsedPctRange(used, total);
    PctTextLength(pct, 1);
    BytesTextLength(used);
    BytesTextLength(total);
    var tail: Line := [T("  "), T(BytesText(used)), T(" / "), T(BytesText(total)), T("  ("),
                       T(PadLeft(FixedText(pct, 1), 4)), T("%)")];
    CostWithin(head, [10]);
    CostWithin(tail, [2, 11, 3, 11, 3, 5, 2]);
    BarCost(ascii, pct, MainBarWidth(cols));
    CostAppend(head, meter);
    CostAppend(head + meter, tail);
  }

  lemma DimCost(s: string)
    requires |s| <= 33
    ensures Cost(DimLine(s)) <= 43
  {
    hide Cost;
    CostWithin(DimLine(s), [5, 33, 5]);
  }

  lemma DiskCost(ascii: bool, cols: int, d: DiskSample)
    requires LegalDisk(d)
    ensures Cost(DiskLine(ascii, cols, d)) <= 270
  {
    hide Cost, BarSegs, BytesText, UsedPct;
    var pct := UsedPct(d.usedBytes, d.totalBytes);
    var meter := BarSegs(ascii, pct, DiskBarWidth(cols));
    BytesTextLength(d.usedBytes);
    BytesTextLength(d.totalBytes);
    var head: Line := [T("  Disk "), T(PadRight(Trunc(d.mount, 28), 18)), T(" ")];
    var tail: Line := [T("  "), T(BytesText(d.usedBytes)), T(" / "), T(BytesText(d.totalBytes)), T("  "),
                       S(Dim), T(d.fstype), S(Reset)];
    CostWithin(head, [7, 27, 1]);
    CostWithin(tail, [2, 11, 3, 11, 2, 5, 63, 5]);
    BarCost(ascii, pct, DiskBarWidth(cols));
    CostAppend(head, meter);
    CostAppend(head + meter, tail);
  }

  lemma NetCost(n: NetSample)
    requires LegalNet(n)
    ensures Cost(NetLine(n)) <= 240
  {
    hide Cost, RateText, PadRight, Trunc;
    var rx, tx := Trunc(RateText(n.rxBps), 64), Trunc(RateText(n.txBps), 64);
    var a: Line := [T("  Net  "), T(PadRight(n.name, 8)), T("   "), S(Cyan), T(DOWN_ARROW), S(Reset), T(" ")];
    var b: Line := [T(PadRight(rx, 10)), T("    "), S(Yellow), T(UP_ARROW), S(Reset), T(" "), T(tx)];
    CostWithin(a, [7, 63, 3, 5, 3, 5, 1]);
    CostWithin(b, [63, 4, 5, 3, 5, 1, 63]);
    CostAppend(a, b);
    assert a + b == NetLine(n);
  }

  lemma LoadTextLength(x: real)
    requires Finite(x)
    ensures |PadLeft(FixedText(x, 2), 5)| <= 313
  {
    FixedTextLength(x, 2, 309);
  }

  lemma FactsCost(f: Facts)
    requires LegalFacts(f)
    ensures Cost(FactsLine(f)) <= 1010
  {
    hide Cost, FixedText, UptimeText, NatText, Finite, PadLeft, PadRight, Abs, Pow10;
    LoadTextLength(f.load1);
    LoadTextLength(f.load5);
    LoadTextLength(f.load15);
    UptimeTextLength(f.uptimeSec);
    CountLength(f.processCount);
    var count, up := PadRight(NatText(f.processCount), 5), UptimeText(f.uptimeSec);
    if f.loadValid {
      var a: Line := [T("  Load  "), T(PadLeft(FixedText(f.load1, 2), 5)), T("  "),
                      T(PadLeft(FixedText(f.load5, 2), 5)), T("  ")];
      var b: Line := [T(PadLeft(FixedText(f.load15, 2), 5)), T("     Processes  "), T(count), T("     Up  "), T(up)];
      CostWithin(a, [8, 313, 2, 313, 2]);
      CostWithin(b, [313, 16, 10, 9, 24]);
      CostAppend(a, b);
      assert a + b == FactsLine(f);
    } else {
      CostWithin(FactsLine(f), [13, 10, 9, 24]);
    }
  }

  lemma CountLength(n: nat)
    requires n < 0x1_0000_0000
    ensures |PadRight(NatText(n), 5)| <= 10
  {
    assert Pow10(5) == 100000;
    assert Pow10(10) == 10000000000;
    NatTextLength(n, 10);
  }

  lemma BatteryCost(ascii: bool, f: Facts)
    requires LegalFacts(f) && f.batteryPresent
    ensures Cost(BatteryLines(ascii, f)[0]) <= 90
  {
    hide Cost, BarSegs, IntText, Finite;
    var head: Line := [T("  Battery ")];
    var power: Line :=
      [T(if f.batteryCharging then "  charging" else if f.batteryPlugged then "  on AC" else "  on battery")];
    CostWithin(head, [10]);
    CostWithin(power, [12]);
    var meter: Line;
    if f.batteryPercent >= 0 {
      var segs := BarSegs(ascii, f.batteryPercent as real, 12);
      IntTextLength(f.batteryPercent);
      var tail: Line := [T("  "), T(PadLeft(IntText(f.batteryPercent), 3)), T("%")];
      BarCost(ascii, f.batteryPercent as real, 12);
      CostWithin(tail, [2, 11, 1]);
      CostAppend(segs, tail);
      meter := segs + tail;
    } else {
      meter := [S(Dim), T("  unknown %"), S(Reset)];
      CostWithin(meter, [5, 11, 5]);
    }
    CostAppend(head, meter);
    CostAppend(head + meter, power);
    assert BatteryLines(ascii, f)[0] == head + meter + power;
  }

  lemma FooterCost(intervalSec: real, clock: string)
    requires |clock| < 64
    ensures Cost(FooterLine(intervalSec, clock)) <= 195
  {
    hide Cost, FixedText;
    assert |Trunc(FixedText(intervalSec, 1) + "s", 64)| <= 63;
    hide Trunc;
    CostWithin(FooterLine(intervalSec, clock), [2, 5, 1, 5, 8, 5, 5, 5, 17, 63, 10, 63]);
  }

  // ---------------------------------------------------------------- the whole frame

  /** Bytes of a list of lines, with the erase and the newline of each. */
  function Budget(lines: seq<Line>): nat {
    if lines == [] then 0 else Budget(lines[..|lines| - 1]) + Cost(lines[|lines| - 1]) + 4
  }

  lemma {:induction false} BudgetAppend(a: seq<Line>, b: seq<Line>)
    ensures Budget(a + b) == Budget(a) + Budget(b)
  {
    hide Cost;
    if b == [] {
      assert a + b == a;
    } else {
      BudgetAppend(a, b[..|b| - 1]);
      assert (a + b)[..|a + b| - 1] == a + b[..|b| - 1];
    }
  }

  lemma {:induction false} BudgetEach(lines: seq<Line>, k: nat)
    requires forall i :: 0 <= i < |lines| ==> Cost(lines[i]) + 4 <= k
    ensures Budget(lines) <= k * |lines|
  {
    hide Cost;
    if lines != [] {
      BudgetEach(lines[..|lines| - 1], k);
    }
  }

  lemma BudgetOne(l: Line)
    ensures Budget([l]) == Cost(l) + 4
  {
    hide Cost;
    assert [l][..0] == [];
  }

  lemma {:induction false} FrameBudget(lines: seq<Line>, color: bool, live: bool)
    ensures |FrameBytes(lines, color, live)| <= Budget(lines)
  {
    if lines != [] {
      hide FrameBytes, LineBytes, Cost;
      FrameBudget(lines[..|lines| - 1], color, live);
      FrameSnoc(lines, color, live);
      LineCost(lines[|lines| - 1], color);
    }
  }

  lemma CoreRowsCons(ascii: bool, first: seq<CoreSample>, rows: seq<seq<CoreSample>>)
    requires first != [] && forall r :: r in rows ==> r != []
    ensures CoreRows(ascii, [first] + rows) == [CoreRow(ascii, first)] + CoreRows(ascii, rows)
  {
    hide CoreRow;
  }

  lemma {:induction false} CoreRowsBudget(ascii: bool, cores: seq<CoreSample>, per: nat)
    requires per > 0 && forall i :: 0 <= i < |cores| ==> LegalCore(cores[i])
    ensures Budget(CoreRows(ascii, Chunks(cores, per))) <= 112 * |cores|
    decreases |cores|
  {
    hide Cost, CoreRow, LegalCore;
    if cores == [] {
    } else if |cores| <= per {
      assert CoreRows(ascii, Chunks(cores, per)) == [CoreRow(ascii, cores)];
      BudgetOne(CoreRow(ascii, cores));
      RowCost(ascii, cores);
    } else {
      var first, rest := cores[..per], cores[per..];
      assert Chunks(cores, per) == [first] + Chunks(rest, per);
      CoreRowsCons(ascii, first, Chunks(rest, per));
      hide Chunks, CoreRows, Budget;
      BudgetAppend([CoreRow(ascii, first)], CoreRows(ascii, Chunks(rest, per)));
      BudgetOne(CoreRow(ascii, first));
      RowCost(ascii, first);
      CoreRowsBudget(ascii, rest, per);
    }
  }

  lemma {:induction false} NetRowsBudget(nets: seq<NetSample>, hideIdle: bool)
    requires forall i :: 0 <= i < |nets| ==> LegalNet(nets[i])
    ensures Budget(NetRows(nets, hideIdle)) <= 244 * |nets|
  {
    if nets != [] {
      hide Cost, NetLine, LegalNet;
      var front, last := nets[..|nets| - 1], nets[|nets| - 1];
      NetRowsBudget(front, hideIdle);
      NetCost(last);
      BudgetOne(NetLine(last));
      BudgetAppend(NetRows(front, hideIdle), if hideIdle && Idle(last) then [] else [NetLine(last)]);
      assert Budget([]) == 0;
    }
  }

  lemma FourLines(a: Line, b: Line, c: Line, d: Line)
    ensures Budget([a, b, c, d]) == Cost(a) + Cost(b) + Cost(c) + Cost(d) + 16
  {
    hide Cost;
    BudgetOne(a);
    BudgetOne(b);
    BudgetOne(c);
    BudgetOne(d);
    BudgetAppend([a], [b]);
    BudgetAppend([a] + [b], [c]);
    BudgetAppend([a] + [b] + [c], [d]);
    assert [a] + [b] + [c] + [d] == [a, b, c, d];
  }

  lemma HeaderBudget(snap: ResourceSnapshot, opt: RenderOptions)
    requires Legal(snap) && 60 <= opt.cols <= 240
    ensures Budget(HeaderLines(snap, opt)) <= 1482
  {
    TitleCost(opt.paused);
    HostCost(snap.facts, snap.cpuCount);
    RuleCost(opt.ascii, opt.cols);
    CpuCost(opt.ascii, opt.cols, snap.primed, snap.cpuTotal);
    hide Cost, Budget, TitleLine, HostLine, RuleLine, CpuLine;
    FourLines(TitleLine(opt.paused), HostLine(snap.facts, snap.cpuCount), RuleLine(opt.ascii, opt.cols),
              CpuLine(opt.ascii, opt.cols, snap.primed, snap.cpuTotal));
  }

  lemma MemoryBudget(snap: ResourceSnapshot, opt: RenderOptions)
    ensures Budget(MemoryLines(snap, opt)) <= 422
  {
    var f := snap.facts;
    assert Cost([]) == 0;
    MeterCost("  Memory  ", opt.ascii, opt.cols, f.memUsed, f.memTotal);
    MeterCost("  Swap    ", opt.ascii, opt.cols, f.swapUsed, f.swapTotal);
    DimCost("  Swap    none");
    hide Cost, Budget, MeterLine, DimLine;
    FourLines([], MeterLine("  Memory  ", opt.ascii, opt.cols, f.memUsed, f.memTotal),
              SwapLine(opt.ascii, opt.cols, f.swapUsed, f.swapTotal), []);
  }

  lemma CoresBudget(snap: ResourceSnapshot, opt: RenderOptions)
    requires Legal(snap)
    ensures Budget(CoreLines(opt.ascii, opt.cols, snap.primed, snap.cores)) <= 14336
  {
    if snap.primed {
      CoreRowsBudget(opt.ascii, snap.cores, PerLine(opt.cols));
    }
  }

  lemma DisksBudget(snap: ResourceSnapshot, opt: RenderOptions)
    requires Legal(snap)
    ensures Budget(DiskLines(opt.ascii, opt.cols, snap.disks)) <= 2192
  {
    hide Cost, DiskLine, Budget;
    if snap.disks == [] {
      DimCost("  Disk    (none reported)");
      BudgetOne(DimLine("  Disk    (none reported)"));
    } else {
      forall i | 0 <= i < |snap.disks|
        ensures Cost(DiskRows(opt.ascii, opt.cols, snap.disks)[i]) + 4 <= 274
      {
        DiskCost(opt.ascii, opt.cols, snap.disks[i]);
      }
      BudgetEach(DiskRows(opt.ascii, opt.cols, snap.disks), 274);
    }
  }

  lemma NetsBudget(snap: ResourceSnapshot)
    requires Legal(snap)
    ensures Budget(NetLines(snap.nets)) <= 2928
  {
    hide Cost, NetLine, Budget, NetRows;
    NetRowsBudget(snap.nets, AnyBytes(snap.nets));
    DimCost("  Net     (no active interfaces)");
    BudgetOne(DimLine("  Net     (no active interfaces)"));
  }

  lemma FooterBudget(snap: ResourceSnapshot, opt: RenderOptions, clock: string)
    requires Legal(snap) && LegalView(opt, clock)
    ensures Budget(FooterLines(snap, opt, clock)) <= 2045
  {
    var f := snap.facts;
    assert Cost([]) == 0;
    FactsCost(f);
    RuleCost(opt.ascii, opt.cols);
    FooterCost(opt.intervalSec, clock);
    assert BatteryLines(opt.ascii, f) != [] ==> f.batteryPresent && |BatteryLines(opt.ascii, f)| == 1;
    if f.batteryPresent {
      BatteryCost(opt.ascii, f);
      BudgetOne(BatteryLines(opt.ascii, f)[0]);
      assert BatteryLines(opt.ascii, f) == [BatteryLines(opt.ascii, f)[0]];
    }
    assert Budget([]) == 0;
    hide Cost, Budget, FactsLine, RuleLine, FooterLine, BatteryLines;
    var a, b := FactsLine(f), BatteryLines(opt.ascii, f);
    var c, d := RuleLine(opt.ascii, opt.cols), FooterLine(opt.intervalSec, clock);
    BudgetOne([]);
    BudgetOne(a);
    BudgetOne(c);
    BudgetOne(d);
    BudgetAppend([[]], [a]);
    BudgetAppend([c], [d]);
    assert [[]] + [a] == [[], a] && [c] + [d] == [c, d];
    BudgetAppend([[], a], b);
    BudgetAppend([[], a] + b, [c, d]);
  }

  /** No legal snapshot can fill the buffer: home, frame and closing erase together stay below FRAME_CAP - 1. */
  lemma NoTruncation(snap: ResourceSnapshot, opt: RenderOptions, clock: string, live: bool)
    requires Legal(snap) && LegalView(opt, clock)
    ensures |FrameBytes(FrameLines(snap, opt, clock), opt.color, live)| + 6 <= 23415 < FRAME_CAP - 1
  {
    hide Cost, Budget, Legal, HeaderLines, CoreLines, MemoryLines, DiskLines, NetLines, FooterLines;
    var a, b := HeaderLines(snap, opt), CoreLines(opt.ascii, opt.cols, snap.primed, snap.cores);
    var c, d := MemoryLines(snap, opt), DiskLines(opt.ascii, opt.cols, snap.disks);
    var e, f := NetLines(snap.nets), FooterLines(snap, opt, clock);
    HeaderBudget(snap, opt);
    CoresBudget(snap, opt);
    MemoryBudget(snap, opt);
    DisksBudget(snap, opt);
    NetsBudget(snap);
    FooterBudget(snap, opt, clock);
    BlankBudget();
    BudgetAppend(a, b);
    BudgetAppend(a + b, c);
    BudgetAppend(a + b + c, d);
    BudgetAppend(a + b + c + d, [[]]);
    BudgetAppend(a + b + c + d + [[]], e);
    BudgetAppend(a + b + c + d + [[]] + e, f);
    FrameBudget(FrameLines(snap, opt, clock), opt.color, live);
  }

  lemma BlankBudget()
    ensures Budget([[]]) == 4
  {
    BudgetOne([]);
  }
}

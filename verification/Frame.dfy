/** The dashboard as data: a frame is a list of lines, a line a list of styles and texts. */
module Frame {
  import opened Decimal
  import opened Util
  import opened Snapshots
  import opened FrameBuffer

  const ESC: char := '\U{1B}'

  datatype Style = Reset | Bold | Dim | Green | Yellow | Red | Cyan

  /** The SGR control sequence (section 8.3.117 of ECMA-48) of each style. */
  function Code(c: Style): string {
    match c
    case Reset => "\U{1B}[0m"
    case Bold => "\U{1B}[1m"
    case Dim => "\U{1B}[2m"
    case Green => "\U{1B}[32m"
    case Yellow => "\U{1B}[33m"
    case Red => "\U{1B}[31m"
    case Cyan => "\U{1B}[36m"
  }

  datatype Seg = S(style: Style) | T(text: string)

  type Line = seq<Seg>

  function SegBytes(x: Seg, color: bool): string {
    match x
    case S(c) => if color then Code(c) else ""
    case T(s) => s
  }

  function Codes(line: Line, color: bool): (p: seq<string>)
    ensures |p| == |line|
  {
    seq(|line|, i requires 0 <= i < |line| => SegBytes(line[i], color))
  }

  lemma CodesAppend(a: Line, b: Line, color: bool)
    ensures Codes(a + b, color) == Codes(a, color) + Codes(b, color)
  {
  }

  function NlBytes(live: bool): string {
    if live then ERASE_LINE + "\n" else "\n"
  }

  function LinePieces(line: Line, color: bool, live: bool): seq<string> {
    Codes(line, color) + [NlBytes(live)]
  }

  function Pieces(lines: seq<Line>, color: bool, live: bool): seq<string> {
    if lines == [] then []
    else Pieces(lines[..|lines| - 1], color, live) + LinePieces(lines[|lines| - 1], color, live)
  }

  lemma PiecesSnoc(lines: seq<Line>, l: Line, color: bool, live: bool)
    ensures Pieces(lines + [l], color, live) == Pieces(lines, color, live) + LinePieces(l, color, live)
  {
    assert (lines + [l])[..|lines|] == lines;
  }

  lemma {:induction false} PiecesAppend(a: seq<Line>, b: seq<Line>, color: bool, live: bool)
    ensures Pieces(a + b, color, live) == Pieces(a, color, live) + Pieces(b, color, live)
  {
    if b == [] {
      assert a + b == a;
    } else {
      var front, last := b[..|b| - 1], b[|b| - 1];
      assert a + b == (a + front) + [last];
      assert b == front + [last];
      hide Pieces, LinePieces;
      calc {
        Pieces(a + b, color, live);
        { PiecesSnoc(a + front, last, color, live); }
        Pieces(a + front, color, live) + LinePieces(last, color, live);
        { PiecesAppend(a, front, color, live); }
        Pieces(a, color, live) + Pieces(front, color, live) + LinePieces(last, color, live);
        { Assoc(Pieces(a, color, live), Pieces(front, color, live), LinePieces(last, color, live)); }
        Pieces(a, color, live) + (Pieces(front, color, live) + LinePieces(last, color, live));
        { PiecesSnoc(front, last, color, live); }
        Pieces(a, color, live) + Pieces(b, color, live);
      }
    }
  }

  function LineBytes(line: Line, color: bool): string {
    Flat(Codes(line, color))
  }

  // ---------------------------------------------------------------- bars and rules

  function MainBarWidth(cols: int): int {
    ClampInt(cols - 36, 16, 48)
  }

  const MINI_BAR_WIDTH: int := 8

  function PctStyle(pct: real): Style {
    if pct >= 85.0 then Red else if pct >= 60.0 then Yellow else Green
  }

  function BarWidth(width: int): (w: nat) {
    if width < 4 then 4 else width
  }

  function Nearest(p: real, w: real): (f: nat)
    requires p >= 0.0 && w >= 0.0
  {
    assert p / 100.0 >= 0.0 && p / 100.0 * w >= 0.0;
    (p / 100.0 * w + 0.5).Floor
  }

  /** How many glyphs of a bar are lit. */
  function Filled(pct: real, width: nat): (f: nat)
    ensures f <= width
  {
    var f := Nearest(ClampPct(pct), width as real);
    if f > width then width else f
  }

  function UsedPct(used: u64, total: u64): real {
    if total == 0 then 0.0 else Percent(used, total)
  }

  function OnGlyph(ascii: bool): string {
    if ascii then "#" else "\U{E2}\U{96}\U{88}"
  }

  function OffGlyph(ascii: bool): string {
    if ascii then "." else "\U{E2}\U{96}\U{91}"
  }

  function RuleGlyph(ascii: bool): string {
    if ascii then "-" else "\U{E2}\U{94}\U{80}"
  }

  function Repeat(s: string, n: int): (r: Line)
    ensures |r| == if n < 0 then 0 else n
    ensures forall i :: 0 <= i < |r| ==> r[i] == T(s)
  {
    seq(if n < 0 then 0 else n, _ => T(s))
  }

  function BarSegs(ascii: bool, pct: real, width: int): Line {
    var w := BarWidth(width);
    var f := Filled(pct, w);
    [S(PctStyle(ClampPct(pct))), T("[")]
    + Repeat(OnGlyph(ascii), f) + Repeat(OffGlyph(ascii), w - f)
    + [T("]"), S(Reset)]
  }

  function RuleLine(ascii: bool, cols: int): Line {
    [S(Dim)] + Repeat(RuleGlyph(ascii), cols) + [S(Reset)]
  }

  // ---------------------------------------------------------------- rows

  const DOT: string := "\U{C2}\U{B7}"
  const DASH: string := "\U{E2}\U{80}\U{94}"
  const DOWN_ARROW: string := "\U{E2}\U{86}\U{93}"
  const UP_ARROW: string := "\U{E2}\U{86}\U{91}"

  function TitleLine(paused: bool): Line {
    [S(Bold), T("  Cross-Platform Resource Monitor"), S(Reset)]
    + if paused then [S(Yellow), T("   PAUSED"), S(Reset)] else []
  }

  function OrElse(s: string, other: string): string {
    if s != "" then s else other
  }

  function HostLine(f: Facts, cpuCount: int): Line {
    [T("  "), S(Cyan), T(OrElse(f.hostname, "unknown")), S(Reset),
     T("  " + DOT + "  "), T(OrElse(f.hostLabel, f.osName)), T(" "), T(f.osRelease),
     T("  " + DOT + "  "), T(f.arch), T("  " + DOT + "  "), T(IntText(cpuCount)), T(" cores")]
  }

  function CpuLine(ascii: bool, cols: int, primed: bool, cpuTotal: real): Line {
    [T("  CPU     ")]
    + if !primed || cpuTotal < 0.0
      then [S(Dim), T("(warming up " + DASH + " rates need two samples)"), S(Reset)]
      else BarSegs(ascii, cpuTotal, MainBarWidth(cols)) + [T("  "), T(PadLeft(FixedText(cpuTotal, 1), 5)), T("%")]
  }

  function PerLine(cols: int): (n: nat)
    ensures n > 0
  {
    if cols >= 100 then 4 else if cols >= 80 then 3 else 2
  }

  function CoreCell(ascii: bool, c: CoreSample): Line {
    [T(PadLeft(c.name, 2)), T(" ")]
    + BarSegs(ascii, c.usage, MINI_BAR_WIDTH)
    + [T(" "), T(PadLeft(FixedText(c.usage, 0), 4)), T("%")]
  }

  /** Cells each followed by a gap. */
  function GappedCells(ascii: bool, cs: seq<CoreSample>): Line {
    if cs == [] then []
    else GappedCells(ascii, cs[..|cs| - 1]) + CoreCell(ascii, cs[|cs| - 1]) + [T("   ")]
  }

  function CoreRow(ascii: bool, cs: seq<CoreSample>): Line
    requires cs != []
  {
    [T("  ")] + GappedCells(ascii, cs[..|cs| - 1]) + CoreCell(ascii, cs[|cs| - 1])
  }

  /** The rows the core strip is cut into. */
  function Chunks<A>(cs: seq<A>, per: nat): (rows: seq<seq<A>>)
    requires per > 0
    ensures forall r :: r in rows ==> r != []
  {
    if cs == [] then []
    else if |cs| <= per then [cs]
    else [cs[..per]] + Chunks(cs[per..], per)
  }

  function CoreRows(ascii: bool, rows: seq<seq<CoreSample>>): (lines: seq<Line>)
    requires forall r :: r in rows ==> r != []
    ensures |lines| == |rows|
  {
    seq(|rows|, i requires 0 <= i < |rows| => assert rows[i] in rows; CoreRow(ascii, rows[i]))
  }

  function CoreLines(ascii: bool, cols: int, primed: bool, cores: seq<CoreSample>): seq<Line> {
    if primed then CoreRows(ascii, Chunks(cores, PerLine(cols))) else []
  }

  function MeterLine(title: string, ascii: bool, cols: int, used: u64, total: u64): Line {
    [T(title)] + BarSegs(ascii, UsedPct(used, total), MainBarWidth(cols))
    + [T("  "), T(BytesText(used)), T(" / "), T(BytesText(total)), T("  ("),
       T(PadLeft(FixedText(UsedPct(used, total), 1), 4)), T("%)")]
  }

  function DimLine(s: string): Line {
    [S(Dim), T(s), S(Reset)]
  }

  function SwapLine(ascii: bool, cols: int, used: u64, total: u64): Line {
    if total > 0 then MeterLine("  Swap    ", ascii, cols, used, total) else DimLine("  Swap    none")
  }

  function DiskBarWidth(cols: int): int {
    ClampInt(MainBarWidth(cols) - 10, 10, 40)
  }

  function DiskLine(ascii: bool, cols: int, d: DiskSample): Line {
    [T("  Disk "), T(PadRight(Trunc(d.mount, 28), 18)), T(" ")]
    + BarSegs(ascii, UsedPct(d.usedBytes, d.totalBytes), DiskBarWidth(cols))
    + [T("  "), T(BytesText(d.usedBytes)), T(" / "), T(BytesText(d.totalBytes)), T("  "),
       S(Dim), T(d.fstype), S(Reset)]
  }

  function DiskRows(ascii: bool, cols: int, disks: seq<DiskSample>): (lines: seq<Line>)
    ensures |lines| == |disks|
  {
    seq(|disks|, i requires 0 <= i < |disks| => DiskLine(ascii, cols, disks[i]))
  }

  function DiskLines(ascii: bool, cols: int, disks: seq<DiskSample>): seq<Line> {
    if disks == [] then [DimLine("  Disk    (none reported)")] else DiskRows(ascii, cols, disks)
  }

  /** The sum test of the renderer, in 64-bit arithmetic. */
  predicate HasBytes(n: NetSample) {
    (n.rxBytes + n.txBytes) % WORD > 0
  }

  predicate Idle(n: NetSample) {
    n.rxBytes == 0 && n.txBytes == 0
  }

  predicate AnyBytes(nets: seq<NetSample>) {
    exists i :: 0 <= i < |nets| && HasBytes(nets[i])
  }

  function NetLine(n: NetSample): Line {
    [T("  Net  "), T(PadRight(n.name, 8)), T("   "), S(Cyan), T(DOWN_ARROW), S(Reset), T(" "),
     T(PadRight(Trunc(RateText(n.rxBps), 64), 10)), T("    "),
     S(Yellow), T(UP_ARROW), S(Reset), T(" "), T(Trunc(RateText(n.txBps), 64))]
  }

  function NetRows(nets: seq<NetSample>, hideIdle: bool): seq<Line> {
    if nets == [] then []
    else
      var last := nets[|nets| - 1];
      NetRows(nets[..|nets| - 1], hideIdle) + if hideIdle && Idle(last) then [] else [NetLine(last)]
  }

  function NetLines(nets: seq<NetSample>): seq<Line> {
    var rows := NetRows(nets, AnyBytes(nets));
    if rows == [] then [DimLine("  Net     (no active interfaces)")] else rows
  }

  function FactsLine(f: Facts): Line {
    if f.loadValid then
      [T("  Load  "), T(PadLeft(FixedText(f.load1, 2), 5)), T("  "), T(PadLeft(FixedText(f.load5, 2), 5)), T("  "),
       T(PadLeft(FixedText(f.load15, 2), 5)), T("     Processes  "), T(PadRight(NatText(f.processCount), 5)),
       T("     Up  "), T(UptimeText(f.uptimeSec))]
    else
      [T("  Processes  "), T(PadRight(NatText(f.processCount), 5)), T("     Up  "), T(UptimeText(f.uptimeSec))]
  }

  function BatteryLines(ascii: bool, f: Facts): seq<Line> {
    if !f.batteryPresent then []
    else
      [[T("  Battery ")]
       + (if f.batteryPercent >= 0
          then BarSegs(ascii, f.batteryPercent as real, 12)
               + [T("  "), T(PadLeft(IntText(f.batteryPercent), 3)), T("%")]
          else [S(Dim), T("  unknown %"), S(Reset)])
       + [T(if f.batteryCharging then "  charging" else if f.batteryPlugged then "  on AC" else "  on battery")]]
  }

  function FooterLine(intervalSec: real, clock: string): Line {
    [T("  "), S(Bold), T("q"), S(Reset), T(" quit   "), S(Bold), T("space"), S(Reset), T(" pause   refresh "),
     T(Trunc(FixedText(intervalSec, 1) + "s", 64)), T("          "), T(clock)]
  }

  function HeaderLines(snap: ResourceSnapshot, opt: RenderOptions): seq<Line> {
    [TitleLine(opt.paused), HostLine(snap.facts, snap.cpuCount), RuleLine(opt.ascii, opt.cols),
     CpuLine(opt.ascii, opt.cols, snap.primed, snap.cpuTotal)]
  }

  function MemoryLines(snap: ResourceSnapshot, opt: RenderOptions): seq<Line> {
    [[], MeterLine("  Memory  ", opt.ascii, opt.cols, snap.facts.memUsed, snap.facts.memTotal),
     SwapLine(opt.ascii, opt.cols, snap.facts.swapUsed, snap.facts.swapTotal), []]
  }

  function FooterLines(snap: ResourceSnapshot, opt: RenderOptions, clock: string): seq<Line> {
    [[], FactsLine(snap.facts)] + BatteryLines(opt.ascii, snap.facts)
    + [RuleLine(opt.ascii, opt.cols), FooterLine(opt.intervalSec, clock)]
  }

  function FrameLines(snap: ResourceSnapshot, opt: RenderOptions, clock: string): seq<Line> {
    HeaderLines(snap, opt)
    + CoreLines(opt.ascii, opt.cols, snap.primed, snap.cores)
    + MemoryLines(snap, opt)
    + DiskLines(opt.ascii, opt.cols, snap.disks)
    + [[]]
    + NetLines(snap.nets)
    + FooterLines(snap, opt, clock)
  }

  /** Everything one render asks the buffer for. */
  function FramePieces(snap: ResourceSnapshot, opt: RenderOptions, clock: string, live: bool): seq<string> {
    Pieces(FrameLines(snap, opt, clock), opt.color, live)
  }
}

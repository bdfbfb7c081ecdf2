/** The text of every row and where it stands in the frame, with or without colour. */
module Rows {
  import opened Decimal
  import opened Util
  import opened Snapshots
  import opened Frame
  import opened Escapes
  import opened Render
  import opened Samples

  /** An SGR sequence with one parameter, or nothing without colour. */
  function Sgr(color: bool, parameter: string): string {
    if color then "\U{1B}[" + parameter + "m" else ""
  }

  lemma StyleText(color: bool)
    ensures SegBytes(S(Reset), color) == Sgr(color, "0") && SegBytes(S(Bold), color) == Sgr(color, "1")
    ensures SegBytes(S(Dim), color) == Sgr(color, "2") && SegBytes(S(Cyan), color) == Sgr(color, "36")
    ensures SegBytes(S(Yellow), color) == Sgr(color, "33")
  {
  }

  lemma OneSeg(x: Seg, color: bool)
    ensures LineBytes([x], color) == SegBytes(x, color)
  {
    hide SegBytes;
    assert [x][..0] == [];
    LineSnoc([x], color);
    EmptyLine(color);
  }

  lemma ThreeSegs(x: Seg, y: Seg, z: Seg, color: bool)
    ensures LineBytes([x, y, z], color) == SegBytes(x, color) + SegBytes(y, color) + SegBytes(z, color)
  {
    hide SegBytes, LineBytes;
    TwoSegs(x, y, color);
    LineSnoc([x, y, z], color);
    assert [x, y, z][..2] == [x, y];
  }

  lemma FourSegs(w: Seg, x: Seg, y: Seg, z: Seg, color: bool)
    ensures LineBytes([w, x, y, z], color)
         == SegBytes(w, color) + SegBytes(x, color) + SegBytes(y, color) + SegBytes(z, color)
  {
    hide SegBytes, LineBytes;
    ThreeSegs(w, x, y, color);
    LineSnoc([w, x, y, z], color);
    assert [w, x, y, z][..3] == [w, x, y];
  }

  lemma FiveSegs(v: Seg, w: Seg, x: Seg, y: Seg, z: Seg, color: bool)
    ensures LineBytes([v, w, x, y, z], color)
         == SegBytes(v, color) + SegBytes(w, color) + SegBytes(x, color) + SegBytes(y, color) + SegBytes(z, color)
  {
    hide SegBytes, LineBytes;
    FourSegs(v, w, x, y, color);
    LineSnoc([v, w, x, y, z], color);
    assert [v, w, x, y, z][..4] == [v, w, x, y];
  }

  /** A text between a style and a reset. */
  lemma Span(c: Style, text: string, color: bool)
    ensures LineBytes([S(c), T(text), S(Reset)], color) == SegBytes(S(c), color) + text + Sgr(color, "0")
  {
    hide LineBytes, Sgr;
    StyleText(color);
    ThreeSegs(S(c), T(text), S(Reset), color);
  }

  /** The bytes of a bar; what they are is stated by BarText and BarColour. */
  function BarBytes(ascii: bool, pct: real, width: int, color: bool): string {
    LineBytes(BarSegs(ascii, pct, width), color)
  }

  // ---------------------------------------------------------------- rows

  lemma TitleText(paused: bool, color: bool)
    ensures LineBytes(TitleLine(paused), color)
         == Sgr(color, "1") + "  Cross-Platform Resource Monitor" + Sgr(color, "0")
            + if paused then Sgr(color, "33") + "   PAUSED" + Sgr(color, "0") else ""
  {
    hide LineBytes, Sgr;
    StyleText(color);
    var a: Line, b: Line := [S(Bold), T("  Cross-Platform Resource Monitor"), S(Reset)],
                            [S(Yellow), T("   PAUSED"), S(Reset)];
    Span(Bold, "  Cross-Platform Resource Monitor", color);
    Span(Yellow, "   PAUSED", color);
    LineBytesAppend(a, b, color);
    assert a + [] == a;
  }

  lemma HostText(f: Facts, cpuCount: int, color: bool)
    ensures LineBytes(HostLine(f, cpuCount), color)
         == "  " + (Sgr(color, "36") + (if f.hostname != "" then f.hostname else "unknown") + Sgr(color, "0"))
            + ("  \U{C2}\U{B7}  " + (if f.hostLabel != "" then f.hostLabel else f.osName) + " " + f.osRelease)
            + ("  \U{C2}\U{B7}  " + f.arch + "  \U{C2}\U{B7}  " + IntText(cpuCount) + " cores")
  {
    hide LineBytes, Sgr, IntText;
    StyleText(color);
    var mid := "  " + DOT + "  ";
    assert mid == "  \U{C2}\U{B7}  ";
    var name, host := OrElse(f.hostname, "unknown"), OrElse(f.hostLabel, f.osName);
    var b: Line, c: Line := [S(Cyan), T(name), S(Reset)], [T(mid), T(host), T(" "), T(f.osRelease)];
    var d: Line := [T(mid), T(f.arch), T(mid), T(IntText(cpuCount)), T(" cores")];
    Span(Cyan, name, color);
    OneSeg(T("  "), color);
    FourSegs(T(mid), T(host), T(" "), T(f.osRelease), color);
    FiveSegs(T(mid), T(f.arch), T(mid), T(IntText(cpuCount)), T(" cores"), color);
    LineBytesAppend([T("  ")], b, color);
    LineBytesAppend([T("  ")] + b, c, color);
    LineBytesAppend([T("  ")] + b + c, d, color);
    assert HostLine(f, cpuCount) == [T("  ")] + b + c + d;
  }

  lemma RuleText(ascii: bool, cols: nat, color: bool)
    ensures LineBytes(RuleLine(ascii, cols), color)
         == Sgr(color, "2") + Times(if ascii then "-" else "\U{E2}\U{94}\U{80}", cols) + Sgr(color, "0")
  {
    hide LineBytes, Sgr, Times;
    StyleText(color);
    var g := RuleGlyph(ascii);
    OneSeg(S(Dim), color);
    OneSeg(S(Reset), color);
    RepeatBytes(g, cols, color);
    LineBytesAppend([S(Dim)], Repeat(g, cols), color);
    LineBytesAppend([S(Dim)] + Repeat(g, cols), [S(Reset)], color);
  }

  /** The width of the headline and memory bars. */
  lemma MainBar(cols: int)
    ensures MainBarWidth(cols) == if cols < 52 then 16 else if cols < 84 then cols - 36 else 48
    ensures DiskBarWidth(cols) == if cols < 56 then 10 else if cols < 84 then cols - 46 else 38
  {
  }

  lemma CpuText(ascii: bool, cols: int, primed: bool, cpuTotal: real, color: bool)
    ensures LineBytes(CpuLine(ascii, cols, primed, cpuTotal), color)
         == "  CPU     "
            + if primed && cpuTotal >= 0.0
              then BarBytes(ascii, cpuTotal, if cols < 52 then 16 else if cols < 84 then cols - 36 else 48, color)
                   + ("  " + PadLeft(FixedText(cpuTotal, 1), 5) + "%")
              else Sgr(color, "2") + "(warming up \U{E2}\U{80}\U{94} rates need two samples)" + Sgr(color, "0")
  {
    hide LineBytes, Sgr, FixedText, PadLeft, BarSegs, MainBarWidth;
    StyleText(color);
    MainBar(cols);
    OneSeg(T("  CPU     "), color);
    if primed && cpuTotal >= 0.0 {
      var bar, pct := BarSegs(ascii, cpuTotal, MainBarWidth(cols)), PadLeft(FixedText(cpuTotal, 1), 5);
      ThreeSegs(T("  "), T(pct), T("%"), color);
      LineBytesAppend(bar, [T("  "), T(pct), T("%")], color);
      LineBytesAppend([T("  CPU     ")], bar + [T("  "), T(pct), T("%")], color);
    } else {
      WarmingText(color);
      LineBytesAppend([T("  CPU     ")],
                      [S(Dim), T("(warming up " + DASH + " rates need two samples)"), S(Reset)], color);
    }
  }

  lemma WarmingText(color: bool)
    ensures LineBytes([S(Dim), T("(warming up " + DASH + " rates need two samples)"), S(Reset)], color)
         == Sgr(color, "2") + "(warming up \U{E2}\U{80}\U{94} rates need two samples)" + Sgr(color, "0")
  {
    hide LineBytes, Sgr;
    StyleText(color);
    Span(Dim, "(warming up " + DASH + " rates need two samples)", color);
    DashText();
  }

  lemma DashText()
    ensures "(warming up " + DASH + " rates need two samples)"
         == "(warming up \U{E2}\U{80}\U{94} rates need two samples)"
  {
  }

  lemma CellText(ascii: bool, c: CoreSample, color: bool)
    ensures LineBytes(CoreCell(ascii, c), color)
         == (PadLeft(c.name, 2) + " ") + BarBytes(ascii, c.usage, 8, color)
            + (" " + PadLeft(FixedText(c.usage, 0), 4) + "%")
  {
    hide LineBytes, FixedText, PadLeft, BarSegs;
    var bar, pct := BarSegs(ascii, c.usage, 8), PadLeft(FixedText(c.usage, 0), 4);
    TwoSegs(T(PadLeft(c.name, 2)), T(" "), color);
    ThreeSegs(T(" "), T(pct), T("%"), color);
    LineBytesAppend([T(PadLeft(c.name, 2)), T(" ")], bar, color);
    LineBytesAppend([T(PadLeft(c.name, 2)), T(" ")] + bar, [T(" "), T(pct), T("%")], color);
  }

  lemma MeterText(title: string, ascii: bool, cols: int, used: u64, total: u64, color: bool)
    ensures LineBytes(MeterLine(title, ascii, cols, used, total), color)
         == title
            + BarBytes(ascii, UsedPct(used, total),
                       if cols < 52 then 16 else if cols < 84 then cols - 36 else 48, color)
            + (("  " + BytesText(used) + " / " + BytesText(total))
               + ("  (" + PadLeft(FixedText(UsedPct(used, total), 1), 4) + "%)"))
  {
    hide LineBytes, FixedText, PadLeft, BarSegs, BytesText, UsedPct, MainBarWidth;
    MainBar(cols);
    var bar := BarSegs(ascii, UsedPct(used, total), MainBarWidth(cols));
    var pct := PadLeft(FixedText(UsedPct(used, total), 1), 4);
    var a: Line, b: Line := [T("  "), T(BytesText(used)), T(" / "), T(BytesText(total))], [T("  ("), T(pct), T("%)")];
    OneSeg(T(title), color);
    FourSegs(T("  "), T(BytesText(used)), T(" / "), T(BytesText(total)), color);
    ThreeSegs(T("  ("), T(pct), T("%)"), color);
    LineBytesAppend(a, b, color);
    LineBytesAppend([T(title)], bar, color);
    LineBytesAppend([T(title)] + bar, a + b, color);
    assert MeterLine(title, ascii, cols, used, total) == [T(title)] + bar + (a + b);
  }

  lemma DimText(s: string, color: bool)
    ensures LineBytes(DimLine(s), color) == Sgr(color, "2") + s + Sgr(color, "0")
  {
    hide LineBytes, Sgr;
    StyleText(color);
    Span(Dim, s, color);
  }

  lemma DiskText(ascii: bool, cols: int, d: DiskSample, color: bool)
    ensures LineBytes(DiskLine(ascii, cols, d), color)
         == ("  Disk " + PadRight(Cut(d.mount, 28), 18) + " ")
            + BarBytes(ascii, UsedPct(d.usedBytes, d.totalBytes),
                       if cols < 56 then 10 else if cols < 84 then cols - 46 else 38, color)
            + (("  " + BytesText(d.usedBytes) + " / " + BytesText(d.totalBytes) + "  ")
               + (Sgr(color, "2") + d.fstype + Sgr(color, "0")))
  {
    hide LineBytes, Sgr, PadRight, BarSegs, BytesText, UsedPct, DiskBarWidth;
    MainBar(cols);
    StyleText(color);
    var name := PadRight(Trunc(d.mount, 28), 18);
    var bar := BarSegs(ascii, UsedPct(d.usedBytes, d.totalBytes), DiskBarWidth(cols));
    var a: Line := [T("  "), T(BytesText(d.usedBytes)), T(" / "), T(BytesText(d.totalBytes)), T("  ")];
    var b: Line := [S(Dim), T(d.fstype), S(Reset)];
    ThreeSegs(T("  Disk "), T(name), T(" "), color);
    FiveSegs(T("  "), T(BytesText(d.usedBytes)), T(" / "), T(BytesText(d.totalBytes)), T("  "), color);
    Span(Dim, d.fstype, color);
    LineBytesAppend(a, b, color);
    LineBytesAppend([T("  Disk "), T(name), T(" ")], bar, color);
    LineBytesAppend([T("  Disk "), T(name), T(" ")] + bar, a + b, color);
    assert DiskLine(ascii, cols, d) == [T("  Disk "), T(name), T(" ")] + bar + (a + b);
  }

  lemma NetText(n: NetSample, color: bool)
    ensures LineBytes(NetLine(n), color)
         == ("  Net  " + PadRight(n.name, 8) + "   ") + (Sgr(color, "36") + "\U{E2}\U{86}\U{93}" + Sgr(color, "0"))
            + (" " + PadRight(Cut(RateText(n.rxBps), 64), 10) + "    ")
            + (Sgr(color, "33") + "\U{E2}\U{86}\U{91}" + Sgr(color, "0")) + (" " + Cut(RateText(n.txBps), 64))
  {
    hide LineBytes, Sgr, PadRight, RateText;
    StyleText(color);
    var name, rx, tx := PadRight(n.name, 8), PadRight(Cut(RateText(n.rxBps), 64), 10), Cut(RateText(n.txBps), 64);
    var a: Line, b: Line := [T("  Net  "), T(name), T("   ")], [S(Cyan), T(DOWN_ARROW), S(Reset)];
    var c: Line, d: Line, e: Line := [T(" "), T(rx), T("    ")], [S(Yellow), T(UP_ARROW), S(Reset)], [T(" "), T(tx)];
    ThreeSegs(T("  Net  "), T(name), T("   "), color);
    Span(Cyan, DOWN_ARROW, color);
    ThreeSegs(T(" "), T(rx), T("    "), color);
    Span(Yellow, UP_ARROW, color);
    TwoSegs(T(" "), T(tx), color);
    LineBytesAppend(a, b, color);
    LineBytesAppend(a + b, c, color);
    LineBytesAppend(a + b + c, d, color);
    LineBytesAppend(a + b + c + d, e, color);
    assert NetLine(n) == a + b + c + d + e;
  }

  lemma FactsText(f: Facts, color: bool)
    ensures LineBytes(FactsLine(f), color)
         == (if f.loadValid
             then ("  Load  " + PadLeft(FixedText(f.load1, 2), 5) + "  " + PadLeft(FixedText(f.load5, 2), 5) + "  ")
                  + (PadLeft(FixedText(f.load15, 2), 5) + "     Processes  ")
             else "  Processes  ")
            + (PadRight(NatText(f.processCount), 5) + "     Up  " + UptimeText(f.uptimeSec))
  {
    hide LineBytes, PadLeft, PadRight, FixedText, NatText, UptimeText;
    var one, five := PadLeft(FixedText(f.load1, 2), 5), PadLeft(FixedText(f.load5, 2), 5);
    var fifteen := PadLeft(FixedText(f.load15, 2), 5);
    var count, up := PadRight(NatText(f.processCount), 5), UptimeText(f.uptimeSec);
    var a: Line, b: Line := [T("  Load  "), T(one), T("  "), T(five), T("  ")], [T(fifteen), T("     Processes  ")];
    var c: Line := [T(count), T("     Up  "), T(up)];
    FiveSegs(T("  Load  "), T(one), T("  "), T(five), T("  "), color);
    TwoSegs(T(fifteen), T("     Processes  "), color);
    OneSeg(T("  Processes  "), color);
    ThreeSegs(T(count), T("     Up  "), T(up), color);
    LineBytesAppend(a, b, color);
    LineBytesAppend(a + b, c, color);
    LineBytesAppend([T("  Processes  ")], c, color);
    assert FactsLine(f) == (if f.loadValid then a + b else [T("  Processes  ")]) + c;
  }

  lemma BatteryText(ascii: bool, f: Facts, color: bool)
    requires f.batteryPresent
    ensures |BatteryLines(ascii, f)| == 1
    ensures LineBytes(BatteryLines(ascii, f)[0], color)
         == "  Battery "
            + (if f.batteryPercent >= 0
               then BarBytes(ascii, f.batteryPercent as real, 12, color)
                    + ("  " + PadLeft(IntText(f.batteryPercent), 3) + "%")
               else Sgr(color, "2") + "  unknown %" + Sgr(color, "0"))
            + if f.batteryCharging then "  charging" else if f.batteryPlugged then "  on AC" else "  on battery"
  {
    hide LineBytes, Sgr, PadLeft, BarSegs, IntText;
    StyleText(color);
    var bar, pct := BarSegs(ascii, f.batteryPercent as real, 12), PadLeft(IntText(f.batteryPercent), 3);
    var end := if f.batteryCharging then "  charging" else if f.batteryPlugged then "  on AC" else "  on battery";
    var known: Line, unknown: Line := bar + [T("  "), T(pct), T("%")], [S(Dim), T("  unknown %"), S(Reset)];
    OneSeg(T("  Battery "), color);
    OneSeg(T(end), color);
    ThreeSegs(T("  "), T(pct), T("%"), color);
    LineBytesAppend(bar, [T("  "), T(pct), T("%")], color);
    Span(Dim, "  unknown %", color);
    var mid := if f.batteryPercent >= 0 then known else unknown;
    LineBytesAppend([T("  Battery ")], mid, color);
    LineBytesAppend([T("  Battery ")] + mid, [T(end)], color);
    assert BatteryLines(ascii, f)[0] == [T("  Battery ")] + mid + [T(end)];
  }

  lemma FooterText(intervalSec: real, clock: string, color: bool)
    ensures LineBytes(FooterLine(intervalSec, clock), color)
         == ("  " + (Sgr(color, "1") + "q" + Sgr(color, "0")) + " quit   ")
            + ((Sgr(color, "1") + "space" + Sgr(color, "0"))
               + (" pause   refresh " + Cut(FixedText(intervalSec, 1) + "s", 64) + "          " + clock))
  {
    hide LineBytes, Sgr, FixedText;
    var every := Cut(FixedText(intervalSec, 1) + "s", 64);
    var a: Line := [T("  "), S(Bold), T("q"), S(Reset), T(" quit   ")];
    var b: Line := [S(Bold), T("space"), S(Reset), T(" pause   refresh "), T(every), T("          "), T(clock)];
    QuitKey(color);
    SpaceKey(every, clock, color);
    LineBytesAppend(a, b, color);
    assert FooterLine(intervalSec, clock) == a + b;
  }

  lemma QuitKey(color: bool)
    ensures LineBytes([T("  "), S(Bold), T("q"), S(Reset), T(" quit   ")], color)
         == "  " + (Sgr(color, "1") + "q" + Sgr(color, "0")) + " quit   "
  {
    hide LineBytes, Sgr;
    StyleText(color);
    OneSeg(T("  "), color);
    Span(Bold, "q", color);
    OneSeg(T(" quit   "), color);
    LineBytesAppend([T("  ")], [S(Bold), T("q"), S(Reset)], color);
    LineBytesAppend([T("  ")] + [S(Bold), T("q"), S(Reset)], [T(" quit   ")], color);
    assert [T("  "), S(Bold), T("q"), S(Reset), T(" quit   ")]
        == [T("  ")] + [S(Bold), T("q"), S(Reset)] + [T(" quit   ")];
  }

  lemma SpaceKey(every: string, clock: string, color: bool)
    ensures LineBytes([S(Bold), T("space"), S(Reset), T(" pause   refresh "), T(every), T("          "), T(clock)],
                      color)
         == (Sgr(color, "1") + "space" + Sgr(color, "0")) + (" pause   refresh " + every + "          " + clock)
  {
    hide LineBytes, Sgr;
    StyleText(color);
    var a: Line := [S(Bold), T("space"), S(Reset)];
    var b: Line := [T(" pause   refresh "), T(every), T("          "), T(clock)];
    Span(Bold, "space", color);
    FourSegs(T(" pause   refresh "), T(every), T("          "), T(clock), color);
    LineBytesAppend(a, b, color);
    assert a + b == [S(Bold), T("space"), S(Reset), T(" pause   refresh "), T(every), T("          "), T(clock)];
  }
}

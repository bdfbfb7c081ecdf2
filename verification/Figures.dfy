/** Reading the figures back off the printed rows, with readers that know the layout but no number. */
module Figures {
  import opened Options
  import opened Decimal
  import opened Util
  import opened CpuDelta
  import opened Snapshots
  import opened Frame
  import opened Render
  import opened Samples
  import opened Rows

  // ---------------------------------------------------------------- readers

  /** The text without its leading blanks. */
  function Skip(s: string): (r: string)
    ensures |r| <= |s|
  {
    if s != "" && s[0] == ' ' then Skip(s[1..]) else s
  }

  function ReadSigned(s: string): Option<real> {
    if s != "" && s[0] == '-' then
      match ReadFixed(s[1..])
      case Some(x) => Some(-x)
      case None => None
    else ReadFixed(s)
  }

  /** Reader: a number that ends before `stop`, blanks before it skipped; gives the number and what follows. */
  function Figure(s: string, stop: char): (r: Option<(real, string)>)
    ensures r.Some? ==> |r.value.1| <= |s|
  {
    var t := Skip(s);
    var e := Find(t, stop);
    match ReadSigned(t[..e])
    case Some(x) => Some((x, t[e..]))
    case None => None
  }

  /** Reader: a text that starts with `head`. */
  function Past(s: string, head: string): Option<string> {
    if |head| <= |s| && s[..|head|] == head then Some(s[|head|..]) else None
  }

  /** Reader: what follows the bar a text starts with. */
  function PastBar(s: string): (r: Option<string>)
    ensures r.Some? ==> |r.value| < |s|
  {
    var e := Find(s, ']');
    if s != "" && s[0] == '[' && e < |s| then Some(s[e + 1..]) else None
  }

  /** Reader: used and total amounts. */
  function Pair(s: string): Option<(real, real, string)> {
    match Past(s, "  ")
    case None => None
    case Some(a) =>
      match Amount(a, false)
      case None => None
      case Some((used, b)) =>
        match Past(b, " / ")
        case None => None
        case Some(c) =>
          match Amount(c, false)
          case None => None
          case Some((total, d)) => Some((used, total, d))
  }

  // ---------------------------------------------------------------- numbers

  predicate Numeric(s: string) {
    s != "" && forall i :: 0 <= i < |s| ==> s[i] == '-' || s[i] == '.' || IsDigit(s[i])
  }

  lemma FixedChars(x: real, d: Places)
    ensures Numeric(FixedText(x, d))
  {
    hide NatText, FracText, Scaled;
  }

  lemma DigitsFirst(m: nat, d: Places)
    ensures UnsignedFixed(m, d) != "" && UnsignedFixed(m, d)[0] != '-'
  {
  }

  /** Either sign reads back within half a unit of the last place, and whole numbers exactly. */
  lemma SignedReads(x: real, d: Places)
    ensures var r := ReadSigned(FixedText(x, d));
      r.Some? && Abs(r.value - x) <= 0.5 / Unit(d) as real && (x == x.Floor as real ==> r.value == x)
  {
    hide ReadFixed, UnsignedFixed, Scaled;
    if x == x.Floor as real {
      ShownExact(if x < 0.0 then -x.Floor else x.Floor, d);
    }
    var m := Scaled(Abs(x), d);
    UnsignedRoundTrip(m, d);
    DigitsFirst(m, d);
    ShownNear(Abs(x), d);
    assert FixedText(x, d) == if x < 0.0 then "-" + UnsignedFixed(m, d) else UnsignedFixed(m, d);
    assert x < 0.0 ==> FixedText(x, d)[1..] == UnsignedFixed(m, d);
  }

  lemma {:induction false} SkipSpaces(n: nat, s: string)
    requires s == "" || s[0] != ' '
    ensures Skip(Spaces(n) + s) == s
  {
    if n == 0 {
      assert Spaces(0) + s == s;
    } else {
      SkipSpaces(n - 1, s);
      assert (Spaces(n) + s)[1..] == Spaces(n - 1) + s;
    }
  }

  lemma SkipPadded(s: string, w: nat, tail: string)
    requires s != "" && s[0] != ' '
    ensures Skip(PadLeft(s, w) + tail) == s + tail
  {
    var n := if |s| < w then w - |s| else 0;
    assert PadLeft(s, w) == Spaces(n) + s;
    assert PadLeft(s, w) + tail == Spaces(n) + (s + tail);
    SkipSpaces(n, s + tail);
  }

  lemma FindTail(word: string, stop: char, tail: string)
    requires Free(word, stop) && (tail == "" || tail[0] == stop)
    ensures Find(word + tail, stop) == |word| && (word + tail)[..|word|] == word && (word + tail)[|word|..] == tail
  {
    var s := word + tail;
    assert forall k :: 0 <= k < |word| ==> s[k] == word[k];
    assert tail != "" ==> s[|word|] == stop;
  }

  /** A padded number reads back whatever follows it, as long as that is nothing or starts with the stop. */
  lemma FigureReads(x: real, d: Places, w: nat, stop: char, tail: string)
    requires stop in " %s" && (tail == "" || tail[0] == stop)
    ensures var r := Figure(PadLeft(FixedText(x, d), w) + tail, stop);
      r.Some? && r.value.1 == tail && Abs(r.value.0 - x) <= 0.5 / Unit(d) as real
      && (x == x.Floor as real ==> r.value.0 == x)
  {
    hide FixedText, ReadSigned, PadLeft, Skip;
    var number := FixedText(x, d);
    FixedChars(x, d);
    SkipPadded(number, w, tail);
    FindTail(number, stop, tail);
    SignedReads(x, d);
  }

  lemma IntIsFixed(n: int)
    ensures IntText(n) == FixedText(n as real, 0)
  {
    ShownExact(if n < 0 then -n else n, 0);
    assert Abs(n as real) == (if n < 0 then -n else n) as real;
  }

  lemma HeadIs(head: string, rest: string)
    ensures Past(head + rest, head) == Some(rest)
  {
    assert (head + rest)[..|head|] == head && (head + rest)[|head|..] == rest;
  }

  // ---------------------------------------------------------------- bars

  lemma {:induction false} TimesFree(s: string, n: nat, c: char)
    requires Free(s, c)
    ensures Free(Times(s, n), c)
  {
    if n > 0 {
      TimesFree(s, n - 1, c);
    }
  }

  lemma BarEnds(ascii: bool, pct: real, width: int, tail: string)
    ensures PastBar(BarBytes(ascii, pct, width, false) + tail) == Some(tail)
    ensures BarBytes(ascii, pct, width, false) != "" && BarBytes(ascii, pct, width, false)[0] == '['
  {
    hide LineBytes, BarSegs, Filled, Times;
    BarText(ascii, pct, width);
    var w := if width < 4 then 4 else width;
    var f := Filled(pct, w);
    var on, off := if ascii then "#" else "\U{E2}\U{96}\U{88}", if ascii then "." else "\U{E2}\U{96}\U{91}";
    TimesFree(on, f, ']');
    TimesFree(off, w - f, ']');
    var body := "[" + Times(on, f) + Times(off, w - f);
    assert Free(body, ']');
    assert BarBytes(ascii, pct, width, false) == body + [']'];
    FindAfter(body, ']', tail);
    assert BarBytes(ascii, pct, width, false) + tail == body + [']'] + tail;
  }

  lemma PairReads(used: u64, total: u64, tail: string)
    requires tail == "" || tail[0] == ' '
    ensures var r := Pair(("  " + BytesText(used) + " / " + BytesText(total)) + tail);
      r.Some? && Near(r.value.0, used as real) && Near(r.value.1, total as real) && r.value.2 == tail
  {
    hide BytesText, Amount, Near;
    var c := BytesText(total) + tail;
    var b := " / " + c;
    var a := BytesText(used) + b;
    assert ("  " + BytesText(used) + " / " + BytesText(total)) + tail == "  " + a;
    HeadIs("  ", a);
    BytesRead(used, b);
    HeadIs(" / ", c);
    BytesRead(total, tail);
  }

  // ---------------------------------------------------------------- memory and swap

  /** Reader of a meter row: used, total and percentage behind the bar. */
  function MeterFigures(row: string, title: string): Option<(real, real, real)> {
    match Past(row, title)
    case None => None
    case Some(s) =>
      match PastBar(s)
      case None => None
      case Some(t) =>
        match Pair(t)
        case None => None
        case Some((used, total, u)) =>
          match Past(u, "  (")
          case None => None
          case Some(v) =>
            match Figure(v, '%')
            case None => None
            case Some((pct, end)) => if end == "%)" then Some((used, total, pct)) else None
  }

  /** The row tells both amounts, used first, and the percentage. */
  predicate MeterReads(row: string, title: string, used: u64, total: u64) {
    var r := MeterFigures(row, title);
    r.Some? && Near(r.value.0, used as real) && Near(r.value.1, total as real)
    && (total > 0 && used <= total ==> Abs(r.value.2 - 100.0 * used as real / total as real) <= 0.05)
    && (total == 0 ==> r.value.2 <= 0.05)
    && (used > total > 0 ==> r.value.2 >= 99.95)
  }

  lemma SharePct(used: u64, total: u64)
    ensures total > 0 && used <= total ==> UsedPct(used, total) == 100.0 * used as real / total as real
    ensures used > total > 0 ==> UsedPct(used, total) == 100.0
    ensures total == 0 ==> UsedPct(used, total) == 0.0
  {
    if total > 0 {
      PercentOfPart(used, total);
    }
  }

  lemma MeterRowReads(title: string, ascii: bool, cols: int, used: u64, total: u64)
    ensures MeterReads(LineBytes(MeterLine(title, ascii, cols, used, total), false), title, used, total)
  {
    hide LineBytes, MeterLine, BarBytes, FixedText, PadLeft, BytesText, Pair, Figure, Past, PastBar, UsedPct, Near;
    MeterText(title, ascii, cols, used, total, false);
    var pct := UsedPct(used, total);
    var bar := BarBytes(ascii, pct, if cols < 52 then 16 else if cols < 84 then cols - 36 else 48, false);
    var v := PadLeft(FixedText(pct, 1), 4) + "%)";
    var u := "  (" + v;
    var t := ("  " + BytesText(used) + " / " + BytesText(total)) + u;
    assert u == "  (" + PadLeft(FixedText(pct, 1), 4) + "%)";
    assert title + bar + t == title + (bar + t);
    HeadIs(title, bar + t);
    BarEnds(ascii, pct, if cols < 52 then 16 else if cols < 84 then cols - 36 else 48, t);
    PairReads(used, total, u);
    HeadIs("  (", v);
    FigureReads(pct, 1, 4, '%', "%)");
    SharePct(used, total);
  }

  // ---------------------------------------------------------------- disks

  /** Reader of a disk row whose bar starts at `at`: used, total and type. */
  function DiskFigures(row: string, at: nat): Option<(real, real, string)> {
    if at > |row| then None
    else
      match PastBar(row[at..])
      case None => None
      case Some(t) =>
        match Pair(t)
        case None => None
        case Some((used, total, u)) =>
          match Past(u, "  ")
          case None => None
          case Some(fstype) => Some((used, total, fstype))
  }

  /** The row names the mount, cut to 27 bytes and padded to 18, and tells used before total and then the type. */
  predicate DiskReads(row: string, d: DiskSample) {
    var name := PadRight(Cut(d.mount, 28), 18);
    var r := DiskFigures(row, 8 + |name|);
    Past(row, "  Disk " + name).Some?
    && r.Some? && Near(r.value.0, d.usedBytes as real) && Near(r.value.1, d.totalBytes as real) && r.value.2 == d.fstype
  }

  lemma DiskRowReads(ascii: bool, cols: int, d: DiskSample)
    ensures DiskReads(LineBytes(DiskLine(ascii, cols, d), false), d)
  {
    hide LineBytes, DiskLine, BarBytes, PadRight, Cut, BytesText, Pair, PastBar, UsedPct, Near;
    DiskText(ascii, cols, d, false);
    var name := PadRight(Cut(d.mount, 28), 18);
    var pct := UsedPct(d.usedBytes, d.totalBytes);
    var width := if cols < 56 then 10 else if cols < 84 then cols - 46 else 38;
    var u := "  " + d.fstype;
    var t := ("  " + BytesText(d.usedBytes) + " / " + BytesText(d.totalBytes)) + u;
    var head := "  Disk " + name + " ";
    DiskTail("  " + BytesText(d.usedBytes) + " / " + BytesText(d.totalBytes), d.fstype);
    var row := LineBytes(DiskLine(ascii, cols, d), false);
    assert row == head + BarBytes(ascii, pct, width, false) + t;
    assert row[8 + |name|..] == BarBytes(ascii, pct, width, false) + t;
    assert row[..7 + |name|] == "  Disk " + name;
    BarEnds(ascii, pct, width, t);
    PairReads(d.usedBytes, d.totalBytes, u);
    HeadIs("  ", d.fstype);
  }

  lemma DiskTail(amounts: string, fstype: string)
    ensures (amounts + "  ") + ("" + fstype + "") == amounts + ("  " + fstype)
  {
  }

  // ---------------------------------------------------------------- interfaces

  /** Position of the last `c`, or the length. */
  function FindLast(s: string, c: char): (i: nat)
    ensures i <= |s|
    ensures i < |s| ==> s[i] == c
  {
    if s == "" then 0
    else if s[|s| - 1] == c then |s| - 1
    else
      var i := FindLast(s[..|s| - 1], c);
      if i == |s| - 1 then |s| else i
  }

  lemma {:induction false} LastIs(a: string, c: char, b: string)
    requires Free(b, c)
    ensures FindLast(a + [c] + b, c) == |a|
  {
    var s := a + [c] + b;
    if b != "" {
      LastIs(a, c, b[..|b| - 1]);
      assert s[..|s| - 1] == a + [c] + b[..|b| - 1];
      assert s[|s| - 1] == b[|b| - 1];
    }
  }

  /** Reader of an interface row: what stands behind the down arrow and behind the up arrow. */
  function NetFigures(row: string): Option<(real, real)> {
    var u := FindLast(row, '\U{E2}');
    var d := FindLast(row[..u], '\U{E2}');
    match (Past(row[u..], "\U{E2}\U{86}\U{91} "), Past(row[d..u], "\U{E2}\U{86}\U{93} "))
    case (Some(up), Some(down)) =>
      var tx, rx := ReadAmount(up, true), Amount(down, true);
      if tx.Some? && rx.Some? && Skip(rx.value.1) == "" then Some((rx.value.0, tx.value)) else None
    case _ => None
  }

  /** The row starts with the name and tells the received rate behind the down arrow and the sent rate behind the up
      arrow, whenever both fit their 64-byte buffers. */
  predicate NetReads(row: string, n: NetSample) {
    Past(row, "  Net  " + n.name).Some?
    && (|RateText(n.rxBps)| < 64 && |RateText(n.txBps)| < 64 ==>
          var r := NetFigures(row);
          r.Some? && Near(r.value.0, NonNegative(n.rxBps)) && Near(r.value.1, NonNegative(n.txBps)))
  }

  lemma RateGlyphs(bps: real)
    ensures Free(RateText(bps), '\U{E2}') && RateText(bps) != ""
  {
    hide UnitOf, Precision, FixedText;
    var v := NonNegative(bps);
    var u := UnitOf(v, 4);
    FixedChars(Down(v, u), Precision(u, Down(v, u)));
    RateUnitFree(u);
    assert RateText(bps) == FixedText(Down(v, u), Precision(u, Down(v, u))) + " " + RATE_UNITS[u];
  }

  lemma RateUnitFree(u: nat)
    ensures u < 5 ==> Free(RATE_UNITS[u], '\U{E2}')
  {
  }

  lemma Padding(s: string, w: nat)
    ensures PadRight(s, w) == s + Spaces(if |s| < w then w - |s| else 0)
  {
  }

  lemma BlankTail(n: nat, m: nat)
    ensures Skip(Spaces(n) + Spaces(m)) == "" && Free(Spaces(n) + Spaces(m), '\U{E2}')
  {
    SkipSpaces(n + m, "");
    assert Spaces(n) + Spaces(m) == Spaces(n + m) + "";
  }

  /** The two arrows are found from the right. */
  lemma ArrowsFound(head: string, rx: string, tx: string)
    requires Free(rx, '\U{E2}') && Free(tx, '\U{E2}')
    ensures var row := head + ("\U{E2}\U{86}\U{93} " + rx) + ("\U{E2}\U{86}\U{91} " + tx);
      var u := |head| + 4 + |rx|;
      FindLast(row, '\U{E2}') == u && FindLast(row[..u], '\U{E2}') == |head|
      && row[u..] == "\U{E2}\U{86}\U{91} " + tx && row[|head|..u] == "\U{E2}\U{86}\U{93} " + rx
  {
    var down := "\U{86}\U{93} " + rx;
    var up := "\U{86}\U{91} " + tx;
    var front := head + ("\U{E2}\U{86}\U{93} " + rx);
    var row := front + ("\U{E2}\U{86}\U{91} " + tx);
    assert row == front + ['\U{E2}'] + up;
    assert front == head + ['\U{E2}'] + down;
    LastIs(front, '\U{E2}', up);
    LastIs(head, '\U{E2}', down);
    assert row[..|front|] == front;
  }

  lemma NetFiguresAre(head: string, rxBps: real, pad: string, txBps: real)
    requires Free(pad, '\U{E2}') && Skip(pad) == "" && (pad == "" || pad[0] == ' ')
    ensures var r := NetFigures(head + ("\U{E2}\U{86}\U{93} " + (RateText(rxBps) + pad))
                                + ("\U{E2}\U{86}\U{91} " + RateText(txBps)));
      r.Some? && Near(r.value.0, NonNegative(rxBps)) && Near(r.value.1, NonNegative(txBps))
  {
    hide RateText, Amount, Near, FindLast, Past, Skip;
    RateGlyphs(rxBps);
    RateGlyphs(txBps);
    ArrowsFound(head, RateText(rxBps) + pad, RateText(txBps));
    HeadIs("\U{E2}\U{86}\U{91} ", RateText(txBps));
    HeadIs("\U{E2}\U{86}\U{93} ", RateText(rxBps) + pad);
    RateRead(rxBps, pad);
    assert RateText(txBps) + "" == RateText(txBps);
    RateRead(txBps, "");
  }

  lemma NetRowReads(n: NetSample)
    ensures NetReads(LineBytes(NetLine(n), false), n)
  {
    hide LineBytes, NetLine, RateText, NetFigures, Near, PadRight;
    NetText(n, false);
    Padding(n.name, 8);
    var rx, tx := Cut(RateText(n.rxBps), 64), Cut(RateText(n.txBps), 64);
    var room := if |rx| < 10 then 10 - |rx| else 0;
    Padding(rx, 10);
    BlankTail(room, 4);
    NetParts(n.name, Spaces(if |n.name| < 8 then 8 - |n.name| else 0), rx, Spaces(room), tx);
    NetFiguresAre("  Net  " + (n.name + Spaces(if |n.name| < 8 then 8 - |n.name| else 0)) + "   ",
                  n.rxBps, Spaces(room) + Spaces(4), n.txBps);
  }

  lemma NetParts(name: string, gap: string, rx: string, pad: string, tx: string)
    ensures ("  Net  " + (name + gap) + "   ") + ("" + "\U{E2}\U{86}\U{93}" + "") + (" " + (rx + pad) + "    ")
            + ("" + "\U{E2}\U{86}\U{91}" + "") + (" " + tx)
         == ("  Net  " + (name + gap) + "   ") + ("\U{E2}\U{86}\U{93} " + (rx + (pad + Spaces(4))))
            + ("\U{E2}\U{86}\U{91} " + tx)
    ensures Past(("  Net  " + (name + gap) + "   ") + ("" + "\U{E2}\U{86}\U{93}" + "") + (" " + (rx + pad) + "    ")
                 + ("" + "\U{E2}\U{86}\U{91}" + "") + (" " + tx), "  Net  " + name).Some?
  {
    assert Spaces(4) == "    ";
    var down, up := "\U{E2}\U{86}\U{93}", "\U{E2}\U{86}\U{91}";
    assert "" + down + "" == down && "" + up + "" == up;
    assert down + " " == "\U{E2}\U{86}\U{93} " && up + " " == "\U{E2}\U{86}\U{91} ";
    var row := ("  Net  " + (name + gap) + "   ") + ("" + down + "") + (" " + (rx + pad) + "    ") + ("" + up + "")
               + (" " + tx);
    assert row[..7 + |name|] == "  Net  " + name;
  }

  // ---------------------------------------------------------------- headline and core strip

  /** Reader of the headline row; None while it shows no percentage. */
  function CpuFigure(row: string): Option<real> {
    match Past(row, "  CPU     ")
    case None => None
    case Some(s) =>
      match PastBar(s)
      case None => None
      case Some(t) =>
        match Figure(t, '%')
        case Some((pct, end)) => if end == "%" then Some(pct) else None
        case None => None
  }

  predicate CpuReads(row: string, primed: bool, cpuTotal: real) {
    if primed && cpuTotal >= 0.0 then CpuFigure(row).Some? && Abs(CpuFigure(row).value - cpuTotal) <= 0.05
    else row == "  CPU     (warming up \U{E2}\U{80}\U{94} rates need two samples)" && CpuFigure(row) == None
  }

  lemma {:induction false} SkipBlank(n: nat, s: string)
    ensures Skip(Spaces(n) + s) == Skip(s)
  {
    if n == 0 {
      assert Spaces(0) + s == s;
    } else {
      SkipBlank(n - 1, s);
      assert (Spaces(n) + s)[1..] == Spaces(n - 1) + s;
    }
  }

  lemma FigureGap(n: nat, s: string, stop: char)
    ensures Figure(Spaces(n) + s, stop) == Figure(s, stop)
  {
    hide Skip, ReadSigned;
    SkipBlank(n, s);
  }

  lemma TwoBlanks(s: string)
    ensures "  " + s == Spaces(2) + s
  {
    assert "  " == Spaces(2);
  }

  lemma CpuRowReads(ascii: bool, cols: int, primed: bool, cpuTotal: real)
    ensures CpuReads(LineBytes(CpuLine(ascii, cols, primed, cpuTotal), false), primed, cpuTotal)
  {
    hide LineBytes, CpuLine, BarBytes, FixedText, PadLeft, Figure, PastBar, Past;
    CpuText(ascii, cols, primed, cpuTotal, false);
    if primed && cpuTotal >= 0.0 {
      var t := PadLeft(FixedText(cpuTotal, 1), 5) + "%";
      assert "  " + PadLeft(FixedText(cpuTotal, 1), 5) + "%" == "  " + t;
      var width := if cols < 52 then 16 else if cols < 84 then cols - 36 else 48;
      BarEnds(ascii, cpuTotal, width, "  " + t);
      HeadIs("  CPU     ", BarBytes(ascii, cpuTotal, width, false) + ("  " + t));
      TwoBlanks(t);
      FigureGap(2, t, '%');
      FigureReads(cpuTotal, 1, 5, '%', "%");
    } else {
      WarmingReads();
    }
  }

  lemma WarmingReads()
    ensures "  CPU     " + ("" + "(warming up \U{E2}\U{80}\U{94} rates need two samples)" + "")
         == "  CPU     (warming up \U{E2}\U{80}\U{94} rates need two samples)"
    ensures CpuFigure("  CPU     (warming up \U{E2}\U{80}\U{94} rates need two samples)") == None
  {
    hide PastBar, Past;
    HeadIs("  CPU     ", "(warming up \U{E2}\U{80}\U{94} rates need two samples)");
    NoBar("(warming up \U{E2}\U{80}\U{94} rates need two samples)");
    Bare("(warming up \U{E2}\U{80}\U{94} rates need two samples)");
    WarmingIs();
  }

  lemma Bare(s: string)
    ensures "" + s + "" == s
  {
  }

  lemma WarmingIs()
    ensures "  CPU     (warming up \U{E2}\U{80}\U{94} rates need two samples)"
         == "  CPU     " + "(warming up \U{E2}\U{80}\U{94} rates need two samples)"
  {
  }

  /** Reader of a row of the core strip: names and percentages, bars passed over. */
  function ReadCells(s: string): Option<seq<(string, real)>>
    decreases |s|
  {
    var t := Skip(s);
    var e := Find(t, ' ');
    if e == |t| then None
    else
      match PastBar(t[e + 1..])
      case None => None
      case Some(u) =>
        match Figure(u, '%')
        case None => None
        case Some((pct, v)) =>
          if v == "" then None
          else if v == "%" then Some([(t[..e], pct)])
          else
            match ReadCells(v[1..])
            case None => None
            case Some(more) => Some([(t[..e], pct)] + more)
  }

  /** A name that can be told from the bar behind it. */
  predicate Word(s: string) {
    s != "" && Free(s, ' ')
  }

  /** The row tells these processors, in order. */
  predicate CellsRead(row: string, cs: seq<CoreSample>) {
    (forall i :: 0 <= i < |cs| ==> Word(cs[i].name)) ==>
      var r := ReadCells(row);
      && r.Some? && |r.value| == |cs|
      && forall i :: 0 <= i < |cs| ==> r.value[i].0 == cs[i].name && Abs(r.value[i].1 - cs[i].usage) <= 0.5
  }

  lemma OneCell(ascii: bool, c: CoreSample, rest: string)
    requires Word(c.name)
    ensures var s := LineBytes(CoreCell(ascii, c), false) + rest;
      var t := Skip(s); var e := Find(t, ' ');
      e < |t| && t[..e] == c.name && PastBar(t[e + 1..]).Some?
      && var r := Figure(PastBar(t[e + 1..]).value, '%');
         r.Some? && r.value.1 == "%" + rest && Abs(r.value.0 - c.usage) <= 0.5
  {
    hide LineBytes, CoreCell, BarBytes, FixedText, PadLeft, Figure, PastBar, Skip;
    CellText(ascii, c, false);
    var bar, pct := BarBytes(ascii, c.usage, 8, false), PadLeft(FixedText(c.usage, 0), 4);
    var v := "%" + rest;
    var u := Spaces(1) + (pct + v);
    CellParts(PadLeft(c.name, 2), bar, pct, rest);
    SkipPadded(c.name, 2, [' '] + (bar + u));
    assert c.name + [' '] + (bar + u) == c.name + ([' '] + (bar + u));
    FindAfter(c.name, ' ', bar + u);
    BarEnds(ascii, c.usage, 8, u);
    FigureGap(1, pct + v, '%');
    FigureReads(c.usage, 0, 4, '%', v);
  }

  lemma CellParts(name: string, bar: string, pct: string, rest: string)
    ensures (name + " ") + bar + (" " + pct + "%") + rest == name + ([' '] + (bar + (Spaces(1) + (pct + ("%" + rest)))))
  {
    assert Spaces(1) == " ";
  }

  /** Cells in a row without the leading blanks. */
  function Row(ascii: bool, cs: seq<CoreSample>): Line
    requires cs != []
  {
    GappedCells(ascii, cs[..|cs| - 1]) + CoreCell(ascii, cs[|cs| - 1])
  }

  lemma {:induction false} GappedCons(ascii: bool, cs: seq<CoreSample>)
    requires cs != []
    ensures GappedCells(ascii, cs) == CoreCell(ascii, cs[0]) + [T("   ")] + GappedCells(ascii, cs[1..])
  {
    hide CoreCell;
    if |cs| == 1 {
      assert GappedCells(ascii, cs[..0]) == [] == GappedCells(ascii, cs[1..]);
    } else {
      var front, rest, last := cs[..|cs| - 1], cs[1..], CoreCell(ascii, cs[|cs| - 1]);
      GappedCons(ascii, front);
      assert front[1..] == rest[..|rest| - 1];
      JoinCells(CoreCell(ascii, cs[0]) + [T("   ")], GappedCells(ascii, front[1..]), last, [T("   ")]);
    }
  }

  lemma JoinCells(a: Line, b: Line, c: Line, d: Line)
    ensures (a + b) + c + d == a + (b + c + d)
  {
  }

  lemma RowCons(ascii: bool, cs: seq<CoreSample>)
    requires |cs| > 1
    ensures Row(ascii, cs) == CoreCell(ascii, cs[0]) + [T("   ")] + Row(ascii, cs[1..])
  {
    hide CoreCell, GappedCells;
    GappedCons(ascii, cs[..|cs| - 1]);
    assert cs[..|cs| - 1][1..] == cs[1..][..|cs| - 2];
  }

  lemma {:induction false} RowReads(ascii: bool, cs: seq<CoreSample>)
    requires cs != [] && forall i :: 0 <= i < |cs| ==> Word(cs[i].name)
    ensures CellsRead(LineBytes(Row(ascii, cs), false), cs)
  {
    hide LineBytes, CoreCell, Figure, PastBar, Skip, Word, Row, ReadCells;
    var cell := LineBytes(CoreCell(ascii, cs[0]), false);
    if |cs| == 1 {
      LastRow(ascii, cs);
      assert cell + "" == cell;
      OneCell(ascii, cs[0], "");
      LastCell(cell);
    } else {
      RowCons(ascii, cs);
      var rest := LineBytes(Row(ascii, cs[1..]), false);
      RowReads(ascii, cs[1..]);
      OneSeg(T("   "), false);
      LineBytesAppend(CoreCell(ascii, cs[0]), [T("   ")], false);
      LineBytesAppend(CoreCell(ascii, cs[0]) + [T("   ")], Row(ascii, cs[1..]), false);
      assert cell + "   " + rest == cell + ("   " + rest);
      OneCell(ascii, cs[0], "   " + rest);
      NextCells(cell, rest);
    }
  }

  lemma LastRow(ascii: bool, cs: seq<CoreSample>)
    requires |cs| == 1
    ensures Row(ascii, cs) == CoreCell(ascii, cs[0])
  {
    hide CoreCell;
    assert GappedCells(ascii, cs[..0]) == [];
  }

  lemma LastCell(s: string)
    requires var t := Skip(s); var e := Find(t, ' ');
      e < |t| && PastBar(t[e + 1..]).Some? && Figure(PastBar(t[e + 1..]).value, '%').Some?
      && Figure(PastBar(t[e + 1..]).value, '%').value.1 == "%"
    ensures var t := Skip(s); var e := Find(t, ' ');
      ReadCells(s) == Some([(t[..e], Figure(PastBar(t[e + 1..]).value, '%').value.0)])
  {
    hide Skip, PastBar, Figure;
  }

  lemma NextCells(cell: string, rest: string)
    requires var s := cell + ("   " + rest); var t := Skip(s); var e := Find(t, ' ');
      e < |t| && PastBar(t[e + 1..]).Some? && Figure(PastBar(t[e + 1..]).value, '%').Some?
      && Figure(PastBar(t[e + 1..]).value, '%').value.1 == "%" + ("   " + rest)
    requires ReadCells(rest).Some?
    ensures var s := cell + ("   " + rest); var t := Skip(s); var e := Find(t, ' ');
      ReadCells(s) == Some([(t[..e], Figure(PastBar(t[e + 1..]).value, '%').value.0)] + ReadCells(rest).value)
  {
    hide Skip, PastBar, Figure;
    BlanksFirst(3, rest);
    assert Spaces(3) == "   ";
    assert ("%" + ("   " + rest))[1..] == "   " + rest;
  }

  lemma BlanksFirst(n: nat, s: string)
    ensures ReadCells(Spaces(n) + s) == ReadCells(s)
  {
    hide Skip, PastBar, Figure;
    SkipBlank(n, s);
  }

  lemma CoreRowReads(ascii: bool, cs: seq<CoreSample>)
    requires cs != []
    ensures CellsRead(LineBytes(CoreRow(ascii, cs), false), cs)
  {
    hide LineBytes, CoreCell, ReadCells, Word;
    if forall i :: 0 <= i < |cs| ==> Word(cs[i].name) {
      RowReads(ascii, cs);
      OneSeg(T("  "), false);
      LineBytesAppend([T("  ")], Row(ascii, cs), false);
      assert CoreRow(ascii, cs) == [T("  ")] + Row(ascii, cs);
      var s := LineBytes(Row(ascii, cs), false);
      TwoBlanks(s);
      BlanksFirst(2, s);
    }
  }

  // ---------------------------------------------------------------- facts

  /** Reader of what both forms of the row end with: processes and uptime in seconds. */
  function CountAndUp(s: string): Option<(real, nat)> {
    match Figure(s, ' ')
    case None => None
    case Some((count, rest)) =>
      match Past(Skip(rest), "Up  ")
      case None => None
      case Some(up) =>
        match ReadUptime(up)
        case None => None
        case Some(seconds) => Some((count, seconds))
  }

  /** Reader of the three loads in a row and what follows the last. */
  function Loads(s: string): Option<(real, real, real, string)> {
    match Figure(s, ' ')
    case None => None
    case Some((one, a)) =>
      match Figure(a, ' ')
      case None => None
      case Some((five, b)) =>
        match Figure(b, ' ')
        case None => None
        case Some((fifteen, c)) => Some((one, five, fifteen, c))
  }

  predicate TailReads(s: string, f: Facts) {
    CountAndUp(s)
    == Some((f.processCount as real, if f.uptimeSec < 3600 then f.uptimeSec else f.uptimeSec - f.uptimeSec % 60))
  }

  /** The row tells the loads of one, five and fifteen minutes in this order when they are valid, and then the number of
      processes and the uptime. */
  predicate FactsRead(row: string, f: Facts) {
    if f.loadValid then
      Past(row, "  Load  ").Some?
      && var r := Loads(Past(row, "  Load  ").value);
         && r.Some?
         && Abs(r.value.0 - f.load1) <= 0.005 && Abs(r.value.1 - f.load5) <= 0.005 && Abs(r.value.2 - f.load15) <= 0.005
         && Past(r.value.3, "     Processes  ").Some? && TailReads(Past(r.value.3, "     Processes  ").value, f)
    else Past(row, "  Processes  ").Some? && TailReads(Past(row, "  Processes  ").value, f)
  }

  lemma CountReads(f: Facts)
    ensures TailReads(PadRight(NatText(f.processCount), 5) + "     Up  " + UptimeText(f.uptimeSec), f)
  {
    hide NatText, FixedText, UptimeText, Figure, Skip, ReadUptime, PadRight;
    var count, up := NatText(f.processCount), UptimeText(f.uptimeSec);
    var n := if |count| < 5 then 5 - |count| else 0;
    Padding(count, 5);
    IntIsFixed(f.processCount);
    assert IntText(f.processCount) == count;
    var tail := Spaces(n + 5) + ("Up  " + up);
    CountParts(count, n, up);
    assert PadLeft(count, 0) == count;
    FigureReads(f.processCount as real, 0, 0, ' ', tail);
    SkipSpaces(n + 5, "Up  " + up);
    HeadIs("Up  ", up);
    UptimeRoundTrip(f.uptimeSec);
  }

  lemma CountParts(count: string, n: nat, up: string)
    ensures (count + Spaces(n)) + "     Up  " + up == count + (Spaces(n + 5) + ("Up  " + up))
  {
    assert "     Up  " == Spaces(5) + "Up  ";
    assert Spaces(n) + Spaces(5) == Spaces(n + 5);
  }

  lemma LoadsRead3(l1: real, l5: real, l15: real, tail: string)
    requires tail != "" && tail[0] == ' '
    ensures var r := Loads(PadLeft(FixedText(l1, 2), 5) + ("  " + (PadLeft(FixedText(l5, 2), 5)
                           + ("  " + (PadLeft(FixedText(l15, 2), 5) + tail)))));
      && r.Some? && Abs(r.value.0 - l1) <= 0.005 && Abs(r.value.1 - l5) <= 0.005 && Abs(r.value.2 - l15) <= 0.005
      && r.value.3 == tail
  {
    hide FixedText, PadLeft, Figure;
    var c := PadLeft(FixedText(l15, 2), 5) + tail;
    var b := PadLeft(FixedText(l5, 2), 5) + ("  " + c);
    FigureReads(l1, 2, 5, ' ', "  " + b);
    TwoBlanks(b);
    FigureGap(2, b, ' ');
    FigureReads(l5, 2, 5, ' ', "  " + c);
    TwoBlanks(c);
    FigureGap(2, c, ' ');
    FigureReads(l15, 2, 5, ' ', tail);
  }

  lemma FactsRowReads(f: Facts)
    ensures FactsRead(LineBytes(FactsLine(f), false), f)
  {
    hide LineBytes, FactsLine, PadLeft, PadRight, FixedText, NatText, UptimeText, Loads, Past, TailReads;
    FactsText(f, false);
    CountReads(f);
    var tail := PadRight(NatText(f.processCount), 5) + "     Up  " + UptimeText(f.uptimeSec);
    if f.loadValid {
      var one, five, fifteen := PadLeft(FixedText(f.load1, 2), 5), PadLeft(FixedText(f.load5, 2), 5),
                                PadLeft(FixedText(f.load15, 2), 5);
      var c := "     Processes  " + tail;
      LoadParts(one, five, fifteen, tail);
      LoadsRead3(f.load1, f.load5, f.load15, c);
      HeadIs("  Load  ", one + ("  " + (five + ("  " + (fifteen + c)))));
      HeadIs("     Processes  ", tail);
    } else {
      HeadIs("  Processes  ", tail);
    }
  }

  lemma LoadParts(one: string, five: string, fifteen: string, tail: string)
    ensures ("  Load  " + one + "  " + five + "  ") + (fifteen + "     Processes  ") + tail
         == "  Load  " + (one + ("  " + (five + ("  " + (fifteen + ("     Processes  " + tail))))))
  {
  }

  // ---------------------------------------------------------------- battery

  /** Reader of the battery row: the percentage if known, and the text behind it. */
  function BatteryFigures(row: string): Option<(Option<real>, string)> {
    match Past(row, "  Battery ")
    case None => None
    case Some(s) =>
      match PastBar(s)
      case Some(t) =>
        (match Figure(t, '%')
         case None => None
         case Some((pct, end)) => if end == "" then None else Some((Some(pct), end[1..])))
      case None =>
        match Past(s, "  unknown %")
        case None => None
        case Some(end) => Some((None, end))
  }

  predicate BatteryReads(row: string, f: Facts) {
    BatteryFigures(row) == Some((
      if f.batteryPercent >= 0 then Some(f.batteryPercent as real) else None,
      if f.batteryCharging then "  charging" else if f.batteryPlugged then "  on AC" else "  on battery"))
  }

  lemma BatteryRowReads(ascii: bool, f: Facts)
    requires f.batteryPresent
    ensures |BatteryLines(ascii, f)| == 1 && BatteryReads(LineBytes(BatteryLines(ascii, f)[0], false), f)
  {
    hide LineBytes, BatteryLines, BarBytes, FixedText, PadLeft, IntText, Figure, PastBar, Past;
    BatteryText(ascii, f, false);
    var end := if f.batteryCharging then "  charging" else if f.batteryPlugged then "  on AC" else "  on battery";
    if f.batteryPercent >= 0 {
      var pct := f.batteryPercent as real;
      var bar, number := BarBytes(ascii, pct, 12, false), PadLeft(IntText(f.batteryPercent), 3);
      var v := "%" + end;
      BatteryParts(bar, number, end);
      HeadIs("  Battery ", bar + ("  " + (number + v)));
      BarEnds(ascii, pct, 12, "  " + (number + v));
      TwoBlanks(number + v);
      FigureGap(2, number + v, '%');
      IntIsFixed(f.batteryPercent);
      FigureReads(pct, 0, 3, '%', v);
      assert v[1..] == end;
    } else {
      UnknownParts(end);
      HeadIs("  Battery ", "  unknown %" + end);
      HeadIs("  unknown %", end);
      NoBar("  unknown %" + end);
    }
  }

  lemma NoBar(s: string)
    requires s != "" && s[0] != '['
    ensures PastBar(s) == None
  {
  }

  lemma BatteryParts(bar: string, number: string, end: string)
    ensures "  Battery " + (bar + ("  " + number + "%")) + end == "  Battery " + (bar + ("  " + (number + ("%" + end))))
  {
  }

  lemma UnknownParts(end: string)
    ensures "  Battery " + ("" + "  unknown %" + "") + end == "  Battery " + ("  unknown %" + end)
  {
    assert "" + "  unknown %" + "" == "  unknown %";
  }

  // ---------------------------------------------------------------- footer

  /** Reader of the footer: the refresh interval and the clock. */
  function FooterFigures(row: string): Option<(real, string)> {
    match Past(row, "  q quit   space pause   refresh ")
    case None => None
    case Some(s) =>
      match Figure(s, 's')
      case None => None
      case Some((interval, t)) =>
        match Past(t, "s          ")
        case None => None
        case Some(clock) => Some((interval, clock))
  }

  predicate FooterReads(row: string, intervalSec: real, clock: string) {
    0.2 <= intervalSec <= 60.0 ==>
      var r := FooterFigures(row); r.Some? && Abs(r.value.0 - intervalSec) <= 0.05 && r.value.1 == clock
  }

  lemma FooterRowReads(intervalSec: real, clock: string)
    ensures FooterReads(LineBytes(FooterLine(intervalSec, clock), false), intervalSec, clock)
  {
    hide LineBytes, FooterLine, FixedText, Figure, Past;
    if 0.2 <= intervalSec <= 60.0 {
      FooterText(intervalSec, clock, false);
      IntervalShort(intervalSec);
      var every := FixedText(intervalSec, 1);
      FooterParts(every, clock);
      var tail := "s          " + clock;
      HeadIs("  q quit   space pause   refresh ", every + tail);
      assert PadLeft(every, 0) == every;
      FigureReads(intervalSec, 1, 0, 's', tail);
      HeadIs("s          ", clock);
    }
  }

  lemma IntervalShort(intervalSec: real)
    requires 0.2 <= intervalSec <= 60.0
    ensures |FixedText(intervalSec, 1)| + 1 < 64
  {
    hide FixedText;
    assert Pow10(2) == 100;
    FixedTextLength(intervalSec, 1, 2);
  }

  lemma FooterParts(every: string, clock: string)
    ensures ("  " + ("" + "q" + "") + " quit   ")
            + (("" + "space" + "") + (" pause   refresh " + (every + "s") + "          " + clock))
         == "  q quit   space pause   refresh " + (every + ("s          " + clock))
  {
    Bare("q");
    Bare("space");
    KeyTexts();
    FiveJoin("  " + "q" + " quit   ", "space", " pause   refresh ", every, clock);
  }

  lemma KeyTexts()
    ensures ("  " + "q" + " quit   ") + ("space" + " pause   refresh ") == "  q quit   space pause   refresh "
  {
  }

  lemma FiveJoin(a: string, b: string, c: string, every: string, clock: string)
    ensures a + (b + (c + (every + "s") + "          " + clock)) == (a + (b + c)) + (every + ("s          " + clock))
  {
  }
}

/** What the processor percentages of a snapshot mean, told from the counters the hosts gave alone. */
module Processors {
  import opened Options
  import opened Decimal
  import opened Util
  import opened Snapshots
  import opened CpuDelta
  import opened Cpu
  import opened Net
  import opened Collectors
  import opened Runs
  import opened Readings

  // ---------------------------------------------------------------- /proc/stat

  /** Neither this line nor one before it ends the block. */
  predicate InBlock(lines: seq<StatLine>, i: nat)
    requires i < |lines|
  {
    forall j :: 0 <= j <= i ==> !lines[j].kind.Other?
  }

  predicate Readable(line: StatLine, kind: StatKind) {
    line.kind == kind && line.fields.Some?
  }

  /** How many of the first `n` lines are readable processor lines. */
  function CoreLines(lines: seq<StatLine>, n: nat): nat
    requires n <= |lines|
  {
    if n == 0 then 0 else CoreLines(lines, n - 1) + if Readable(lines[n - 1], Core) then 1 else 0
  }

  /** Line `i` is the gauge's: the last readable aggregate of the block, or its k-th readable processor line. */
  predicate Picked(lines: seq<StatLine>, i: nat, g: Gauge)
    requires i < |lines|
  {
    && InBlock(lines, i)
    && match g
       case Headline =>
         && Readable(lines[i], Aggregate)
         && forall j :: i < j < |lines| && InBlock(lines, j) ==> !Readable(lines[j], Aggregate)
       case Processor(k) => Readable(lines[i], Core) && CoreLines(lines, i) == k
  }

  // ---------------------------------------------------------------- all hosts

  /** Busy ticks of the first `n` processors. */
  function BusySum(loads: seq<CpuLoad>, n: nat): int
    requires n <= |loads|
  {
    if n == 0 then 0
    else BusySum(loads, n - 1) + loads[n - 1].user + loads[n - 1].system + loads[n - 1].nice
  }

  /** Idle ticks of the first `n` processors. */
  function IdleSum(loads: seq<CpuLoad>, n: nat): int
    requires n <= |loads|
  {
    if n == 0 then 0 else IdleSum(loads, n - 1) + loads[n - 1].idle
  }

  predicate LineCounts(line: StatLine, busy: int, idle: int) {
    line.fields.Some? &&
    var f := line.fields.value;
    busy == f.user + f.nice + f.system + f.irq + f.softirq + f.steal && idle == f.idle + f.iowait
  }

  predicate LoadsCount(loads: seq<CpuLoad>, g: Gauge, busy: int, idle: int) {
    match g
    case Headline =>
      var n := if |loads| < 128 then |loads| else 128;
      n > 0 && busy == BusySum(loads, n) && idle == IdleSum(loads, n)
    case Processor(k) =>
      k < |loads| && busy == loads[k].user + loads[k].system + loads[k].nice && idle == loads[k].idle
  }

  /** Kernel time includes idle time. */
  predicate TimesCount(w: WinTimes, busy: int, idle: int) {
    busy == w.kernel - w.idle + w.user && idle == w.idle
  }

  /** The read lists the gauge, with this much busy and idle time so far. */
  predicate Metered(read: CpuRead, g: Gauge, busy: int, idle: int) {
    match read
    case ProcStat(lines, _) =>
      && lines.Some?
      && exists i :: 0 <= i < |lines.value| && Picked(lines.value, i, g) && LineCounts(lines.value[i], busy, idle)
    case MachLoads(loads) => loads.Some? && LoadsCount(loads.value, g, busy, idle)
    case SystemTimes(count, system, perf) =>
      match g
      case Headline => system.Some? && TimesCount(system.value, busy, idle)
      case Processor(k) => perf.Some? && k < count && k < |perf.value| && TimesCount(perf.value[k], busy, idle)
  }

  ghost predicate Silent(read: CpuRead, g: Gauge) {
    forall busy, idle :: !Metered(read, g, busy, idle)
  }

  /** Where the gauge's counters stood before tick `k`: as last listed, or zero. */
  ghost predicate Stood(run: seq<Tick>, k: nat, g: Gauge, busy: int, idle: int)
    requires k <= |run|
  {
    if k == 0 then busy == 0 == idle
    else
      || Metered(run[k - 1].sample.cpu, g, busy, idle)
      || (Silent(run[k - 1].sample.cpu, g) && Stood(run, k - 1, g, busy, idle))
  }

  /** Two counters that add up to a 64-bit one. */
  predicate Fits(busy: int, idle: int) {
    0 <= busy && 0 <= idle && busy + idle < 0x1_0000_0000_0000_0000
  }

  // ---------------------------------------------------------------- what is read is what is listed

  lemma {:induction false} AggregateIs(lines: seq<StatLine>, i: nat)
    requires i < |lines| && Readable(lines[i], Aggregate)
    requires forall j :: i < j < |lines| ==> !Readable(lines[j], Aggregate)
    ensures AllTicks(lines) == Some(TicksOf(lines[i].fields.value))
  {
    hide TicksOf;
    if i < |lines| - 1 {
      AggregateIs(lines[..|lines| - 1], i);
    }
  }

  lemma {:induction false} AggregateAt(lines: seq<StatLine>) returns (i: nat)
    requires AllTicks(lines).Some?
    ensures i < |lines| && Readable(lines[i], Aggregate)
    ensures forall j :: i < j < |lines| ==> !Readable(lines[j], Aggregate)
  {
    hide TicksOf;
    i := |lines| - 1;
    if !Readable(lines[i], Aggregate) {
      i := AggregateAt(lines[..|lines| - 1]);
    }
  }

  lemma CoreLinesFront(lines: seq<StatLine>, m: nat, n: nat)
    requires n <= m <= |lines|
    ensures CoreLines(lines[..m], n) == CoreLines(lines, n)
    decreases n
  {
    if n > 0 {
      CoreLinesFront(lines, m, n - 1);
    }
  }

  lemma {:induction false} CoresCounted(lines: seq<StatLine>)
    ensures |CoreTicks(lines)| == if CoreLines(lines, |lines|) < 128 then CoreLines(lines, |lines|) else 128
    ensures forall j :: 0 <= j < |lines| && Readable(lines[j], Core) && CoreLines(lines, j) < 128 ==>
      && CoreLines(lines, j) < |CoreTicks(lines)|
      && CoreTicks(lines)[CoreLines(lines, j)] == TicksOf(lines[j].fields.value)
  {
    hide CoreLines, TicksOf;
    if lines == [] {
      NoCoreLines();
    } else {
      var front := lines[..|lines| - 1];
      CoresCounted(front);
      CoreLinesStep(lines);
      forall j | 0 <= j <= |front| ensures CoreLines(lines, j) == CoreLines(front, j) {
        CoreLinesFront(lines, |front|, j);
      }
    }
  }

  lemma NoCoreLines()
    ensures CoreLines([], 0) == 0
  {
  }

  lemma CoreLinesStep(lines: seq<StatLine>)
    requires lines != []
    ensures CoreLines(lines, |lines|)
         == CoreLines(lines, |lines| - 1) + if Readable(lines[|lines| - 1], Core) then 1 else 0
  {
  }

  /** The readable processor line with number `k` among the first `n` lines. */
  lemma {:induction false} CoreLineAt(lines: seq<StatLine>, n: nat, k: nat) returns (i: nat)
    requires n <= |lines| && k < CoreLines(lines, n)
    ensures i < n && Readable(lines[i], Core) && CoreLines(lines, i) == k
  {
    if Readable(lines[n - 1], Core) && CoreLines(lines, n - 1) == k {
      i := n - 1;
    } else {
      i := CoreLineAt(lines, n - 1, k);
    }
  }

  lemma BlockIs(lines: seq<StatLine>, i: nat)
    requires i < |lines|
    ensures InBlock(lines, i) <==> i < CpuBlock(lines)
  {
  }

  lemma FieldsFit(line: StatLine, busy: int, idle: int)
    requires LineCounts(line, busy, idle) && Fits(busy, idle)
    ensures TicksOf(line.fields.value) == CpuTicks(idle, busy + idle)
  {
    LinuxTicksMean(line.fields.value);
  }

  lemma StatRead(lines: seq<StatLine>, online: int, i: nat, g: Gauge)
    requires i < |lines| && Picked(lines, i, g)
    ensures lines[i].fields.Some? && TicksRead(ProcStat(Some(lines), online), g) == Some(TicksOf(lines[i].fields.value))
  {
    hide TicksOf, CoreTicks, AllTicks, CpuBlock, InBlock, CoreLines;
    var n := CpuBlock(lines);
    BlockIs(lines, i);
    assert lines[..n][i] == lines[i];
    match g {
      case Headline =>
        forall j | i < j < n ensures !Readable(lines[..n][j], Aggregate) {
          BlockIs(lines, j);
        }
        AggregateIs(lines[..n], i);
      case Processor(k) =>
        CoreLinesFront(lines, n, i);
        CoresCounted(lines[..n]);
    }
  }

  lemma StatListed(lines: seq<StatLine>, online: int, g: Gauge) returns (i: nat)
    requires TicksRead(ProcStat(Some(lines), online), g).Some?
    ensures i < |lines| && Picked(lines, i, g)
  {
    hide TicksOf, CoreTicks, AllTicks, CpuBlock, InBlock, CoreLines;
    var n := CpuBlock(lines);
    match g {
      case Headline =>
        i := AggregateAt(lines[..n]);
        BlockIs(lines, i);
        forall j | i < j < |lines| && InBlock(lines, j) ensures !Readable(lines[j], Aggregate) {
          BlockIs(lines, j);
          assert lines[..n][j] == lines[j];
        }
      case Processor(k) =>
        CoresCounted(lines[..n]);
        i := CoreLineAt(lines[..n], n, k);
        CoreLinesFront(lines, n, i);
        BlockIs(lines, i);
    }
  }

  lemma {:induction false} LoadsSum(loads: seq<CpuLoad>, n: nat)
    requires n <= |FirstLoads(loads)|
    ensures 0 <= IdleSum(loads, n) && 0 <= BusySum(loads, n)
    ensures BusySum(loads, n) + IdleSum(loads, n) <= n * 0x4_0000_0000
    ensures SumTicks(FirstLoads(loads)[..n]) == CpuTicks(IdleSum(loads, n), BusySum(loads, n) + IdleSum(loads, n))
  {
    hide FirstLoads, SumTicks, Add64;
    if n == 0 {
      SumNone();
    } else {
      LoadsSum(loads, n - 1);
      LoadRead(loads, n - 1);
      SumSnoc(FirstLoads(loads)[..n - 1], LoadTicks(loads[n - 1]));
      NoWrap(IdleSum(loads, n - 1), loads[n - 1].idle);
      NoWrap(BusySum(loads, n - 1) + IdleSum(loads, n - 1), LoadTicks(loads[n - 1]).total);
    }
  }

  lemma SumNone()
    ensures SumTicks([]) == CpuTicks(0, 0)
  {
  }

  lemma NoWrap(a: u64, b: u64)
    requires a + b < 0x1_0000_0000_0000_0000
    ensures Add64(a, b) == a + b
  {
  }

  lemma LoadsRead(loads: seq<CpuLoad>, g: Gauge, busy: int, idle: int)
    requires LoadsCount(loads, g, busy, idle)
    ensures Fits(busy, idle) && TicksRead(MachLoads(Some(loads)), g) == Some(CpuTicks(idle, busy + idle))
  {
    hide BusySum, IdleSum, SumTicks;
    if g.Headline? {
      var t := FirstLoads(loads);
      LoadsSum(loads, |t|);
      assert t[..|t|] == t;
    }
  }

  lemma TimesFit(w: WinTimes, busy: int, idle: int)
    requires TimesCount(w, busy, idle) && Fits(busy, idle)
    ensures WinTicks(w) == CpuTicks(idle, busy + idle)
  {
  }

  lemma TimesRead(count: int, system: Option<WinTimes>, perf: Option<seq<WinTimes>>, g: Gauge, busy: int, idle: int)
    requires Metered(SystemTimes(count, system, perf), g, busy, idle) && Fits(busy, idle)
    ensures TicksRead(SystemTimes(count, system, perf), g) == Some(CpuTicks(idle, busy + idle))
  {
    hide WinTicks;
    match g {
      case Headline => TimesFit(system.value, busy, idle);
      case Processor(k) => TimesFit(perf.value[k], busy, idle);
    }
  }

  /** What is listed is what is read. */
  lemma MeteredIsRead(read: CpuRead, g: Gauge, busy: int, idle: int)
    requires Metered(read, g, busy, idle) && Fits(busy, idle)
    ensures TicksRead(read, g) == Some(CpuTicks(idle, busy + idle))
  {
    hide TicksRead, Picked, LineCounts, LoadsCount;
    match read {
      case ProcStat(lines, online) =>
        var i :| 0 <= i < |lines.value| && Picked(lines.value, i, g) && LineCounts(lines.value[i], busy, idle);
        StatRead(lines.value, online, i, g);
        FieldsFit(lines.value[i], busy, idle);
      case MachLoads(loads) => LoadsRead(loads.value, g, busy, idle);
      case SystemTimes(count, system, perf) => TimesRead(count, system, perf, g, busy, idle);
    }
  }

  lemma ReadIsMetered(read: CpuRead, g: Gauge) returns (busy: int, idle: int)
    requires TicksRead(read, g).Some?
    ensures Metered(read, g, busy, idle)
  {
    hide Picked, AllTicks, CoreTicks, CpuBlock, SumTicks, WinTicks, LoadTicks;
    match read {
      case ProcStat(lines, online) =>
        var i := StatListed(lines.value, online, g);
        var f := PickedFields(lines.value, i, g);
        busy, idle := f.user + f.nice + f.system + f.irq + f.softirq + f.steal, f.idle + f.iowait;
      case MachLoads(loads) =>
        var l := loads.value;
        var n := if |l| < 128 then |l| else 128;
        match g {
          case Headline => busy, idle := BusySum(l, n), IdleSum(l, n);
          case Processor(k) => busy, idle := l[k].user + l[k].system + l[k].nice, l[k].idle;
        }
      case SystemTimes(count, system, perf) =>
        var w := if g.Headline? then system.value else perf.value[g.k];
        busy, idle := w.kernel - w.idle + w.user, w.idle;
    }
  }

  lemma PickedFields(lines: seq<StatLine>, i: nat, g: Gauge) returns (f: Fields)
    requires i < |lines| && Picked(lines, i, g)
    ensures lines[i].fields == Some(f)
  {
    f := lines[i].fields.value;
  }

  lemma SilentIsUnread(read: CpuRead, g: Gauge)
    requires Silent(read, g)
    ensures TicksRead(read, g).None?
  {
    hide TicksRead, Metered;
    if TicksRead(read, g).Some? {
      var busy, idle := ReadIsMetered(read, g);
      assert false;
    }
  }

  lemma {:induction false} StoodIsKnown(run: seq<Tick>, k: nat, g: Gauge, busy: int, idle: int)
    requires k <= |run| && Stood(run, k, g, busy, idle) && Fits(busy, idle)
    ensures Known(run[..k], g) == CpuTicks(idle, busy + idle)
  {
    hide TicksRead, Metered, Silent, Fits;
    if k > 0 {
      assert run[..k][..k - 1] == run[..k - 1];
      var read := run[k - 1].sample.cpu;
      if Metered(read, g, busy, idle) {
        MeteredIsRead(read, g, busy, idle);
      } else {
        SilentIsUnread(read, g);
        StoodIsKnown(run, k - 1, g, busy, idle);
      }
    }
  }

  // ---------------------------------------------------------------- what the percentages mean

  /** The percentage for counters that stood at (b0, i0) and stand at (b1, i1): none when no time passed, all when the
      idle time went back, and the busy share of what passed otherwise. Busy time that went back gives 100 where the
      differences are plain unsigned ones and 0 where the idle difference is guarded. */
  function Percentage(guarded: bool, b0: int, i0: int, b1: int, i1: int): real {
    if b1 + i1 <= b0 + i0 then 0.0
    else if b1 < b0 then (if guarded then 0.0 else 100.0)
    else if i1 < i0 then 100.0
    else 100.0 * (b1 - b0) as real / (b1 + i1 - b0 - i0) as real
  }

  lemma UsageIs(b0: int, i0: int, b1: int, i1: int)
    requires Fits(b0, i0) && Fits(b1, i1)
    ensures UnixUsage(true, CpuTicks(i0, b0 + i0), CpuTicks(i1, b1 + i1)) == Percentage(false, b0, i0, b1, i1)
    ensures WinUsage(true, CpuTicks(i0, b0 + i0), CpuTicks(i1, b1 + i1)) == Percentage(true, b0, i0, b1, i1)
  {
    hide Percent;
    var prev, now := CpuTicks(i0, b0 + i0), CpuTicks(i1, b1 + i1);
    if now.total > prev.total {
      if b1 < b0 {
        BusyBackwards(prev, now);
      } else {
        var d := now.total - prev.total;
        BusyIncrement(prev, now);
        FormulasAgree(true, prev, now);
        PercentOfPart(b1 - b0, d);
        if i1 >= i0 {
          Quotient(Percent(b1 - b0, d), d as real, 100.0 * (b1 - b0) as real);
        }
      }
    }
  }

  lemma Quotient(p: real, d: real, x: real)
    requires d > 0.0 && p * d == x
    ensures p == x / d
  {
  }

  /** What a snapshot shows for a gauge that is listed. A headline of macOS is missing when no time passed. */
  lemma GaugeShows(run: seq<Tick>, k: nat, g: Gauge, b0: int, i0: int, b1: int, i1: int)
    requires 0 < k < |run| && Fits(b0, i0) && Fits(b1, i1)
    requires Stood(run, k, g, b0, i0) && Metered(run[k].sample.cpu, g, b1, i1)
    ensures var shot := Shot(InitState(), run, k);
      var shown := if run[k].sample.cpu.MachLoads? && g.Headline? && b1 + i1 <= b0 + i0 then -1.0
                   else Percentage(run[k].sample.cpu.SystemTimes?, b0, i0, b1, i1);
      match g
      case Headline => shot.cpuTotal == shown
      case Processor(j) => j < |shot.cores| && shot.cores[j] == CoreSample(NatText(j), shown)
  {
    hide Stood, Metered, Percentage, Known, StoredAt, CpuStep, NetStep, DiskRead, TicksRead;
    var before := run[..k];
    PrimedAfter(InitState(), before);
    StoodIsKnown(run, k, g, b0, i0);
    StoredIsKnown(before, g);
    MeteredIsRead(run[k].sample.cpu, g, b1, i1);
    UsageIs(b0, i0, b1, i1);
    StepShows(After(InitState(), before).cpu, run[k].sample.cpu, g, CpuTicks(i1, b1 + i1));
  }

  predicate Shown(out: CpuOut, read: CpuRead, g: Gauge, prev: CpuTicks, now: CpuTicks) {
    var usage := if read.SystemTimes? then WinUsage(true, prev, now) else UnixUsage(true, prev, now);
    match g
    case Headline => out.cpuTotal == if read.MachLoads? && now.total <= prev.total then -1.0 else usage
    case Processor(j) => j < |out.cores| && out.cores[j] == CoreSample(NatText(j), usage)
  }

  lemma StepShows(st: CpuState, read: CpuRead, g: Gauge, now: CpuTicks)
    requires Shaped(st) && TicksRead(read, g) == Some(now)
    ensures Shown(CpuStep(st, true, read).1, read, g, StoredAt(st, g), now)
  {
    hide UnixUsage, WinUsage, AllTicks, CoreTicks, CpuBlock, SumTicks, FirstLoads, FirstTimes, WinTicks, Overlay,
         NatText;
  }

  /** A snapshot has no headline while unprimed or when the read gives none. */
  lemma NoHeadline(run: seq<Tick>, k: nat)
    requires k < |run| && (k == 0 || Silent(run[k].sample.cpu, Headline))
    ensures Shot(InitState(), run, k).cpuTotal == -1.0
  {
    hide Silent, CpuStep, NetStep, DiskRead, TicksRead;
    if k == 0 {
      PrimedExactlyAfterFirst(run, k);
    } else {
      var st := After(InitState(), run[..k]);
      SilentIsUnread(run[k].sample.cpu, Headline);
      StepMissing(st.cpu, st.primed, run[k].sample.cpu);
    }
  }

  lemma StepMissing(st: CpuState, primed: bool, read: CpuRead)
    requires Shaped(st) && TicksRead(read, Headline).None?
    ensures CpuStep(st, primed, read).1.cpuTotal == -1.0
  {
    hide UnixUsage, WinUsage, AllTicks, CoreTicks, CpuBlock, SumTicks, FirstLoads, FirstTimes, WinTicks, Overlay,
         UnixCores, WinCores;
  }

  /** Usage times the time that passed is 100 times the busy time that passed: for the aggregate and every processor
      line of Linux, and for the processors of macOS and Windows and their sums. */
  lemma GaugeIsShare(run: seq<Tick>, k: nat, g: Gauge, b0: int, i0: int, b1: int, i1: int)
    requires 0 < k < |run| && Fits(b0, i0) && Fits(b1, i1) && b0 <= b1 && i0 <= i1
    requires Stood(run, k, g, b0, i0) && Metered(run[k].sample.cpu, g, b1, i1)
    ensures var shot := Shot(InitState(), run, k);
      match g
      case Headline => shot.cpuTotal * (b1 + i1 - b0 - i0) as real == 100.0 * (b1 - b0) as real
      case Processor(j) =>
        j < |shot.cores| && shot.cores[j].usage * (b1 + i1 - b0 - i0) as real == 100.0 * (b1 - b0) as real
  {
    hide Stood, Metered, Fits, Shot;
    GaugeShows(run, k, g, b0, i0, b1, i1);
    var d := b1 + i1 - b0 - i0;
    if d > 0 {
      QuotientTimes(100.0 * (b1 - b0) as real, d as real);
    }
  }

  lemma QuotientTimes(x: real, d: real)
    requires d > 0.0
    ensures x / d * d == x
  {
  }

  /** Two reads of /proc/stat in a row whose last aggregate lines are `a` and `b`, from the eight counters alone. */
  lemma LinuxHeadline(run: seq<Tick>, k: nat, i: nat, j: nat, f: Fields, g: Fields)
    requires 0 < k < |run|
    requires var a, b := run[k - 1].sample.cpu, run[k].sample.cpu;
      && a.ProcStat? && a.lines.Some? && i < |a.lines.value| && Picked(a.lines.value, i, Headline)
      && b.ProcStat? && b.lines.Some? && j < |b.lines.value| && Picked(b.lines.value, j, Headline)
      && a.lines.value[i].fields == Some(f) && b.lines.value[j].fields == Some(g)
    requires f.idle <= g.idle && f.iowait <= g.iowait
    requires f.user <= g.user && f.nice <= g.nice && f.system <= g.system
    requires f.irq <= g.irq && f.softirq <= g.softirq && f.steal <= g.steal
    requires g.user + g.nice + g.system + g.idle + g.iowait + g.irq + g.softirq + g.steal < 0x1_0000_0000_0000_0000
    ensures Shot(InitState(), run, k).cpuTotal
            * ((g.user + g.nice + g.system + g.idle + g.iowait + g.irq + g.softirq + g.steal)
               - (f.user + f.nice + f.system + f.idle + f.iowait + f.irq + f.softirq + f.steal)) as real
         == 100.0 * ((g.user + g.nice + g.system + g.irq + g.softirq + g.steal)
                     - (f.user + f.nice + f.system + f.irq + f.softirq + f.steal)) as real
  {
    hide Picked, Shot;
    GaugeIsShare(run, k, Headline,
      f.user + f.nice + f.system + f.irq + f.softirq + f.steal, f.idle + f.iowait,
      g.user + g.nice + g.system + g.irq + g.softirq + g.steal, g.idle + g.iowait);
  }

  // ---------------------------------------------------------------- how many processors

  /** The readable processor lines of the block. */
  predicate BlockOf(lines: seq<StatLine>, n: nat) {
    && n <= |lines|
    && (forall i :: 0 <= i < n ==> !lines[i].kind.Other?)
    && (n < |lines| ==> lines[n].kind.Other?)
  }

  /** The processors shown are numbered from 0; on Linux as many as the block has readable lines, up to 128, and their
      number is also the count unless it is 0; on macOS all up to 128; on Windows those with times up to the count and
      128, and one bar with the headline when there are none. */
  lemma CoresArrive(run: seq<Tick>, k: nat)
    requires k < |run|
    ensures var shot := Shot(InitState(), run, k);
      match run[k].sample.cpu
      case ProcStat(lines, online) =>
        if lines.None? then shot.cores == [] && shot.cpuCount == 0
        else forall n :: BlockOf(lines.value, n) ==>
          var c := CoreLines(lines.value, n);
          && |shot.cores| == (if c < 128 then c else 128)
          && shot.cpuCount == if c == 0 then online else |shot.cores|
      case MachLoads(loads) =>
        && |shot.cores| == (if loads.None? then 0 else if |loads.value| < 128 then |loads.value| else 128)
        && shot.cpuCount == |shot.cores|
      case SystemTimes(count, _, perf) =>
        && shot.cpuCount == count
        && (perf.None? || perf.value == [] || count <= 0 ==>
              shot.cores == if count > 0 then [CoreSample("0", if shot.cpuTotal > 0.0 then shot.cpuTotal else 0.0)]
                            else [])
        && (perf.Some? && perf.value != [] && count > 0 ==>
              |shot.cores| <= 128 && |shot.cores| <= count && |shot.cores| <= |perf.value|
              && |shot.cores| in {128, count, |perf.value|})
    ensures var shot := Shot(InitState(), run, k);
      forall j :: 0 <= j < |shot.cores| ==> shot.cores[j].name == NatText(j)
  {
    hide NetStep, DiskRead, Shown, CpuStep, After, BlockOf;
    var st := After(InitState(), run[..k]);
    match run[k].sample.cpu {
      case ProcStat(lines, online) =>
        if lines.Some? {
          forall n | BlockOf(lines.value, n) ensures n == CpuBlock(lines.value) {
            BlockUnique(lines.value, n);
          }
        }
        StatCores(st.cpu, st.primed, lines, online);
      case MachLoads(loads) => MachCores(st.cpu, st.primed, loads);
      case SystemTimes(count, system, perf) => TimesCores(st.cpu, st.primed, count, system, perf);
    }
  }

  lemma BlockUnique(lines: seq<StatLine>, n: nat)
    requires BlockOf(lines, n)
    ensures n == CpuBlock(lines)
  {
  }

  lemma StatCores(st: CpuState, primed: bool, lines: Option<seq<StatLine>>, online: int)
    requires Shaped(st)
    ensures var out := CpuStep(st, primed, ProcStat(lines, online)).1;
      if lines.None? then out.cores == [] && out.cpuCount == 0
      else
        var c := CoreLines(lines.value, CpuBlock(lines.value));
        && |out.cores| == (if c < 128 then c else 128)
        && out.cpuCount == (if c == 0 then online else |out.cores|)
        && forall j :: 0 <= j < |out.cores| ==> out.cores[j].name == NatText(j)
  {
    hide UnixUsage, AllTicks, CoreTicks, CpuBlock, Overlay, NatText, CoreLines;
    if lines.Some? {
      var n := CpuBlock(lines.value);
      CoresCounted(lines.value[..n]);
      CoreLinesFront(lines.value, n, n);
    }
  }

  lemma MachCores(st: CpuState, primed: bool, loads: Option<seq<CpuLoad>>)
    requires Shaped(st)
    ensures var out := CpuStep(st, primed, MachLoads(loads)).1;
      && |out.cores| == (if loads.None? then 0 else if |loads.value| < 128 then |loads.value| else 128)
      && out.cpuCount == |out.cores|
      && forall j :: 0 <= j < |out.cores| ==> out.cores[j].name == NatText(j)
  {
    hide UnixUsage, SumTicks, Overlay, NatText;
  }

  lemma TimesCores(st: CpuState, primed: bool, count: int, system: Option<WinTimes>, perf: Option<seq<WinTimes>>)
    requires Shaped(st)
    ensures var out := CpuStep(st, primed, SystemTimes(count, system, perf)).1;
      && out.cpuCount == count
      && (perf.None? || perf.value == [] || count <= 0 ==>
            out.cores == if count > 0 then [CoreSample("0", if out.cpuTotal > 0.0 then out.cpuTotal else 0.0)] else [])
      && (perf.Some? && perf.value != [] && count > 0 ==>
            |out.cores| <= 128 && |out.cores| <= count && |out.cores| <= |perf.value|
            && |out.cores| in {128, count, |perf.value|})
      && forall j :: 0 <= j < |out.cores| ==> out.cores[j].name == NatText(j)
  {
    hide WinUsage, Overlay, NatText, WinTicks;
    ZeroText();
  }

  lemma ZeroText()
    ensures NatText(0) == "0"
  {
  }
}

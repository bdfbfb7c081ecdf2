/** What holds over whole runs of snapshots: priming, conservation of CPU time and of network bytes. */
module Runs {
  import opened Options
  import opened Decimal
  import opened Util
  import opened Snapshots
  import opened CpuDelta
  import opened Cpu
  import opened Net
  import opened Collectors

  /** One collect_snapshot call. A pause is a long gap between two clock readings. */
  datatype Tick = Tick(sample: Sample, now: real)

  function After(st: State, run: seq<Tick>): (r: State)
    requires Well(st)
    ensures Well(r)
  {
    if run == [] then st
    else Step(After(st, run[..|run| - 1]), run[|run| - 1].sample, run[|run| - 1].now).0
  }

  /** The snapshot the `k`-th tick of a run produces. */
  function Shot(st: State, run: seq<Tick>, k: nat): ResourceSnapshot
    requires Well(st) && k < |run|
  {
    Step(After(st, run[..k]), run[k].sample, run[k].now).1
  }

  lemma AfterSnoc(st: State, run: seq<Tick>, t: Tick)
    requires Well(st)
    ensures After(st, run + [t]) == Step(After(st, run), t.sample, t.now).0
  {
    assert (run + [t])[..|run|] == run;
  }

  // ---------------------------------------------------------------- priming

  lemma PrimedAfter(st: State, run: seq<Tick>)
    requires Well(st)
    ensures After(st, run).primed <==> st.primed || run != []
  {
  }

  predicate NoRates(nets: seq<NetSample>) {
    forall i :: 0 <= i < |nets| ==> nets[i].rxBps == 0.0 && nets[i].txBps == 0.0
  }

  predicate NoUsage(cores: seq<CoreSample>) {
    forall i :: 0 <= i < |cores| ==> cores[i].usage == 0.0
  }

  lemma QuietCpu(st: CpuState, read: CpuRead)
    requires Shaped(st)
    ensures var out := CpuStep(st, false, read).1; out.cpuTotal == -1.0 && NoUsage(out.cores)
  {
  }

  lemma QuietNet(table: seq<NetEntry>, read: Option<seq<IfRow>>)
    ensures NoRates(NetStep(table, 0.0, read).1)
  {
  }

  /** Counting from collect_init, every snapshot but the first is primed; an unprimed one shows no usage at all,
      and network rates are zero whenever the snapshot is unprimed or no time has passed. */
  lemma PrimedExactlyAfterFirst(run: seq<Tick>, k: nat)
    requires k < |run|
    ensures Shot(InitState(), run, k).primed <==> k > 0
    ensures k == 0 ==> Shot(InitState(), run, k).cpuTotal == -1.0 && NoUsage(Shot(InitState(), run, k).cores)
    ensures k == 0 || Shot(InitState(), run, k).sampleDt == 0.0 ==> NoRates(Shot(InitState(), run, k).nets)
  {
    var st := After(InitState(), run[..k]);
    PrimedAfter(InitState(), run[..k]);
    hide CpuStep, NetStep, DiskRead, NoRates, NoUsage;
    QuietCpu(st.cpu, run[k].sample.cpu);
    QuietNet(st.net, run[k].sample.nets);
  }

  /** A headline can be formed: counters were read before and now, and on macOS their sum advanced. */
  predicate HasHeadline(st: CpuState, primed: bool, read: CpuRead) {
    && primed
    && match read
       case ProcStat(lines, _) => lines.Some? && AllTicks(lines.value[..CpuBlock(lines.value)]).Some?
       case MachLoads(loads) =>
         loads.Some? && loads.value != [] && SumTicks(FirstLoads(loads.value)).total > st.all.total
       case SystemTimes(_, system, _) => system.Some?
  }

  /** A primed snapshot may still have no headline: it is -1 exactly then, and a percentage otherwise. */
  lemma HeadlineMissing(st: CpuState, primed: bool, read: CpuRead)
    requires Shaped(st)
    ensures var total := CpuStep(st, primed, read).1.cpuTotal;
      if HasHeadline(st, primed, read) then 0.0 <= total <= 100.0 else total == -1.0
  {
    hide UnixUsage, WinUsage, AllTicks, CoreTicks, CpuBlock, SumTicks, FirstLoads, FirstTimes, Overlay, UnixCores,
         WinCores;
  }

  // ---------------------------------------------------------------- CPU time

  predicate AllGrew(prev: CpuTicks, now: CpuTicks) {
    Sane(prev) && Sane(now) && Grows(prev, now)
  }

  type CoreIndex = k: nat | k < MAX_CORES

  /** One of the percentages shown: the headline, or that of a processor. */
  datatype Gauge = Headline | Processor(k: CoreIndex)

  /** The counters kept for a gauge. */
  function StoredAt(st: CpuState, g: Gauge): CpuTicks
    requires Shaped(st)
  {
    match g
    case Headline => st.all
    case Processor(k) => st.core[k]
  }

  /** The percentage shown; a processor that was not listed shows none, which counts as 0. */
  function Gauged(total: real, cores: seq<CoreSample>, g: Gauge): real {
    match g
    case Headline => total
    case Processor(k) => if k < |cores| then cores[k].usage else 0.0
  }

  /** In every step of the run the gauge's idle and busy ticks did not decrease. */
  predicate CpuGrows(st: State, run: seq<Tick>, g: Gauge)
    requires Well(st)
  {
    run != [] ==>
      && CpuGrows(st, run[..|run| - 1], g)
      && AllGrew(StoredAt(After(st, run[..|run| - 1]).cpu, g), StoredAt(After(st, run).cpu, g))
  }

  /** Usage times elapsed ticks as one snapshot reports it. */
  function Report(shot: ResourceSnapshot, prev: CpuTicks, now: CpuTicks, g: Gauge): real {
    Share(Gauged(shot.cpuTotal, shot.cores, g), now.total - prev.total)
  }

  /** The report is 100 times the busy ticks counted. */
  predicate Accounted(shot: ResourceSnapshot, prev: CpuTicks, now: CpuTicks, g: Gauge) {
    Report(shot, prev, now, g) == Share(100.0, Busy(now) - Busy(prev))
  }

  /** Reported usage times elapsed ticks, summed over the run. */
  function CpuSum(st: State, run: seq<Tick>, g: Gauge): real
    requires Well(st)
  {
    if run == [] then 0.0
    else
      var front := run[..|run| - 1];
      CpuSum(st, front, g)
      + Report(Shot(st, run, |run| - 1), StoredAt(After(st, front).cpu, g), StoredAt(After(st, run).cpu, g), g)
  }

  lemma LinuxTick(st: CpuState, read: Option<seq<StatLine>>, online: int, g: Gauge)
    requires Shaped(st) && AllGrew(StoredAt(st, g), StoredAt(LinuxCpu(st, true, read, online).0, g))
    ensures var (next, out) := LinuxCpu(st, true, read, online);
      Share(Gauged(out.cpuTotal, out.cores, g), StoredAt(next, g).total - StoredAt(st, g).total)
      == Share(100.0, Busy(StoredAt(next, g)) - Busy(StoredAt(st, g)))
  {
    hide UnixUsage, AllTicks, CoreTicks, CpuBlock;
    var (next, out) := LinuxCpu(st, true, read, online);
    ShareOf(StoredAt(st, g), StoredAt(next, g));
    NoShare(Gauged(out.cpuTotal, out.cores, g));
    hide Share;
  }

  lemma DarwinTick(st: CpuState, read: Option<seq<CpuLoad>>, g: Gauge)
    requires Shaped(st) && AllGrew(StoredAt(st, g), StoredAt(DarwinCpu(st, true, read).0, g))
    ensures var (next, out) := DarwinCpu(st, true, read);
      Share(Gauged(out.cpuTotal, out.cores, g), StoredAt(next, g).total - StoredAt(st, g).total)
      == Share(100.0, Busy(StoredAt(next, g)) - Busy(StoredAt(st, g)))
  {
    hide UnixUsage, FirstLoads, SumTicks;
    var (next, out) := DarwinCpu(st, true, read);
    ShareOf(StoredAt(st, g), StoredAt(next, g));
    NoShare(Gauged(out.cpuTotal, out.cores, g));
    hide Share;
  }

  lemma WindowsTick(st: CpuState, count: int, system: Option<WinTimes>, perf: Option<seq<WinTimes>>, g: Gauge)
    requires Shaped(st) && AllGrew(StoredAt(st, g), StoredAt(WindowsCpu(st, true, count, system, perf).0, g))
    ensures var (next, out) := WindowsCpu(st, true, count, system, perf);
      Share(Gauged(out.cpuTotal, out.cores, g), StoredAt(next, g).total - StoredAt(st, g).total)
      == Share(100.0, Busy(StoredAt(next, g)) - Busy(StoredAt(st, g)))
  {
    hide WinUsage, UnixUsage, FirstTimes;
    var (next, out) := WindowsCpu(st, true, count, system, perf);
    ShareOf(StoredAt(st, g), StoredAt(next, g));
    NoShare(Gauged(out.cpuTotal, out.cores, g));
    hide Share;
  }

  /** On every host a primed snapshot accounts for the busy ticks since the last one, headline and every processor,
      failed reads and processors that are not listed included. */
  lemma CpuTick(st: CpuState, read: CpuRead, g: Gauge)
    requires Shaped(st)
    requires AllGrew(StoredAt(st, g), StoredAt(CpuStep(st, true, read).0, g))
    ensures var (next, out) := CpuStep(st, true, read);
      Share(Gauged(out.cpuTotal, out.cores, g), StoredAt(next, g).total - StoredAt(st, g).total)
      == Share(100.0, Busy(StoredAt(next, g)) - Busy(StoredAt(st, g)))
  {
    hide LinuxCpu, DarwinCpu, WindowsCpu, Share, StoredAt, Gauged, AllGrew;
    match read {
      case ProcStat(lines, online) => LinuxTick(st, lines, online, g);
      case MachLoads(loads) => DarwinTick(st, loads, g);
      case SystemTimes(count, system, perf) => WindowsTick(st, count, system, perf, g);
    }
  }

  lemma NoShare(u: real)
    ensures Share(u, 0) == 0.0 && Share(100.0, 0) == 0.0
  {
  }

  function BusyAfter(st: State, run: seq<Tick>, g: Gauge): int
    requires Well(st)
  {
    Busy(StoredAt(After(st, run).cpu, g))
  }

  /** What one primed snapshot accounts for. */
  lemma StepReport(st: State, t: Tick, g: Gauge)
    requires Well(st) && st.primed
    requires AllGrew(StoredAt(st.cpu, g), StoredAt(Step(st, t.sample, t.now).0.cpu, g))
    ensures Accounted(Step(st, t.sample, t.now).1, StoredAt(st.cpu, g), StoredAt(Step(st, t.sample, t.now).0.cpu, g), g)
  {
    hide CpuStep, NetStep, DiskRead, Share, AllGrew, Busy, StoredAt, Gauged;
    CpuTick(st.cpu, t.sample.cpu, g);
  }

  lemma Telescopes(a: int, b: int, c: int)
    ensures Share(100.0, b - a) + Share(100.0, c - b) == Share(100.0, c - a)
  {
  }

  /** CPU time is conserved: usage times elapsed ticks adds up to 100 times the busy ticks of the whole run,
      for the headline and for every processor. */
  lemma {:induction false} CpuConserved(st: State, run: seq<Tick>, g: Gauge)
    requires Well(st) && st.primed && CpuGrows(st, run, g)
    ensures CpuSum(st, run, g) == Share(100.0, BusyAfter(st, run, g) - Busy(StoredAt(st.cpu, g)))
  {
    if run == [] {
      NoShare(100.0);
    } else {
      var front := run[..|run| - 1];
      PrimedAfter(st, front);
      StepReport(After(st, front), run[|run| - 1], g);
      hide Share, Step, StoredAt, Report, AllGrew;
      CpuConserved(st, front, g);
      Telescopes(Busy(StoredAt(st.cpu, g)), BusyAfter(st, run[..|run| - 1], g), BusyAfter(st, run, g));
    }
  }

  /** Two runs between the same counters report the same usage in total and the same elapsed ticks, however they
      are cut into intervals or paused; so the weighted averages agree. */
  lemma SplittingDoesNotMatter(a: State, b: State, run: seq<Tick>, other: seq<Tick>, g: Gauge)
    requires Well(a) && Well(b) && a.primed && b.primed && CpuGrows(a, run, g) && CpuGrows(b, other, g)
    requires StoredAt(a.cpu, g) == StoredAt(b.cpu, g)
    requires StoredAt(After(a, run).cpu, g) == StoredAt(After(b, other).cpu, g)
    ensures CpuSum(a, run, g) == CpuSum(b, other, g)
  {
    hide After, CpuSum, CpuGrows, Share;
    CpuConserved(a, run, g);
    CpuConserved(b, other, g);
  }

  // ---------------------------------------------------------------- network bytes

  datatype Direction = Rx | Tx

  function StoredCount(e: NetEntry, dir: Direction): u64 {
    if dir.Rx? then e.rx else e.tx
  }

  function ReadCount(r: IfRow, dir: Direction): u64 {
    if dir.Rx? then r.rx else r.tx
  }

  function Bps(n: NetSample, dir: Direction): real {
    if dir.Rx? then n.rxBps else n.txBps
  }

  /** The rows as slots. */
  function Slots(rows: seq<IfRow>): (t: seq<NetEntry>)
    ensures |t| == |rows|
  {
    seq(|rows|, i requires 0 <= i < |rows| => NetEntry(rows[i].name, rows[i].rx, rows[i].tx))
  }

  /** Position of the first accepted row with this name, or the number of rows. */
  function RowIndex(rows: seq<IfRow>, name: string): (i: nat)
    ensures i <= |rows|
    ensures forall k :: 0 <= k < i ==> rows[k].name != name
    ensures i < |rows| ==> rows[i].name == name
  {
    var i := Slot(Slots(rows), name);
    assert forall k :: 0 <= k < i ==> rows[k].name == Slots(rows)[k].name;
    i
  }

  /** The read lists `name` once, and no longer name is cut down to it. */
  predicate Lists(rows: seq<IfRow>, name: string) {
    var a := Accepted(rows);
    var i := RowIndex(a, name);
    i < |a| && forall k :: 0 <= k < |a| && k != i ==> Trunc(a[k].name, NAME_LEN) != name
  }

  /** The interface is in the read, or the read failed. */
  predicate Followed(t: Tick, name: string) {
    t.sample.nets.Some? ==> Lists(t.sample.nets.value, name)
  }

  function CountIn(t: Tick, name: string, dir: Direction): u64
    requires t.sample.nets.Some? && Lists(t.sample.nets.value, name)
  {
    var a := Accepted(t.sample.nets.value);
    ReadCount(a[RowIndex(a, name)], dir)
  }

  /** The counter kept for the interface. */
  function Last(table: seq<NetEntry>, name: string, dir: Direction): Option<u64> {
    var i := Slot(table, name);
    if i < |table| then Some(StoredCount(table[i], dir)) else None
  }

  function Bytes(bps: real, dt: real): real {
    bps * dt
  }

  /** Bytes a snapshot reports for the interface: its rate times the interval. */
  function Flow(nets: seq<NetSample>, dt: real, name: string, dir: Direction): real {
    if nets == [] then 0.0
    else if nets[0].name == name then Bytes(Bps(nets[0], dir), dt)
    else Flow(nets[1..], dt, name, dir)
  }

  lemma {:induction false} FlowAt(nets: seq<NetSample>, dt: real, name: string, dir: Direction, i: nat)
    requires i < |nets| && nets[i].name == name && forall k :: 0 <= k < i ==> nets[k].name != name
    ensures Flow(nets, dt, name, dir) == Bytes(Bps(nets[i], dir), dt)
  {
    if i > 0 {
      FlowAt(nets[1..], dt, name, dir, i - 1);
    }
  }

  lemma SlotAt(table: seq<NetEntry>, name: string, i: nat)
    requires i < |table| && table[i].name == name && forall k :: 0 <= k < i ==> table[k].name != name
    ensures Slot(table, name) == i
  {
  }

  /** Bytes counted between the stored counter and the one now read. */
  function Growth(table: seq<NetEntry>, t: Tick, name: string, dir: Direction): int
    requires Followed(t, name)
  {
    if t.sample.nets.Some? && Last(table, name, dir).Some?
    then CountIn(t, name, dir) - Last(table, name, dir).value else 0
  }

  lemma RateTimesDt(prev: u64, now: u64, dt: real)
    requires dt > 0.0
    ensures Rate(prev, now, dt) * dt == (if now > prev then now - prev else 0) as real
  {
    if now > prev {
      var r := (now - prev) as real / dt;
      assert r * dt == (now - prev) as real;
    }
  }

  lemma RowFlow(table: seq<NetEntry>, rateDt: real, dt: real, r: IfRow, name: string, dir: Direction)
    requires r.name == name && (rateDt == dt || rateDt == 0.0) && rateDt >= 0.0
    ensures Bytes(Bps(RowFor(table, rateDt, r), dir), dt)
         == (if rateDt > 0.0 && Last(table, name, dir).Some? && ReadCount(r, dir) > Last(table, name, dir).value
             then ReadCount(r, dir) - Last(table, name, dir).value else 0) as real
  {
    hide Rate, Slot, Trunc;
    if rateDt > 0.0 && Last(table, name, dir).Some? {
      RateTimesDt(Last(table, name, dir).value, ReadCount(r, dir), dt);
    }
  }

  /** One snapshot: the interface's row, its stored counter afterwards, and the bytes reported. */
  lemma NetTick(table: seq<NetEntry>, rateDt: real, dt: real, t: Tick, name: string, dir: Direction)
    requires |name| < NAME_LEN && Followed(t, name)
    requires rateDt == dt || rateDt == 0.0
    requires rateDt >= 0.0
    ensures var (next, nets) := NetStep(table, rateDt, t.sample.nets);
      && var g := Growth(table, t, name, dir);
      && Flow(nets, dt, name, dir) == (if rateDt > 0.0 && g > 0 then g else 0) as real
      && Last(next, name, dir) == if t.sample.nets.Some? then Some(CountIn(t, name, dir)) else Last(table, name, dir)
  {
    if t.sample.nets.Some? {
      var a := Accepted(t.sample.nets.value);
      var i := RowIndex(a, name);
      var (next, nets) := NetStep(table, rateDt, t.sample.nets);
      hide Accepted, Flow, RowFor, Trunc, RowIndex;
      RowNamed(table, rateDt, a, i, name);
      assert Last(next, name, dir) == Some(CountIn(t, name, dir)) by {
        SlotAt(next, name, i);
      }
      hide Slot, EntriesOf, RowsFor, Bytes;
      FlowAt(nets, dt, name, dir, i);
      RowFlow(table, rateDt, dt, a[i], name, dir);
      hide Last, Bps;
    }
  }

  lemma RowNamed(table: seq<NetEntry>, dt: real, a: seq<IfRow>, i: nat, name: string)
    requires |name| < NAME_LEN && i < |a| && a[i].name == name
    requires forall k :: 0 <= k < |a| && k != i ==> Trunc(a[k].name, NAME_LEN) != name
    ensures var nets := RowsFor(table, dt, a);
      nets[i] == RowFor(table, dt, a[i]) && nets[i].name == name
      && (forall k :: 0 <= k < i ==> nets[k].name != name)
      && (forall k :: 0 <= k < i ==> EntriesOf(nets)[k].name != name)
      && EntriesOf(nets)[i] == NetEntry(name, a[i].rx, a[i].tx)
  {
    hide Slot, Rate;
  }

  /** Every read that succeeds has the interface. */
  predicate AllFollowed(run: seq<Tick>, name: string) {
    forall k :: 0 <= k < |run| ==> Followed(run[k], name)
  }

  /** The interface's counter is never read below the stored one. */
  predicate NeverDrops(st: State, run: seq<Tick>, name: string, dir: Direction)
    requires Well(st) && AllFollowed(run, name)
  {
    run != [] ==>
      && NeverDrops(st, run[..|run| - 1], name, dir)
      && Growth(After(st, run[..|run| - 1]).net, run[|run| - 1], name, dir) >= 0
  }

  /** The interface is followed through the run and its counter never goes down. */
  predicate NetGrows(st: State, run: seq<Tick>, name: string, dir: Direction)
    requires Well(st)
  {
    AllFollowed(run, name) && NeverDrops(st, run, name, dir)
  }

  /** Bytes reported over the run: rate times interval, summed. */
  function Delivered(st: State, run: seq<Tick>, name: string, dir: Direction): real
    requires Well(st)
  {
    if run == [] then 0.0
    else
      var shot := Shot(st, run, |run| - 1);
      Delivered(st, run[..|run| - 1], name, dir) + Flow(shot.nets, shot.sampleDt, name, dir)
  }

  /** What the counter moved while the clock stood still, or before priming: no rate can be formed. */
  function Stalled(st: State, run: seq<Tick>, name: string, dir: Direction): int
    requires Well(st) && AllFollowed(run, name)
  {
    if run == [] then 0
    else
      var n := |run| - 1;
      var before := After(st, run[..n]);
      Stalled(st, run[..n], name, dir)
      + if RateDt(before, run[n].now) > 0.0 then 0 else Growth(before.net, run[n], name, dir)
  }

  /** What the counter lost when it went down, by a reset or a wrap, while the clock ran: shown as rate 0. */
  function Dropped(st: State, run: seq<Tick>, name: string, dir: Direction): (n: int)
    requires Well(st) && AllFollowed(run, name)
    ensures n <= 0
  {
    if run == [] then 0
    else
      var n := |run| - 1;
      var before := After(st, run[..n]);
      var g := Growth(before.net, run[n], name, dir);
      Dropped(st, run[..n], name, dir) + if RateDt(before, run[n].now) > 0.0 && g < 0 then g else 0
  }

  /** The counter the run is measured from: the stored one, or the first that is read. */
  function First(st: State, run: seq<Tick>, name: string, dir: Direction): Option<u64>
    requires Well(st) && AllFollowed(run, name)
  {
    if run == [] then Last(st.net, name, dir)
    else
      var n := |run| - 1;
      var f := First(st, run[..n], name, dir);
      if f.Some? || run[n].sample.nets.None? then f else Some(CountIn(run[n], name, dir))
  }

  /** Last counter minus first counter. */
  function Counted(st: State, run: seq<Tick>, name: string, dir: Direction): int
    requires Well(st) && AllFollowed(run, name)
  {
    var f, l := First(st, run, name, dir), Last(After(st, run).net, name, dir);
    if f.Some? && l.Some? then l.value - f.value else 0
  }

  lemma FollowedFront(run: seq<Tick>, name: string)
    requires AllFollowed(run, name) && run != []
    ensures AllFollowed(run[..|run| - 1], name) && Followed(run[|run| - 1], name)
  {
    hide Followed;
    var front := run[..|run| - 1];
    assert forall k :: 0 <= k < |front| ==> front[k] == run[k];
  }

  /** The ledger of any interface that is followed, whatever its counter does: what was reported, what moved while the
      clock stood still and what was lost in drops add up to what the counter advanced, through failed reads and
      pauses. */
  lemma {:induction false} NetLedger(st: State, run: seq<Tick>, name: string, dir: Direction)
    requires Well(st) && |name| < NAME_LEN && AllFollowed(run, name)
    ensures Delivered(st, run, name, dir) + (Stalled(st, run, name, dir) + Dropped(st, run, name, dir)) as real
         == Counted(st, run, name, dir) as real
    ensures First(st, run, name, dir).Some? <==> Last(After(st, run).net, name, dir).Some?
  {
    hide CpuStep, DiskRead, NetStep, Flow, Last, CountIn, Followed;
    if run != [] {
      var n := |run| - 1;
      var front, t := run[..n], run[n];
      FollowedFront(run, name);
      NetLedger(st, front, name, dir);
      var mid := After(st, front);
      NetTick(mid.net, RateDt(mid, t.now), Dt(mid.lastT, t.now), t, name, dir);
    }
  }

  lemma {:induction false} NothingDropped(st: State, run: seq<Tick>, name: string, dir: Direction)
    requires Well(st) && NetGrows(st, run, name, dir)
    ensures Dropped(st, run, name, dir) == 0 <= Stalled(st, run, name, dir)
    ensures Stalled(st, run, name, dir) == 0 <==> NothingStalled(st, run, name, dir)
  {
    hide After, RateDt, Growth, Followed;
    if run != [] {
      NothingDropped(st, run[..|run| - 1], name, dir);
    }
  }

  /** For a counter that never goes down, network bytes are conserved exactly when nothing was counted while the clock
      stood still. */
  lemma NetConserved(st: State, run: seq<Tick>, name: string, dir: Direction)
    requires Well(st) && |name| < NAME_LEN && NetGrows(st, run, name, dir)
    ensures Delivered(st, run, name, dir) == Counted(st, run, name, dir) as real
       <==> NothingStalled(st, run, name, dir)
  {
    hide Delivered, Counted, Stalled, Dropped, NothingStalled, NeverDrops;
    NetLedger(st, run, name, dir);
    NothingDropped(st, run, name, dir);
  }

  /** Whenever no rate could be formed the interface's counter had not moved. */
  predicate NothingStalled(st: State, run: seq<Tick>, name: string, dir: Direction)
    requires Well(st) && AllFollowed(run, name)
  {
    run != [] ==>
      var n := |run| - 1;
      var before := After(st, run[..n]);
      && NothingStalled(st, run[..n], name, dir)
      && (RateDt(before, run[n].now) > 0.0 || Growth(before.net, run[n], name, dir) == 0)
  }

  /** A positive clock that advances from one snapshot to the next. */
  predicate ClockRuns(run: seq<Tick>) {
    && (forall k :: 0 <= k < |run| ==> run[k].now > 0.0)
    && (forall j, k :: 0 <= j < k < |run| ==> run[j].now < run[k].now)
  }

  lemma LastClock(st: State, run: seq<Tick>)
    requires Well(st) && run != []
    ensures After(st, run).lastT == run[|run| - 1].now && After(st, run).primed
  {
  }

  lemma TickCounts(run: seq<Tick>, name: string, dir: Direction)
    requires AllFollowed(run, name) && ClockRuns(run) && run != []
    ensures var mid := After(InitState(), run[..|run| - 1]);
      && Followed(run[|run| - 1], name)
      && (RateDt(mid, run[|run| - 1].now) > 0.0 || Growth(mid.net, run[|run| - 1], name, dir) == 0)
  {
    hide Step, Lists, CountIn;
    var n := |run| - 1;
    if n == 0 {
      assert Last([], name, dir) == None;
    } else {
      LastClock(InitState(), run[..n]);
      assert run[n - 1].now < run[n].now;
    }
  }

  lemma {:induction false} NothingStalls(run: seq<Tick>, name: string, dir: Direction)
    requires AllFollowed(run, name) && ClockRuns(run)
    ensures Stalled(InitState(), run, name, dir) == 0 && NothingStalled(InitState(), run, name, dir)
    ensures Dropped(InitState(), run, name, dir) == 0 <==> NeverDrops(InitState(), run, name, dir)
  {
    hide After, Growth, Followed, RateDt;
    if run != [] {
      var front := run[..|run| - 1];
      FollowedFront(run, name);
      assert ClockRuns(front);
      NothingStalls(front, name, dir);
      TickCounts(run, name, dir);
    }
  }

  /** From collect_init on, with a clock that runs, an interface in every read is never reported short of last counter
      minus first counter, and exactly that much is reported if and only if its counter never goes down. */
  lemma NetConservedFromStart(run: seq<Tick>, name: string, dir: Direction)
    requires |name| < NAME_LEN && AllFollowed(run, name) && ClockRuns(run)
    ensures Delivered(InitState(), run, name, dir) >= Counted(InitState(), run, name, dir) as real
    ensures Delivered(InitState(), run, name, dir) == Counted(InitState(), run, name, dir) as real
       <==> NeverDrops(InitState(), run, name, dir)
  {
    hide After, Delivered, Counted, NeverDrops, NothingStalled, Stalled, Dropped, AllFollowed, ClockRuns;
    NothingStalls(run, name, dir);
    NetLedger(InitState(), run, name, dir);
  }
}

/** From what the host's counters do to what the collector's run does: steady readings make a growing run. */
module Readings {
  import opened Options
  import opened Util
  import opened Snapshots
  import opened CpuDelta
  import opened Cpu
  import opened Net
  import opened Collectors
  import opened Runs

  // ---------------------------------------------------------------- network

  /** The interface's counter as the tick reads it; None when the read failed. */
  function Reading(t: Tick, name: string, dir: Direction): Option<u64> {
    if t.sample.nets.Some? && Lists(t.sample.nets.value, name) then Some(CountIn(t, name, dir)) else None
  }

  predicate InOrder(a: Option<u64>, b: Option<u64>) {
    a.Some? && b.Some? ==> a.value <= b.value
  }

  /** The interface is in every read that succeeds, and its counter never goes down. */
  predicate NetSteady(run: seq<Tick>, name: string, dir: Direction) {
    && (forall k :: 0 <= k < |run| ==> Followed(run[k], name))
    && (forall j, k :: 0 <= j < k < |run| ==> InOrder(Reading(run[j], name, dir), Reading(run[k], name, dir)))
  }

  predicate IsReading(run: seq<Tick>, name: string, dir: Direction, last: Option<u64>) {
    last.Some? ==> exists j :: 0 <= j < |run| && Reading(run[j], name, dir) == last
  }

  lemma ReadingStep(front: seq<Tick>, t: Tick, name: string, dir: Direction, last: Option<u64>)
    requires IsReading(front, name, dir, last)
    ensures IsReading(front + [t], name, dir, if Reading(t, name, dir).Some? then Reading(t, name, dir) else last)
  {
    hide Reading;
    var run := front + [t];
    assert run[|front|] == t && forall j :: 0 <= j < |front| ==> run[j] == front[j];
  }

  lemma GrowthInOrder(table: seq<NetEntry>, t: Tick, name: string, dir: Direction)
    requires Followed(t, name) && InOrder(Last(table, name, dir), Reading(t, name, dir))
    ensures Growth(table, t, name, dir) >= 0
  {
    hide Last, Lists, CountIn;
  }

  lemma SteadyFront(run: seq<Tick>, name: string, dir: Direction)
    requires NetSteady(run, name, dir) && run != []
    ensures NetSteady(run[..|run| - 1], name, dir) && Followed(run[|run| - 1], name)
  {
    hide Reading, Followed;
    var front := run[..|run| - 1];
    assert forall j :: 0 <= j < |front| ==> front[j] == run[j];
  }

  lemma SteadyNext(run: seq<Tick>, name: string, dir: Direction, last: Option<u64>)
    requires NetSteady(run, name, dir) && run != [] && IsReading(run[..|run| - 1], name, dir, last)
    ensures InOrder(last, Reading(run[|run| - 1], name, dir))
  {
    hide Reading, Followed;
    var front := run[..|run| - 1];
    assert forall j :: 0 <= j < |front| ==> front[j] == run[j];
  }

  lemma AfterNet(st: State, run: seq<Tick>)
    requires Well(st) && run != []
    ensures var mid := After(st, run[..|run| - 1]);
      After(st, run).net == NetStep(mid.net, RateDt(mid, run[|run| - 1].now), run[|run| - 1].sample.nets).0
  {
    hide NetStep, CpuStep, DiskRead;
  }

  /** A steady counter makes a growing run, and what the table keeps is always some reading. */
  lemma {:induction false} SteadyGrows(run: seq<Tick>, name: string, dir: Direction)
    requires |name| < NAME_LEN && NetSteady(run, name, dir)
    ensures NetGrows(InitState(), run, name, dir)
    ensures IsReading(run, name, dir, Last(After(InitState(), run).net, name, dir))
  {
    if run != [] {
      var front, t := run[..|run| - 1], run[|run| - 1];
      SteadyFront(run, name, dir);
      hide NetSteady;
      SteadyGrows(front, name, dir);
      AfterNet(InitState(), run);
      var mid := After(InitState(), front);
      SteadyNext(run, name, dir, Last(mid.net, name, dir));
      hide After, NetStep, Last, IsReading, Followed, InOrder, Growth, Flow;
      GrowthInOrder(mid.net, t, name, dir);
      NetTick(mid.net, RateDt(mid, t.now), RateDt(mid, t.now), t, name, dir);
      ReadingStep(front, t, name, dir, Last(mid.net, name, dir));
      assert run == front + [t];
      FollowedReading(t, name, dir);
    }
  }

  /** The counters read over the run, in order. */
  function Series(run: seq<Tick>, name: string, dir: Direction): seq<u64> {
    if run == [] then []
    else
      var r := Reading(run[|run| - 1], name, dir);
      Series(run[..|run| - 1], name, dir) + if r.Some? then [r.value] else []
  }

  /** Last counter less first counter. */
  function Advance(s: seq<u64>): int {
    if s == [] then 0 else s[|s| - 1] as int - s[0] as int
  }

  lemma {:induction false} SeriesEnds(run: seq<Tick>, name: string, dir: Direction)
    requires |name| < NAME_LEN && AllFollowed(run, name)
    ensures var s := Series(run, name, dir);
      && First(InitState(), run, name, dir) == (if s == [] then None else Some(s[0]))
      && Last(After(InitState(), run).net, name, dir) == (if s == [] then None else Some(s[|s| - 1]))
  {
    if run != [] {
      var front, t := run[..|run| - 1], run[|run| - 1];
      SeriesEnds(front, name, dir);
      AfterNet(InitState(), run);
      var mid := After(InitState(), front);
      hide After, NetStep, Last, Followed, Growth, Flow, Reading, CountIn, NetGrows;
      NetTick(mid.net, RateDt(mid, t.now), RateDt(mid, t.now), t, name, dir);
      FollowedReading(t, name, dir);
    }
  }

  /** With a steady counter and a clock that runs, the bytes reported are last counter less first counter. */
  lemma BytesConserved(run: seq<Tick>, name: string, dir: Direction)
    requires |name| < NAME_LEN && NetSteady(run, name, dir) && ClockRuns(run)
    ensures Delivered(InitState(), run, name, dir) == Advance(Series(run, name, dir)) as real
  {
    SteadyGrows(run, name, dir);
    SeriesEnds(run, name, dir);
    hide NetSteady, ClockRuns, Delivered, After, Series, First, Last, NetGrows;
    NetConservedFromStart(run, name, dir);
  }

  lemma FollowedReading(t: Tick, name: string, dir: Direction)
    requires Followed(t, name)
    ensures Reading(t, name, dir).Some? <==> t.sample.nets.Some?
    ensures t.sample.nets.Some? ==> Reading(t, name, dir) == Some(CountIn(t, name, dir))
  {
    hide Lists, CountIn;
  }

  // ---------------------------------------------------------------- CPU

  /** A gauge's counters as the tick reads them; None when they are not in the read. */
  function TicksRead(read: CpuRead, g: Gauge): Option<CpuTicks> {
    match read
    case ProcStat(lines, _) =>
      if lines.None? then None
      else
        var block := lines.value[..CpuBlock(lines.value)];
        if g.Headline? then AllTicks(block) else Nth(CoreTicks(block), g.k)
    case MachLoads(loads) =>
      if loads.None? || loads.value == [] then None
      else if g.Headline? then Some(SumTicks(FirstLoads(loads.value))) else Nth(FirstLoads(loads.value), g.k)
    case SystemTimes(count, system, perf) =>
      if g.Headline? then (if system.Some? then Some(WinTicks(system.value)) else None)
      else if perf.Some? && count > 0 then Nth(FirstTimes(perf.value, count), g.k) else None
  }

  function Nth(t: seq<CpuTicks>, k: nat): Option<CpuTicks> {
    if k < |t| then Some(t[k]) else None
  }

  lemma StepStores(st: CpuState, primed: bool, read: CpuRead, g: Gauge)
    requires Shaped(st)
    ensures StoredAt(CpuStep(st, primed, read).0, g)
         == if TicksRead(read, g).Some? then TicksRead(read, g).value else StoredAt(st, g)
  {
    hide UnixUsage, WinUsage, AllTicks, CoreTicks, CpuBlock, SumTicks, FirstLoads, FirstTimes, WinTicks, UnixCores,
         WinCores;
  }

  predicate TicksInOrder(a: Option<CpuTicks>, b: Option<CpuTicks>) {
    a.Some? && b.Some? ==> Grows(a.value, b.value)
  }

  /** Whenever the gauge's counters are read they are sane, and neither idle nor busy ticks go down. */
  predicate CpuSteady(run: seq<Tick>, g: Gauge) {
    && (forall k :: 0 <= k < |run| ==> SaneRead(TicksRead(run[k].sample.cpu, g)))
    && (forall j, k :: 0 <= j < k < |run| ==>
          TicksInOrder(TicksRead(run[j].sample.cpu, g), TicksRead(run[k].sample.cpu, g)))
  }

  predicate SaneRead(t: Option<CpuTicks>) {
    t.Some? ==> Sane(t.value)
  }

  /** Zero, as after collect_init, or some reading. */
  predicate IsRead(run: seq<Tick>, g: Gauge, t: CpuTicks) {
    t == NO_TICKS || exists j :: 0 <= j < |run| && TicksRead(run[j].sample.cpu, g) == Some(t)
  }

  lemma CpuFront(run: seq<Tick>, g: Gauge, t: CpuTicks)
    requires CpuSteady(run, g) && run != [] && IsRead(run[..|run| - 1], g, t)
    ensures CpuSteady(run[..|run| - 1], g) && Sane(t)
    ensures var now := TicksRead(run[|run| - 1].sample.cpu, g);
      AllGrew(t, if now.Some? then now.value else t) && IsRead(run, g, if now.Some? then now.value else t)
  {
    hide TicksRead;
    var front := run[..|run| - 1];
    assert forall j :: 0 <= j < |front| ==> front[j] == run[j];
    if t != NO_TICKS {
      var j :| 0 <= j < |front| && TicksRead(front[j].sample.cpu, g) == Some(t);
      assert SaneRead(TicksRead(run[j].sample.cpu, g));
    }
  }

  lemma CpuFrontSteady(run: seq<Tick>, g: Gauge)
    requires CpuSteady(run, g) && run != []
    ensures CpuSteady(run[..|run| - 1], g)
  {
    CpuFront(run, g, NO_TICKS);
  }

  lemma {:induction false} SteadyCpuGrows(run: seq<Tick>, g: Gauge)
    requires CpuSteady(run, g)
    ensures CpuGrows(InitState(), run, g) && IsRead(run, g, StoredAt(After(InitState(), run).cpu, g))
  {
    if run != [] {
      var front, t := run[..|run| - 1], run[|run| - 1];
      CpuFrontSteady(run, g);
      SteadyCpuGrows(front, g);
      var mid := After(InitState(), front);
      CpuFront(run, g, StoredAt(mid.cpu, g));
      StepStores(mid.cpu, mid.primed, t.sample.cpu, g);
      hide StoredAt, CpuStep, NetStep, DiskRead, TicksRead, CpuSteady, IsRead, AllGrew;
    }
  }

  /** The counters last read for the gauge; zero before the first. */
  function Known(run: seq<Tick>, g: Gauge): CpuTicks {
    if run == [] then NO_TICKS
    else
      var t := TicksRead(run[|run| - 1].sample.cpu, g);
      if t.Some? then t.value else Known(run[..|run| - 1], g)
  }

  lemma {:induction false} StoredIsKnown(run: seq<Tick>, g: Gauge)
    ensures StoredAt(After(InitState(), run).cpu, g) == Known(run, g)
  {
    if run != [] {
      StoredIsKnown(run[..|run| - 1], g);
      var mid := After(InitState(), run[..|run| - 1]);
      StepStores(mid.cpu, mid.primed, run[|run| - 1].sample.cpu, g);
      hide StoredAt, CpuStep, NetStep, DiskRead, TicksRead;
    }
  }

  /** Usage times elapsed ticks over all snapshots but the first, which is unprimed. */
  function UsageSum(run: seq<Tick>, g: Gauge): real {
    if |run| <= 1 then 0.0
    else
      var front := run[..|run| - 1];
      UsageSum(front, g) + Report(Shot(InitState(), run, |run| - 1), Known(front, g), Known(run, g), g)
  }

  lemma UsageStep(run: seq<Tick>, g: Gauge)
    requires |run| > 1 && CpuGrows(InitState(), run, g)
    ensures Accounted(Shot(InitState(), run, |run| - 1), Known(run[..|run| - 1], g), Known(run, g), g)
  {
    var front := run[..|run| - 1];
    PrimedAfter(InitState(), front);
    StepReport(After(InitState(), front), run[|run| - 1], g);
    StoredIsKnown(run, g);
    StoredIsKnown(front, g);
    hide Step, Known, StoredAt, Accounted, AllGrew;
  }

  lemma UsageSnoc(run: seq<Tick>, g: Gauge, x: int)
    requires |run| > 1 && CpuGrows(InitState(), run, g)
    requires UsageSum(run[..|run| - 1], g) == Share(100.0, Busy(Known(run[..|run| - 1], g)) - x)
    ensures UsageSum(run, g) == Share(100.0, Busy(Known(run, g)) - x)
  {
    hide Share, Shot, Known, Busy, Report, CpuGrows, After;
    var front := run[..|run| - 1];
    UsageStep(run, g);
    Telescopes(x, Busy(Known(front, g)), Busy(Known(run, g)));
  }

  lemma GrowsFront(run: seq<Tick>, g: Gauge)
    requires run != [] && CpuGrows(InitState(), run, g)
    ensures CpuGrows(InitState(), run[..|run| - 1], g)
  {
  }

  lemma UsageStart(run: seq<Tick>, g: Gauge)
    requires |run| == 1
    ensures UsageSum(run, g) == Share(100.0, Busy(Known(run, g)) - Busy(Known(run[..1], g)))
  {
    hide Known, Busy;
    assert run[..1] == run;
  }

  /** With steady counters that sum is 100 times the busy ticks counted since the first snapshot, for the headline and
      for every processor. */
  lemma {:induction false} UsageConserved(run: seq<Tick>, g: Gauge)
    requires run != [] && CpuGrows(InitState(), run, g)
    ensures UsageSum(run, g) == Share(100.0, Busy(Known(run, g)) - Busy(Known(run[..1], g)))
  {
    hide UsageSum, CpuGrows, Share, Known, Busy;
    if |run| == 1 {
      UsageStart(run, g);
    } else {
      assert run[..|run| - 1][..1] == run[..1];
      GrowsFront(run, g);
      UsageConserved(run[..|run| - 1], g);
      UsageSnoc(run, g, Busy(Known(run[..1], g)));
    }
  }

  // ---------------------------------------------------------------- accounts

  /** What is added up: the bytes of an interface in one direction, or the busy time of a gauge. */
  datatype Account = Traffic(name: string, dir: Direction) | BusyTime(g: Gauge)

  /** What one snapshot reports, rate times interval or percentage times elapsed ticks; `run` ends with its read. */
  function Entry(shot: ResourceSnapshot, run: seq<Tick>, a: Account): real
    requires run != []
  {
    match a
    case Traffic(name, dir) => Flow(shot.nets, shot.sampleDt, name, dir)
    case BusyTime(g) => Report(shot, Known(run[..|run| - 1], g), Known(run, g), g)
  }

  /** What the snapshots from number `from` on report. */
  function Booked(shots: seq<ResourceSnapshot>, run: seq<Tick>, from: nat, a: Account): real
    requires |shots| == |run|
  {
    if |run| <= from then 0.0
    else
      var n := |run| - 1;
      Booked(shots[..n], run[..n], from, a) + Entry(shots[n], run, a)
  }

  /** What the host's counters did since the reads before number `from`. */
  function Moved(run: seq<Tick>, from: nat, a: Account): real
    requires from <= |run|
  {
    match a
    case Traffic(name, dir) => (Advance(Series(run, name, dir)) - Advance(Series(run[..from], name, dir))) as real
    case BusyTime(g) => Share(100.0, Busy(Known(run, g)) - Busy(Known(run[..from], g)))
  }

  predicate Steady(run: seq<Tick>, a: Account) {
    match a
    case Traffic(name, dir) => |name| < NAME_LEN && NetSteady(run, name, dir) && ClockRuns(run)
    case BusyTime(g) => CpuSteady(run, g)
  }

  lemma {:induction false} SeriesPrefix(run: seq<Tick>, from: nat, name: string, dir: Direction)
    requires from <= |run|
    ensures Series(run[..from], name, dir) <= Series(run, name, dir)
    decreases |run|
  {
    hide Reading;
    if from < |run| {
      assert run[..|run| - 1][..from] == run[..from];
      SeriesPrefix(run[..|run| - 1], from, name, dir);
    } else {
      assert run[..from] == run;
    }
  }

  /** For traffic that is the last counter less the last one read before, or less the first if none was. */
  lemma MovedTraffic(run: seq<Tick>, from: nat, name: string, dir: Direction)
    requires from <= |run|
    ensures var s, p := Series(run, name, dir), Series(run[..from], name, dir);
      p != [] ==> |p| <= |s| && Moved(run, from, Traffic(name, dir)) == (s[|s| - 1] as int - p[|p| - 1] as int) as real
    ensures var s, p := Series(run, name, dir), Series(run[..from], name, dir);
      p == [] ==> Moved(run, from, Traffic(name, dir)) == Advance(s) as real
  {
    hide Series;
    SeriesPrefix(run, from, name, dir);
  }

  predicate ShotsOf(shots: seq<ResourceSnapshot>, run: seq<Tick>) {
    |shots| == |run| && forall k :: 0 <= k < |run| ==> shots[k] == Shot(InitState(), run, k)
  }

  lemma ShotsFront(shots: seq<ResourceSnapshot>, run: seq<Tick>)
    requires ShotsOf(shots, run) && run != []
    ensures ShotsOf(shots[..|run| - 1], run[..|run| - 1])
  {
    hide Step, After;
    var n := |run| - 1;
    assert forall k :: 0 <= k < n ==> run[..n][..k] == run[..k];
  }

  lemma {:induction false} BookedTraffic(shots: seq<ResourceSnapshot>, run: seq<Tick>, from: nat, name: string,
                                         dir: Direction)
    requires ShotsOf(shots, run) && from <= |run|
    ensures Booked(shots, run, from, Traffic(name, dir))
         == Delivered(InitState(), run, name, dir) - Delivered(InitState(), run[..from], name, dir)
    decreases |run|
  {
    hide Shot, Flow;
    if |run| == from {
      assert run[..from] == run;
    } else {
      var n := |run| - 1;
      ShotsFront(shots, run);
      assert run[..n][..from] == run[..from];
      BookedTraffic(shots[..n], run[..n], from, name, dir);
    }
  }

  lemma {:induction false} BookedTime(shots: seq<ResourceSnapshot>, run: seq<Tick>, from: nat, g: Gauge)
    requires ShotsOf(shots, run) && 0 < from <= |run|
    ensures Booked(shots, run, from, BusyTime(g)) == UsageSum(run, g) - UsageSum(run[..from], g)
    decreases |run|
  {
    hide Shot, Report, Known;
    if |run| == from {
      assert run[..from] == run;
    } else {
      var n := |run| - 1;
      ShotsFront(shots, run);
      assert run[..n][..from] == run[..from];
      BookedTime(shots[..n], run[..n], from, g);
    }
  }

  lemma SteadyTraffic(run: seq<Tick>, from: nat, name: string, dir: Direction)
    requires from <= |run| && NetSteady(run, name, dir) && ClockRuns(run)
    ensures NetSteady(run[..from], name, dir) && ClockRuns(run[..from])
  {
    hide Followed, InOrder, Reading;
    assert forall k :: 0 <= k < from ==> run[..from][k] == run[k];
  }

  lemma SteadyTime(run: seq<Tick>, from: nat, g: Gauge)
    requires from <= |run| && CpuSteady(run, g)
    ensures CpuSteady(run[..from], g)
  {
    hide SaneRead, TicksInOrder, TicksRead;
    assert forall k :: 0 <= k < from ==> run[..from][k] == run[k];
  }

  /** The books balance: with steady counters, what the snapshots from number `from` on report is what the counters did
      meanwhile. */
  lemma BooksBalance(shots: seq<ResourceSnapshot>, run: seq<Tick>, from: nat, a: Account)
    requires ShotsOf(shots, run) && 0 < from <= |run| && Steady(run, a)
    ensures Booked(shots, run, from, a) == Moved(run, from, a)
  {
    match a
    case Traffic(name, dir) =>
      TrafficBalances(shots, run, from, name, dir);
    case BusyTime(g) =>
      TimeBalances(shots, run, from, g);
  }

  lemma TrafficBalances(shots: seq<ResourceSnapshot>, run: seq<Tick>, from: nat, name: string, dir: Direction)
    requires ShotsOf(shots, run) && 0 < from <= |run| && Steady(run, Traffic(name, dir))
    ensures Booked(shots, run, from, Traffic(name, dir)) == Moved(run, from, Traffic(name, dir))
  {
    hide ShotsOf, Booked, Delivered, NetSteady, ClockRuns, Series, Advance;
    SteadyTraffic(run, from, name, dir);
    BookedTraffic(shots, run, from, name, dir);
    BytesConserved(run, name, dir);
    BytesConserved(run[..from], name, dir);
  }

  lemma TimeBalances(shots: seq<ResourceSnapshot>, run: seq<Tick>, from: nat, g: Gauge)
    requires ShotsOf(shots, run) && 0 < from <= |run| && Steady(run, BusyTime(g))
    ensures Booked(shots, run, from, BusyTime(g)) == Moved(run, from, BusyTime(g))
  {
    hide ShotsOf, Booked, UsageSum, CpuSteady, CpuGrows, Known, Busy, Share, IsRead;
    SteadyTime(run, from, g);
    BookedTime(shots, run, from, g);
    SteadyCpuGrows(run, g);
    SteadyCpuGrows(run[..from], g);
    UsageConserved(run, g);
    UsageConserved(run[..from], g);
    assert run[..from][..1] == run[..1];
    Telescopes(Busy(Known(run[..1], g)), Busy(Known(run[..from], g)), Busy(Known(run, g)));
  }
}

/** fill_cpu of the three hosts: counter reads in, percentages out, previous-tick state kept. */
module Cpu {
  import opened Options
  import opened Decimal
  import opened Util
  import opened Snapshots
  import opened CpuDelta

  /** g_cpu_all and g_cpu_core. */
  datatype CpuState = CpuState(all: CpuTicks, core: seq<CpuTicks>)

  datatype CpuOut = CpuOut(cpuCount: int, cpuTotal: real, cores: seq<CoreSample>)

  const NO_CPU: CpuOut := CpuOut(0, -1.0, [])

  predicate Shaped(st: CpuState) {
    |st.core| == MAX_CORES
  }

  function InitCpu(): (st: CpuState)
    ensures Shaped(st)
  {
    CpuState(NO_TICKS, seq(MAX_CORES, _ => NO_TICKS))
  }

  // ---------------------------------------------------------------- Linux

  /** A line of /proc/stat: the aggregate, one processor, or anything else (which ends the block). */
  datatype StatKind = Aggregate | Core | Other

  /** The eight summed counters; missing ones are 0. */
  datatype Fields = Fields(
    user: u64, nice: u64, system: u64, idle: u64, iowait: u64, irq: u64, softirq: u64, steal: u64)

  /** `fields` is None when fewer than four counters could be parsed. */
  datatype StatLine = StatLine(kind: StatKind, fields: Option<Fields>)

  function IdleAll(f: Fields): u64 {
    Add64(f.idle, f.iowait)
  }

  function TicksOf(f: Fields): CpuTicks {
    CpuTicks(IdleAll(f),
             Add64(Add64(Add64(Add64(Add64(Add64(f.user, f.nice), f.system), IdleAll(f)), f.irq), f.softirq), f.steal))
  }

  /** The lines before the first that does not start with "cpu". */
  function CpuBlock(lines: seq<StatLine>): (n: nat)
    ensures n <= |lines|
    ensures forall i :: 0 <= i < n ==> !lines[i].kind.Other?
    ensures n < |lines| ==> lines[n].kind.Other?
  {
    if lines == [] || lines[0].kind.Other? then 0 else 1 + CpuBlock(lines[1..])
  }

  /** Counters of the processors listed, the first MAX_CORES of them. */
  function CoreTicks(lines: seq<StatLine>): (t: seq<CpuTicks>)
    ensures |t| <= MAX_CORES
  {
    if lines == [] then []
    else
      var t, last := CoreTicks(lines[..|lines| - 1]), lines[|lines| - 1];
      if last.kind.Core? && |t| < MAX_CORES && last.fields.Some? then t + [TicksOf(last.fields.value)] else t
  }

  /** Counters of the last readable aggregate line. */
  function AllTicks(lines: seq<StatLine>): Option<CpuTicks> {
    if lines == [] then None
    else
      var last := lines[|lines| - 1];
      if last.kind.Aggregate? && last.fields.Some? then Some(TicksOf(last.fields.value))
      else AllTicks(lines[..|lines| - 1])
  }

  /** The per-processor counters once the first `|t|` are replaced. */
  function Overlay(t: seq<CpuTicks>, prev: seq<CpuTicks>): (core: seq<CpuTicks>)
    requires |t| <= |prev|
    ensures |core| == |prev|
  {
    t + prev[|t|..]
  }

  lemma OverlaySnoc(t: seq<CpuTicks>, prev: seq<CpuTicks>, x: CpuTicks)
    requires |t| < |prev|
    ensures Overlay(t, prev)[|t| := x] == Overlay(t + [x], prev)
    ensures Overlay(t, prev)[|t|] == prev[|t|]
  {
  }

  /** The core strip for counters `t` against the previous ones. */
  function UnixCores(primed: bool, prev: seq<CpuTicks>, t: seq<CpuTicks>): (cores: seq<CoreSample>)
    requires |t| <= |prev|
    ensures |cores| == |t|
  {
    seq(|t|, i requires 0 <= i < |t| => CoreSample(NatText(i), UnixUsage(primed, prev[i], t[i])))
  }

  function LinuxCpu(st: CpuState, primed: bool, read: Option<seq<StatLine>>, online: int): (r: (CpuState, CpuOut))
    requires Shaped(st)
    ensures Shaped(r.0)
  {
    match read
    case None => (st, NO_CPU)
    case Some(lines) =>
      var block := lines[..CpuBlock(lines)];
      var t, all := CoreTicks(block), AllTicks(block);
      (CpuState(if all.Some? then all.value else st.all, Overlay(t, st.core)),
       CpuOut(if |t| > 0 then |t| else online,
              if all.Some? && primed then UnixUsage(primed, st.all, all.value) else -1.0,
              UnixCores(primed, st.core, t)))
  }

  // ---------------------------------------------------------------- Darwin

  /** natural_t */
  type u32 = n: int | 0 <= n < 0x1_0000_0000

  datatype CpuLoad = CpuLoad(user: u32, system: u32, nice: u32, idle: u32)

  function LoadTicks(l: CpuLoad): CpuTicks {
    CpuTicks(l.idle, l.user + l.system + l.nice + l.idle)
  }

  function FirstLoads(loads: seq<CpuLoad>): (t: seq<CpuTicks>)
    ensures |t| <= MAX_CORES && |t| <= |loads|
  {
    seq(if |loads| > MAX_CORES then MAX_CORES else |loads|, i requires 0 <= i < |loads| => LoadTicks(loads[i]))
  }

  /** The accumulated counters, in 64-bit arithmetic. */
  function SumTicks(t: seq<CpuTicks>): CpuTicks {
    if t == [] then NO_TICKS
    else
      var s, last := SumTicks(t[..|t| - 1]), t[|t| - 1];
      CpuTicks(Add64(s.idle, last.idle), Add64(s.total, last.total))
  }

  /** `read` is None when the call failed or reported no processor. */
  function DarwinCpu(st: CpuState, primed: bool, read: Option<seq<CpuLoad>>): (r: (CpuState, CpuOut))
    requires Shaped(st)
    ensures Shaped(r.0)
  {
    if read.None? || read.value == [] then (st, NO_CPU)
    else
      var t := FirstLoads(read.value);
      var all := SumTicks(t);
      (CpuState(all, Overlay(t, st.core)),
       CpuOut(|t|,
              if primed && all.total > st.all.total then UnixUsage(primed, st.all, all) else -1.0,
              UnixCores(primed, st.core, t)))
  }

  // ---------------------------------------------------------------- Windows

  /** Kernel time includes idle time. */
  datatype WinTimes = WinTimes(idle: u64, kernel: u64, user: u64)

  function WinTicks(w: WinTimes): CpuTicks {
    CpuTicks(w.idle, Add64(w.kernel, w.user))
  }

  function FirstTimes(perf: seq<WinTimes>, count: int): (t: seq<CpuTicks>)
    ensures |t| <= MAX_CORES && |t| <= |perf|
  {
    var n := if count < 0 then 0 else if count > MAX_CORES then MAX_CORES else count;
    seq(if |perf| > n then n else |perf|, i requires 0 <= i < |perf| => WinTicks(perf[i]))
  }

  function WinCores(primed: bool, prev: seq<CpuTicks>, t: seq<CpuTicks>): (cores: seq<CoreSample>)
    requires |t| <= |prev|
    ensures |cores| == |t|
  {
    seq(|t|, i requires 0 <= i < |t| => CoreSample(NatText(i), WinUsage(primed, prev[i], t[i])))
  }

  /** `system` is None when GetSystemTimes fails; `perf` is None without per-processor times. */
  function WindowsCpu(st: CpuState, primed: bool, count: int, system: Option<WinTimes>, perf: Option<seq<WinTimes>>)
      : (r: (CpuState, CpuOut))
    requires Shaped(st)
    ensures Shaped(r.0)
  {
    var all := if system.Some? then WinTicks(system.value) else st.all;
    var total := if system.Some? && primed then WinUsage(primed, st.all, all) else -1.0;
    var t := if perf.Some? && count > 0 then FirstTimes(perf.value, count) else [];
    var cores := WinCores(primed, st.core, t);
    (CpuState(all, Overlay(t, st.core)),
     CpuOut(count, total,
            if |t| == 0 && count > 0 then [CoreSample("0", if total > 0.0 then total else 0.0)] else cores))
  }

  // ---------------------------------------------------------------- the three loops

  class CpuCounters {
    var all: CpuTicks
    const core: array<CpuTicks>

    ghost predicate Valid()
      reads this, core
    {
      core.Length == MAX_CORES
    }

    ghost function State(): (st: CpuState)
      reads this, core
      requires Valid()
      ensures Shaped(st)
    {
      CpuState(all, core[..])
    }

    constructor ()
      ensures Valid() && fresh(core) && State() == InitCpu()
    {
      all := NO_TICKS;
      core := new CpuTicks[MAX_CORES](_ => NO_TICKS);
      new;
      assert core[..] == seq(MAX_CORES, _ => NO_TICKS);
    }

    /** The two memsets of collect_init. */
    method Reset()
      requires Valid()
      modifies this, core
      ensures Valid() && State() == InitCpu()
    {
      all := NO_TICKS;
      forall i | 0 <= i < MAX_CORES {
        core[i] := NO_TICKS;
      }
      assert core[..] == InitCpu().core;
    }

    /** One processor on Linux or Darwin: counters stored, sample added. */
    method PutUnix(primed: bool, idle: u64, total: u64, samples: seq<CoreSample>,
        ghost prev: seq<CpuTicks>, ghost t: seq<CpuTicks>)
        returns (more: seq<CoreSample>)
      requires Valid() && |prev| == MAX_CORES && |t| < MAX_CORES
      requires core[..] == Overlay(t, prev) && samples == UnixCores(primed, prev, t)
      modifies core
      ensures core[..] == Overlay(t + [CpuTicks(idle, total)], prev)
      ensures more == UnixCores(primed, prev, t + [CpuTicks(idle, total)])
    {
      hide UnixUsage, NatText;
      var k := |samples|;
      OverlaySnoc(t, prev, CpuTicks(idle, total));
      assert core[k] == core[..][k];
      var usage, next := ApplyCpuDelta(primed, core[k], idle, total);
      core[k] := next;
      hide Overlay;
      more := samples + [CoreSample(NatText(k), usage)];
    }

    /** One processor on Windows. */
    method PutWindows(primed: bool, idle: u64, total: u64, samples: seq<CoreSample>,
        ghost prev: seq<CpuTicks>, ghost t: seq<CpuTicks>)
        returns (more: seq<CoreSample>)
      requires Valid() && |prev| == MAX_CORES && |t| < MAX_CORES
      requires core[..] == Overlay(t, prev) && samples == WinCores(primed, prev, t)
      modifies core
      ensures core[..] == Overlay(t + [CpuTicks(idle, total)], prev)
      ensures more == WinCores(primed, prev, t + [CpuTicks(idle, total)])
    {
      hide WinUsage, NatText;
      var k := |samples|;
      OverlaySnoc(t, prev, CpuTicks(idle, total));
      assert core[k] == core[..][k];
      var usage, next := ApplyDelta(primed, core[k], idle, total);
      core[k] := next;
      hide Overlay;
      more := samples + [CoreSample(NatText(k), usage)];
    }

    method FillLinux(primed: bool, read: Option<seq<StatLine>>, online: int) returns (out: CpuOut)
      requires Valid()
      modifies this, core
      ensures Valid()
      ensures (State(), out) == LinuxCpu(old(State()), primed, read, online)
    {
      hide TicksOf, UnixUsage, UnixCores;
      if read.None? {
        return NO_CPU;
      }
      var lines := read.value;
      ghost var before := core[..];
      ghost var t: seq<CpuTicks> := [];
      NothingYet(primed, before);
      hide Overlay;
      var samples: seq<CoreSample> := [];
      var gotAll := false;
      var allNow := NO_TICKS;
      var i := 0;
      assert lines[..0] == [];
      while i < |lines| && !lines[i].kind.Other?
        invariant 0 <= i <= CpuBlock(lines) && Valid() && all == old(all)
        invariant gotAll == AllTicks(lines[..i]).Some? && (gotAll ==> AllTicks(lines[..i]) == Some(allNow))
        invariant t == CoreTicks(lines[..i]) && |samples| == |t|
        invariant core[..] == Overlay(t, before) && samples == UnixCores(primed, before, t)
      {
        var line := lines[i];
        assert lines[..i + 1][..i] == lines[..i];
        i := i + 1;
        if line.kind.Aggregate? {
          if line.fields.None? {
            continue;
          }
          allNow := TicksOf(line.fields.value);
          gotAll := true;
          continue;
        }
        if |samples| >= MAX_CORES {
          continue;
        }
        if line.fields.None? {
          continue;
        }
        var idle, total := TicksOf(line.fields.value).idle, TicksOf(line.fields.value).total;
        samples := PutUnix(primed, idle, total, samples, before, t);
        t := t + [CpuTicks(idle, total)];
      }
      assert i == CpuBlock(lines);
      hide CoreTicks, AllTicks, CpuBlock;
      var cpuTotal := -1.0;
      if gotAll {
        var headline, next := ApplyCpuDelta(primed, all, allNow.idle, allNow.total);
        all := next;
        cpuTotal := if primed then headline else -1.0;
      }
      out := CpuOut(if |samples| > 0 then |samples| else online, cpuTotal, samples);
    }

    /** One turn of the Darwin core loop: counters stored, sample added, sums advanced. */
    method DarwinCore(primed: bool, l: CpuLoad, samples: seq<CoreSample>, sums: CpuTicks,
                      ghost prev: seq<CpuTicks>, ghost t: seq<CpuTicks>)
        returns (more: seq<CoreSample>, next: CpuTicks)
      requires Valid() && |prev| == MAX_CORES && |t| < MAX_CORES && sums == SumTicks(t)
      requires core[..] == Overlay(t, prev) && samples == UnixCores(primed, prev, t)
      modifies core
      ensures core[..] == Overlay(t + [LoadTicks(l)], prev)
      ensures more == UnixCores(primed, prev, t + [LoadTicks(l)]) && next == SumTicks(t + [LoadTicks(l)])
    {
      hide Overlay, UnixCores, SumTicks, Add64;
      var idle: u64 := l.idle;
      var total: u64 := l.user + l.system + l.nice + idle;
      SumSnoc(t, CpuTicks(idle, total));
      more := PutUnix(primed, idle, total, samples, prev, t);
      next := CpuTicks(Add64(sums.idle, idle), Add64(sums.total, total));
    }

    /** The core loop: every processor stored and sampled, and their counters summed. */
    method DarwinCores(primed: bool, loads: seq<CpuLoad>, count: nat) returns (samples: seq<CoreSample>, sums: CpuTicks)
      requires Valid() && count == |FirstLoads(loads)|
      modifies core
      ensures core[..] == Overlay(FirstLoads(loads), old(core[..]))
      ensures samples == UnixCores(primed, old(core[..]), FirstLoads(loads))
      ensures sums == SumTicks(FirstLoads(loads))
    {
      ghost var before := core[..];
      ghost var t: seq<CpuTicks> := [];
      NothingYet(primed, before);
      assert FirstLoads(loads)[..count] == FirstLoads(loads);
      hide Overlay, UnixCores, SumTicks, FirstLoads, LoadTicks;
      samples, sums := [], NO_TICKS;
      var i := 0;
      while i < count
        invariant 0 <= i <= count && Valid() && t == FirstLoads(loads)[..i]
        invariant core[..] == Overlay(t, before) && samples == UnixCores(primed, before, t) && sums == SumTicks(t)
      {
        LoadRead(loads, i);
        samples, sums := DarwinCore(primed, loads[i], samples, sums, before, t);
        t := t + [LoadTicks(loads[i])];
        i := i + 1;
      }
    }

    method FillDarwin(primed: bool, read: Option<seq<CpuLoad>>) returns (out: CpuOut)
      requires Valid()
      modifies this, core
      ensures Valid()
      ensures (State(), out) == DarwinCpu(old(State()), primed, read)
    {
      if read.None? || |read.value| == 0 {
        return NO_CPU;
      }
      var loads := read.value;
      var count := if |loads| > MAX_CORES then MAX_CORES else |loads|;
      assert count == |FirstLoads(loads)|;
      hide FirstLoads, Overlay, UnixCores, SumTicks;
      var samples, sums := DarwinCores(primed, loads, count);
      var allIdle, allTotal := sums.idle, sums.total;
      var cpuTotal := -1.0;
      if primed && allTotal > all.total {
        var dTotal := Sub64(allTotal, all.total);
        var dIdle := Sub64(allIdle, all.idle);
        cpuTotal := ClampPct(100.0 * Sub64(dTotal, dIdle) as real / dTotal as real);
      }
      all := CpuTicks(allIdle, allTotal);
      out := CpuOut(count, cpuTotal, samples);
    }

    /** The per-processor loop over the first `got` entries. */
    method WindowsCores(primed: bool, info: seq<WinTimes>, count: int, got: nat) returns (samples: seq<CoreSample>)
      requires Valid() && got == |FirstTimes(info, count)|
      modifies core
      ensures core[..] == Overlay(FirstTimes(info, count), old(core[..]))
      ensures samples == WinCores(primed, old(core[..]), FirstTimes(info, count))
    {
      ghost var before := core[..];
      ghost var t: seq<CpuTicks> := [];
      NothingYet(primed, before);
      assert FirstTimes(info, count)[..got] == FirstTimes(info, count);
      hide Overlay, WinCores, FirstTimes, Add64;
      samples := [];
      var i := 0;
      while i < got
        invariant 0 <= i <= got && Valid() && t == FirstTimes(info, count)[..i]
        invariant core[..] == Overlay(t, before) && samples == WinCores(primed, before, t)
      {
        TimeRead(info, count, i);
        var total := Add64(info[i].kernel, info[i].user);
        samples := PutWindows(primed, info[i].idle, total, samples, before, t);
        t := t + [CpuTicks(info[i].idle, total)];
        i := i + 1;
      }
    }

    method FillWindows(primed: bool, count: int, system: Option<WinTimes>, perf: Option<seq<WinTimes>>)
        returns (out: CpuOut)
      requires Valid()
      modifies this, core
      ensures Valid()
      ensures (State(), out) == WindowsCpu(old(State()), primed, count, system, perf)
    {
      hide WinUsage;
      NothingYet(primed, core[..]);
      var cpuTotal := -1.0;
      if system.Some? {
        var total := Add64(system.value.kernel, system.value.user);
        var headline, next := ApplyDelta(primed, all, system.value.idle, total);
        all := next;
        cpuTotal := if primed then headline else -1.0;
      }
      var samples: seq<CoreSample> := [];
      if perf.Some? && count > 0 {
        var n := if count > MAX_CORES then MAX_CORES else count;
        var got := if |perf.value| > n then n else |perf.value|;
        assert got == |FirstTimes(perf.value, count)|;
        hide FirstTimes, Overlay, WinCores;
        samples := WindowsCores(primed, perf.value, count, got);
      }
      if |samples| == 0 && count > 0 {
        samples := [CoreSample("0", if cpuTotal > 0.0 then cpuTotal else 0.0)];
      }
      out := CpuOut(count, cpuTotal, samples);
    }
  }

  /** What counts as busy and as idle on each host, as long as the 64-bit sums do not wrap. */
  lemma LinuxTicksMean(f: Fields)
    requires f.user + f.nice + f.system + f.idle + f.iowait + f.irq + f.softirq + f.steal < WORD
    ensures TicksOf(f).idle == f.idle + f.iowait
    ensures Busy(TicksOf(f)) == f.user + f.nice + f.system + f.irq + f.softirq + f.steal
  {
  }

  lemma DarwinTicksMean(l: CpuLoad)
    ensures LoadTicks(l).idle == l.idle && Busy(LoadTicks(l)) == l.user + l.system + l.nice
  {
  }

  lemma WindowsTicksMean(w: WinTimes)
    requires w.kernel + w.user < WORD
    ensures WinTicks(w).idle == w.idle && Busy(WinTicks(w)) == w.kernel - w.idle + w.user
    ensures w.idle <= w.kernel ==> Sane(WinTicks(w))
  {
  }

  lemma LoadRead(loads: seq<CpuLoad>, i: nat)
    requires i < |FirstLoads(loads)|
    ensures FirstLoads(loads)[..i + 1] == FirstLoads(loads)[..i] + [LoadTicks(loads[i])]
  {
  }

  lemma TimeRead(perf: seq<WinTimes>, count: int, i: nat)
    requires i < |FirstTimes(perf, count)|
    ensures FirstTimes(perf, count)[..i + 1] == FirstTimes(perf, count)[..i] + [WinTicks(perf[i])]
  {
  }

  lemma NothingYet(primed: bool, prev: seq<CpuTicks>)
    ensures Overlay([], prev) == prev && UnixCores(primed, prev, []) == [] && WinCores(primed, prev, []) == []
    ensures SumTicks([]) == NO_TICKS
  {
  }

  lemma SumSnoc(t: seq<CpuTicks>, x: CpuTicks)
    ensures SumTicks(t + [x]) == CpuTicks(Add64(SumTicks(t).idle, x.idle), Add64(SumTicks(t).total, x.total))
  {
    assert (t + [x])[..|t|] == t;
  }
}

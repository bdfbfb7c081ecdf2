/** collect_init and collect_snapshot: the previous-tick state of one host and the snapshots made from it. */
module Collectors {
  import opened Options
  import opened Snapshots
  import opened Cpu
  import opened Net
  import opened Disks

  /** What the host's own processor counters gave; one constructor for each collector file. */
  datatype CpuRead =
    | ProcStat(lines: Option<seq<StatLine>>, online: int)
    | MachLoads(loads: Option<seq<CpuLoad>>)
    | SystemTimes(count: int, system: Option<WinTimes>, perf: Option<seq<WinTimes>>)

  /** Everything read from the host for one snapshot. */
  datatype Sample = Sample(facts: Facts, cpu: CpuRead, mounts: Option<seq<Mount>>, nets: Option<seq<IfRow>>)

  /** g_cpu_*, g_net_*, g_primed and g_last_t. */
  datatype State = State(cpu: CpuState, net: seq<NetEntry>, primed: bool, lastT: real)

  predicate Well(st: State) {
    Shaped(st.cpu)
  }

  function InitState(): (st: State)
    ensures Well(st)
  {
    State(InitCpu(), [], false, 0.0)
  }

  /** Seconds since the last snapshot; 0 on the first and when the clock went back. */
  function Dt(lastT: real, now: real): (dt: real)
    ensures dt >= 0.0
  {
    if lastT > 0.0 && now > lastT then now - lastT else 0.0
  }

  function CpuStep(st: CpuState, primed: bool, read: CpuRead): (r: (CpuState, CpuOut))
    requires Shaped(st)
    ensures Shaped(r.0)
  {
    match read
    case ProcStat(lines, online) => LinuxCpu(st, primed, lines, online)
    case MachLoads(loads) => DarwinCpu(st, primed, loads)
    case SystemTimes(count, system, perf) => WindowsCpu(st, primed, count, system, perf)
  }

  function DiskRead(mounts: Option<seq<Mount>>): seq<DiskSample> {
    if mounts.Some? then DisksOf(Reported(mounts.value)) else []
  }

  /** Rates need a previous snapshot and a clock that advanced. */
  function RateDt(st: State, now: real): (dt: real)
    ensures dt >= 0.0
  {
    if st.primed then Dt(st.lastT, now) else 0.0
  }

  function Step(st: State, s: Sample, now: real): (r: (State, ResourceSnapshot))
    requires Well(st)
    ensures Well(r.0)
  {
    var cpu := CpuStep(st.cpu, st.primed, s.cpu);
    var net := NetStep(st.net, RateDt(st, now), s.nets);
    (State(cpu.0, net.0, true, now),
     ResourceSnapshot(s.facts, cpu.1.cpuCount, cpu.1.cpuTotal, cpu.1.cores, DiskRead(s.mounts), net.1,
                      Dt(st.lastT, now), st.primed))
  }

  class Collector {
    const cpu: CpuCounters
    const net: NetTable
    var primed: bool
    var lastT: real

    ghost function Repr(): set<object> {
      {this, cpu, cpu.core, net, net.name, net.rx, net.tx}
    }

    ghost predicate Valid()
      reads Repr()
    {
      cpu.Valid() && net.Valid()
    }

    ghost function Abs(): (st: State)
      reads Repr()
      requires Valid()
      ensures Well(st)
    {
      State(cpu.State(), net.Entries(), primed, lastT)
    }

    /** The zeroed statics of a fresh process. */
    constructor ()
      ensures Valid() && fresh(Repr()) && Abs() == InitState()
    {
      cpu := new CpuCounters();
      net := new NetTable();
      primed := false;
      lastT := 0.0;
    }

    method Init()
      requires Valid()
      modifies Repr()
      ensures Valid() && Abs() == InitState()
    {
      hide CpuCounters.State, InitCpu, NetTable.Entries;
      cpu.Reset();
      net.Clear();
      primed := false;
      lastT := 0.0;
    }

    method FillCpu(read: CpuRead) returns (out: CpuOut)
      requires Valid()
      modifies cpu, cpu.core
      ensures cpu.Valid() && (cpu.State(), out) == CpuStep(old(cpu.State()), primed, read)
    {
      hide CpuCounters.State, LinuxCpu, DarwinCpu, WindowsCpu;
      match read {
        case ProcStat(lines, online) => out := cpu.FillLinux(primed, lines, online);
        case MachLoads(loads) => out := cpu.FillDarwin(primed, loads);
        case SystemTimes(count, system, perf) => out := cpu.FillWindows(primed, count, system, perf);
      }
    }

    method Snapshot(s: Sample, now: real) returns (out: ResourceSnapshot)
      requires Valid()
      modifies Repr()
      ensures Valid()
      ensures (Abs(), out) == Step(old(Abs()), s, now)
    {
      hide CpuCounters.State, NetTable.Entries, CpuStep, NetStep, DisksOf, Reported;
      ghost var before := Abs();
      var dt := if lastT > 0.0 then now - lastT else 0.0;
      if dt < 0.0 {
        dt := 0.0;
      }
      var c := FillCpu(s.cpu);
      var disks := FillDisks(s.mounts);
      var nets := net.FillNet(primed, dt, s.nets);
      out := ResourceSnapshot(s.facts, c.cpuCount, c.cpuTotal, c.cores, disks, nets, dt, primed);
      primed := true;
      lastT := now;
    }
  }
}

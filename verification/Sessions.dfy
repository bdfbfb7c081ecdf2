/** From the host's counters to the bytes on the terminal: what the collector, the renderer and the loop
    guarantee together. */
module Sessions {
  import opened Options
  import opened Decimal
  import opened Snapshots
  import opened FrameBuffer
  import opened Frame
  import opened Escapes
  import opened FrameSize
  import opened FrameText
  import opened Layout
  import opened Render
  import opened CpuDelta
  import opened Cpu
  import opened Net
  import opened Disks
  import opened Collectors
  import opened Runs
  import opened Terminals
  import opened Surroundings
  import opened Logs
  import opened Readings
  import opened Accounts
  import opened Output
  import Monitor

  predicate Int32(n: int) {
    -0x8000_0000 <= n < 0x8000_0000
  }

  /** Host facts that fit the snapshot struct, and a processor count that is an int. */
  predicate LegalSample(s: Sample) {
    && LegalFacts(s.facts)
    && (s.cpu.ProcStat? ==> Int32(s.cpu.online))
    && (s.cpu.SystemTimes? ==> Int32(s.cpu.count))
  }

  lemma CoreName(i: nat)
    requires i < MAX_CORES
    ensures |NatText(i)| <= 3 && Ascii(NatText(i)) && Free(NatText(i), ESC)
  {
    assert Pow10(3) == 1000;
    NatTextLength(i, 3);
  }

  predicate Narrow(cores: seq<CoreSample>) {
    |cores| <= MAX_CORES && forall i :: 0 <= i < |cores| ==> NarrowCore(cores[i])
  }

  lemma UnixNarrow(primed: bool, prev: seq<CpuTicks>, t: seq<CpuTicks>)
    requires |t| <= |prev| && |t| <= MAX_CORES
    ensures Narrow(UnixCores(primed, prev, t))
  {
    forall i | 0 <= i < |t| ensures NarrowCore(UnixCores(primed, prev, t)[i]) {
      CoreName(i);
      hide NatText, Ascii, Free, UnixUsage;
    }
  }

  lemma WinNarrow(primed: bool, prev: seq<CpuTicks>, t: seq<CpuTicks>)
    requires |t| <= |prev| && |t| <= MAX_CORES
    ensures Narrow(WinCores(primed, prev, t))
  {
    forall i | 0 <= i < |t| ensures NarrowCore(WinCores(primed, prev, t)[i]) {
      CoreName(i);
      hide NatText, Ascii, Free, WinUsage;
    }
  }

  predicate LegalCpu(out: CpuOut) {
    Int32(out.cpuCount) && out.cpuTotal <= 100.0 && Narrow(out.cores)
  }

  lemma LinuxLegal(st: CpuState, primed: bool, read: Option<seq<StatLine>>, online: int)
    requires Shaped(st) && Int32(online)
    ensures LegalCpu(LinuxCpu(st, primed, read, online).1)
  {
    hide UnixUsage, Narrow, Overlay, UnixCores, CoreTicks, AllTicks, CpuBlock;
    UnixNarrow(primed, st.core, []);
    assert UnixCores(primed, st.core, []) == [];
    if read.Some? {
      UnixNarrow(primed, st.core, CoreTicks(read.value[..CpuBlock(read.value)]));
    }
  }

  lemma DarwinLegal(st: CpuState, primed: bool, read: Option<seq<CpuLoad>>)
    requires Shaped(st)
    ensures LegalCpu(DarwinCpu(st, primed, read).1)
  {
    hide UnixUsage, Narrow, Overlay, UnixCores, SumTicks, FirstLoads;
    UnixNarrow(primed, st.core, []);
    assert UnixCores(primed, st.core, []) == [];
    if read.Some? {
      UnixNarrow(primed, st.core, FirstLoads(read.value));
    }
  }

  lemma WindowsLegal(st: CpuState, primed: bool, count: int, system: Option<WinTimes>, perf: Option<seq<WinTimes>>)
    requires Shaped(st) && Int32(count)
    ensures LegalCpu(WindowsCpu(st, primed, count, system, perf).1)
  {
    hide WinUsage, Overlay, FirstTimes;
    var t := if perf.Some? && count > 0 then FirstTimes(perf.value, count) else [];
    WinNarrow(primed, st.core, t);
  }

  lemma NetLegal(table: seq<NetEntry>, dt: real, read: Option<seq<IfRow>>)
    ensures var nets := NetStep(table, dt, read).1;
      |nets| <= MAX_NETS && forall i :: 0 <= i < |nets| ==> LegalNet(nets[i])
  {
  }

  lemma DisksLegal(mounts: Option<seq<Mount>>)
    ensures var disks := DiskRead(mounts);
      |disks| <= MAX_DISKS && forall i :: 0 <= i < |disks| ==> LegalDisk(disks[i])
  {
  }

  lemma NarrowIsLegal(cores: seq<CoreSample>)
    requires Narrow(cores)
    ensures |cores| <= MAX_CORES && forall i :: 0 <= i < |cores| ==> LegalCore(cores[i])
  {
  }

  /** Every snapshot any collector makes is within the limits the renderer relies on. */
  lemma SnapshotIsLegal(st: State, s: Sample, now: real)
    requires Well(st) && LegalSample(s)
    ensures Legal(Step(st, s, now).1) && Narrow(Step(st, s, now).1.cores)
  {
    match s.cpu {
      case ProcStat(lines, online) => LinuxLegal(st.cpu, st.primed, lines, online);
      case MachLoads(loads) => DarwinLegal(st.cpu, st.primed, loads);
      case SystemTimes(count, system, perf) => WindowsLegal(st.cpu, st.primed, count, system, perf);
    }
    hide LinuxCpu, DarwinCpu, WindowsCpu, NetStep, DiskRead, Narrow, LegalNet, LegalDisk, LegalCore, LegalFacts;
    NetLegal(st.net, RateDt(st, now), s.nets);
    DisksLegal(s.mounts);
    NarrowIsLegal(Step(st, s, now).1.cores);
  }

  /** Every sample read is legal and every clock text fits its buffer. */
  predicate LegalLog(log: seq<Event>) {
    forall i :: 0 <= i < |log| ==>
      && (log[i].Collected? ==> LegalSample(log[i].tick.sample))
      && (log[i].Frame? ==> |log[i].clock| < 64)
  }

  lemma LegalSnoc(log: seq<Event>)
    requires LegalLog(log) && log != []
    ensures LegalLog(log[..|log| - 1])
    ensures log[|log| - 1].Collected? ==> LegalSample(log[|log| - 1].tick.sample)
    ensures log[|log| - 1].Frame? ==> |log[|log| - 1].clock| < 64
  {
    hide LegalSample;
  }

  lemma ShotIsLegal(before: seq<Event>, e: Event)
    requires e.Collected? && ShotOk(before, e) && LegalSample(e.tick.sample)
    ensures Legal(e.shot) && Narrow(e.shot.cores)
  {
    hide Step, Legal, Narrow, LegalSample, After, Ticks;
    SnapshotIsLegal(After(InitState(), Ticks(before)), e.tick.sample, e.tick.now);
  }

  lemma {:induction false} LatestIsLegal(log: seq<Event>)
    requires Sound(log) && LegalLog(log) && Latest(log).Some?
    ensures Legal(Latest(log).value) && Narrow(Latest(log).value.cores)
  {
    hide LegalSample, Legal, Narrow, FrameOk, ShotOk, LegalLog;
    LegalSnoc(log);
    if log[|log| - 1].Collected? {
      ShotIsLegal(log[..|log| - 1], log[|log| - 1]);
    } else {
      LatestIsLegal(log[..|log| - 1]);
    }
  }

  /** Every figure of the snapshot is read back off its row, unless some text holds an ESC byte. */
  predicate Legible(snap: ResourceSnapshot, opt: RenderOptions, clock: string) {
    FieldsFree(snap, clock, ESC) ==> FiguresRead(snap, opt, clock, Stripped(LineTexts(snap, opt, clock)))
  }

  lemma AlwaysLegible(snap: ResourceSnapshot, opt: RenderOptions, clock: string)
    ensures Legible(snap, opt, clock)
  {
    hide FieldsFree, FiguresRead, Stripped, LineTexts;
    if FieldsFree(snap, clock, ESC) {
      AnyFrameReads(snap, opt, clock);
    }
  }

  /** A complete frame of a primed snapshot whose figures can be read and whose core strip fits the terminal. */
  predicate Whole(f: Event)
    requires f.Frame?
  {
    && f.snap.primed
    && f.text == "\U{1B}[H" + Terminate(LineTexts(f.snap, f.opt, f.clock), "\U{1B}[K\n") + "\U{1B}[J"
    && StripFits(f.snap, f.opt) && Legible(f.snap, f.opt, f.clock)
  }

  predicate StripFits(snap: ResourceSnapshot, opt: RenderOptions) {
    var lines := CoreLines(opt.ascii, opt.cols, snap.primed, snap.cores);
    forall k :: 0 <= k < |lines| ==> VisibleWidth(LineBytes(lines[k], opt.color)) <= opt.cols
  }

  lemma FitsWhenNarrow(snap: ResourceSnapshot, opt: RenderOptions)
    requires snap.primed && opt.cols >= 60 && Narrow(snap.cores)
    ensures StripFits(snap, opt)
  {
    hide CoreLines, Chunks, NarrowCore, VisibleWidth, LineBytes, Flat;
    CoreStripFits(snap, opt);
  }

  lemma FrameIsWhole(before: seq<Event>, f: Event)
    requires f.Frame? && FrameOk(before, f) && |f.clock| < 64
    requires Legal(f.snap) && Narrow(f.snap.cores)
    ensures Whole(f)
  {
    hide Legal, LiveBytes, Terminate, LineTexts, Kept, StripFits, Narrow, Latest, Fresh, SpacesHit, Legible;
    AlwaysLegible(f.snap, f.opt, f.clock);
    WholeFrame(f.snap, f.opt, f.clock);
    assert ERASE_LINE + "\n" == "\U{1B}[K\n";
    FitsWhenNarrow(f.snap, f.opt);
  }

  /** Every frame of every run is complete: nothing was cut, every line is erased to its end and terminated,
      the closing erase is there, and the core strip fits the terminal. */
  lemma {:induction false} FramesAreWhole(log: seq<Event>, i: nat)
    requires Sound(log) && LegalLog(log) && i < |log| && log[i].Frame?
    ensures Whole(log[i])
    decreases |log|
  {
    hide Whole, ShotOk, LegalSample, Legal, Narrow, LegalLog, Latest, LiveBytes, Kept;
    LegalSnoc(log);
    var front := log[..|log| - 1];
    if i < |front| {
      FramesAreWhole(front, i);
    } else {
      LatestIsLegal(front);
      FrameIsWhole(front, log[i]);
    }
  }

  // ---------------------------------------------------------------- from the surroundings alone

  /** Every sample the host has ready is legal, and every clock text fits its buffer. */
  predicate LegalEnv(env: Env) {
    && LegalSample(env.first.sample) && LegalSample(env.second.sample) && |env.clock| < 64
    && forall t :: t in env.turns ==> LegalSample(t.tick.sample) && |t.clock| < 64
  }

  lemma ToldIsLegal(before: seq<Event>, e: Event, env: Env)
    requires Told(before, e, env) && LegalEnv(env)
    ensures e.Collected? ==> LegalSample(e.tick.sample)
    ensures e.Frame? ==> |e.clock| < 64
  {
    hide LegalSample, Phase, Fresh, Ticks, Keys;
    var n := Frames(before);
    assert n < |env.turns| ==> env.turns[n] in env.turns;
  }

  lemma {:induction false} FaithfulIsLegal(log: seq<Event>, env: Env)
    requires Faithful(log, env) && LegalEnv(env)
    ensures LegalLog(log)
  {
    hide LegalSample, Told, LegalEnv;
    if log != [] {
      var front := log[..|log| - 1];
      FaithfulIsLegal(front, env);
      ToldIsLegal(front, log[|log| - 1], env);
      assert forall i :: 0 <= i < |front| ==> front[i] == log[i];
    }
  }

  /** Every frame on the log is complete. */
  predicate AllWhole(log: seq<Event>) {
    forall i :: 0 <= i < |log| && log[i].Frame? ==> Whole(log[i])
  }

  lemma LegalIsWhole(log: seq<Event>, env: Env)
    requires Sound(log) && Faithful(log, env) && LegalEnv(env)
    ensures AllWhole(log)
    ensures Latest(log).Some? ==> Legal(Latest(log).value)
  {
    hide Sound, Faithful, LegalEnv, LegalLog, Whole, Latest, Legal;
    FaithfulIsLegal(log, env);
    forall i | 0 <= i < |log| && log[i].Frame? ensures Whole(log[i]) {
      FramesAreWhole(log, i);
    }
    if Latest(log).Some? {
      LatestIsLegal(log);
    }
  }

  /** What was to be seen adds up to what the counters did: over the frames of a live process since the second priming
      read, in a one-shot print between the two reads. */
  predicate Balanced(log: seq<Event>, a: Account) {
    if Phase(log) > 0 then |Ticks(log)| >= 2 && OnScreen(log, a) == Moved(Ticks(log), 2, a)
    else Prints(log) > 0 ==>
      Latest(log).Some? && |Ticks(log)| == 2 && Entry(Latest(log).value, Ticks(log), a) == Moved(Ticks(log), 1, a)
  }

  /** What a process that stays off the alternate screen leaves: at most one print, and nothing else written. */
  predicate PrintOnly(env: Env, outcome: Outcome, log: seq<Event>) {
    var good := env.firstCollects && env.secondCollects;
    && outcome == Exited(if good then 0 else 1)
    && Count(log, Enter) == 0 && Frames(log) == 0 && Phase(log) == 0
    && Prints(log) == (if good then 1 else 0)
    && (!good ==> Written(log) == "")
    && (good && LegalEnv(env) ==>
          var snap := Shot(InitState(), [env.first, env.second], 1);
          var opt := RenderOptions(env.ascii, env.color, false, Interval(env.seconds), 80);
          Written(log) == Terminate(LineTexts(snap, opt, env.clock), "\n") && Legible(snap, opt, env.clock))
  }

  /** What a live process leaves: the screen entered once, the frames its surroundings allow and no print; over its
      life it writes the enter sequence, the frames and, when it ends, the leave sequence. */
  predicate LiveOnly(env: Env, outcome: Outcome, log: seq<Event>) {
    && outcome in {Exited(0), Running}
    && Count(log, Enter) == 1 && Frames(log) == FrameLimit(env) && Prints(log) == 0 && Phase(log) > 0
    && Written(log) == "\U{1B}[?1049h\U{1B}[?25l" + FrameTexts(log)
                       + if outcome.Exited? then "\U{1B}[?25h\U{1B}[?1049l" else ""
  }

  /** A whole process, from the host's counters to the terminal: it goes live exactly when neither the one-shot option,
      nor a missing terminal, nor a failed priming read is in the way; whatever the surroundings do, every frame is
      complete and shows its own turn, and for every interface, headline and processor whose counters advance what is
      to be seen adds up to what was counted. */
  method Session(env: Env, mode: Mode) returns (outcome: Outcome, log: seq<Event>, final: Mode)
    ensures env.once || !env.tty || !env.firstCollects || !env.secondCollects ==> PrintOnly(env, outcome, log)
    ensures !env.once && env.tty && env.firstCollects && env.secondCollects ==> LiveOnly(env, outcome, log)
    ensures LegalEnv(env) ==> AllWhole(log)
    ensures forall i :: 0 <= i < |log| && log[i].Frame? ==> Shows(log[..i], log[i], env)
    ensures forall a :: Advances(env, a) ==> Balanced(log, a)
    ensures outcome.Exited? ==> final == mode
  {
    hide *;
    outcome, log, final := Monitor.RunProcess(env, mode);
    if LegalEnv(env) {
      LegalIsWhole(log, env);
    }
    forall i | 0 <= i < |log| && log[i].Frame? ensures Shows(log[..i], log[i], env) {
      FramesShow(log, env, i);
    }
    if env.once || !env.tty || !env.firstCollects || !env.secondCollects {
      PrintOnlyWhen(env, outcome, log);
      forall a | Advances(env, a) ensures Balanced(log, a) {
        PrintIsBalanced(log, env, a);
      }
    } else {
      LiveOnlyWhen(env, outcome, log);
      forall a | Advances(env, a) ensures Balanced(log, a) {
        LiveBalances(log, env, a);
      }
    }
  }

  lemma PrintOnlyWhen(env: Env, outcome: Outcome, log: seq<Event>)
    requires Sound(log) && Faithful(log, env)
    requires outcome == Exited(if env.firstCollects && env.secondCollects then 0 else 1)
    requires Count(log, Enter) == 0 && Frames(log) == 0 && Phase(log) == 0
    requires Prints(log) == if env.firstCollects && env.secondCollects then 1 else 0
    requires Prints(log) == 1 ==>
      && Latest(log).Some?
      && log != []
      && log[|log| - 1] == Once(Kept(OnceBytes(Latest(log).value,
           RenderOptions(env.ascii, env.color, false, ParseInterval(env.seconds), 80), env.clock)))
    ensures PrintOnly(env, outcome, log)
  {
    hide Sound, Faithful, Count, Frames, Phase, Prints, Latest, Kept, OnceBytes, Written, FrameTexts, LegalEnv,
         LineTexts, Terminate, Legal, AllWhole, GoesLive, Legible, Ticks, Shot;
    LogIsWritten(log, env);
    if Prints(log) == 1 {
      PrintIsWritten(log, env);
      OnceIsReady(log, env);
      PrintIsSecond(log, env);
      if LegalEnv(env) {
        LegalIsWhole(log, env);
        WholeOnce(Latest(log).value, OnceOptions(env), env);
        AlwaysLegible(Latest(log).value, OnceOptions(env), env.clock);
      }
    }
  }

  lemma LiveOnlyWhen(env: Env, outcome: Outcome, log: seq<Event>)
    requires Faithful(log, env) && outcome in {Exited(0), Running}
    requires Count(log, Enter) == 1 && Frames(log) == FrameLimit(env) && Prints(log) == 0
    requires Phase(log) == if outcome.Exited? then 2 else 1
    ensures LiveOnly(env, outcome, log)
  {
    hide Faithful, Count, Frames, FrameLimit, Phase, Prints, Written, FrameTexts, GoesLive;
    LogIsWritten(log, env);
  }

  lemma LiveBalances(log: seq<Event>, env: Env, a: Account)
    requires Sound(log) && Faithful(log, env) && Phase(log) > 0 && !Fresh(log) && Advances(env, a)
    ensures Balanced(log, a)
  {
    hide Sound, Faithful, Phase, Ticks, Advances, OnScreen, Moved, Entry, Latest, Prints, Fresh;
    ScreenBalances(log, env, a);
  }

  lemma PrintIsBalanced(log: seq<Event>, env: Env, a: Account)
    requires Sound(log) && Faithful(log, env) && Phase(log) == 0 && Advances(env, a)
    requires Prints(log) > 0 ==> Latest(log).Some? && log[|log| - 1].Once?
    ensures Balanced(log, a)
  {
    hide Sound, Faithful, Phase, Ticks, Advances, OnScreen, Moved, Entry, Latest;
    if Prints(log) > 0 {
      OnceIsReady(log, env);
      PrintBalances(log, env, a);
    }
  }

  lemma WholeOnce(snap: ResourceSnapshot, opt: RenderOptions, env: Env)
    requires Legal(snap) && opt == OnceOptions(env) && LegalEnv(env)
    ensures Kept(OnceBytes(snap, opt, env.clock)) == Terminate(LineTexts(snap, opt, env.clock), "\n")
  {
    hide Legal, FrameLines, Terminate, Kept, FrameBytes, LegalSample;
    NoTruncation(snap, opt, env.clock, false);
    KeepsShort(OnceBytes(snap, opt, env.clock));
    FrameIsTerminated(FrameLines(snap, opt, env.clock), opt.color, false);
  }

  lemma WholeFrame(snap: ResourceSnapshot, opt: RenderOptions, clock: string)
    requires Legal(snap) && LegalView(opt, clock)
    ensures Kept(LiveBytes(snap, opt, clock))
         == HOME + Terminate(LineTexts(snap, opt, clock), ERASE_LINE + "\n") + ERASE_DISPLAY
  {
    hide Legal, FrameLines, Terminate, Kept, FrameBytes;
    NoTruncation(snap, opt, clock, true);
    KeepsShort(LiveBytes(snap, opt, clock));
    FrameIsTerminated(FrameLines(snap, opt, clock), opt.color, true);
  }
}

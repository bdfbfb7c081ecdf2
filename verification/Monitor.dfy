/** src/monitor.c: prime, sleep, sample, then one snapshot or the live loop; a stop signal may arrive anywhere. */
module Monitor {
  import opened Options
  import opened Snapshots
  import opened FrameBuffer
  import opened FrameSize
  import opened Render
  import opened Cpu
  import opened Net
  import opened Collectors
  import opened Runs
  import opened Terminals
  import opened Surroundings
  import opened Logs

  // ---------------------------------------------------------------- the program

  class Program {
    const env: Env
    const collector: Collector
    const term: Terminal
    /** g_stop */
    var stop: bool
    var paused: bool
    var snap: ResourceSnapshot

    ghost function Repr(): set<object> {
      {this, term} + collector.Repr()
    }

    ghost predicate Valid()
      reads Repr()
    {
      && this as object !in collector.Repr() && term as object !in collector.Repr()
      && collector.Valid()
      && Sound(term.log) && collector.Abs() == After(InitState(), Ticks(term.log))
      && (stop <==> Count(term.log, Signal) > 0) && Faithful(term.log, env)
    }

    /** The live loop's invariant, between any two of its steps. */
    ghost predicate Live(mode: Mode)
      reads Repr()
    {
      && Valid() && term.inited && term.atExit && term.Holds(mode)
      && LiveLog(term.log, snap, paused) && FramesAfterSignal(term.log) <= 1 && Prints(term.log) == 0
    }

    /** The same with `n` frames drawn, `k` keys polled and no quit key among them. */
    ghost predicate Shown(mode: Mode, n: nat, k: nat)
      reads Repr()
    {
      Live(mode) && !Quit(term.log) && Frames(term.log) == n && Keys(term.log) == k
    }

    /** The same at the head of turn `i`: no snapshot waits to be drawn and no frame followed a signal. */
    ghost predicate Head(mode: Mode, i: nat)
      requires i <= |env.turns|
      reads Repr()
    {
      Shown(mode, i, i) && FramesAfterSignal(term.log) == 0 && !Fresh(term.log) && paused == PausedAt(env, i)
    }

    /** Why the loop was left after `n` frames: a signal, a quit key, or a failed read where it stands. No snapshot was
        left undrawn. */
    ghost predicate Ended(n: nat)
      reads this, term
    {
      (stop || Quit(term.log) || FailedRead(term.log, env)) && Frames(term.log) == n && !Fresh(term.log)
    }

    /** Nothing drawn or printed and no key polled since. */
    ghost predicate Same(before: seq<Event>)
      reads term
    {
      && Frames(term.log) == Frames(before) && Keys(term.log) == Keys(before) && Quit(term.log) == Quit(before)
      && Prints(term.log) == Prints(before)
    }

    /** collect_init, in a process whose terminal is in `mode`. */
    constructor (env: Env, mode: Mode)
      ensures this.env == env && Valid() && fresh(Repr()) && term.log == [] && !stop && !paused
      ensures term.mode == mode && !term.inited && !term.gotOld && !term.atExit
    {
      this.env := env;
      collector := new Collector();
      term := new Terminal(mode);
      stop := false;
      paused := false;
      snap := ZERO_SNAPSHOT;
      new;
      collector.Init();
    }

    /** on_stop, run at this moment when `arrives`. */
    method OnStop(arrives: bool)
      requires Valid() && (arrives ==> SignalTold(term.log, env))
      modifies `stop, term`log
      ensures Valid() && term.log == (if arrives then old(term.log) + [Signal] else old(term.log))
      ensures stop == (old(stop) || arrives)
      ensures Same(old(term.log))
    {
      hide CpuCounters.State, NetTable.Entries, After, Collector.Abs, Collector.Valid, Sound, Count, Ticks, Latest,
           Fresh, FramesAfterSignal, Phase, SpacesHit, LiveLog, ShotOk, FrameOk, Faithful, SignalTold, Frames, Keys,
           Prints, Quit;
      if arrives {
        FaithfulSnoc(term.log, Signal, env);
        SnocPlain(term.log, Signal);
        stop := true;
        term.Note(Signal);
      }
    }

    /** collect_snapshot into `snap`. */
    method Collect(t: Tick)
      requires Valid() && TickTold(term.log, t, env)
      modifies Repr()
      ensures Same(old(term.log))
      ensures Valid() && stop == old(stop) && paused == old(paused)
      ensures term.log == old(term.log) + [Collected(t, snap)] && ShotOk(old(term.log), Collected(t, snap))
      ensures snap.primed == (old(Ticks(term.log)) != [])
      ensures term.mode == old(term.mode) && term.inited == old(term.inited) && term.gotOld == old(term.gotOld)
      ensures term.saved == old(term.saved) && term.atExit == old(term.atExit)
    {
      hide Collector.Abs, Collector.Valid;
      hide After, Step, Sound, Count, Ticks, InitState, Faithful, TickTold, Frames, Keys, Prints, Quit;
      ghost var ticks := Ticks(term.log);
      ShotPrimed(ticks, t);
      AfterSnoc(InitState(), ticks, t);
      snap := collector.Snapshot(t.sample, t.now);
      SnocShot(term.log, Collected(t, snap));
      FaithfulSnoc(term.log, Collected(t, snap), env);
      term.Note(Collected(t, snap));
    }

    method CollectLive(t: Tick)
      requires Valid() && LiveLog(term.log, snap, paused)
      requires TickTold(term.log, t, env)
      modifies Repr()
      ensures Same(old(term.log))
      ensures Valid() && LiveLog(term.log, snap, paused) && Fresh(term.log)
      ensures stop == old(stop) && paused == old(paused)
      ensures FramesAfterSignal(term.log) == FramesAfterSignal(old(term.log))
      ensures term.mode == old(term.mode) && term.inited == old(term.inited) && term.gotOld == old(term.gotOld)
      ensures term.saved == old(term.saved) && term.atExit == old(term.atExit)
    {
      ghost var before := term.log;
      assert Ticks(before) != [] by {
        LatestHasTick(before);
      }
      hide CpuCounters.State, NetTable.Entries, After, Collector.Abs, Collector.Valid, Sound, Count, Ticks, Latest,
           Fresh, FramesAfterSignal, Phase, ShotOk, Faithful, TickTold, Frames, Keys, Prints, Quit, SpacesHit;
      Collect(t);
      SnocShot(before, Collected(t, snap));
    }

    method SignalLive(arrives: bool)
      requires Valid() && LiveLog(term.log, snap, paused) && (arrives ==> SignalTold(term.log, env))
      modifies `stop, term`log
      ensures Valid() && LiveLog(term.log, snap, paused) && Fresh(term.log) == Fresh(old(term.log))
      ensures FramesAfterSignal(term.log) == FramesAfterSignal(old(term.log)) && stop == (old(stop) || arrives)
      ensures Same(old(term.log))
    {
      hide CpuCounters.State, NetTable.Entries, After, Collector.Abs, Collector.Valid, Sound, Count, Ticks, Latest,
           Fresh, FramesAfterSignal, Phase, Faithful, SignalTold, Frames, Keys, Prints, Quit, SpacesHit;
      SnocPlain(term.log, Signal);
      PhasePlain(term.log, Signal);
      OnStop(arrives);
    }

    /** render_dashboard: the frame is composed and written in one piece. */
    method Draw(opt: RenderOptions, clock: string)
      requires Valid() && LiveLog(term.log, snap, paused) && opt.paused == paused
      requires (Fresh(term.log) <==> !paused) && !Quit(term.log)
      requires FrameTold(term.log, opt, clock, env)
      modifies term`log
      ensures Valid() && LiveLog(term.log, snap, paused) && !Fresh(term.log)
      ensures FramesAfterSignal(term.log) == FramesAfterSignal(old(term.log)) + if stop then 1 else 0
      ensures Frames(term.log) == Frames(old(term.log)) + 1 && Keys(term.log) == Keys(old(term.log))
      ensures Quit(term.log) == Quit(old(term.log)) && Prints(term.log) == Prints(old(term.log))
    {
      hide CpuCounters.State, NetTable.Entries, After, Collector.Abs, Collector.Valid, LiveBytes, Kept, FrameOk,
           LiveLog, SpacesHit, Sound, Count, Ticks, Latest, Fresh, FramesAfterSignal, Phase, Legal, LegalView,
           LineTexts, Terminate, Faithful, FrameTold, Frames, Keys, Prints, Quit;
      var text := RenderDashboard(snap, opt, clock);
      WidthTold(term.log, opt, clock, env);
      FrameIsOk(term.log, snap, paused, opt, clock, text);
      Drawn(term.log, snap, paused, Frame(text, snap, opt, clock));
      SnocFrame(term.log, Frame(text, snap, opt, clock));
      FaithfulSnoc(term.log, Frame(text, snap, opt, clock), env);
      term.Note(Frame(text, snap, opt, clock));
    }

    /** A key that term_poll_key returned and the loop looked at; 0 is none. */
    method Press(key: int)
      requires Valid() && LiveLog(term.log, snap, paused) && KeyTold(term.log, key, env)
      modifies `paused, term`log
      ensures Valid() && LiveLog(term.log, snap, paused) && term.log == old(term.log) + [Key(key)]
      ensures Fresh(term.log) == Fresh(old(term.log)) && FramesAfterSignal(term.log) == FramesAfterSignal(old(term.log))
      ensures Frames(term.log) == Frames(old(term.log)) && Keys(term.log) == Keys(old(term.log)) + 1
      ensures Prints(term.log) == Prints(old(term.log))
      ensures Quit(term.log) == (Quits(key) || Quit(old(term.log))) && paused == (old(paused) != Space(key))
    {
      hide CpuCounters.State, NetTable.Entries, After, Collector.Abs, Collector.Valid, Sound, Count, Ticks, Latest,
           Fresh, FramesAfterSignal, Phase, SpacesHit, LiveLog, ShotOk, FrameOk, Faithful, KeyTold, Frames, Keys,
           Prints, Quit;
      Pressed(term.log, snap, paused, key);
      SnocPlain(term.log, Key(key));
      FaithfulSnoc(term.log, Key(key), env);
      term.Note(Key(key));
      if key == ' ' as int {
        paused := !paused;
      }
    }

    /** Turn `i` up to its frame: a new snapshot unless paused. */
    method Refresh(i: nat, ghost mode: Mode)
      requires i < |env.turns| && Head(mode, i) && (paused || env.turns[i].collects)
      modifies Repr()
      ensures Shown(mode, i, i) && FramesAfterSignal(term.log) == 0 && (Fresh(term.log) <==> !paused)
      ensures paused == old(paused) && stop == (old(stop) || env.turns[i].signalMiddle)
    {
      hide CpuCounters.State, NetTable.Entries, After, Collector.Abs, Collector.Valid, Sound, Count, Ticks, Latest,
           Fresh, FramesAfterSignal, Phase, ShotOk, LiveLog, SpacesHit, Faithful, Frames, Keys, Prints, Quit,
           FrameTold, TickTold, KeyTold, SignalTold, PausedAt, Program.Valid;
      LivePhase(term.log, snap, paused);
      if !paused {
        TurnTold(term.log, env, i, paused);
        CollectLive(env.turns[i].tick);
        LivePhase(term.log, snap, paused);
      }
      TurnTold(term.log, env, i, paused);
      SignalLive(env.turns[i].signalMiddle);
    }

    /** The frame of turn `i`, and the poll during which a signal may arrive. */
    method Show(i: nat, opt: RenderOptions, ghost mode: Mode)
      requires i < |env.turns| && Shown(mode, i, i) && FramesAfterSignal(term.log) == 0
      requires Fresh(term.log) <==> !paused
      requires opt == TurnOptions(env, i, paused) && paused == PausedAt(env, i)
      modifies `stop, term`log
      ensures Shown(mode, i + 1, i) && !Fresh(term.log) && (!stop ==> FramesAfterSignal(term.log) == 0)
      ensures stop == (old(stop) || env.turns[i].signalLast)
    {
      hide CpuCounters.State, NetTable.Entries, After, Collector.Abs, Collector.Valid, Sound, Count, Ticks, Latest,
           Fresh, FramesAfterSignal, Phase, ShotOk, LiveLog, SpacesHit, Faithful, Frames, Keys, Prints, Quit,
           FrameTold, TickTold, KeyTold, SignalTold, Columns, ParseInterval, Program.Valid;
      LivePhase(term.log, snap, paused);
      TurnTold(term.log, env, i, paused);
      Draw(opt, env.turns[i].clock);
      LivePhase(term.log, snap, paused);
      TurnTold(term.log, env, i, paused);
      SignalLive(env.turns[i].signalLast);
    }

    /** Snapshot, frame and poll of turn `i`. */
    method Redraw(i: nat, opt: RenderOptions, ghost mode: Mode)
      requires i < |env.turns| && Head(mode, i) && (paused || env.turns[i].collects)
      requires opt == TurnOptions(env, i, paused)
      modifies Repr()
      ensures Shown(mode, i + 1, i) && !Fresh(term.log) && (!stop ==> FramesAfterSignal(term.log) == 0)
      ensures paused == old(paused) && stop == (old(stop) || env.turns[i].signalMiddle || env.turns[i].signalLast)
    {
      hide CpuCounters.State, NetTable.Entries, After, Collector.Abs, Collector.Valid, Sound, Count, Ticks, Latest,
           Fresh, FramesAfterSignal, Phase, ShotOk, LiveLog, SpacesHit, Faithful, Frames, Keys, Prints, Quit,
           PausedAt, Columns, ParseInterval, Program.Valid, Program.Live;
      Refresh(i, mode);
      Show(i, opt, mode);
    }

    /** The key of turn `i`: whether the loop goes on. */
    method Obey(i: nat, ghost mode: Mode) returns (again: bool)
      requires i < |env.turns| && Shown(mode, i + 1, i) && !Fresh(term.log) && FramesAfterSignal(term.log) == 0
      requires paused == PausedAt(env, i)
      modifies `paused, term`log
      ensures Live(mode) && stop == old(stop) && again == !Quits(env.turns[i].key)
      ensures if again then Head(mode, i + 1) else Ended(i + 1)
    {
      hide CpuCounters.State, NetTable.Entries, After, Collector.Abs, Collector.Valid, Sound, Count, Ticks, Latest,
           Fresh, FramesAfterSignal, Phase, ShotOk, LiveLog, SpacesHit, Faithful, Frames, Keys, Prints, Quit,
           FrameTold, TickTold, KeyTold, SignalTold, Program.Valid;
      LivePhase(term.log, snap, paused);
      TurnTold(term.log, env, i, paused);
      var key := env.turns[i].key;
      Press(key);
      again := key != 'q' as int && key != 'Q' as int && key != 3;
    }

    /** Turn `i` of the loop after its test; false when it breaks. */
    method TakeTurn(i: nat, ghost mode: Mode) returns (again: bool)
      requires i < |env.turns| && Head(mode, i) && !stop && !env.turns[i].signalFirst
      modifies Repr()
      ensures Live(mode) && again == (!Dark(env, i) && !Final(env, i))
      ensures if again then Head(mode, i + 1) && !stop else Ended(if Dark(env, i) then i else i + 1)
    {
      var turn := env.turns[i];
      hide CpuCounters.State, NetTable.Entries, After, Collector.Abs, Collector.Valid, Sound, Count, Ticks, Latest,
           Fresh, FramesAfterSignal, Phase, ShotOk, LiveLog, SpacesHit, Faithful, Frames, Keys, Prints, Quit,
           FrameTold, TickTold, KeyTold, SignalTold, FailedRead, PausedAt, Quits, Columns, ParseInterval,
           Program.Valid, Program.Live;
      var opt := RenderOptions(env.ascii, env.color, paused, ParseInterval(env.seconds), Columns(turn.size));
      if !paused && !turn.collects {
        StopsHere(mode, i);
        return false;
      }
      Redraw(i, opt, mode);
      if stop {
        return false;
      }
      again := Obey(i, mode);
    }

    lemma StopsHere(mode: Mode, i: nat)
      requires i < |env.turns| && Head(mode, i) && !paused && !env.turns[i].collects
      ensures Ended(i)
    {
      hide Program.Valid, LiveLog, FailedRead, PausedAt, Frames, Keys, Prints, Quit, Fresh, FramesAfterSignal;
      FailsHere(term.log, snap, paused, env);
    }

    /** A signal between the end of a turn and the loop's test. */
    method Arrive(i: nat, ghost mode: Mode)
      requires i < |env.turns| && Head(mode, i)
      modifies `stop, term`log
      ensures Head(mode, i) && stop == (old(stop) || env.turns[i].signalFirst)
    {
      hide Program.Valid, LiveLog, Frames, Keys, Prints, Quit, Fresh, FramesAfterSignal, Phase, PausedAt, SignalTold,
           TickTold, FrameTold, KeyTold;
      LivePhase(term.log, snap, paused);
      TurnTold(term.log, env, i, paused);
      SignalLive(env.turns[i].signalFirst);
    }

    /** The loop's test at turn `i`, and the turn. */
    method Pass(i: nat, ghost mode: Mode) returns (again: bool)
      requires i < |env.turns| && Head(mode, i)
      modifies Repr()
      ensures Live(mode) && again == (!old(stop) && !Dark(env, i) && !Final(env, i))
      ensures if again then Head(mode, i + 1) && !stop else Ended(if old(stop) || Dark(env, i) then i else i + 1)
    {
      hide Phase, LiveLog, Fresh, FramesAfterSignal, Frames, Keys, Prints, Quit, Quits, PausedAt, FailedRead,
           Program.Valid, Program.Live;
      Arrive(i, mode);
      if stop {
        return false;
      }
      again := TakeTurn(i, mode);
    }

    /** The loop itself; `over` is false when the process is still in it after the turns given. */
    method Loop(ghost mode: Mode) returns (over: bool)
      requires Head(mode, 0) && stop == env.signalEarly
      modifies Repr()
      ensures Live(mode) && over == !Undisturbed(env, |env.turns|)
      ensures if over then Ended(FrameLimit(env)) else Frames(term.log) == |env.turns| == FrameLimit(env)
      ensures !over ==> !stop && !Quit(term.log) && !Fresh(term.log)
    {
      hide Phase, LiveLog, Fresh, FramesAfterSignal, Frames, Keys, Prints, Quit, Dark, Final, PausedAt, FailedRead,
           Program.Valid, Program.Live;
      var i := 0;
      while i < |env.turns|
        invariant 0 <= i <= |env.turns| && Head(mode, i) && (stop <==> !Undisturbed(env, i))
        invariant FrameLimit(env) == i + if stop then 0 else FramesFrom(env, i)
      {
        var again := Pass(i, mode);
        if !again {
          DisturbedStays(env, i + 1, |env.turns|);
          return true;
        }
        i := i + 1;
      }
      over := stop;
    }

    /** Priming: a snapshot that stores counters, the sleep, and a snapshot that has rates. */
    method Prime()
      requires Valid() && term.log == [] && !stop && !paused && env.firstCollects && env.secondCollects
      modifies Repr()
      ensures stop == env.signalEarly && Keys(term.log) == 0 && Prints(term.log) == 0 && |Ticks(term.log)| == 2
      ensures Valid() && !paused && Phase(term.log) == 0 && FramesAfterSignal(term.log) == 0 && SpacesHit(term.log) == 0
      ensures Latest(term.log) == Some(snap) && snap.primed && Frames(term.log) == 0 && !Quit(term.log)
      ensures term.mode == old(term.mode) && term.inited == old(term.inited) && term.gotOld == old(term.gotOld)
    {
      hide CpuCounters.State, NetTable.Entries, After, Collector.Abs, Collector.Valid, Sound, Count, Ticks, Latest,
           Fresh, FramesAfterSignal, Phase, SpacesHit, LiveLog, ShotOk, FrameOk, Faithful, Frames, Keys, Prints, Quit,
           TickTold, SignalTold;
      EmptyLog();
      FirstTold(env);
      Collect(env.first);
      ghost var a := term.log;
      SnocShot([], Collected(env.first, snap));
      assert a == [] + [Collected(env.first, snap)];
      SecondTold(a, env);
      OnStop(env.signalEarly);
      ghost var b := term.log;
      SnocPlain(a, Signal);
      PhasePlain(a, Signal);
      SecondTold(b, env);
      Collect(env.second);
      SnocShot(b, Collected(env.second, snap));
    }

    /** One-shot mode: the snapshot of the second priming read, printed once. */
    method PrintOnce()
      requires Valid() && Phase(term.log) == 0 && FramesAfterSignal(term.log) == 0 && Latest(term.log) == Some(snap)
      requires snap.primed && Ready(term.log, env) && !GoesLive(env) && Prints(term.log) == 0
      modifies term
      ensures Sound(term.log) && Faithful(term.log, env) && FramesAfterSignal(term.log) == 0
      ensures Phase(term.log) == 0 && Frames(term.log) == old(Frames(term.log)) && Prints(term.log) == 1
      ensures term.log == old(term.log) + [Once(Kept(OnceBytes(snap, OnceOptions(env), env.clock)))]
      ensures Latest(term.log) == Some(snap) && term.mode == old(term.mode)
    {
      hide CpuCounters.State, NetTable.Entries, After, Collector.Abs, Collector.Valid, Sound, Count, Ticks, Latest,
           Fresh, FramesAfterSignal, Phase, SpacesHit, LiveLog, ShotOk, FrameOk, Faithful, Frames, Keys, Prints, Quit,
           OnceBytes, Kept;
      var opt := RenderOptions(env.ascii, env.color, false, ParseInterval(env.seconds), 80);
      var text := RenderOnce(snap, opt, env.clock);
      SnocPlain(term.log, Once(text));
      FaithfulSnoc(term.log, Once(text), env);
      PhaseOnce(term.log, text);
      term.Note(Once(text));
    }

    /** term_init after priming: from a plain screen to the head of the loop. */
    method EnterLive(ghost mode: Mode)
      requires Valid() && Phase(term.log) == 0 && !term.inited && !term.gotOld && term.mode == mode && !paused
      requires Latest(term.log) == Some(snap) && snap.primed && SpacesHit(term.log) == 0
      requires FramesAfterSignal(term.log) == 0 && Frames(term.log) == 0 && Keys(term.log) == 0 && !Quit(term.log)
      requires Ready(term.log, env) && GoesLive(env) && Prints(term.log) == 0
      modifies term
      ensures Head(mode, 0)
    {
      Entered(term.log, snap);
      FaithfulSnoc(term.log, Enter, env);
      hide CpuCounters.State, NetTable.Entries, After, Collector.Abs, Collector.Valid, Sound, Count, Ticks, Latest,
           Fresh, FramesAfterSignal, Phase, SpacesHit, Faithful, Frames, Keys, Prints, Quit, LiveLog;
      SnocPlain(term.log, Enter);
      term.Init(env.readable);
    }

    /** term_restore, and then the handler that term_init registered. */
    method LeaveLive(ghost mode: Mode)
      requires Live(mode)
      modifies term
      ensures Sound(term.log) && Phase(term.log) == 2 && FramesAfterSignal(term.log) <= 1 && term.mode == mode
      ensures Faithful(term.log, env) && term.log == old(term.log) + [Leave]
    {
      LivePhase(term.log, snap, paused);
      FaithfulSnoc(term.log, Leave, env);
      hide Sound, Count, Ticks, Latest, Fresh, FramesAfterSignal, Phase, SpacesHit, Faithful, Frames, Keys, Prints,
           Quit;
      SnocPlain(term.log, Leave);
      PhaseMarks(term.log);
      term.Restore();
      term.Exit();
    }
  }

  method Process(env: Env, mode: Mode) returns (outcome: Outcome, log: seq<Event>, final: Mode)
    ensures Sound(log) && Faithful(log, env) && FramesAfterSignal(log) <= 1
    ensures !GoesLive(env) ==> outcome.Exited? && Phase(log) == 0
    ensures GoesLive(env) ==> Phase(log) == if outcome.Exited? then 2 else 1
    ensures outcome.Exited? ==> final == mode
    ensures outcome.Exited? ==> outcome == Exited(if env.firstCollects && env.secondCollects then 0 else 1)
    ensures Frames(log) == if GoesLive(env) then FrameLimit(env) else 0
    ensures outcome.Running? <==> GoesLive(env) && Undisturbed(env, |env.turns|)
    ensures GoesLive(env) && outcome.Exited? ==> Count(log, Signal) > 0 || Quit(log) || FailedRead(log, env)
    ensures outcome.Running? ==> Count(log, Signal) == 0 && !Quit(log)
    ensures Prints(log) == if env.firstCollects && env.secondCollects && !GoesLive(env) then 1 else 0
    ensures GoesLive(env) ==> !Fresh(log)
    ensures env.firstCollects && env.secondCollects && !GoesLive(env) ==>
      && log != [] && Latest(log).Some? && Latest(log).value.primed
      && log[|log| - 1] == Once(Kept(OnceBytes(Latest(log).value, OnceOptions(env), env.clock)))
  {
    hide CpuCounters.State, NetTable.Entries, After, Collector.Abs, Collector.Valid, OnceBytes, LiveBytes, Kept,
         ShotOk, Undisturbed, FrameLimit, FailedRead, ParseInterval;
    var p := new Program(env, mode);
    EmptyLog();
    if !env.firstCollects {
      return Exited(1), p.term.log, p.term.mode;
    }
    FirstTold(env);
    hide Phase, Latest, FramesAfterSignal, Sound, SpacesHit, Count, Ticks, Faithful, Frames, Keys, Prints, Quit,
         LiveBytes, Told, Fresh;
    if !env.secondCollects {
      p.Collect(env.first);
      SnocShot([], Collected(env.first, p.snap));
      assert p.term.log == [] + [Collected(env.first, p.snap)];
      return Exited(1), p.term.log, p.term.mode;
    }
    p.Prime();
    if env.once || !env.tty {
      p.PrintOnce();
      return Exited(0), p.term.log, p.term.mode;
    }
    outcome, log, final := LiveProcess(p, mode);
  }

  /** From term_init to the end of the process. */
  method LiveProcess(p: Program, ghost mode: Mode) returns (outcome: Outcome, log: seq<Event>, final: Mode)
    requires p.Valid() && Phase(p.term.log) == 0 && !p.term.inited && !p.term.gotOld && p.term.mode == mode && !p.paused
    requires Latest(p.term.log) == Some(p.snap) && p.snap.primed && SpacesHit(p.term.log) == 0
    requires FramesAfterSignal(p.term.log) == 0 && Frames(p.term.log) == 0 && Keys(p.term.log) == 0 && !Quit(p.term.log)
    requires p.stop == p.env.signalEarly && Ready(p.term.log, p.env) && GoesLive(p.env) && Prints(p.term.log) == 0
    modifies p.Repr()
    ensures Sound(log) && Faithful(log, p.env) && FramesAfterSignal(log) <= 1
    ensures Phase(log) == if outcome.Exited? then 2 else 1
    ensures outcome.Exited? ==> outcome == Exited(0) && final == mode
    ensures Frames(log) == FrameLimit(p.env) && (outcome.Running? <==> Undisturbed(p.env, |p.env.turns|))
    ensures outcome.Exited? ==> Count(log, Signal) > 0 || Quit(log) || FailedRead(log, p.env)
    ensures outcome.Running? ==> Count(log, Signal) == 0 && !Quit(log)
    ensures Prints(log) == 0 && !Fresh(log)
  {
    hide Phase, Latest, FramesAfterSignal, Sound, SpacesHit, Count, Ticks, Faithful, Frames, Keys, Prints, Quit,
         Fresh, LiveLog, CpuCounters.State, NetTable.Entries, After, Collector.Abs, Collector.Valid;
    p.EnterLive(mode);
    var over := p.Loop(mode);
    LiveFacts(p, mode);
    SnocPlain(p.term.log, Leave);
    FaithfulSnoc(p.term.log, Leave, p.env);
    LeftWhere(p.term.log, p.env);
    if over {
      p.LeaveLive(mode);
      return Exited(0), p.term.log, p.term.mode;
    }
    return Running, p.term.log, p.term.mode;
  }

  lemma LiveFacts(p: Program, mode: Mode)
    requires p.Live(mode)
    ensures Sound(p.term.log) && Phase(p.term.log) == 1 && FramesAfterSignal(p.term.log) <= 1 && Prints(p.term.log) == 0
    ensures Faithful(p.term.log, p.env) && (p.stop <==> Count(p.term.log, Signal) > 0)
  {
  }

  /** main: every process, whatever its surroundings do. The alternate screen is entered once and left once,
      all frames lie between, the terminal mode is back at every exit, once and non-TTY runs touch neither.
      The number of frames is what the surroundings alone allow: a stop signal, a quit key or a failed read ends the
      loop at its turn. Every turn is drawn once and polled once, at most one frame follows a stop signal and none
      a quit key, what is printed is sound, and the process is still running exactly when nothing disturbed it. */
  method RunProcess(env: Env, mode: Mode) returns (outcome: Outcome, log: seq<Event>, final: Mode)
    ensures outcome.Exited? ==> outcome == Exited(if env.firstCollects && env.secondCollects then 0 else 1)
    ensures env.once || !env.tty || !env.firstCollects || !env.secondCollects ==>
      && Count(log, Enter) == Count(log, Leave) == Frames(log) == Phase(log) == 0 && outcome.Exited?
      && Prints(log) == if env.firstCollects && env.secondCollects then 1 else 0
    ensures !env.once && env.tty && env.firstCollects && env.secondCollects ==>
      && Count(log, Enter) == 1 && Count(log, Leave) == (if outcome.Exited? then 1 else 0)
      && Prints(log) == 0 && Frames(log) == FrameLimit(env)
      && Phase(log) == (if outcome.Exited? then 2 else 1) && !Fresh(log)
      && (outcome.Running? <==> Undisturbed(env, |env.turns|))
      && (outcome.Running? ==> Count(log, Signal) == 0 && !Quit(log))
      && (outcome.Exited? ==> Count(log, Signal) > 0 || Quit(log) || FailedRead(log, env))
    ensures Bracketed(log) && Sound(log) && Faithful(log, env) && FramesAfterSignal(log) <= 1
    ensures outcome.Exited? ==> final == mode
    ensures Prints(log) == 1 ==>
      && log != [] && Latest(log).Some? && Latest(log).value.primed
      && log[|log| - 1] == Once(Kept(OnceBytes(Latest(log).value,
           RenderOptions(env.ascii, env.color, false, ParseInterval(env.seconds), 80), env.clock)))
  {
    hide Phase, Count, Sound, FramesAfterSignal, Bracketed, Latest, OnceBytes, Kept, Faithful, Frames, Keys, Prints,
         Quit;
    outcome, log, final := Process(env, mode);
    LiveMeans(env);
    PhaseMeans(log);
  }
}

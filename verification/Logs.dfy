/** What a process does as a log of events, and the laws its log obeys. */
module Logs {
  import opened Options
  import opened Decimal
  import opened Snapshots
  import opened FrameBuffer
  import opened Render
  import opened Net
  import opened Collectors
  import opened Runs
  import opened Surroundings
  import opened Terminals

  function ParseInterval(v: real): (r: real)
    ensures 0.2 <= r <= 60.0
    ensures 0.2 <= v <= 60.0 ==> r == v
  {
    if v < 0.2 then 0.2 else if v > 60.0 then 60.0 else v
  }

  /** No permitted interval is closer to the one asked for. */
  lemma IntervalNearest(v: real, p: real)
    requires 0.2 <= p <= 60.0
    ensures Abs(v - ParseInterval(v)) <= Abs(v - p)
  {
  }

  /** memset(&snap, 0, sizeof(snap)) */
  const ZERO_SNAPSHOT: ResourceSnapshot :=
    ResourceSnapshot(Facts("", "", "", "", "", 0, 0, 0, 0, 0.0, 0.0, 0.0, false, 0, 0, false, 0, false, false),
                     0, 0.0, [], [], [], 0.0, false)

  datatype Outcome = Exited(code: int) | Running

  // ---------------------------------------------------------------- what a log says

  function Count(log: seq<Event>, e: Event): nat {
    if log == [] then 0 else Count(log[..|log| - 1], e) + if log[|log| - 1] == e then 1 else 0
  }

  function SpacesHit(log: seq<Event>): nat {
    Count(log, Key(' ' as int))
  }

  /** The latest snapshot taken. */
  function Latest(log: seq<Event>): Option<ResourceSnapshot> {
    if log == [] then None
    else if log[|log| - 1].Collected? then Some(log[|log| - 1].shot)
    else Latest(log[..|log| - 1])
  }

  /** Whether a snapshot was taken since the last frame. */
  function Fresh(log: seq<Event>): bool {
    if log == [] then false
    else if log[|log| - 1].Collected? then true
    else if log[|log| - 1].Frame? || log[|log| - 1].Enter? then false
    else Fresh(log[..|log| - 1])
  }

  /** The reads behind the snapshots of the log. */
  function Ticks(log: seq<Event>): seq<Tick> {
    if log == [] then []
    else
      var t, e := Ticks(log[..|log| - 1]), log[|log| - 1];
      if e.Collected? then t + [e.tick] else t
  }

  function FramesAfterSignal(log: seq<Event>): nat {
    if log == [] then 0
    else
      var front := log[..|log| - 1];
      FramesAfterSignal(front) + if log[|log| - 1].Frame? && Count(front, Signal) > 0 then 1 else 0
  }

  function Frames(log: seq<Event>): nat {
    if log == [] then 0 else Frames(log[..|log| - 1]) + if log[|log| - 1].Frame? then 1 else 0
  }

  /** How often the keyboard was polled to the end. */
  function Keys(log: seq<Event>): nat {
    if log == [] then 0 else Keys(log[..|log| - 1]) + if log[|log| - 1].Key? then 1 else 0
  }

  predicate QuitKey(e: Event) {
    e.Key? && Quits(e.key)
  }

  predicate Quit(log: seq<Event>) {
    log != [] && (QuitKey(log[|log| - 1]) || Quit(log[..|log| - 1]))
  }

  /** The n-th frame shows the size and the clock of the n-th turn, once the keys of all earlier turns are in. */
  predicate FrameTold(before: seq<Event>, opt: RenderOptions, clock: string, env: Env) {
    var n := Frames(before);
    Phase(before) == 1 && n < |env.turns| && Keys(before) == n && clock == env.turns[n].clock
    && opt == RenderOptions(env.ascii, env.color, PausedAt(env, n), ParseInterval(env.seconds),
                            Columns(env.turns[n].size))
  }

  /** The priming snapshots use the first two reads, one on the alternate screen that of the turn it is drawn in,
      and no turn is read twice; a failed read gives no snapshot. */
  predicate TickTold(before: seq<Event>, tick: Tick, env: Env) {
    var n := Frames(before);
    if Phase(before) == 0 then
      if Ticks(before) == [] then tick == env.first && env.firstCollects
      else |Ticks(before)| == 1 && tick == env.second && env.secondCollects
    else Phase(before) == 1 && !Fresh(before) && n < |env.turns| && tick == env.turns[n].tick && env.turns[n].collects
  }

  /** Every turn's key follows its frame, one key a turn. */
  predicate KeyTold(before: seq<Event>, key: int, env: Env) {
    var n := Frames(before);
    Phase(before) == 1 && 0 < n <= |env.turns| && Keys(before) == n - 1 && key == env.turns[n - 1].key
  }

  /** A stop signal is logged only where the surroundings put one: between the priming snapshots, in a turn before
      its frame, or during its poll. A snapshot that waits to be drawn tells the first two places of a turn apart. */
  predicate SignalTold(before: seq<Event>, env: Env) {
    var n, k := Frames(before), Keys(before);
    if Phase(before) == 0 then |Ticks(before)| == 1 && env.signalEarly
    else if Phase(before) != 1 then false
    else if k == n then
      n < |env.turns| && (env.turns[n].signalMiddle || (env.turns[n].signalFirst && !Fresh(before)))
    else k + 1 == n <= |env.turns| && env.turns[k].signalLast
  }

  /** What once and non-TTY runs print. */
  function OnceOptions(env: Env): RenderOptions {
    RenderOptions(env.ascii, env.color, false, ParseInterval(env.seconds), 80)
  }

  /** How often a snapshot was printed once and for all. */
  function Prints(log: seq<Event>): nat {
    if log == [] then 0 else Prints(log[..|log| - 1]) + if log[|log| - 1].Once? then 1 else 0
  }

  /** Priming is over and the alternate screen was not entered. */
  predicate Ready(before: seq<Event>, env: Env) {
    Phase(before) == 0 && |Ticks(before)| == 2 && env.firstCollects && env.secondCollects
  }

  /** The one print of a process that does not go live: the second, primed, snapshot in full. */
  predicate OnceTold(before: seq<Event>, text: string, env: Env) {
    && Ready(before, env) && !GoesLive(env) && Prints(before) == 0
    && Latest(before).Some? && Latest(before).value.primed
    && text == Kept(OnceBytes(Latest(before).value, OnceOptions(env), env.clock))
  }

  /** The event comes from the surroundings. */
  predicate Told(before: seq<Event>, e: Event, env: Env) {
    match e
    case Frame(_, _, opt, clock) => FrameTold(before, opt, clock, env)
    case Collected(tick, _) => TickTold(before, tick, env)
    case Key(key) => KeyTold(before, key, env)
    case Signal => SignalTold(before, env)
    case Once(text) => OnceTold(before, text, env)
    case Enter => Ready(before, env) && GoesLive(env)
    case Leave => Phase(before) == 1
  }

  predicate Faithful(log: seq<Event>, env: Env) {
    log != [] ==> Faithful(log[..|log| - 1], env) && Told(log[..|log| - 1], log[|log| - 1], env)
  }

  lemma WidthTold(log: seq<Event>, opt: RenderOptions, clock: string, env: Env)
    requires FrameTold(log, opt, clock, env)
    ensures 60 <= opt.cols <= 240
  {
  }

  /** When each event can come. */
  lemma ToldWhen(before: seq<Event>, e: Event, env: Env)
    requires Told(before, e, env)
    ensures e.Enter? ==> Phase(before) == 0 && |Ticks(before)| == 2 && GoesLive(env)
    ensures e.Once? ==> Phase(before) == 0 && !GoesLive(env)
    ensures e.Frame? || e.Key? || e.Leave? ==> Phase(before) == 1
    ensures e.Collected? ==> if Phase(before) == 0 then |Ticks(before)| < 2 else Phase(before) == 1 && !Fresh(before)
  {
    hide Phase, Ticks, Fresh, Frames, Keys, Prints, Latest, OnceBytes, Kept;
  }

  lemma OnceIsReady(log: seq<Event>, env: Env)
    requires Faithful(log, env) && log != [] && log[|log| - 1].Once?
    ensures |Ticks(log)| == 2
  {
    hide Phase, Frames, Keys, Prints, Latest, OnceBytes, Kept;
  }

  /** What turn `i` tells: the options of its frame, its read, and its key once it is drawn. */
  function TurnOptions(env: Env, i: nat, paused: bool): RenderOptions
    requires i < |env.turns|
  {
    RenderOptions(env.ascii, env.color, paused, ParseInterval(env.seconds), Columns(env.turns[i].size))
  }

  lemma TurnTold(log: seq<Event>, env: Env, i: nat, paused: bool)
    requires i < |env.turns|
    requires Phase(log) == 1
    ensures Frames(log) == i == Keys(log) && paused == PausedAt(env, i) ==>
      FrameTold(log, TurnOptions(env, i, paused), env.turns[i].clock, env)
    ensures Frames(log) == i && !Fresh(log) && env.turns[i].collects ==>
      TickTold(log, env.turns[i].tick, env)
    ensures Frames(log) == i + 1 && Keys(log) == i ==> KeyTold(log, env.turns[i].key, env)
    ensures Frames(log) == i == Keys(log) ==>
      && (!Fresh(log) && env.turns[i].signalFirst ==> SignalTold(log, env))
      && (env.turns[i].signalMiddle ==> SignalTold(log, env))
    ensures Frames(log) == i + 1 && Keys(log) == i && env.turns[i].signalLast ==> SignalTold(log, env)
  {
  }

  /** The read of the turn the log stands at fails, and the loop is not paused. */
  predicate FailedRead(log: seq<Event>, env: Env) {
    var n := Frames(log);
    n < |env.turns| && !env.turns[n].collects && SpacesHit(log) % 2 == 0
  }

  lemma FirstTold(env: Env)
    requires env.firstCollects
    ensures TickTold([], env.first, env)
  {
  }

  lemma SecondTold(log: seq<Event>, env: Env)
    requires Phase(log) == 0 && |Ticks(log)| == 1 && env.secondCollects
    ensures TickTold(log, env.second, env)
    ensures env.signalEarly ==> SignalTold(log, env)
  {
  }

  lemma FaithfulSnoc(log: seq<Event>, e: Event, env: Env)
    requires Told(log, e, env)
    ensures Faithful(log + [e], env) == Faithful(log, env)
    ensures Frames(log + [e]) == Frames(log) + if e.Frame? then 1 else 0
    ensures Quit(log + [e]) == (QuitKey(e) || Quit(log))
    ensures Keys(log + [e]) == Keys(log) + if e.Key? then 1 else 0
    ensures Prints(log + [e]) == Prints(log) + if e.Once? then 1 else 0
  {
    Snoc(log, e);
    hide Told;
  }

  /** A frame is drawn from the latest snapshot, which is primed; it is paused exactly after an odd number of
      accepted spaces, and was collected for this very frame exactly when it is not paused; no quit key came before. */
  predicate FrameOk(before: seq<Event>, e: Event)
    requires e.Frame?
  {
    && Latest(before) == Some(e.snap) && e.snap.primed
    && (e.opt.paused <==> SpacesHit(before) % 2 == 1)
    && (Fresh(before) <==> !e.opt.paused)
    && 60 <= e.opt.cols <= 240 && !Quit(before)
    && e.text == Kept(LiveBytes(e.snap, e.opt, e.clock))
  }

  lemma FrameIsFresh(before: seq<Event>, e: Event)
    requires e.Frame? && FrameOk(before, e)
    ensures Latest(before) == Some(e.snap) && (Fresh(before) <==> !e.opt.paused)
  {
    hide Latest, Fresh, SpacesHit, Quit, LiveBytes, Kept;
  }

  /** A snapshot continues the collector's run. */
  predicate ShotOk(before: seq<Event>, e: Event)
    requires e.Collected?
  {
    e.shot == Step(After(InitState(), Ticks(before)), e.tick.sample, e.tick.now).1
  }

  predicate Sound(log: seq<Event>) {
    log != [] ==>
      var before, e := log[..|log| - 1], log[|log| - 1];
      Sound(before) && (e.Frame? ==> FrameOk(before, e)) && (e.Collected? ==> ShotOk(before, e))
  }

  /** Where the log stands: 0 before the alternate screen, 1 on it, 2 after it, 3 out of order. */
  function Phase(log: seq<Event>): nat {
    if log == [] then 0
    else
      var p := Phase(log[..|log| - 1]);
      match log[|log| - 1]
      case Enter => if p == 0 then 1 else 3
      case Leave => if p == 1 then 2 else 3
      case Frame(_, _, _, _) => if p == 1 then 1 else 3
      case Once(_) => if p == 0 then 0 else 3
      case _ => p
  }

  // ---------------------------------------------------------------- appending

  lemma Snoc(log: seq<Event>, e: Event)
    ensures (log + [e])[..|log + [e]| - 1] == log && (log + [e])[|log + [e]| - 1] == e
  {
  }

  /** An event that is neither a frame nor a snapshot. */
  lemma SnocPlain(log: seq<Event>, e: Event)
    requires !e.Frame? && !e.Collected?
    ensures Sound(log + [e]) == Sound(log) && Latest(log + [e]) == Latest(log) && Ticks(log + [e]) == Ticks(log)
    ensures FramesAfterSignal(log + [e]) == FramesAfterSignal(log)
    ensures Fresh(log + [e]) == (!e.Enter? && Fresh(log))
    ensures Count(log + [e], Signal) == Count(log, Signal) + if e.Signal? then 1 else 0
    ensures SpacesHit(log + [e]) == SpacesHit(log) + if e == Key(' ' as int) then 1 else 0
  {
    Snoc(log, e);
  }

  lemma SnocShot(log: seq<Event>, e: Event)
    requires e.Collected? && ShotOk(log, e)
    ensures Sound(log + [e]) == Sound(log) && Latest(log + [e]) == Some(e.shot)
    ensures Ticks(log + [e]) == Ticks(log) + [e.tick]
    ensures FramesAfterSignal(log + [e]) == FramesAfterSignal(log) && Fresh(log + [e])
    ensures Count(log + [e], Signal) == Count(log, Signal) && SpacesHit(log + [e]) == SpacesHit(log)
    ensures Phase(log + [e]) == Phase(log)
  {
    Snoc(log, e);
    hide ShotOk;
  }

  lemma SnocFrame(log: seq<Event>, e: Event)
    requires e.Frame? && FrameOk(log, e)
    ensures Sound(log + [e]) == Sound(log) && Latest(log + [e]) == Latest(log) && Ticks(log + [e]) == Ticks(log)
    ensures FramesAfterSignal(log + [e]) == FramesAfterSignal(log) + if Count(log, Signal) > 0 then 1 else 0
    ensures Count(log + [e], Signal) == Count(log, Signal) && SpacesHit(log + [e]) == SpacesHit(log)
    ensures !Fresh(log + [e])
    ensures Phase(log) == 1 ==> Phase(log + [e]) == 1
  {
    Snoc(log, e);
    hide FrameOk;
  }

  lemma PhasePlain(log: seq<Event>, e: Event)
    requires e.Signal? || e.Key?
    ensures Phase(log + [e]) == Phase(log)
  {
    Snoc(log, e);
  }

  lemma PhaseMarks(log: seq<Event>)
    ensures Phase(log) == 0 ==> Phase(log + [Enter]) == 1
    ensures Phase(log) == 1 ==> Phase(log + [Leave]) == 2
  {
    Snoc(log, Enter);
    Snoc(log, Leave);
  }

  lemma PhaseOnce(log: seq<Event>, text: string)
    ensures Phase(log) == 0 ==> Phase(log + [Once(text)]) == 0
  {
    Snoc(log, Once(text));
  }

  /** On the alternate screen, `snap` is the latest snapshot and `paused` the parity of the spaces hit. */
  predicate LiveLog(log: seq<Event>, snap: ResourceSnapshot, paused: bool) {
    Phase(log) == 1 && Latest(log) == Some(snap) && snap.primed && (paused <==> SpacesHit(log) % 2 == 1)
  }

  lemma LivePhase(log: seq<Event>, snap: ResourceSnapshot, paused: bool)
    requires LiveLog(log, snap, paused)
    ensures Phase(log) == 1
  {
    hide Phase, Latest, SpacesHit;
  }

  lemma Entered(log: seq<Event>, snap: ResourceSnapshot)
    requires Phase(log) == 0 && Latest(log) == Some(snap) && snap.primed && SpacesHit(log) == 0
    ensures LiveLog(log + [Enter], snap, false)
  {
    SnocPlain(log, Enter);
    PhaseMarks(log);
    hide Phase, Latest, SpacesHit;
  }

  lemma FailsHere(log: seq<Event>, snap: ResourceSnapshot, paused: bool, env: Env)
    requires LiveLog(log, snap, paused) && !paused
    requires Frames(log) < |env.turns| && !env.turns[Frames(log)].collects
    ensures FailedRead(log, env)
  {
    hide Phase, Latest, SpacesHit, Frames;
  }

  lemma Pressed(log: seq<Event>, snap: ResourceSnapshot, paused: bool, key: int)
    requires LiveLog(log, snap, paused)
    ensures LiveLog(log + [Key(key)], snap, if key == ' ' as int then !paused else paused)
  {
    SnocPlain(log, Key(key));
    PhasePlain(log, Key(key));
    hide Latest, Phase, SpacesHit;
  }

  lemma FrameIsOk(log: seq<Event>, snap: ResourceSnapshot, paused: bool, opt: RenderOptions, clock: string,
                  text: string)
    requires LiveLog(log, snap, paused) && opt.paused == paused && 60 <= opt.cols <= 240
    requires (Fresh(log) <==> !paused) && !Quit(log) && text == Kept(LiveBytes(snap, opt, clock))
    ensures FrameOk(log, Frame(text, snap, opt, clock))
  {
    hide Kept, LiveBytes, Latest, SpacesHit, Fresh, Phase;
  }

  lemma Drawn(log: seq<Event>, snap: ResourceSnapshot, paused: bool, e: Event)
    requires LiveLog(log, snap, paused) && e.Frame? && FrameOk(log, e)
    ensures LiveLog(log + [e], snap, paused)
  {
    SnocFrame(log, e);
    hide Latest, Phase, SpacesHit, FrameOk;
  }

  /** Leaving the screen does not change where the loop stood. */
  lemma LeftWhere(log: seq<Event>, env: Env)
    requires Phase(log) == 1
    ensures FailedRead(log + [Leave], env) == FailedRead(log, env) && Quit(log + [Leave]) == Quit(log)
    ensures Frames(log + [Leave]) == Frames(log) && Prints(log + [Leave]) == Prints(log)
  {
    FaithfulSnoc(log, Leave, env);
    SnocPlain(log, Leave);
    hide Frames, SpacesHit, Quit;
  }

  lemma EmptyLog()
    ensures Phase([]) == 0 && FramesAfterSignal([]) == 0 && SpacesHit([]) == 0 && Ticks([]) == [] && Sound([])
    ensures Frames([]) == 0 && Keys([]) == 0 && Prints([]) == 0 && !Quit([]) && Count([], Signal) == 0
  {
  }

  lemma LatestHasTick(log: seq<Event>)
    requires Latest(log).Some?
    ensures Ticks(log) != []
  {
  }

  lemma ShotPrimed(ticks: seq<Tick>, t: Tick)
    ensures Step(After(InitState(), ticks), t.sample, t.now).1.primed == (ticks != [])
  {
    PrimedAfter(InitState(), ticks);
    hide After, CpuStep, NetStep, DiskRead;
  }

  // ---------------------------------------------------------------- what the phases mean

  /** Frames stand between the one Enter and the one Leave. */
  predicate Bracketed(log: seq<Event>) {
    forall i :: 0 <= i < |log| && log[i].Frame? ==> Count(log[..i], Enter) == 1 && Count(log[..i], Leave) == 0
  }

  lemma {:induction false} PhaseMeans(log: seq<Event>)
    requires Phase(log) <= 2
    ensures Count(log, Enter) == (if Phase(log) == 0 then 0 else 1)
    ensures Count(log, Leave) == (if Phase(log) == 2 then 1 else 0)
    ensures Bracketed(log)
  {
    if log != [] {
      var front := log[..|log| - 1];
      PhaseMeans(front);
      hide Count;
      assert forall i :: 0 <= i < |front| ==> front[i] == log[i] && front[..i] == log[..i];
      CountSnoc(log);
    }
  }

  lemma CountSnoc(log: seq<Event>)
    requires log != []
    ensures forall e :: Count(log, e) == Count(log[..|log| - 1], e) + if log[|log| - 1] == e then 1 else 0
  {
  }
}

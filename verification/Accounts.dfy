/** What a process shows, summed over its whole log, against what the host's counters did meanwhile. */
module Accounts {
  import opened Options
  import opened Snapshots
  import opened Collectors
  import opened Runs
  import opened Readings
  import opened Terminals
  import opened Surroundings
  import opened Logs

  // ---------------------------------------------------------------- a process is a run

  /** The snapshots of a log, in order. */
  function Shots(log: seq<Event>): seq<ResourceSnapshot> {
    if log == [] then []
    else
      var front, e := log[..|log| - 1], log[|log| - 1];
      Shots(front) + if e.Collected? then [e.shot] else []
  }

  /** A log's snapshots are those of one collector run from collect_init, and only the first is unprimed. */
  lemma {:induction false} LogIsRun(log: seq<Event>)
    requires Sound(log)
    ensures |Shots(log)| == |Ticks(log)|
    ensures forall k :: 0 <= k < |Ticks(log)| ==> Shots(log)[k] == Shot(InitState(), Ticks(log), k)
    ensures forall k :: 0 <= k < |Ticks(log)| ==> (Shots(log)[k].primed <==> k > 0)
  {
    hide Step, After, FrameOk;
    if log != [] {
      var front, e := log[..|log| - 1], log[|log| - 1];
      LogIsRun(front);
      var ticks := Ticks(front);
      if e.Collected? {
        ShotPrimed(ticks, e.tick);
        assert (ticks + [e.tick])[..|ticks|] == ticks;
        assert forall k :: 0 <= k < |ticks| ==> (ticks + [e.tick])[..k] == ticks[..k];
      }
    }
  }

  // ---------------------------------------------------------------- which reads a process makes

  /** The reads the surroundings have ready: two for priming, then one a turn. */
  function TickAt(env: Env, k: nat): Tick
    requires k < |env.turns| + 2
  {
    if k == 0 then env.first else if k == 1 then env.second else env.turns[k - 2].tick
  }

  /** The read succeeds if it is made. */
  predicate Readable(env: Env, k: nat)
    requires k < |env.turns| + 2
  {
    if k == 0 then env.firstCollects else if k == 1 then env.secondCollects else env.turns[k - 2].collects
  }

  /** Which read a snapshot taken now would be made from, by the log alone. */
  function Place(log: seq<Event>): nat {
    if Phase(log) == 0 then |Ticks(log)| else 2 + Frames(log) + if Fresh(log) then 1 else 0
  }

  function Places(log: seq<Event>): seq<nat> {
    if log == [] then []
    else
      var front := log[..|log| - 1];
      Places(front) + if log[|log| - 1].Collected? then [Place(front)] else []
  }

  predicate Rising(p: seq<nat>, bound: nat) {
    && (forall k :: 0 <= k < |p| ==> p[k] < bound)
    && (forall j, k :: 0 <= j < k < |p| ==> p[j] < p[k])
  }

  lemma RisingSnoc(p: seq<nat>, bound: nat)
    requires Rising(p, bound)
    ensures Rising(p + [bound], bound + 1)
  {
  }

  /** The run picks its ticks from the surroundings, in order. */
  predicate Picks(env: Env, p: seq<nat>, run: seq<Tick>) {
    |p| == |run| && forall k :: 0 <= k < |p| ==>
      p[k] < |env.turns| + 2 && Readable(env, p[k]) && run[k] == TickAt(env, p[k])
  }

  lemma PicksSnoc(env: Env, p: seq<nat>, run: seq<Tick>, k: nat)
    requires Picks(env, p, run) && k < |env.turns| + 2 && Readable(env, k)
    ensures Picks(env, p + [k], run + [TickAt(env, k)])
  {
    hide Readable, TickAt;
  }

  /** The next event of a faithful log moves on in the reads; a snapshot is made from the read at its place. */
  lemma PlaceStep(front: seq<Event>, e: Event, env: Env)
    requires Told(front, e, env) && Phase(front) <= 2
    requires if Phase(front) == 0 then |Ticks(front)| <= 2 && Frames(front) == 0 else |Ticks(front)| >= 2
    ensures Phase(front + [e]) <= 2
    ensures if Phase(front + [e]) == 0 then |Ticks(front + [e])| <= 2 && Frames(front + [e]) == 0
            else |Ticks(front + [e])| >= 2
    ensures Place(front) + (if e.Collected? then 1 else 0) <= Place(front + [e])
    ensures e.Collected? ==> Place(front) < |env.turns| + 2
    ensures e.Collected? ==> Readable(env, Place(front)) && e.tick == TickAt(env, Place(front))
    ensures e.Collected? ==> Place(front + [e]) == Place(front) + 1
  {
    Snoc(front, e);
  }

  lemma {:induction false} LogPicks(log: seq<Event>, env: Env)
    requires Faithful(log, env)
    ensures Rising(Places(log), Place(log)) && Picks(env, Places(log), Ticks(log)) && Phase(log) <= 2
    ensures if Phase(log) == 0 then |Ticks(log)| <= 2 && Frames(log) == 0 else |Ticks(log)| >= 2
  {
    hide Phase, Place, Told, Picks, Rising, Frames;
    if log == [] {
      NothingPicked(env);
    } else {
      var front, e := log[..|log| - 1], log[|log| - 1];
      LogPicks(front, env);
      assert log == front + [e];
      PlaceStep(front, e, env);
      if e.Collected? {
        RisingSnoc(Places(front), Place(front));
        PicksSnoc(env, Places(front), Ticks(front), Place(front));
      } else {
        RisingWider(Places(front), Place(front), Place(log));
        assert Places(log) == Places(front);
      }
    }
  }

  lemma RisingWider(p: seq<nat>, bound: nat, wider: nat)
    requires Rising(p, bound) && bound <= wider
    ensures Rising(p, wider)
  {
  }

  lemma NothingPicked(env: Env)
    ensures Phase([]) == 0 && Frames([]) == 0 && Rising([], Place([])) && Picks(env, [], [])
  {
  }

  // ---------------------------------------------------------------- what the surroundings do meanwhile

  /** A positive clock that advances from any read that can succeed to the next, whether or not it is made. */
  predicate ClockAdvances(env: Env) {
    && (forall k :: 0 <= k < |env.turns| + 2 && Readable(env, k) ==> TickAt(env, k).now > 0.0)
    && (forall j, k :: 0 <= j < k < |env.turns| + 2 && Readable(env, j) && Readable(env, k) ==>
          TickAt(env, j).now < TickAt(env, k).now)
  }

  /** The interface is listed whenever interfaces can be read, and its counter never goes down. */
  predicate CounterAdvances(env: Env, name: string, dir: Direction) {
    && (forall k :: 0 <= k < |env.turns| + 2 && Readable(env, k) ==> Followed(TickAt(env, k), name))
    && (forall j, k :: 0 <= j < k < |env.turns| + 2 && Readable(env, j) && Readable(env, k) ==>
          InOrder(Reading(TickAt(env, j), name, dir), Reading(TickAt(env, k), name, dir)))
  }

  /** The gauge's counters are sane whenever they can be read, and neither idle nor busy ticks go down. */
  predicate CpuAdvances(env: Env, g: Gauge) {
    && (forall k :: 0 <= k < |env.turns| + 2 && Readable(env, k) ==> SaneRead(TicksRead(TickAt(env, k).sample.cpu, g)))
    && (forall j, k :: 0 <= j < k < |env.turns| + 2 && Readable(env, j) && Readable(env, k) ==>
          TicksInOrder(TicksRead(TickAt(env, j).sample.cpu, g), TicksRead(TickAt(env, k).sample.cpu, g)))
  }

  lemma PickedClock(env: Env, p: seq<nat>, run: seq<Tick>, bound: nat)
    requires ClockAdvances(env) && Picks(env, p, run) && Rising(p, bound)
    ensures ClockRuns(run)
  {
    hide Readable, TickAt;
  }

  lemma PickedCounter(env: Env, p: seq<nat>, run: seq<Tick>, bound: nat, name: string, dir: Direction)
    requires CounterAdvances(env, name, dir) && Picks(env, p, run) && Rising(p, bound)
    ensures NetSteady(run, name, dir)
  {
    hide Readable, TickAt, Followed, InOrder, Reading;
  }

  lemma PickedCpu(env: Env, p: seq<nat>, run: seq<Tick>, bound: nat, g: Gauge)
    requires CpuAdvances(env, g) && Picks(env, p, run) && Rising(p, bound)
    ensures CpuSteady(run, g)
  {
    hide Readable, TickAt, SaneRead, TicksInOrder, TicksRead;
  }

  /** The account's counters advance in the surroundings. */
  predicate Advances(env: Env, a: Account) {
    match a
    case Traffic(name, dir) => |name| < NAME_LEN && ClockAdvances(env) && CounterAdvances(env, name, dir)
    case BusyTime(g) => CpuAdvances(env, g)
  }

  lemma TicksSteady(log: seq<Event>, env: Env, a: Account)
    requires Faithful(log, env) && Advances(env, a)
    ensures Steady(Ticks(log), a)
  {
    hide Faithful, Phase, Ticks, Places, Place, Picks, Rising, ClockAdvances, CounterAdvances, CpuAdvances, NetSteady,
         ClockRuns, CpuSteady;
    LogPicks(log, env);
    match a
    case Traffic(name, dir) =>
      PickedClock(env, Places(log), Ticks(log), Place(log));
      PickedCounter(env, Places(log), Ticks(log), Place(log), name, dir);
    case BusyTime(g) =>
      PickedCpu(env, Places(log), Ticks(log), Place(log), g);
  }

  // ---------------------------------------------------------------- what the snapshots report

  lemma LogShots(log: seq<Event>)
    requires Sound(log)
    ensures ShotsOf(Shots(log), Ticks(log))
  {
    LogIsRun(log);
  }

  /** What the snapshots of a process report after number `from` is what the counters did meanwhile, however it was
      paused and whichever reads failed. */
  lemma SnapshotsBalance(log: seq<Event>, env: Env, from: nat, a: Account)
    requires Sound(log) && Faithful(log, env) && Advances(env, a) && 0 < from <= |Ticks(log)|
    ensures |Shots(log)| == |Ticks(log)| && Booked(Shots(log), Ticks(log), from, a) == Moved(Ticks(log), from, a)
  {
    hide Sound, Faithful, Shots, Ticks, Advances, Booked, Moved, Steady;
    LogShots(log);
    TicksSteady(log, env, a);
    BooksBalance(Shots(log), Ticks(log), from, a);
  }

  // ---------------------------------------------------------------- what the screen shows

  /** What the frames drawn from a snapshot of their own show; a paused frame shows an old one again. */
  function OnScreen(log: seq<Event>, a: Account): real {
    if log == [] then 0.0
    else
      var front, e := log[..|log| - 1], log[|log| - 1];
      OnScreen(front, a)
      + if e.Frame? && !e.opt.paused && Ticks(front) != [] then Entry(e.snap, Ticks(front), a) else 0.0
  }

  /** What a snapshot taken on the alternate screen will show when it is drawn. */
  function Pending(log: seq<Event>, a: Account): real {
    if Phase(log) > 0 && Fresh(log) && Latest(log).Some? && Ticks(log) != []
    then Entry(Latest(log).value, Ticks(log), a)
    else 0.0
  }

  /** What the snapshots after priming report. */
  function Taken(log: seq<Event>, a: Account): real {
    if log == [] then 0.0
    else
      var front, e := log[..|log| - 1], log[|log| - 1];
      Taken(front, a) + if e.Collected? && |Ticks(front)| >= 2 then Entry(e.shot, Ticks(log), a) else 0.0
  }

  lemma LogSnoc(front: seq<Event>, e: Event, a: Account)
    ensures OnScreen(front + [e], a) == OnScreen(front, a)
              + if e.Frame? && !e.opt.paused && Ticks(front) != [] then Entry(e.snap, Ticks(front), a) else 0.0
    ensures Taken(front + [e], a) == Taken(front, a)
              + if e.Collected? && |Ticks(front)| >= 2 then Entry(e.shot, Ticks(front + [e]), a) else 0.0
  {
    hide Ticks, Entry;
    Snoc(front, e);
  }

  /** Each event keeps the balance of what was taken, drawn and is still to be drawn. */
  lemma PendingStep(front: seq<Event>, e: Event, env: Env, a: Account)
    requires Told(front, e, env) && (e.Frame? ==> FrameOk(front, e)) && Phase(front) <= 2
    requires if Phase(front) == 0 then |Ticks(front)| <= 2 else |Ticks(front)| >= 2
    ensures Pending(front, a)
            + (if e.Collected? && |Ticks(front)| >= 2 then Entry(e.shot, Ticks(front + [e]), a) else 0.0)
         == Pending(front + [e], a)
            + (if e.Frame? && !e.opt.paused && Ticks(front) != [] then Entry(e.snap, Ticks(front), a) else 0.0)
  {
    hide Entry, Told, FrameOk;
    ToldWhen(front, e, env);
    if e.Frame? {
      FrameIsFresh(front, e);
    }
    Snoc(front, e);
  }

  /** Every snapshot taken after priming is drawn once from itself, in order, or is still to be drawn. */
  lemma {:induction false} TakenIsDrawn(log: seq<Event>, env: Env, a: Account)
    requires Sound(log) && Faithful(log, env)
    ensures Taken(log, a) == OnScreen(log, a) + Pending(log, a)
  {
    hide Told, FrameOk, ShotOk, Entry, OnScreen, Pending, Taken, Phase, Ticks, Frames;
    if log == [] {
      NothingDrawn(a);
    } else {
      var front, e := log[..|log| - 1], log[|log| - 1];
      assert log == front + [e];
      TakenIsDrawn(front, env, a);
      LogPicks(front, env);
      LogSnoc(front, e, a);
      PendingStep(front, e, env, a);
    }
  }

  lemma NothingDrawn(a: Account)
    ensures Taken([], a) == OnScreen([], a) == Pending([], a) == 0.0
  {
  }

  lemma BookedSnoc(shots: seq<ResourceSnapshot>, run: seq<Tick>, s: ResourceSnapshot, t: Tick, from: nat, a: Account)
    requires |shots| == |run|
    ensures Booked(shots + [s], run + [t], from, a)
         == Booked(shots, run, from, a) + if |run| >= from then Entry(s, run + [t], a) else 0.0
  {
    hide Entry;
    assert (shots + [s])[..|run|] == shots && (run + [t])[..|run|] == run;
  }

  lemma ShotsSnoc(log: seq<Event>)
    requires log != []
    ensures var front, e := log[..|log| - 1], log[|log| - 1];
      if e.Collected? then Shots(log) == Shots(front) + [e.shot] && Ticks(log) == Ticks(front) + [e.tick]
      else Shots(log) == Shots(front) && Ticks(log) == Ticks(front)
  {
  }

  lemma {:induction false} TakenIsBooked(log: seq<Event>, a: Account)
    ensures |Shots(log)| == |Ticks(log)| && Taken(log, a) == Booked(Shots(log), Ticks(log), 2, a)
  {
    hide Entry, Booked, Shots, Ticks;
    if log == [] {
      NothingBooked(a);
    } else {
      var front, e := log[..|log| - 1], log[|log| - 1];
      TakenIsBooked(front, a);
      ShotsSnoc(log);
      if e.Collected? {
        BookedSnoc(Shots(front), Ticks(front), e.shot, e.tick, 2, a);
      }
    }
  }

  lemma NothingBooked(a: Account)
    ensures Shots([]) == [] && Ticks([]) == [] && Booked([], [], 2, a) == 0.0
  {
  }

  /** On the screen: what the unpaused frames of a live process show adds up to what the counters did since the second
      priming read, with a snapshot still to be drawn at the end of the log counted apart. */
  lemma ScreenBalances(log: seq<Event>, env: Env, a: Account)
    requires Sound(log) && Faithful(log, env) && Advances(env, a) && Phase(log) > 0
    ensures |Ticks(log)| >= 2 && OnScreen(log, a) + Pending(log, a) == Moved(Ticks(log), 2, a)
  {
    hide Sound, Faithful, Phase, Shots, Ticks, Advances, Booked, Moved, OnScreen, Pending, Taken, Places, Place,
         Picks, Rising, Frames;
    LogPicks(log, env);
    TakenIsDrawn(log, env, a);
    TakenIsBooked(log, a);
    SnapshotsBalance(log, env, 2, a);
  }

  /** In a one-shot print: what its snapshot shows is what the counters did between the two reads. */
  lemma PrintBalances(log: seq<Event>, env: Env, a: Account)
    requires Sound(log) && Faithful(log, env) && Advances(env, a) && |Ticks(log)| == 2 && Latest(log).Some?
    ensures Entry(Latest(log).value, Ticks(log), a) == Moved(Ticks(log), 1, a)
  {
    hide Sound, Faithful, Shots, Ticks, Advances, Entry, Moved, Latest;
    SnapshotsBalance(log, env, 1, a);
    LatestIsLast(log);
    var shots, run := Shots(log), Ticks(log);
    assert shots == [shots[0]] + [shots[1]] && run == [run[0]] + [run[1]];
    BookedSnoc([shots[0]], [run[0]], shots[1], run[1], 1, a);
  }

  lemma {:induction false} LatestIsLast(log: seq<Event>)
    ensures |Shots(log)| == |Ticks(log)|
    ensures Latest(log) == if Shots(log) == [] then None else Some(Shots(log)[|Shots(log)| - 1])
  {
    if log != [] {
      LatestIsLast(log[..|log| - 1]);
    }
  }
}

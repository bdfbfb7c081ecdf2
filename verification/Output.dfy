/** What reaches the terminal: the bytes a process writes, and what each of its frames was made from. */
module Output {
  import opened Options
  import opened Snapshots
  import opened Collectors
  import opened Runs
  import opened Terminals
  import opened Surroundings
  import opened Logs
  import opened Accounts

  /** Alternate screen on, cursor off. */
  const ENTER_TEXT: string := "\U{1B}[?1049h\U{1B}[?25l"
  /** Cursor on, alternate screen off. */
  const LEAVE_TEXT: string := "\U{1B}[?25h\U{1B}[?1049l"

  function EventText(e: Event): string {
    match e
    case Once(text) => text
    case Enter => ENTER_TEXT
    case Frame(text, _, _, _) => text
    case Leave => LEAVE_TEXT
    case _ => ""
  }

  /** Everything written to standard output. */
  function Written(log: seq<Event>): string {
    if log == [] then "" else Written(log[..|log| - 1]) + EventText(log[|log| - 1])
  }

  /** The frames one after another. */
  function FrameTexts(log: seq<Event>): string {
    if log == [] then ""
    else FrameTexts(log[..|log| - 1]) + if log[|log| - 1].Frame? then log[|log| - 1].text else ""
  }

  predicate WrittenRight(log: seq<Event>) {
    if Phase(log) > 0 then
      Written(log) == "\U{1B}[?1049h\U{1B}[?25l" + FrameTexts(log)
                      + if Phase(log) == 2 then "\U{1B}[?25h\U{1B}[?1049l" else ""
    else FrameTexts(log) == "" && (Prints(log) == 0 ==> Written(log) == "")
  }

  lemma TextSnoc(front: seq<Event>, e: Event)
    ensures Written(front + [e]) == Written(front) + EventText(e)
    ensures FrameTexts(front + [e]) == FrameTexts(front) + if e.Frame? then e.text else ""
    ensures Prints(front + [e]) == Prints(front) + if e.Once? then 1 else 0
  {
    Snoc(front, e);
  }

  lemma PhaseSnoc(front: seq<Event>, e: Event)
    requires e.Enter? || e.Once? ==> Phase(front) == 0
    requires e.Frame? || e.Leave? ==> Phase(front) == 1
    ensures Phase(front + [e]) == if e.Enter? then 1 else if e.Leave? then 2 else Phase(front)
  {
    Snoc(front, e);
  }

  lemma Around(open: string, frames: string, text: string)
    ensures open + frames + "" + text == open + (frames + text) + ""
    ensures frames == "" ==> "" + open == open + frames + ""
    ensures open + frames + "" + "" == open + frames + ""
  {
  }

  lemma WriteStep(front: seq<Event>, e: Event, env: Env)
    requires Told(front, e, env) && WrittenRight(front) && Phase(front) <= 2
    requires Prints(front) > 0 ==> !GoesLive(env)
    ensures WrittenRight(front + [e]) && Phase(front + [e]) <= 2
    ensures Prints(front + [e]) > 0 ==> !GoesLive(env)
  {
    hide Told, Ticks, Fresh, Phase, Written, FrameTexts, Prints, GoesLive;
    ToldWhen(front, e, env);
    TextSnoc(front, e);
    PhaseSnoc(front, e);
    Around(ENTER_TEXT, FrameTexts(front), EventText(e));
    assert FrameTexts(front) + "" == FrameTexts(front) && Written(front) + "" == Written(front);
    if e.Leave? {
      assert ENTER_TEXT + FrameTexts(front) + "" + LEAVE_TEXT == ENTER_TEXT + FrameTexts(front) + LEAVE_TEXT;
    }
  }

  /** A live process writes the enter sequence, its frames and, once over, the leave sequence; any other writes neither
      sequence and no frame, and nothing at all before its print. */
  lemma {:induction false} LogIsWritten(log: seq<Event>, env: Env)
    requires Faithful(log, env)
    ensures WrittenRight(log) && Phase(log) <= 2 && (Prints(log) > 0 ==> !GoesLive(env))
  {
    hide Told, WrittenRight, Phase, Prints, GoesLive;
    if log == [] {
      NothingWritten();
    } else {
      var front, e := log[..|log| - 1], log[|log| - 1];
      LogIsWritten(front, env);
      WriteStep(front, e, env);
      assert log == front + [e];
    }
  }

  lemma NothingWritten()
    ensures WrittenRight([]) && Phase([]) == 0 == Prints([])
  {
  }

  /** A process that does not go live writes its one print and nothing else. */
  lemma PrintIsWritten(log: seq<Event>, env: Env)
    requires Faithful(log, env) && Phase(log) == 0 && log != [] && log[|log| - 1].Once?
    ensures Written(log) == log[|log| - 1].text
  {
    hide Written, FrameTexts, Phase, Prints, Told;
    var front, e := log[..|log| - 1], log[|log| - 1];
    LogIsWritten(front, env);
    OnceFollows(front, e.text, env);
    TextSnoc(front, e);
    assert log == front + [e];
    assert "" + e.text == e.text;
  }

  lemma OnceFollows(front: seq<Event>, text: string, env: Env)
    requires Told(front, Once(text), env)
    ensures Phase(front) == 0 && Prints(front) == 0
  {
    hide Phase, Prints, Ticks, Latest;
  }

  /** Off the alternate screen the reads made are the first ones of the process, in order. */
  lemma {:induction false} PrimingReads(log: seq<Event>, env: Env)
    requires Faithful(log, env) && Phase(log) == 0
    ensures |Ticks(log)| <= 2 && Ticks(log) == [env.first, env.second][..|Ticks(log)|]
  {
    hide Phase, Frames, Keys, Prints, Latest, Fresh;
    if log != [] {
      var front, e := log[..|log| - 1], log[|log| - 1];
      assert log == front + [e];
      ToldWhen(front, e, env);
      LogIsWritten(front, env);
      PhaseSnoc(front, e);
      PrimingReads(front, env);
    }
  }

  /** The snapshot behind a one-shot print is the second one of a collector that reads first and then second. */
  lemma PrintIsSecond(log: seq<Event>, env: Env)
    requires Sound(log) && Faithful(log, env) && Phase(log) == 0 && |Ticks(log)| == 2
    ensures Latest(log) == Some(Shot(InitState(), [env.first, env.second], 1))
  {
    hide Phase, Ticks, Shots, Latest, Shot, Sound, Faithful;
    PrimingReads(log, env);
    LogIsRun(log);
    LatestIsLast(log);
    assert [env.first, env.second][..2] == [env.first, env.second];
  }

  // ---------------------------------------------------------------- what a frame is made from

  /** The snapshot of the last frame. */
  function LastDrawn(log: seq<Event>): Option<ResourceSnapshot> {
    if log == [] then None
    else if log[|log| - 1].Frame? then Some(log[|log| - 1].snap)
    else LastDrawn(log[..|log| - 1])
  }

  /** On the alternate screen the latest snapshot is that of the current turn, or the one last drawn. */
  predicate Current(log: seq<Event>, env: Env) {
    Phase(log) == 1 ==>
      && (Fresh(log) ==>
            && Ticks(log) != [] && Frames(log) < |env.turns|
            && Ticks(log)[|Ticks(log)| - 1] == env.turns[Frames(log)].tick)
      && (!Fresh(log) && Frames(log) > 0 ==> LastDrawn(log) == Latest(log))
  }

  lemma CurrentStep(front: seq<Event>, e: Event, env: Env)
    requires Told(front, e, env) && Current(front, env) && (e.Frame? ==> FrameOk(front, e))
    requires Phase(front) == 0 ==> Frames(front) == 0
    ensures Current(front + [e], env)
  {
    hide FrameOk, Keys, Prints;
    ToldWhen(front, e, env);
    if e.Frame? {
      FrameIsFresh(front, e);
    }
    Snoc(front, e);
  }

  lemma {:induction false} LogIsCurrent(log: seq<Event>, env: Env)
    requires Sound(log) && Faithful(log, env)
    ensures Current(log, env)
  {
    hide Told, FrameOk, ShotOk, Current, Phase, Ticks, Frames;
    if log == [] {
      NothingCurrent(env);
    } else {
      var front, e := log[..|log| - 1], log[|log| - 1];
      LogIsCurrent(front, env);
      LogPicks(front, env);
      CurrentStep(front, e, env);
      assert log == front + [e];
    }
  }

  lemma NothingCurrent(env: Env)
    ensures Current([], env)
  {
  }

  /** The width used for a size the terminal reports. */
  function Width(size: int): int {
    if size <= 0 then 80 else if size < 60 then 60 else if size > 240 then 240 else size
  }

  /** The refresh interval used for one asked for. */
  function Interval(seconds: real): real {
    if seconds < 0.2 then 0.2 else if seconds > 60.0 then 60.0 else seconds
  }

  /** Frame number `n` shows the flags, size and clock of turn `n`; it is paused after an odd number of space bars; when
      not, its snapshot is the collector's for that turn's own read, and when paused the snapshot last drawn. */
  predicate Shows(before: seq<Event>, e: Event, env: Env)
    requires e.Frame?
  {
    var n := Frames(before);
    && n < |env.turns| && e.clock == env.turns[n].clock
    && e.opt == RenderOptions(env.ascii, env.color, Presses(env, n, 32) % 2 == 1, Interval(env.seconds),
                              Width(env.turns[n].size))
    && (if e.opt.paused then LastDrawn(before) == Some(e.snap)
        else
          var run := Ticks(before);
          run != [] && run[|run| - 1] == env.turns[n].tick && e.snap == Shot(InitState(), run, |run| - 1))
  }

  lemma FrameShows(before: seq<Event>, e: Event, env: Env)
    requires e.Frame? && Sound(before) && Faithful(before, env) && FrameOk(before, e) && Told(before, e, env)
    ensures Shows(before, e, env)
  {
    hide Sound, Faithful, FrameOk, Shot, LastDrawn, Phase, Fresh, Ticks, Frames, Keys, Latest, Shots, PausedAt, Presses;
    LogIsCurrent(before, env);
    FrameIsFresh(before, e);
    PausedIsParity(env, Frames(before));
    LogIsRun(before);
    LatestIsLast(before);
    if Frames(before) == 0 {
      NoPresses(env);
    }
  }

  lemma NoPresses(env: Env)
    ensures Presses(env, 0, 32) == 0
  {
  }

  /** Every frame of a process shows what its surroundings say. */
  lemma {:induction false} FramesShow(log: seq<Event>, env: Env, i: nat)
    requires Sound(log) && Faithful(log, env) && i < |log| && log[i].Frame?
    ensures Shows(log[..i], log[i], env)
    decreases |log|
  {
    hide Shows, FrameOk, ShotOk, Told;
    var front := log[..|log| - 1];
    if i < |front| {
      assert front[..i] == log[..i];
      FramesShow(front, env, i);
    } else {
      FrameShows(front, log[i], env);
    }
  }
}

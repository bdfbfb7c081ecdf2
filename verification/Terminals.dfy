/** src/term.c on a POSIX host: raw mode and the alternate screen, entered once and undone once. */
module Terminals {
  import opened Util
  import opened Snapshots
  import opened Runs

  /** What the program does, in order; Enter and Leave are the two escape strings of term.c. */
  datatype Event =
    | Collected(tick: Tick, shot: ResourceSnapshot)
    | Once(text: string)
    | Enter
    | Frame(text: string, snap: ResourceSnapshot, opt: RenderOptions, clock: string)
    | Key(key: int)
    | Leave
    | Signal

  /** A termios setting; the last field stands for everything term_init does not touch. */
  datatype Mode = Mode(icanon: bool, echo: bool, vmin: int, vtime: int, rest: int)

  function Raw(m: Mode): Mode {
    Mode(false, false, 0, 0, m.rest)
  }

  class Terminal {
    var mode: Mode
    var saved: Mode
    var gotOld: bool
    var inited: bool
    var atExit: bool
    var log: seq<Event>

    constructor (mode: Mode)
      ensures this.mode == mode && !inited && !gotOld && !atExit && log == []
    {
      this.mode := mode;
      saved := mode;
      gotOld := false;
      inited := false;
      atExit := false;
      log := [];
    }

    /** Initialised: either the saved mode is `m`, or tcgetattr failed and the mode was never changed from `m`. */
    ghost predicate Holds(m: Mode)
      reads this
    {
      if gotOld then saved == m else mode == m
    }

    /** `readable` is whether tcgetattr succeeds. */
    method Init(readable: bool)
      modifies this
      ensures old(inited) ==> log == old(log) && mode == old(mode) && saved == old(saved)
      ensures old(inited) ==> gotOld == old(gotOld) && atExit == old(atExit)
      ensures !old(inited) ==> log == old(log) + [Enter] && atExit
      ensures !old(inited) ==> saved == (if readable then old(mode) else old(saved))
      ensures !old(inited) ==> gotOld == (readable || old(gotOld))
      ensures !old(inited) ==> mode == if readable then Mode(false, false, 0, 0, old(mode.rest)) else old(mode)
      ensures inited
    {
      if inited {
        return;
      }
      if readable {
        saved := mode;
        mode := Raw(mode);
        gotOld := true;
      }
      log := log + [Enter];
      atExit := true;
      inited := true;
    }

    /** Undoes Init; called again it does nothing. */
    method Restore()
      modifies this
      ensures !inited && atExit == old(atExit) && saved == old(saved) && gotOld == old(gotOld)
      ensures !old(inited) ==> log == old(log) && mode == old(mode)
      ensures old(inited) ==> log == old(log) + [Leave] && mode == if old(gotOld) then old(saved) else old(mode)
    {
      if !inited {
        return;
      }
      log := log + [Leave];
      if gotOld {
        mode := saved;
      }
      inited := false;
    }

    /** Leaving the process: the registered handler runs, if term_init registered it. */
    method Exit()
      modifies this
      ensures atExit == old(atExit) && saved == old(saved) && gotOld == old(gotOld)
      ensures inited == (old(inited) && !old(atExit))
      ensures !old(inited) || !old(atExit) ==> log == old(log) && mode == old(mode)
      ensures old(inited) && old(atExit) ==>
        log == old(log) + [Leave] && mode == if old(gotOld) then old(saved) else old(mode)
    {
      if atExit {
        Restore();
      }
    }

    method Note(e: Event)
      modifies `log
      ensures log == old(log) + [e]
    {
      log := log + [e];
    }
  }

  /** term_size: 80 columns when the size is unknown, and never fewer than 60 or more than 240. */
  function Columns(size: int): (cols: int)
    ensures 60 <= cols <= 240
    ensures 60 <= size <= 240 ==> cols == size
    ensures size <= 0 ==> cols == 80
    ensures 0 < size < 60 ==> cols == 60
    ensures size > 240 ==> cols == 240
  {
    ClampInt(if size > 0 then size else 80, 60, 240)
  }
}

/** What a process meets from outside, and how far its live loop may get in it. */
module Surroundings {
  import opened Runs

  /** One turn of the live loop as its surroundings see it. The three flags say where a stop signal arrives:
      before the loop test, before the frame is drawn, before the test after the poll. */
  datatype Turn = Turn(
    size: int, tick: Tick, collects: bool, clock: string, key: int,
    signalFirst: bool, signalMiddle: bool, signalLast: bool)

  /** A whole process; `turns` is as much of the live loop as is looked at. */
  datatype Env = Env(
    once: bool, tty: bool, ascii: bool, color: bool, seconds: real,
    first: Tick, firstCollects: bool, second: Tick, secondCollects: bool, clock: string,
    signalEarly: bool, readable: bool, turns: seq<Turn>)

  predicate GoesLive(env: Env) {
    env.firstCollects && env.secondCollects && !env.once && env.tty
  }

  predicate Space(key: int) {
    key == ' ' as int
  }

  /** q, Q or Ctrl-C as a byte. */
  predicate Quits(key: int) {
    key == 'q' as int || key == 'Q' as int || key == 3
  }

  /** Paused at the head of turn `n`: an odd number of spaces before. */
  predicate PausedAt(env: Env, n: nat)
    requires n <= |env.turns|
  {
    n > 0 && PausedAt(env, n - 1) != Space(env.turns[n - 1].key)
  }

  /** Turn `i` draws nothing: a signal before its test, or a read that fails while not paused. */
  predicate Dark(env: Env, i: nat)
    requires i < |env.turns|
  {
    env.turns[i].signalFirst || (!PausedAt(env, i) && !env.turns[i].collects)
  }

  /** Turn `i` is the last once drawn: a signal before the second test, or a quit key. */
  predicate Final(env: Env, i: nat)
    requires i < |env.turns|
  {
    env.turns[i].signalMiddle || env.turns[i].signalLast || Quits(env.turns[i].key)
  }

  /** Frames from turn `i` on. */
  function FramesFrom(env: Env, i: nat): (n: nat)
    requires i <= |env.turns|
    ensures n <= |env.turns| - i
    decreases |env.turns| - i
  {
    if i == |env.turns| || Dark(env, i) then 0 else if Final(env, i) then 1 else 1 + FramesFrom(env, i + 1)
  }

  /** How many frames a live process may draw, from its surroundings alone. */
  function FrameLimit(env: Env): (n: nat)
    ensures n <= |env.turns|
  {
    if env.signalEarly then 0 else FramesFrom(env, 0)
  }

  /** Nothing stops the loop before the head of turn `n`. */
  predicate Undisturbed(env: Env, n: nat)
    requires n <= |env.turns|
  {
    if n == 0 then !env.signalEarly else Undisturbed(env, n - 1) && !Dark(env, n - 1) && !Final(env, n - 1)
  }

  lemma {:induction false} FramesStop(env: Env, i: nat, k: nat)
    requires i <= k < |env.turns|
    ensures Dark(env, k) ==> i + FramesFrom(env, i) <= k
    ensures Final(env, k) ==> i + FramesFrom(env, i) <= k + 1
    decreases k - i
  {
    hide Dark, Final;
    if i < k {
      FramesStop(env, i + 1, k);
    }
  }

  /** How many of the first `n` turns end with this key. */
  function Presses(env: Env, n: nat, key: int): nat
    requires n <= |env.turns|
  {
    if n == 0 then 0 else Presses(env, n - 1, key) + if env.turns[n - 1].key == key then 1 else 0
  }

  /** Paused means an odd number of space bars (byte 32) so far. */
  lemma {:induction false} PausedIsParity(env: Env, n: nat)
    requires n <= |env.turns|
    ensures PausedAt(env, n) <==> Presses(env, n, 32) % 2 == 1
  {
    if n > 0 {
      PausedIsParity(env, n - 1);
    }
  }

  /** Nothing in turn `k` stops the process: no signal, no q (113), Q (81) or Ctrl-C (3), and either the read succeeds
      or it is not made because of an odd number of space bars. */
  predicate Quiet(env: Env, k: nat)
    requires k < |env.turns|
  {
    var t := env.turns[k];
    && !t.signalFirst && !t.signalMiddle && !t.signalLast && t.key !in {113, 81, 3}
    && (t.collects || Presses(env, k, 32) % 2 == 1)
  }

  /** A process is undisturbed exactly when no signal came while priming and every turn so far was quiet. */
  lemma {:induction false} UndisturbedMeans(env: Env, n: nat)
    requires n <= |env.turns|
    ensures Undisturbed(env, n) <==> !env.signalEarly && forall k :: 0 <= k < n ==> Quiet(env, k)
  {
    hide Dark, Final, Quiet;
    if n > 0 {
      UndisturbedMeans(env, n - 1);
      QuietMeans(env, n - 1);
    }
  }

  lemma QuietMeans(env: Env, k: nat)
    requires k < |env.turns|
    ensures Quiet(env, k) <==> !Dark(env, k) && !Final(env, k)
  {
    PausedIsParity(env, k);
  }

  /** A signal, a quit key or an unpaused failed read in turn `k` allows at most the frame of that turn. */
  lemma LimitStops(env: Env, k: nat)
    requires k < |env.turns|
    ensures env.signalEarly ==> FrameLimit(env) == 0
    ensures env.turns[k].signalFirst || (!env.turns[k].collects && Presses(env, k, 32) % 2 == 0) ==>
      FrameLimit(env) <= k
    ensures env.turns[k].signalMiddle || env.turns[k].signalLast || env.turns[k].key in {113, 81, 3} ==>
      FrameLimit(env) <= k + 1
  {
    PausedIsParity(env, k);
    FramesStop(env, 0, k);
  }

  lemma {:induction false} UndisturbedUpTo(env: Env, n: nat)
    requires n <= |env.turns|
    ensures Undisturbed(env, n) ==> FrameLimit(env) == n + FramesFrom(env, n)
    ensures !Undisturbed(env, n) ==> FrameLimit(env) <= n
    ensures !Undisturbed(env, n) && FrameLimit(env) == n > 0 ==> Final(env, n - 1)
  {
    hide Dark, Final;
    if n > 0 {
      UndisturbedUpTo(env, n - 1);
    }
  }

  lemma {:induction false} DisturbedStays(env: Env, i: nat, n: nat)
    requires i <= n <= |env.turns| && !Undisturbed(env, i)
    ensures !Undisturbed(env, n)
    decreases n
  {
    hide Dark, Final;
    if i < n {
      DisturbedStays(env, i, n - 1);
    }
  }

  /** The loop stops short only for a reason, and the reason stands at the turn it stops at: before its frame, or after
      the frame just drawn. */
  lemma LimitHasReason(env: Env)
    ensures var n := FrameLimit(env);
      || env.signalEarly
      || (n < |env.turns| && (env.turns[n].signalFirst
            || (!env.turns[n].collects && Presses(env, n, 32) % 2 == 0)))
      || (n > 0 && (env.turns[n - 1].signalMiddle || env.turns[n - 1].signalLast
                    || env.turns[n - 1].key in {113, 81, 3}))
      || (n == |env.turns| && forall k :: 0 <= k < n ==> Quiet(env, k))
  {
    hide Quiet;
    var n := FrameLimit(env);
    UndisturbedUpTo(env, n);
    UndisturbedMeans(env, n);
    PausedIsParity(env, n);
  }

  /** When a process goes live, told by the flags alone. */
  lemma LiveMeans(env: Env)
    ensures env.once || !env.tty || !env.firstCollects || !env.secondCollects ==> !GoesLive(env)
    ensures !env.once && env.tty && env.firstCollects && env.secondCollects ==> GoesLive(env)
  {
  }
}

/** The three delta formulas: from two counter samples to a percentage. */
module CpuDelta {
  import opened Util

  /** Previous-tick counters of one processor, or of all together. */
  datatype CpuTicks = CpuTicks(idle: u64, total: u64)

  const NO_TICKS: CpuTicks := CpuTicks(0, 0)

  /** uint64_t subtraction: wraps below zero. */
  function Sub64(a: u64, b: u64): u64 {
    if a >= b then a - b else a - b + WORD
  }

  /** uint64_t addition: wraps at 2^64. */
  function Add64(a: u64, b: u64): u64 {
    if a + b < WORD then a + b else a + b - WORD
  }

  /** Both are arithmetic modulo 2^64. */
  lemma Wraps(a: u64, b: u64)
    ensures Sub64(a, b) == (a - b) % WORD && Add64(a, b) == (a + b) % WORD
  {
    assert a < b ==> a - b == -1 * WORD + Sub64(a, b);
  }

  /** Linux apply_cpu_delta and the Darwin core loop: plain unsigned differences. */
  function UnixUsage(primed: bool, prev: CpuTicks, now: CpuTicks): (usage: real)
    ensures 0.0 <= usage <= 100.0
  {
    if primed && now.total > prev.total then
      var dTotal := Sub64(now.total, prev.total);
      Percent(Sub64(dTotal, Sub64(now.idle, prev.idle)), dTotal)
    else 0.0
  }

  /** Windows apply_delta: the idle difference is kept between 0 and the total difference. */
  function WinUsage(primed: bool, prev: CpuTicks, now: CpuTicks): (usage: real)
    ensures 0.0 <= usage <= 100.0
  {
    if primed && now.total > prev.total then
      var dTotal := Sub64(now.total, prev.total);
      var dIdle := if now.idle >= prev.idle then Sub64(now.idle, prev.idle) else 0;
      Percent(Sub64(dTotal, if dIdle > dTotal then dTotal else dIdle), dTotal)
    else 0.0
  }

  function Busy(t: CpuTicks): int {
    t.total - t.idle
  }

  /** Idle time is part of the total. */
  predicate Sane(t: CpuTicks) {
    t.idle <= t.total
  }

  /** The unsigned difference is the true busy increment, even when idle itself went down. */
  lemma BusyIncrement(prev: CpuTicks, now: CpuTicks)
    requires Sane(prev) && Sane(now) && now.total > prev.total && Busy(now) >= Busy(prev)
    ensures Sub64(Sub64(now.total, prev.total), Sub64(now.idle, prev.idle)) == Busy(now) - Busy(prev)
  {
  }

  lemma PercentOfPart(part: u64, whole: u64)
    requires whole > 0
    ensures part >= whole ==> Percent(part, whole) == 100.0
    ensures part <= whole ==> Percent(part, whole) * whole as real == 100.0 * part as real
    ensures part == 0 ==> Percent(part, whole) == 0.0
  {
    var w := whole as real;
    var q := 100.0 * part as real / w;
    assert q * w == 100.0 * part as real;
    if part >= whole {
      RatioAtLeast(100.0 * part as real, w, 100.0);
    }
    if part <= whole {
      RatioAtMost(100.0 * part as real, w, 100.0);
    }
  }

  lemma RatioAtLeast(x: real, w: real, k: real)
    requires w > 0.0 && x >= k * w
    ensures x / w >= k
  {
  }

  lemma RatioAtMost(x: real, w: real, k: real)
    requires w > 0.0 && 0.0 <= x <= k * w
    ensures 0.0 <= x / w <= k
  {
  }

  /** When busy time goes backwards the Unix formula saturates at 100 and the Windows formula gives 0. */
  lemma BusyBackwards(prev: CpuTicks, now: CpuTicks)
    requires Sane(prev) && Sane(now) && now.total > prev.total && Busy(now) < Busy(prev)
    ensures UnixUsage(true, prev, now) == 100.0 && WinUsage(true, prev, now) == 0.0
  {
    var dTotal := Sub64(now.total, prev.total);
    var dIdle := Sub64(now.idle, prev.idle);
    assert dIdle > dTotal;
    PercentOfPart(Sub64(dTotal, dIdle), dTotal);
    PercentOfPart(0, dTotal);
  }

  /** The guarded and the unguarded formula agree exactly when busy time did not go backwards
      (or there is nothing to compare yet). */
  lemma FormulasAgree(primed: bool, prev: CpuTicks, now: CpuTicks)
    requires Sane(prev) && Sane(now)
    ensures UnixUsage(primed, prev, now) == WinUsage(primed, prev, now)
       <==> !primed || now.total <= prev.total || Busy(now) >= Busy(prev)
  {
    if primed && now.total > prev.total {
      if Busy(now) < Busy(prev) {
        BusyBackwards(prev, now);
      } else if now.idle < prev.idle {
        var dTotal := Sub64(now.total, prev.total);
        BusyIncrement(prev, now);
        PercentOfPart(Busy(now) - Busy(prev), dTotal);
        PercentOfPart(dTotal, dTotal);
      }
    }
  }

  /** Counters that only grow: idle and busy ticks never decrease. */
  predicate Grows(prev: CpuTicks, now: CpuTicks) {
    prev.idle <= now.idle && Busy(prev) <= Busy(now)
  }

  /** Usage times elapsed ticks is 100 times the busy ticks, under either formula. */
  lemma UsageIsShare(prev: CpuTicks, now: CpuTicks)
    requires Sane(prev) && Sane(now) && Grows(prev, now)
    ensures UnixUsage(true, prev, now) * (now.total - prev.total) as real == 100.0 * (Busy(now) - Busy(prev)) as real
    ensures WinUsage(true, prev, now) == UnixUsage(true, prev, now)
  {
    FormulasAgree(true, prev, now);
    if now.total > prev.total {
      BusyIncrement(prev, now);
      PercentOfPart(Busy(now) - Busy(prev), Sub64(now.total, prev.total));
    }
  }

  /** A percentage of a number of ticks. */
  function Share(usage: real, ticks: int): real {
    usage * ticks as real
  }

  lemma ShareOf(prev: CpuTicks, now: CpuTicks)
    requires Sane(prev) && Sane(now) && Grows(prev, now)
    ensures Share(UnixUsage(true, prev, now), now.total - prev.total) == Share(100.0, Busy(now) - Busy(prev))
    ensures WinUsage(true, prev, now) == UnixUsage(true, prev, now)
    ensures now.total <= prev.total ==> Busy(now) == Busy(prev) && now.total == prev.total
  {
    hide UnixUsage, WinUsage;
    UsageIsShare(prev, now);
  }

  // ---------------------------------------------------------------- the methods

  /** C writes `prev` in place; here the new value is returned. */
  method ApplyCpuDelta(primed: bool, prev: CpuTicks, idle: u64, total: u64) returns (usage: real, next: CpuTicks)
    ensures usage == UnixUsage(primed, prev, CpuTicks(idle, total))
    ensures next == CpuTicks(idle, total)
  {
    if primed && total > prev.total {
      var dTotal := Sub64(total, prev.total);
      var dIdle := Sub64(idle, prev.idle);
      usage := ClampPct(100.0 * Sub64(dTotal, dIdle) as real / dTotal as real);
    } else {
      usage := 0.0;
    }
    next := CpuTicks(idle, total);
  }

  method ApplyDelta(primed: bool, prev: CpuTicks, idle: u64, total: u64) returns (usage: real, next: CpuTicks)
    ensures usage == WinUsage(primed, prev, CpuTicks(idle, total))
    ensures next == CpuTicks(idle, total)
  {
    if primed && total > prev.total {
      var dTotal := Sub64(total, prev.total);
      var dIdle := if idle >= prev.idle then Sub64(idle, prev.idle) else 0;
      if dIdle > dTotal {
        dIdle := dTotal;
      }
      usage := ClampPct(100.0 * Sub64(dTotal, dIdle) as real / dTotal as real);
    } else {
      usage := 0.0;
    }
    next := CpuTicks(idle, total);
  }
}

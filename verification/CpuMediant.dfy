/** The macOS headline is a weighted mean of the core strip: it lies between two of its cores. */
module CpuMediant {
  import opened Options
  import opened Util
  import opened Snapshots
  import opened CpuDelta
  import opened Cpu

  /** Elapsed and busy ticks over all pairs, as true sums. */
  function Elapsed(prev: seq<CpuTicks>, now: seq<CpuTicks>): int
    requires |prev| == |now|
  {
    if now == [] then 0
    else Elapsed(prev[..|prev| - 1], now[..|now| - 1]) + now[|now| - 1].total - prev[|prev| - 1].total
  }

  function Worked(prev: seq<CpuTicks>, now: seq<CpuTicks>): int
    requires |prev| == |now|
  {
    if now == [] then 0
    else Worked(prev[..|prev| - 1], now[..|now| - 1]) + Busy(now[|now| - 1]) - Busy(prev[|prev| - 1])
  }

  /** No counter decreases and no idle difference exceeds the total difference. */
  predicate AllGrow(prev: seq<CpuTicks>, now: seq<CpuTicks>)
    requires |prev| == |now|
  {
    forall i :: 0 <= i < |now| ==> Sane(prev[i]) && Sane(now[i]) && Grows(prev[i], now[i])
  }

  function Usage(prev: seq<CpuTicks>, now: seq<CpuTicks>, i: nat): real
    requires |prev| == |now| && i < |now|
  {
    UnixUsage(true, prev[i], now[i])
  }

  /** `lo` and `hi` are cores whose counters advanced, and they bound the summed ratio. */
  predicate Bounds(prev: seq<CpuTicks>, now: seq<CpuTicks>, lo: nat, hi: nat, worked: int, elapsed: int)
    requires |prev| == |now|
  {
    && lo < |now| && hi < |now| && prev[lo].total < now[lo].total && prev[hi].total < now[hi].total
    && Share(Usage(prev, now, lo), elapsed) <= Share(100.0, worked) <= Share(Usage(prev, now, hi), elapsed)
  }

  lemma Mix(u: real, v: real, m: real, a: int, b: int)
    requires m <= u && m <= v && a >= 0 && b >= 0
    ensures m * (a + b) as real <= u * a as real + v * b as real
  {
    assert (u - m) * a as real >= 0.0 && (v - m) * b as real >= 0.0;
    assert m * (a + b) as real == m * a as real + m * b as real;
    assert (u - m) * a as real == u * a as real - m * a as real;
    assert (v - m) * b as real == v * b as real - m * b as real;
  }

  lemma MixAbove(u: real, v: real, m: real, a: int, b: int)
    requires u <= m && v <= m && a >= 0 && b >= 0
    ensures u * a as real + v * b as real <= m * (a + b) as real
  {
    Mix(-u, -v, -m, a, b);
    assert -m * (a + b) as real == -(m * (a + b) as real);
    assert -u * a as real == -(u * a as real) && -v * b as real == -(v * b as real);
  }

  lemma {:induction false} ElapsedGrows(prev: seq<CpuTicks>, now: seq<CpuTicks>)
    requires |prev| == |now| && AllGrow(prev, now)
    ensures 0 <= Worked(prev, now) <= Elapsed(prev, now)
  {
    if now != [] {
      ElapsedGrows(prev[..|prev| - 1], now[..|now| - 1]);
    }
  }

  function Min(a: real, b: real): real {
    if a < b then a else b
  }

  function Max(a: real, b: real): real {
    if a > b then a else b
  }

  /** Adding one core's busy and elapsed ticks keeps the ratio between the extremes. */
  lemma MediantStep(l: real, h: real, u: real, worked: int, elapsed: int, b: int, d: int)
    requires elapsed >= 0 && d >= 0
    requires Share(l, elapsed) <= Share(100.0, worked) <= Share(h, elapsed) && Share(u, d) == Share(100.0, b)
    ensures Share(Min(l, u), elapsed + d) <= Share(100.0, worked + b) <= Share(Max(h, u), elapsed + d)
  {
    Mix(l, u, Min(l, u), elapsed, d);
    MixAbove(h, u, Max(h, u), elapsed, d);
  }

  /** The mediant inequality, by induction over the core loop. */
  lemma {:induction false} Mediant(prev: seq<CpuTicks>, now: seq<CpuTicks>) returns (lo: nat, hi: nat)
    requires |prev| == |now| && AllGrow(prev, now) && Elapsed(prev, now) > 0
    ensures Bounds(prev, now, lo, hi, Worked(prev, now), Elapsed(prev, now))
  {
    var k := |now| - 1;
    var p, n := prev[..k], now[..k];
    var d, b := now[k].total - prev[k].total, Busy(now[k]) - Busy(prev[k]);
    assert Sane(prev[k]) && Sane(now[k]) && Grows(prev[k], now[k]);
    assert Elapsed(prev, now) == Elapsed(p, n) + d && Worked(prev, now) == Worked(p, n) + b;
    assert AllGrow(p, n);
    ElapsedGrows(p, n);
    ShareOf(prev[k], now[k]);
    var u := Usage(prev, now, k);
    hide UnixUsage, Share, Elapsed, Worked, AllGrow;
    if Elapsed(p, n) == 0 {
      lo, hi := k, k;
    } else {
      lo, hi := Mediant(p, n);
      assert prev[lo] == p[lo] && now[lo] == n[lo] && prev[hi] == p[hi] && now[hi] == n[hi];
      var l, h := Usage(prev, now, lo), Usage(prev, now, hi);
      if d > 0 {
        MediantStep(l, h, u, Worked(p, n), Elapsed(p, n), b, d);
        lo, hi := if u < l then k else lo, if u > h then k else hi;
      }
    }
  }

  // ---------------------------------------------------------------- through the 64-bit sums

  /** What four 32-bit counters can add up to. */
  predicate Mach(t: CpuTicks) {
    Sane(t) && t.total < 4 * 0x1_0000_0000
  }

  function TrueIdle(t: seq<CpuTicks>): nat {
    if t == [] then 0 else TrueIdle(t[..|t| - 1]) + t[|t| - 1].idle
  }

  function TrueTotal(t: seq<CpuTicks>): nat {
    if t == [] then 0 else TrueTotal(t[..|t| - 1]) + t[|t| - 1].total
  }

  lemma {:induction false} SumsDoNotWrap(t: seq<CpuTicks>)
    requires |t| <= MAX_CORES && forall i :: 0 <= i < |t| ==> Mach(t[i])
    ensures TrueIdle(t) <= TrueTotal(t) <= |t| * 0x4_0000_0000
    ensures TrueTotal(t) < WORD && SumTicks(t) == CpuTicks(TrueIdle(t), TrueTotal(t))
  {
    if t != [] {
      SumsDoNotWrap(t[..|t| - 1]);
    }
  }

  lemma {:induction false} SumsDiffer(prev: seq<CpuTicks>, now: seq<CpuTicks>)
    requires |prev| == |now|
    ensures Elapsed(prev, now) == TrueTotal(now) - TrueTotal(prev)
    ensures Worked(prev, now) == (TrueTotal(now) - TrueIdle(now)) - (TrueTotal(prev) - TrueIdle(prev))
  {
    if now != [] {
      SumsDiffer(prev[..|prev| - 1], now[..|now| - 1]);
    }
  }

  lemma LoadsAreMach(loads: seq<CpuLoad>)
    ensures forall i :: 0 <= i < |FirstLoads(loads)| ==> Mach(FirstLoads(loads)[i])
  {
  }

  lemma Cancel(x: real, y: real, d: int)
    requires d > 0 && Share(x, d) <= Share(y, d)
    ensures x <= y
  {
    var r := d as real;
    assert x * r / r == x && y * r / r == y;
  }

  /** The headline formula on sums that did not wrap: 100 times the busy part of the elapsed ticks. */
  lemma HeadlineValue(prev: CpuTicks, now: CpuTicks, worked: int, elapsed: int)
    requires Sane(prev) && Sane(now) && 0 <= worked <= elapsed && elapsed > 0
    requires elapsed == now.total - prev.total && worked == Busy(now) - Busy(prev)
    ensures Share(UnixUsage(true, prev, now), elapsed) == Share(100.0, worked)
  {
    BusyIncrement(prev, now);
    PercentOfPart(worked, elapsed);
    hide Percent;
  }

  lemma StoredSums(st: CpuState, primed: bool, loads: seq<CpuLoad>)
    requires Shaped(st) && loads != []
    ensures var next := DarwinCpu(st, primed, Some(loads)).0; var t := FirstLoads(loads);
      next.all == SumTicks(t) && forall i :: 0 <= i < |t| ==> next.core[i] == t[i]
  {
  }

  /** Two reads of the same processors whose counters grew, at least one of them strictly: the second
      snapshot's headline lies between the usages it shows for two of its cores. */
  lemma HeadlineIsMediant(st: CpuState, primed: bool, before: seq<CpuLoad>, after: seq<CpuLoad>)
      returns (lo: nat, hi: nat)
    requires Shaped(st) && |before| == |after|
    requires AllGrow(FirstLoads(before), FirstLoads(after)) && Elapsed(FirstLoads(before), FirstLoads(after)) > 0
    ensures var out := DarwinCpu(DarwinCpu(st, primed, Some(before)).0, true, Some(after)).1;
      lo < |out.cores| && hi < |out.cores| && out.cores[lo].usage <= out.cpuTotal <= out.cores[hi].usage
  {
    var p, n := FirstLoads(before), FirstLoads(after);
    assert before != [];
    var mid := DarwinCpu(st, primed, Some(before)).0;
    StoredSums(st, primed, before);
    var out := DarwinCpu(mid, true, Some(after)).1;
    LoadsAreMach(before);
    LoadsAreMach(after);
    SumsDoNotWrap(p);
    SumsDoNotWrap(n);
    SumsDiffer(p, n);
    ElapsedGrows(p, n);
    hide FirstLoads, UnixUsage, Share, Elapsed, Worked, SumTicks, TrueTotal, TrueIdle, AllGrow, Overlay;
    lo, hi := Mediant(p, n);
    HeadlineValue(mid.all, SumTicks(n), Worked(p, n), Elapsed(p, n));
    var d := Elapsed(p, n);
    assert out.cores[lo].usage == Usage(p, n, lo) && out.cores[hi].usage == Usage(p, n, hi);
    Cancel(Usage(p, n, lo), out.cpuTotal, d);
    Cancel(out.cpuTotal, Usage(p, n, hi), d);
  }
}

/** Over a whole run: the order in which the host lists its interfaces never reaches the figures. */
module Reorder {
  import opened Snapshots
  import opened Net
  import opened NetOrder
  import opened Collectors
  import opened Runs

  /** Two ticks that differ only in the order of their interfaces. */
  predicate SameTick(t: Tick, u: Tick) {
    t.now == u.now && t.sample == u.sample.(nets := t.sample.nets) && Reordered(t.sample.nets, u.sample.nets)
  }

  predicate SameRun(run: seq<Tick>, other: seq<Tick>) {
    |run| == |other| && forall k :: 0 <= k < |run| ==> SameTick(run[k], other[k])
  }

  /** Equal states but for the order of the stored counters. */
  predicate SameState(a: State, b: State) {
    a == b.(net := a.net) && Counters(a.net) == Counters(b.net)
  }

  /** Equal snapshots but for the order of the interfaces. */
  predicate SameShot(s: ResourceSnapshot, o: ResourceSnapshot) {
    s == o.(nets := s.nets) && multiset(s.nets) == multiset(o.nets)
  }

  lemma SameStep(a: State, b: State, t: Tick, u: Tick)
    requires Well(a) && Well(b) && SameState(a, b) && SameTick(t, u)
    ensures SameState(Step(a, t.sample, t.now).0, Step(b, u.sample, u.now).0)
    ensures SameShot(Step(a, t.sample, t.now).1, Step(b, u.sample, u.now).1)
  {
    hide NetStep, CpuStep, DiskRead, Reordered, Counters;
    ReorderedStep(a.net, b.net, RateDt(a, t.now), t.sample.nets, u.sample.nets);
  }

  lemma {:induction false} SameAfter(a: State, b: State, run: seq<Tick>, other: seq<Tick>)
    requires Well(a) && Well(b) && SameState(a, b) && SameRun(run, other)
    ensures SameState(After(a, run), After(b, other))
  {
    if run != [] {
      var n := |run| - 1;
      hide SameState, SameTick, Step;
      SameAfter(a, b, run[..n], other[..n]);
      SameStep(After(a, run[..n]), After(b, other[..n]), run[n], other[n]);
    }
  }

  /** However often the host reorders its interfaces, every snapshot of the run is the same up to the order
      of its rows: no interface ever takes another's rate. */
  lemma OrderNeverMatters(run: seq<Tick>, other: seq<Tick>, k: nat)
    requires SameRun(run, other) && k < |run|
    ensures SameShot(Shot(InitState(), run, k), Shot(InitState(), other, k))
  {
    hide Step, SameTick, SameShot, After;
    SameAfter(InitState(), InitState(), run[..k], other[..k]);
    SameStep(After(InitState(), run[..k]), After(InitState(), other[..k]), run[k], other[k]);
  }
}

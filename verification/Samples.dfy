/** What a snapshot holds, told from what the host gave alone: facts, interval, disks and interfaces. */
module Samples {
  import opened Util
  import opened Snapshots
  import opened Net
  import opened Disks
  import opened Collectors
  import opened Runs

  /** The host facts arrive unchanged, and the interval is the time since the snapshot before when the clock is positive
      and advanced, else 0. */
  lemma FactsArrive(run: seq<Tick>, k: nat)
    requires k < |run|
    ensures var shot := Shot(InitState(), run, k);
      && shot.facts == run[k].sample.facts
      && shot.sampleDt == if k > 0 && run[k - 1].now > 0.0 && run[k].now > run[k - 1].now
                          then run[k].now - run[k - 1].now
                          else 0.0
  {
    hide CpuStep, NetStep, DiskRead;
    if k > 0 {
      LastClock(InitState(), run[..k]);
    }
  }

  /** What a C string buffer of `n` bytes holds of `s`. */
  function Cut(s: string, n: nat): string
    requires n > 0
  {
    if |s| < n then s else s[..n - 1]
  }

  // ---------------------------------------------------------------- disks

  /** Listed, its statvfs succeeded, and its volume is not empty. */
  predicate Good(m: Mount) {
    m.listed && m.vfs.Some? && m.vfs.value.blocks != 0
    && m.vfs.value.blocks * m.vfs.value.bsize % 0x1_0000_0000_0000_0000 != 0
  }

  /** Mount `j` is good and the first good one of its device. */
  predicate FirstGood(ms: seq<Mount>, j: nat)
    requires j < |ms|
  {
    Good(ms[j]) && forall i :: 0 <= i < j ==> !(Good(ms[i]) && ms[i].device == ms[j].device)
  }

  /** How many of the first `n` mounts are. */
  function Firsts(ms: seq<Mount>, n: nat): nat
    requires n <= |ms|
  {
    if n == 0 then 0 else Firsts(ms, n - 1) + if FirstGood(ms, n - 1) then 1 else 0
  }

  /** The row of a mount: path and type cut to their fields, sizes modulo 2^64. */
  function DiskRow(m: Mount): DiskSample
    requires m.vfs.Some?
  {
    var v := m.vfs.value;
    DiskSample(Cut(m.dir, 128), Cut(m.fstype, 64),
               v.blocks * v.bsize % 0x1_0000_0000_0000_0000, (v.blocks - v.bfree) * v.bsize % 0x1_0000_0000_0000_0000)
  }

  lemma GoodQualifies(m: Mount)
    ensures Good(m) <==> Qualifies(m)
  {
  }

  lemma ModAdd(x: int, b: int)
    ensures (x + WORD * b) % WORD == x % WORD
  {
  }

  lemma RowIs(m: Mount)
    requires m.vfs.Some?
    ensures DiskOf(m) == DiskRow(m)
  {
    var v := m.vfs.value;
    if v.blocks < v.bfree {
      ModAdd((v.blocks - v.bfree) * v.bsize, v.bsize);
      assert (v.blocks - v.bfree + WORD) * v.bsize == (v.blocks - v.bfree) * v.bsize + WORD * v.bsize;
    }
  }

  lemma FirstsFront(ms: seq<Mount>, n: nat)
    requires ms != [] && n < |ms|
    ensures Firsts(ms[..|ms| - 1], n) == Firsts(ms, n)
    ensures n < |ms| - 1 ==> FirstGood(ms[..|ms| - 1], n) == FirstGood(ms, n)
  {
    hide Good;
    var front := ms[..|ms| - 1];
    assert forall i :: 0 <= i < |front| ==> front[i] == ms[i];
    if n > 0 {
      FirstsFront(ms, n - 1);
    }
  }

  lemma {:induction false} HasGood(ms: seq<Mount>, device: string)
    ensures HasDevice(Qualifying(ms), device) <==> exists i :: 0 <= i < |ms| && Good(ms[i]) && ms[i].device == device
  {
    hide Qualifies, Good;
    if ms != [] {
      var front, m := ms[..|ms| - 1], ms[|ms| - 1];
      HasGood(front, device);
      GoodQualifies(m);
      assert forall i :: 0 <= i < |front| ==> front[i] == ms[i];
      if Qualifies(m) {
        DeviceSnoc(Qualifying(front), m, device);
      } else {
        assert Qualifying(ms) == Qualifying(front);
      }
    }
  }

  /** The list of first mounts, counted off. */
  lemma {:induction false} CountedOff(ms: seq<Mount>)
    ensures |FirstOfEach(Qualifying(ms))| == Firsts(ms, |ms|)
    ensures forall j :: 0 <= j < |ms| && FirstGood(ms, j) ==>
      Firsts(ms, j) < |FirstOfEach(Qualifying(ms))| && FirstOfEach(Qualifying(ms))[Firsts(ms, j)] == ms[j]
  {
    hide Qualifies, Good, HasDevice, Firsts;
    if ms == [] {
      NoFirsts();
    } else {
      var front, m := ms[..|ms| - 1], ms[|ms| - 1];
      CountedOff(front);
      FirstsStep(ms);
      FirstStepOf(ms);
      forall j | 0 <= j < |front| && FirstGood(ms, j)
        ensures FirstGood(front, j) && Firsts(ms, j) == Firsts(front, j)
      {
        FirstsFront(ms, j);
      }
    }
  }

  lemma NoFirsts()
    ensures Firsts([], 0) == 0 == |FirstOfEach(Qualifying([]))|
  {
  }

  lemma FirstsStep(ms: seq<Mount>)
    requires ms != []
    ensures Firsts(ms, |ms|) == Firsts(ms[..|ms| - 1], |ms| - 1) + if FirstGood(ms, |ms| - 1) then 1 else 0
    ensures Firsts(ms, |ms| - 1) == Firsts(ms[..|ms| - 1], |ms| - 1)
  {
    hide FirstGood;
    FirstsFront(ms, |ms| - 1);
  }

  lemma FirstStepOf(ms: seq<Mount>)
    requires ms != []
    ensures FirstOfEach(Qualifying(ms))
         == FirstOfEach(Qualifying(ms[..|ms| - 1])) + if FirstGood(ms, |ms| - 1) then [ms[|ms| - 1]] else []
  {
    hide Good, Qualifies, HasDevice;
    var front, m := ms[..|ms| - 1], ms[|ms| - 1];
    HasGood(front, m.device);
    GoodQualifies(m);
    assert forall i :: 0 <= i < |front| ==> front[i] == ms[i];
    var q := Qualifying(front);
    if Good(m) {
      assert Qualifying(ms) == q + [m] && (q + [m])[..|q|] == q;
    } else {
      assert Qualifying(ms) == q;
      assert FirstOfEach(q) + [] == FirstOfEach(q);
    }
  }

  lemma {:induction false} QualifyingAgain(ms: seq<Mount>)
    ensures Qualifying(Qualifying(ms)) == Qualifying(ms)
  {
    hide Qualifies;
    if ms != [] {
      var front, m := ms[..|ms| - 1], ms[|ms| - 1];
      QualifyingAgain(front);
      if Qualifies(m) {
        assert (Qualifying(front) + [m])[..|Qualifying(front)|] == Qualifying(front);
      } else {
        assert Qualifying(ms) == Qualifying(front);
      }
    }
  }

  lemma {:induction false} QualifyingGood(ms: seq<Mount>)
    ensures forall m :: m in Qualifying(ms) ==> m in ms && Good(m)
  {
    hide Good, Qualifies;
    if ms != [] {
      QualifyingGood(ms[..|ms| - 1]);
      GoodQualifies(ms[|ms| - 1]);
    }
  }

  lemma ReportedIsFirst(ms: seq<Mount>)
    requires forall m :: m in ms && Good(m) ==> |m.device| < 128
    ensures Reported(ms) == Take(FirstOfEach(Qualifying(ms)), 8)
  {
    hide Good, Reported, FirstOfEach, Qualifying;
    OnlyQualifyingMatter(ms);
    QualifyingGood(ms);
    QualifyingAgain(ms);
    ShortNamesAreSafe(Qualifying(ms));
  }

  /** The disks of a snapshot: among the mounts that are good, the first of every device, in order, up to 8; none
      when the mount table cannot be read. */
  lemma DisksArrive(st: State, run: seq<Tick>, k: nat)
    requires Well(st) && k < |run|
    requires run[k].sample.mounts.Some? ==>
      forall m :: m in run[k].sample.mounts.value && Good(m) ==> |m.device| < 128
    ensures var disks := Shot(st, run, k).disks;
      match run[k].sample.mounts
      case None => disks == []
      case Some(ms) =>
        && |disks| == (if Firsts(ms, |ms|) < 8 then Firsts(ms, |ms|) else 8)
        && forall j :: 0 <= j < |ms| && FirstGood(ms, j) && Firsts(ms, j) < 8 ==>
             Firsts(ms, j) < |disks| && disks[Firsts(ms, j)] == DiskRow(ms[j])
  {
    hide CpuStep, NetStep, Reported, FirstOfEach, Qualifying, After, Good, DiskOf, Firsts, DiskRow;
    if run[k].sample.mounts.Some? {
      var ms := run[k].sample.mounts.value;
      ReportedIsFirst(ms);
      CountedOff(ms);
      forall j | 0 <= j < |ms| && FirstGood(ms, j) ensures ms[j].vfs.Some? && DiskOf(ms[j]) == DiskRow(ms[j]) {
        GoodHasSizes(ms[j]);
      }
    }
  }

  lemma GoodHasSizes(m: Mount)
    requires Good(m)
    ensures m.vfs.Some? && DiskOf(m) == DiskRow(m)
  {
    hide DiskOf, DiskRow;
    RowIs(m);
  }

  // ---------------------------------------------------------------- interfaces

  /** How many of the first `n` rows are usable. */
  function UsableBefore(rows: seq<IfRow>, n: nat): nat
    requires n <= |rows|
  {
    if n == 0 then 0 else UsableBefore(rows, n - 1) + if rows[n - 1].usable then 1 else 0
  }

  lemma UsableFront(rows: seq<IfRow>, n: nat)
    requires rows != [] && n < |rows|
    ensures UsableBefore(rows[..|rows| - 1], n) == UsableBefore(rows, n)
  {
    if n > 0 {
      UsableFront(rows, n - 1);
    }
  }

  lemma {:induction false} UsableGrows(rows: seq<IfRow>, i: nat, j: nat)
    requires i <= j <= |rows|
    ensures UsableBefore(rows, i) <= UsableBefore(rows, j)
    decreases j
  {
    if i < j {
      UsableGrows(rows, i, j - 1);
    }
  }

  /** The reported rows, counted off. */
  lemma {:induction false} AcceptedCounted(rows: seq<IfRow>)
    ensures |Accepted(rows)| == if UsableBefore(rows, |rows|) < 12 then UsableBefore(rows, |rows|) else 12
    ensures forall j :: 0 <= j < |rows| && rows[j].usable && UsableBefore(rows, j) < 12 ==>
      UsableBefore(rows, j) < |Accepted(rows)| && Accepted(rows)[UsableBefore(rows, j)] == rows[j]
  {
    hide UsableBefore;
    if rows == [] {
      NoneUsable();
    } else {
      var front := rows[..|rows| - 1];
      AcceptedCounted(front);
      UsableStep(rows);
      forall j | 0 <= j < |front| ensures UsableBefore(rows, j) == UsableBefore(front, j) {
        UsableFront(rows, j);
      }
    }
  }

  lemma NoneUsable()
    ensures UsableBefore([], 0) == 0
  {
  }

  lemma UsableStep(rows: seq<IfRow>)
    requires rows != []
    ensures UsableBefore(rows, |rows|)
         == UsableBefore(rows[..|rows| - 1], |rows| - 1) + if rows[|rows| - 1].usable then 1 else 0
    ensures UsableBefore(rows, |rows| - 1) == UsableBefore(rows[..|rows| - 1], |rows| - 1)
  {
    UsableFront(rows, |rows| - 1);
  }

  /** The interfaces of a snapshot: the first 12 usable ones in order, with their own counters; none when the read
      fails. */
  lemma InterfacesArrive(st: State, run: seq<Tick>, k: nat)
    requires Well(st) && k < |run|
    ensures var nets := Shot(st, run, k).nets;
      match run[k].sample.nets
      case None => nets == []
      case Some(rows) =>
        && |nets| == (if UsableBefore(rows, |rows|) < 12 then UsableBefore(rows, |rows|) else 12)
        && forall j :: 0 <= j < |rows| && rows[j].usable && UsableBefore(rows, j) < 12 ==>
             var c := UsableBefore(rows, j);
             c < |nets| && nets[c].name == Cut(rows[j].name, 64)
             && nets[c].rxBytes == rows[j].rx && nets[c].txBytes == rows[j].tx
  {
    hide CpuStep, DiskRead, After, Accepted, UsableBefore, Slot, Rate;
    if run[k].sample.nets.Some? {
      AcceptedCounted(run[k].sample.nets.value);
    }
  }

  /** The last read before tick `k` that succeeded is that of tick `prev`. */
  predicate LastRead(run: seq<Tick>, prev: nat, k: nat)
    requires prev < k < |run|
  {
    run[prev].sample.nets.Some? && forall i :: prev < i < k ==> run[i].sample.nets.None?
  }

  lemma {:induction false} TableKept(st: State, run: seq<Tick>, prev: nat, k: nat)
    requires Well(st) && prev < k < |run| && LastRead(run, prev, k)
    ensures var rows := Accepted(run[prev].sample.nets.value); var table := After(st, run[..k]).net;
      && |table| == |rows|
      && forall c :: 0 <= c < |rows| ==> table[c] == NetEntry(Cut(rows[c].name, 64), rows[c].rx, rows[c].tx)
    decreases k
  {
    hide CpuStep, DiskRead, Accepted, Slot, Rate, RateDt;
    assert run[..k][..k - 1] == run[..k - 1];
    if prev < k - 1 {
      TableKept(st, run, prev, k - 1);
    }
  }

  /** A rate: bytes a second, 0 when no time passed or the counter went down. */
  function PerSecond(was: u64, now: u64, dt: real): real {
    if dt > 0.0 && now >= was then (now - was) as real / dt else 0.0
  }

  /** The rates of interface `j` come from interface `i` of the last read that succeeded, when that is the first
      reported there under its name; the two directions are not mixed up. */
  lemma RatesArrive(run: seq<Tick>, prev: nat, k: nat, i: nat, j: nat)
    requires prev < k < |run| && LastRead(run, prev, k) && run[k].sample.nets.Some?
    requires var p, q := run[prev].sample.nets.value, run[k].sample.nets.value;
      && i < |p| && p[i].usable && UsableBefore(p, i) < 12 && j < |q| && q[j].usable && UsableBefore(q, j) < 12
      && p[i].name == q[j].name && |q[j].name| < 64
      && forall e :: 0 <= e < i && p[e].usable ==> Cut(p[e].name, 64) != q[j].name
    ensures var p, q := run[prev].sample.nets.value, run[k].sample.nets.value;
      var shot := Shot(InitState(), run, k); var c := UsableBefore(q, j);
      c < |shot.nets| && shot.nets[c].rxBps == PerSecond(p[i].rx, q[j].rx, shot.sampleDt)
      && shot.nets[c].txBps == PerSecond(p[i].tx, q[j].tx, shot.sampleDt)
  {
    hide CpuStep, DiskRead, After, Accepted, UsableBefore, Slot;
    var p, q := run[prev].sample.nets.value, run[k].sample.nets.value;
    var st := After(InitState(), run[..k]);
    PrimedAfter(InitState(), run[..k]);
    TableKept(InitState(), run, prev, k);
    AcceptedCounted(p);
    AcceptedCounted(q);
    FoundAt(st.net, p, i, q[j].name);
  }

  lemma FoundAt(table: seq<NetEntry>, p: seq<IfRow>, i: nat, name: string)
    requires i < |p| && p[i].usable && UsableBefore(p, i) < 12 && p[i].name == name && |name| < 64
    requires forall e :: 0 <= e < i && p[e].usable ==> Cut(p[e].name, 64) != name
    requires var rows := Accepted(p);
      && |table| == |rows|
      && forall c :: 0 <= c < |rows| ==> table[c] == NetEntry(Cut(rows[c].name, 64), rows[c].rx, rows[c].tx)
    ensures UsableBefore(p, i) < |table| && Slot(table, name) == UsableBefore(p, i)
    ensures table[UsableBefore(p, i)] == NetEntry(name, p[i].rx, p[i].tx)
  {
    hide Accepted, UsableBefore, Slot;
    AcceptedCounted(p);
    var c := UsableBefore(p, i);
    forall d | 0 <= d < c ensures table[d].name != name {
      var e := RowNumber(p, i, d);
    }
    SlotIs(table, name, c);
  }

  lemma SlotIs(table: seq<NetEntry>, name: string, c: nat)
    requires c < |table| && table[c].name == name && forall d :: 0 <= d < c ==> table[d].name != name
    ensures Slot(table, name) == c
  {
  }

  /** The usable row with number `d` among those before `i`. */
  lemma {:induction false} RowNumber(p: seq<IfRow>, i: nat, d: nat) returns (e: nat)
    requires i <= |p| && d < UsableBefore(p, i)
    ensures e < i && p[e].usable && UsableBefore(p, e) == d
    decreases i
  {
    if p[i - 1].usable && UsableBefore(p, i - 1) == d {
      e := i - 1;
    } else {
      e := RowNumber(p, i - 1, d);
    }
  }

  /** An interface the last successful read did not report has no rate yet. */
  lemma NewHasNoRate(run: seq<Tick>, prev: nat, k: nat, j: nat)
    requires prev < k < |run| && LastRead(run, prev, k) && run[k].sample.nets.Some?
    requires var p, q := run[prev].sample.nets.value, run[k].sample.nets.value;
      && j < |q| && q[j].usable && UsableBefore(q, j) < 12
      && forall e :: 0 <= e < |p| && p[e].usable ==> Cut(p[e].name, 64) != q[j].name
    ensures var nets := Shot(InitState(), run, k).nets; var c := UsableBefore(run[k].sample.nets.value, j);
      c < |nets| && nets[c].rxBps == 0.0 == nets[c].txBps
  {
    hide CpuStep, DiskRead, After, Accepted, UsableBefore, Slot, Cut;
    var p, q := run[prev].sample.nets.value, run[k].sample.nets.value;
    var st := After(InitState(), run[..k]);
    TableKept(InitState(), run, prev, k);
    AcceptedCounted(q);
    AcceptedCounted(p);
    forall d | 0 <= d < |st.net| ensures st.net[d].name != q[j].name {
      var e := RowNumber(p, |p|, d);
    }
  }
}

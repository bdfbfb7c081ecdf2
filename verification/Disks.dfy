/** fill_disks of Linux and macOS: the mounts reported, each device once. */
module Disks {
  import opened Options
  import opened Decimal
  import opened Util
  import opened Snapshots
  import opened CpuDelta

  datatype Vfs = Vfs(blocks: u64, bfree: u64, bsize: u64)

  /** A mount-table entry; `listed` is the host's filter on type, flags and device name, `vfs` what statvfs gave. */
  datatype Mount = Mount(dir: string, fstype: string, device: string, listed: bool, vfs: Option<Vfs>)

  function Mul64(a: u64, b: u64): u64 {
    a * b % WORD
  }

  function TotalBytes(v: Vfs): u64 {
    Mul64(v.blocks, v.bsize)
  }

  function UsedBytes(v: Vfs): u64 {
    Mul64(Sub64(v.blocks, v.bfree), v.bsize)
  }

  /** Used plus free is the total while the products fit 64 bits; space reserved for root counts as used. */
  lemma DiskAddsUp(v: Vfs)
    requires v.bfree <= v.blocks && v.blocks * v.bsize < WORD
    ensures UsedBytes(v) + v.bfree * v.bsize == TotalBytes(v) == v.blocks * v.bsize
  {
    assert v.blocks * v.bsize == (v.blocks - v.bfree) * v.bsize + v.bfree * v.bsize;
    assert 0 <= (v.blocks - v.bfree) * v.bsize <= v.blocks * v.bsize;
  }

  /** A mount that can be reported at all. */
  predicate Qualifies(m: Mount) {
    m.listed && m.vfs.Some? && m.vfs.value.blocks != 0 && TotalBytes(m.vfs.value) != 0
  }

  function DiskOf(m: Mount): DiskSample
    requires m.vfs.Some?
  {
    DiskSample(Trunc(m.dir, PATH_LEN), Trunc(m.fstype, NAME_LEN), TotalBytes(m.vfs.value), UsedBytes(m.vfs.value))
  }

  /** The duplicate test: stored names are cut to 127 bytes, the new name is compared whole. */
  predicate Seen(kept: seq<Mount>, device: string) {
    exists j :: 0 <= j < |kept| && Trunc(kept[j].device, PATH_LEN) == device
  }

  /** What the loop keeps. */
  function Reported(ms: seq<Mount>): (r: seq<Mount>)
    ensures |r| <= MAX_DISKS && forall i :: 0 <= i < |r| ==> Qualifies(r[i])
  {
    if ms == [] then []
    else
      var r, m := Reported(ms[..|ms| - 1]), ms[|ms| - 1];
      if |r| < MAX_DISKS && Qualifies(m) && !Seen(r, m.device) then r + [m] else r
  }

  function DisksOf(r: seq<Mount>): (d: seq<DiskSample>)
    requires forall i :: 0 <= i < |r| ==> Qualifies(r[i])
    ensures |d| == |r|
  {
    seq(|r|, i requires 0 <= i < |r| => assert Qualifies(r[i]); DiskOf(r[i]))
  }

  lemma {:induction false} ReportedPrefix(ms: seq<Mount>, i: nat)
    requires i <= |ms|
    ensures Reported(ms[..i]) <= Reported(ms)
    ensures |Reported(ms[..i])| == MAX_DISKS ==> Reported(ms) == Reported(ms[..i])
    decreases |ms|
  {
    if i < |ms| {
      assert ms[..|ms| - 1][..i] == ms[..i];
      ReportedPrefix(ms[..|ms| - 1], i);
    } else {
      assert ms[..i] == ms;
    }
  }

  lemma ReportStep(ms: seq<Mount>, i: nat)
    requires i < |ms|
    ensures var r := Reported(ms[..i]);
      Reported(ms[..i + 1])
      == if |r| < MAX_DISKS && Qualifies(ms[i]) && !Seen(r, ms[i].device) then r + [ms[i]] else r
  {
    assert ms[..i + 1][..i] == ms[..i];
  }

  /** The stored names are those of the mounts kept. */
  ghost predicate Names(seenDev: array<string>, kept: seq<Mount>)
    reads seenDev
  {
    |kept| <= seenDev.Length && forall j :: 0 <= j < |kept| ==> seenDev[j] == Trunc(kept[j].device, PATH_LEN)
  }

  method SeenBefore(seenDev: array<string>, seen: nat, device: string, ghost kept: seq<Mount>) returns (dup: bool)
    requires seen == |kept| && Names(seenDev, kept)
    ensures dup == Seen(kept, device)
  {
    hide Trunc;
    dup := false;
    var j := 0;
    while j < seen
      invariant 0 <= j <= seen && !dup
      invariant forall k :: 0 <= k < j ==> seenDev[k] != device
    {
      if seenDev[j] == device {
        dup := true;
        break;
      }
      j := j + 1;
    }
  }

  lemma NothingReported()
    ensures Reported([]) == [] && DisksOf([]) == []
  {
  }

  /** `mounts` is None when the mount table cannot be read. */
  method FillDisks(mounts: Option<seq<Mount>>) returns (disks: seq<DiskSample>)
    ensures disks == if mounts.Some? then DisksOf(Reported(mounts.value)) else []
  {
    hide TotalBytes, UsedBytes, Trunc, Seen, Reported;
    NothingReported();
    disks := [];
    if mounts.None? {
      return;
    }
    var ms := mounts.value;
    var seenDev := new string[MAX_DISKS];
    var seen := 0;
    ghost var kept: seq<Mount> := [];
    var i := 0;
    assert ms[..0] == [] && ms[..|ms|] == ms;
    while i < |ms| && |disks| < MAX_DISKS
      invariant 0 <= i <= |ms| && kept == Reported(ms[..i])
      invariant disks == DisksOf(kept) && seen == |disks|
      invariant Names(seenDev, kept)
    {
      ReportStep(ms, i);
      var m := ms[i];
      i := i + 1;
      if !m.listed {
        continue;
      }
      var dup := SeenBefore(seenDev, seen, m.device, kept);
      if dup {
        continue;
      }
      if m.vfs.None? || m.vfs.value.blocks == 0 {
        continue;
      }
      if TotalBytes(m.vfs.value) == 0 {
        continue;
      }
      DisksSnoc(kept, m);
      disks := disks + [DiskOf(m)];
      seenDev[seen] := Trunc(m.device, PATH_LEN);
      seen := seen + 1;
      kept := kept + [m];
    }
    ReportedPrefix(ms, i);
  }

  lemma DisksSnoc(r: seq<Mount>, m: Mount)
    requires Qualifies(m) && forall i :: 0 <= i < |r| ==> Qualifies(r[i])
    ensures DisksOf(r + [m]) == DisksOf(r) + [DiskOf(m)]
  {
    hide Qualifies;
    assert forall i :: 0 <= i < |r| ==> (r + [m])[i] == r[i];
  }

  // ---------------------------------------------------------------- the intended list

  function Qualifying(ms: seq<Mount>): (q: seq<Mount>)
    ensures forall i :: 0 <= i < |q| ==> Qualifies(q[i])
  {
    if ms == [] then []
    else Qualifying(ms[..|ms| - 1]) + if Qualifies(ms[|ms| - 1]) then [ms[|ms| - 1]] else []
  }

  predicate HasDevice(ms: seq<Mount>, device: string) {
    exists i :: 0 <= i < |ms| && ms[i].device == device
  }

  /** The first mount of every device, in order. */
  function FirstOfEach(q: seq<Mount>): seq<Mount> {
    if q == [] then []
    else
      var front, m := q[..|q| - 1], q[|q| - 1];
      FirstOfEach(front) + if HasDevice(front, m.device) then [] else [m]
  }

  function Take(s: seq<Mount>, n: nat): seq<Mount> {
    if |s| <= n then s else s[..n]
  }

  /** Mounts that do not qualify, a failed statvfs among them, never influence what is reported. */
  lemma {:induction false} OnlyQualifyingMatter(ms: seq<Mount>)
    ensures Reported(ms) == Reported(Qualifying(ms))
  {
    hide Qualifies, Seen;
    if ms != [] {
      var front, m := ms[..|ms| - 1], ms[|ms| - 1];
      OnlyQualifyingMatter(front);
      if Qualifies(m) {
        assert (Qualifying(front) + [m])[..|Qualifying(front)|] == Qualifying(front);
      } else {
        assert Qualifying(ms) == Qualifying(front);
      }
    }
  }

  lemma SameDevices(q: seq<Mount>, device: string)
    ensures HasDevice(FirstOfEach(q), device) <==> HasDevice(q, device)
    decreases |q|
  {
    if q != [] {
      var front, m := q[..|q| - 1], q[|q| - 1];
      SameDevices(front, device);
      DeviceSnoc(front, m, device);
      assert q == front + [m];
      if !HasDevice(front, m.device) {
        DeviceSnoc(FirstOfEach(front), m, device);
      } else {
        assert FirstOfEach(q) == FirstOfEach(front);
      }
      hide HasDevice;
    } else {
      assert FirstOfEach(q) == q;
    }
  }

  lemma DeviceSnoc(q: seq<Mount>, m: Mount, device: string)
    ensures HasDevice(q + [m], device) <==> HasDevice(q, device) || m.device == device
  {
    var s := q + [m];
    assert s[|q|] == m && forall i :: 0 <= i < |q| ==> s[i] == q[i];
  }

  /** A long device name already listed, or a name that a longer listed one is cut down to. */
  predicate Confusable(before: seq<Mount>, device: string) {
    || (|device| >= PATH_LEN && HasDevice(before, device))
    || (!HasDevice(before, device) && exists i :: 0 <= i < |before| && Shadows(before[i].device, device))
  }

  /** `stored` is too long for its slot and what the slot keeps of it is `device`. */
  predicate Shadows(stored: string, device: string) {
    |stored| >= PATH_LEN && |device| == PATH_LEN - 1 && stored[..PATH_LEN - 1] == device
  }

  /** The duplicate test is right exactly for names that are not confusable. */
  lemma SeenIsExact(kept: seq<Mount>, device: string)
    ensures (Seen(kept, device) <==> HasDevice(kept, device)) <==> !Confusable(kept, device)
  {
    if |device| >= PATH_LEN {
    } else if HasDevice(kept, device) {
      var i :| 0 <= i < |kept| && kept[i].device == device;
      assert Trunc(kept[i].device, PATH_LEN) == device;
    } else {
      if Seen(kept, device) {
        var i :| 0 <= i < |kept| && Trunc(kept[i].device, PATH_LEN) == device;
        assert Shadows(kept[i].device, device);
      }
      if i :| 0 <= i < |kept| && Shadows(kept[i].device, device) {
        assert Trunc(kept[i].device, PATH_LEN) == device;
      }
    }
  }

  /** No qualifying mount met before the table is full has a confusable name. */
  predicate NoConfusion(q: seq<Mount>) {
    forall j :: 0 <= j < |q| && |FirstOfEach(q[..j])| < MAX_DISKS ==> !Confusable(FirstOfEach(q[..j]), q[j].device)
  }

  lemma NoConfusionPrefix(q: seq<Mount>)
    requires q != [] && NoConfusion(q)
    ensures NoConfusion(q[..|q| - 1])
  {
    var front := q[..|q| - 1];
    assert forall j :: 0 <= j < |front| ==> front[..j] == q[..j] && front[j] == q[j];
  }

  lemma {:induction false} ReportsFirstOfEach(q: seq<Mount>)
    requires NoConfusion(q) && forall i :: 0 <= i < |q| ==> Qualifies(q[i])
    ensures Reported(q) == Take(FirstOfEach(q), MAX_DISKS)
  {
    if q != [] {
      var front, m := q[..|q| - 1], q[|q| - 1];
      NoConfusionPrefix(q);
      ReportsFirstOfEach(front);
      hide Qualifies, Seen, Confusable, HasDevice;
      if |FirstOfEach(front)| < MAX_DISKS {
        SeenIsExact(FirstOfEach(front), m.device);
        SameDevices(front, m.device);
      }
    }
  }

  // ---------------------------------------------------------------- and only then

  lemma {:induction false} FirstPrefix(q: seq<Mount>, i: nat)
    requires i <= |q|
    ensures FirstOfEach(q[..i]) <= FirstOfEach(q)
    decreases |q|
  {
    hide HasDevice;
    if i < |q| {
      assert q[..|q| - 1][..i] == q[..i];
      FirstPrefix(q[..|q| - 1], i);
    } else {
      assert q[..i] == q;
    }
  }

  lemma {:induction false} FirstDistinct(q: seq<Mount>)
    ensures forall i, j :: 0 <= i < j < |FirstOfEach(q)| ==> FirstOfEach(q)[i].device != FirstOfEach(q)[j].device
  {
    if q != [] {
      var front, m := q[..|q| - 1], q[|q| - 1];
      FirstDistinct(front);
      SameDevices(front, m.device);
    }
  }

  /** Once a name is taken for seen without being there, it is never reported. */
  lemma {:induction false} NeverReported(q: seq<Mount>, i: nat, device: string)
    requires i <= |q| && Seen(Reported(q[..i]), device) && !HasDevice(Reported(q[..i]), device)
    ensures Seen(Reported(q), device) && !HasDevice(Reported(q), device)
    decreases |q|
  {
    if i < |q| {
      var front, m := q[..|q| - 1], q[|q| - 1];
      assert front[..i] == q[..i];
      NeverReported(front, i, device);
      var r := Reported(front);
      SeenSnoc(r, m, device);
      DeviceSnoc(r, m, device);
      hide Seen, HasDevice;
    } else {
      assert q[..i] == q;
    }
  }

  lemma SeenSnoc(r: seq<Mount>, m: Mount, device: string)
    ensures Seen(r, device) ==> Seen(r + [m], device)
  {
    var s := r + [m];
    assert forall i :: 0 <= i < |r| ==> s[i] == r[i];
  }

  /** Case one: a device already listed is listed again. */
  lemma RepeatShows(q: seq<Mount>, j: nat)
    requires j < |q| && Qualifies(q[j])
    requires var r := FirstOfEach(q[..j]);
      |r| < MAX_DISKS && Reported(q[..j]) == r && HasDevice(r, q[j].device) && !Seen(r, q[j].device)
    ensures Reported(q) != Take(FirstOfEach(q), MAX_DISKS)
  {
    hide Qualifies, Seen;
    var r, m := FirstOfEach(q[..j]), q[j];
    ReportStep(q, j);
    ReportedPrefix(q, j + 1);
    FirstPrefix(q, j);
    FirstDistinct(q);
    hide Reported, FirstOfEach, HasDevice;
    RepeatDiffers(Reported(q), FirstOfEach(q), r, m);
  }

  lemma RepeatDiffers(reported: seq<Mount>, first: seq<Mount>, r: seq<Mount>, m: Mount)
    requires r + [m] <= reported && r <= first && HasDevice(r, m.device)
    requires forall i, j :: 0 <= i < j < |first| ==> first[i].device != first[j].device
    ensures reported != Take(first, MAX_DISKS)
  {
    assert reported[|r|] == m;
    var k :| 0 <= k < |r| && r[k].device == m.device;
    assert first[k] == r[k];
  }

  /** Case two: a new device is taken for one already listed. */
  lemma LossShows(q: seq<Mount>, j: nat)
    requires j < |q|
    requires var r := FirstOfEach(q[..j]);
      |r| < MAX_DISKS && Reported(q[..j]) == r && !HasDevice(r, q[j].device) && Seen(r, q[j].device)
    ensures Reported(q) != Take(FirstOfEach(q), MAX_DISKS)
  {
    hide Reported, FirstOfEach, Seen, HasDevice;
    var r, m := FirstOfEach(q[..j]), q[j];
    SameDevices(q[..j], m.device);
    FirstStep(q, j);
    FirstPrefix(q, j + 1);
    assert FirstOfEach(q)[|r|] == m;
    NeverReported(q, j, m.device);
    NotListed(Reported(q), m.device);
  }

  lemma FirstStep(q: seq<Mount>, j: nat)
    requires j < |q| && !HasDevice(q[..j], q[j].device)
    ensures FirstOfEach(q[..j + 1]) == FirstOfEach(q[..j]) + [q[j]]
  {
    hide HasDevice;
    assert q[..j + 1][..j] == q[..j];
  }

  lemma NotListed(r: seq<Mount>, device: string)
    requires !HasDevice(r, device)
    ensures forall i :: 0 <= i < |r| ==> r[i].device != device
  {
  }

  /** The first confusable name makes the two lists differ for good. */
  lemma ConfusionShows(q: seq<Mount>, j: nat)
    requires forall i :: 0 <= i < |q| ==> Qualifies(q[i])
    requires j < |q| && |FirstOfEach(q[..j])| < MAX_DISKS && Reported(q[..j]) == FirstOfEach(q[..j])
    requires Confusable(FirstOfEach(q[..j]), q[j].device)
    ensures Reported(q) != Take(FirstOfEach(q), MAX_DISKS)
  {
    hide Reported, FirstOfEach, Seen, HasDevice, Confusable, Qualifies;
    SeenIsExact(FirstOfEach(q[..j]), q[j].device);
    if HasDevice(FirstOfEach(q[..j]), q[j].device) {
      RepeatShows(q, j);
    } else {
      LossShows(q, j);
    }
  }

  lemma {:induction false} AgreesUpTo(q: seq<Mount>, j: nat)
    requires forall i :: 0 <= i < |q| ==> Qualifies(q[i])
    requires j <= |q|
    requires forall i :: 0 <= i < j && |FirstOfEach(q[..i])| < MAX_DISKS ==>
      !Confusable(FirstOfEach(q[..i]), q[i].device)
    ensures Reported(q[..j]) == Take(FirstOfEach(q[..j]), MAX_DISKS)
  {
    hide Qualifies, Confusable, Reported, FirstOfEach;
    var p := q[..j];
    assert forall i :: 0 <= i < j ==> p[..i] == q[..i] && p[i] == q[i];
    assert NoConfusion(p);
    ReportsFirstOfEach(p);
  }

  lemma FirstConfusion(q: seq<Mount>, j: nat) returns (i: nat)
    requires j < |q| && |FirstOfEach(q[..j])| < MAX_DISKS && Confusable(FirstOfEach(q[..j]), q[j].device)
    ensures i <= j && |FirstOfEach(q[..i])| < MAX_DISKS && Confusable(FirstOfEach(q[..i]), q[i].device)
    ensures forall k :: 0 <= k < i && |FirstOfEach(q[..k])| < MAX_DISKS ==>
      !Confusable(FirstOfEach(q[..k]), q[k].device)
    decreases j
  {
    hide Confusable, FirstOfEach;
    if k :| 0 <= k < j && |FirstOfEach(q[..k])| < MAX_DISKS && Confusable(FirstOfEach(q[..k]), q[k].device) {
      i := FirstConfusion(q, k);
    } else {
      i := j;
    }
  }

  /** The loop reports the first 8 of "first mount of every device" exactly when no name is confusable. */
  lemma DedupeRule(ms: seq<Mount>)
    ensures Reported(ms) == Take(FirstOfEach(Qualifying(ms)), MAX_DISKS) <==> NoConfusion(Qualifying(ms))
  {
    hide Confusable, Reported, FirstOfEach, Qualifies, Qualifying;
    var q := Qualifying(ms);
    OnlyQualifyingMatter(ms);
    if NoConfusion(q) {
      ReportsFirstOfEach(q);
    } else {
      var j :| 0 <= j < |q| && |FirstOfEach(q[..j])| < MAX_DISKS && Confusable(FirstOfEach(q[..j]), q[j].device);
      var i := FirstConfusion(q, j);
      AgreesUpTo(q, i);
      ConfusionShows(q, i);
    }
  }

  lemma ShortNotConfusable(before: seq<Mount>, device: string)
    requires |device| < PATH_LEN && forall m :: m in before ==> |m.device| < PATH_LEN
    ensures !Confusable(before, device)
  {
    hide HasDevice;
    assert forall i :: 0 <= i < |before| ==> before[i] in before;
  }

  /** Device names that fit their slot are never confusable. */
  lemma ShortNamesAreSafe(ms: seq<Mount>)
    requires forall m :: m in ms ==> |m.device| < PATH_LEN
    ensures Reported(ms) == Take(FirstOfEach(Qualifying(ms)), MAX_DISKS)
  {
    hide Confusable, FirstOfEach, Qualifying, Reported, Qualifies;
    var q := Qualifying(ms);
    QualifyingMembers(ms);
    forall j | 0 <= j < |q| ensures !Confusable(FirstOfEach(q[..j]), q[j].device) {
      FirstMembers(q[..j]);
      assert q[j] in q;
      ShortNotConfusable(FirstOfEach(q[..j]), q[j].device);
    }
    DedupeRule(ms);
  }

  lemma {:induction false} QualifyingMembers(ms: seq<Mount>)
    ensures forall m :: m in Qualifying(ms) ==> m in ms
  {
    if ms != [] {
      QualifyingMembers(ms[..|ms| - 1]);
    }
  }

  lemma {:induction false} FirstMembers(q: seq<Mount>)
    ensures forall m :: m in FirstOfEach(q) ==> m in q
  {
    if q != [] {
      FirstMembers(q[..|q| - 1]);
    }
  }

  /** Two mounts of one device whose name is 128 bytes or longer are both reported. */
  lemma LongNameTwice(a: Mount, b: Mount)
    requires Qualifies(a) && Qualifies(b) && a.device == b.device && |a.device| >= PATH_LEN
    ensures Reported([a, b]) == [a, b]
  {
    assert [a, b][..1] == [a] && [a][..0] == [];
    assert Reported([]) == [];
    assert Reported([a]) == [a];
    assert !Seen([a], b.device);
  }
}

/** fill_net: last counters per interface kept in parallel arrays, rates from one read to the next. */
module Net {
  import opened Options
  import opened Decimal
  import opened Util
  import opened Snapshots

  /** One interface as the host lists it; `usable` is what its filters and parser decide. */
  datatype IfRow = IfRow(name: string, usable: bool, rx: u64, tx: u64)

  /** One slot of g_net_name, g_net_rx and g_net_tx. */
  datatype NetEntry = NetEntry(name: string, rx: u64, tx: u64)

  /** The interfaces reported: the first MAX_NETS usable ones. */
  function Accepted(rows: seq<IfRow>): (a: seq<IfRow>)
    ensures |a| <= MAX_NETS && |a| <= |rows|
  {
    if rows == [] then []
    else
      var a, last := Accepted(rows[..|rows| - 1]), rows[|rows| - 1];
      if last.usable && |a| < MAX_NETS then a + [last] else a
  }

  /** Linear search: position of the first slot with this name, or the number of slots. */
  function Slot(table: seq<NetEntry>, name: string): (i: nat)
    ensures i <= |table|
    ensures forall k :: 0 <= k < i ==> table[k].name != name
    ensures i < |table| ==> table[i].name == name
  {
    if table == [] || table[0].name == name then 0 else 1 + Slot(table[1..], name)
  }

  /** Bytes a second since the stored counter; 0 when the counter went down. */
  function Rate(prev: u64, now: u64, dt: real): (r: real)
    requires dt > 0.0
    ensures r >= 0.0
  {
    if now >= prev then (now - prev) as real / dt else 0.0
  }

  /** The row shown for one interface. `dt` is the seconds since the last snapshot, 0 when rates are off. */
  function RowFor(table: seq<NetEntry>, dt: real, r: IfRow): NetSample {
    var i := Slot(table, r.name);
    if dt > 0.0 && i < |table| then
      NetSample(Trunc(r.name, NAME_LEN), r.rx, r.tx, Rate(table[i].rx, r.rx, dt), Rate(table[i].tx, r.tx, dt))
    else NetSample(Trunc(r.name, NAME_LEN), r.rx, r.tx, 0.0, 0.0)
  }

  function RowsFor(table: seq<NetEntry>, dt: real, rows: seq<IfRow>): (nets: seq<NetSample>)
    ensures |nets| == |rows|
  {
    seq(|rows|, i requires 0 <= i < |rows| => RowFor(table, dt, rows[i]))
  }

  function EntryOf(n: NetSample): NetEntry {
    NetEntry(n.name, n.rxBytes, n.txBytes)
  }

  function EntriesOf(nets: seq<NetSample>): (t: seq<NetEntry>)
    ensures |t| == |nets|
  {
    seq(|nets|, i requires 0 <= i < |nets| => EntryOf(nets[i]))
  }

  /** One call: a failed read reports nothing and keeps the table; a good one replaces it by what it reports. */
  function NetStep(table: seq<NetEntry>, dt: real, read: Option<seq<IfRow>>): (r: (seq<NetEntry>, seq<NetSample>))
    ensures |table| <= MAX_NETS ==> |r.0| <= MAX_NETS
  {
    match read
    case None => (table, [])
    case Some(rows) =>
      var nets := RowsFor(table, dt, Accepted(rows));
      (EntriesOf(nets), nets)
  }

  lemma {:induction false} AcceptedFull(rows: seq<IfRow>, i: nat)
    requires i <= |rows| && |Accepted(rows[..i])| == MAX_NETS
    ensures Accepted(rows) == Accepted(rows[..i])
    decreases |rows|
  {
    if i < |rows| {
      assert rows[..|rows| - 1][..i] == rows[..i];
      AcceptedFull(rows[..|rows| - 1], i);
    } else {
      assert rows[..i] == rows;
    }
  }

  lemma RowsSnoc(table: seq<NetEntry>, dt: real, rows: seq<IfRow>, r: IfRow)
    ensures RowsFor(table, dt, rows + [r]) == RowsFor(table, dt, rows) + [RowFor(table, dt, r)]
  {
    hide RowFor;
  }

  function Zip(names: seq<string>, rxs: seq<u64>, txs: seq<u64>): (t: seq<NetEntry>)
    requires |rxs| == |names| && |txs| == |names|
    ensures |t| == |names|
    ensures forall i :: 0 <= i < |t| ==> t[i] == NetEntry(names[i], rxs[i], txs[i])
  {
    seq(|names|, i requires 0 <= i < |names| => NetEntry(names[i], rxs[i], txs[i]))
  }

  class NetTable {
    const name: array<string>
    const rx: array<u64>
    const tx: array<u64>
    var n: nat

    ghost predicate Valid()
      reads this
    {
      && name.Length == MAX_NETS && rx.Length == MAX_NETS && tx.Length == MAX_NETS
      && rx != tx && n <= MAX_NETS
    }

    ghost function Entries(): (t: seq<NetEntry>)
      reads this, name, rx, tx
      requires Valid()
      ensures |t| == n
    {
      Zip(name[..n], rx[..n], tx[..n])
    }

    constructor ()
      ensures Valid() && fresh(name) && fresh(rx) && fresh(tx)
      ensures Entries() == []
    {
      name := new string[MAX_NETS](_ => "");
      rx := new u64[MAX_NETS](_ => 0);
      tx := new u64[MAX_NETS](_ => 0);
      n := 0;
    }

    method Clear()
      requires Valid()
      modifies this
      ensures Valid() && Entries() == []
    {
      n := 0;
    }

    method Search(key: string) returns (prev: int)
      requires Valid()
      ensures prev == if Slot(Entries(), key) < n then Slot(Entries(), key) else -1
    {
      prev := -1;
      var i := 0;
      while i < n
        invariant 0 <= i <= n && prev == -1
        invariant forall k :: 0 <= k < i ==> name[k] != key
      {
        if name[i] == key {
          prev := i;
          break;
        }
        i := i + 1;
      }
      ghost var s := Slot(Entries(), key);
      assert s < n ==> Entries()[s].name == name[s];
      assert 0 <= prev < n ==> Entries()[prev].name == name[prev];
    }

    method Sample(live: bool, dt: real, r: IfRow) returns (s: NetSample)
      requires Valid()
      ensures s == RowFor(Entries(), if live && dt > 0.0 then dt else 0.0, r)
    {
      var rxBps, txBps := 0.0, 0.0;
      if live && dt > 0.0 {
        var prev := Search(r.name);
        if prev >= 0 {
          assert Entries()[prev] == NetEntry(name[prev], rx[prev], tx[prev]);
          if r.rx >= rx[prev] {
            rxBps := (r.rx - rx[prev]) as real / dt;
          }
          if r.tx >= tx[prev] {
            txBps := (r.tx - tx[prev]) as real / dt;
          }
        }
      }
      s := NetSample(Trunc(r.name, NAME_LEN), r.rx, r.tx, rxBps, txBps);
    }

    /** The final loop: the rows just reported become the stored counters. */
    method Store(nets: seq<NetSample>)
      requires Valid() && |nets| <= MAX_NETS && forall i :: 0 <= i < |nets| ==> |nets[i].name| < NAME_LEN
      modifies this, name, rx, tx
      ensures Valid() && Entries() == EntriesOf(nets)
    {
      n := |nets|;
      var i := 0;
      while i < n
        invariant 0 <= i <= n && n == |nets| && Valid()
        invariant forall k :: 0 <= k < i ==> NetEntry(name[k], rx[k], tx[k]) == EntryOf(nets[k])
      {
        name[i] := Trunc(nets[i].name, NAME_LEN);
        rx[i] := nets[i].rxBytes;
        tx[i] := nets[i].txBytes;
        i := i + 1;
      }
    }

    /** The read loop: one row for every accepted interface. */
    method ReadRows(live: bool, dt: real, rows: seq<IfRow>) returns (nets: seq<NetSample>)
      requires Valid()
      ensures nets == RowsFor(Entries(), if live && dt > 0.0 then dt else 0.0, Accepted(rows))
    {
      ghost var table, rate := Entries(), if live && dt > 0.0 then dt else 0.0;
      hide RowFor, RowsFor, NetTable.Entries, Slot, Rate;
      nets := [];
      var i := 0;
      assert rows[..0] == [] && rows[..|rows|] == rows;
      NoRows(table, rate);
      while i < |rows| && |nets| < MAX_NETS
        invariant 0 <= i <= |rows|
        invariant nets == RowsFor(table, rate, Accepted(rows[..i]))
      {
        var r := rows[i];
        AcceptStep(rows, i);
        hide Accepted;
        i := i + 1;
        if !r.usable {
          continue;
        }
        var s := Sample(live, dt, r);
        RowsSnoc(table, rate, Accepted(rows[..i - 1]), r);
        nets := nets + [s];
      }
      if i < |rows| {
        AcceptedFull(rows, i);
      }
    }

    method FillNet(live: bool, dt: real, read: Option<seq<IfRow>>) returns (nets: seq<NetSample>)
      requires Valid()
      modifies this, name, rx, tx
      ensures Valid()
      ensures (Entries(), nets) == NetStep(old(Entries()), if live && dt > 0.0 then dt else 0.0, read)
    {
      nets := [];
      if read.None? {
        return;
      }
      nets := ReadRows(live, dt, read.value);
      NamesShort(Entries(), if live && dt > 0.0 then dt else 0.0, Accepted(read.value));
      hide RowsFor, Accepted, NetTable.Entries, EntriesOf;
      Store(nets);
    }
  }

  lemma AcceptStep(rows: seq<IfRow>, i: nat)
    requires i < |rows| && |Accepted(rows[..i])| < MAX_NETS
    ensures Accepted(rows[..i + 1]) == if rows[i].usable then Accepted(rows[..i]) + [rows[i]] else Accepted(rows[..i])
  {
    assert rows[..i + 1][..i] == rows[..i];
  }

  lemma NoRows(table: seq<NetEntry>, dt: real)
    ensures RowsFor(table, dt, []) == []
  {
  }

  lemma NamesShort(table: seq<NetEntry>, dt: real, rows: seq<IfRow>)
    ensures forall i :: 0 <= i < |rows| ==> |RowsFor(table, dt, rows)[i].name| < NAME_LEN
  {
  }
}

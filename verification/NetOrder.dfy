/** The parallel arrays stand for a map, and the order in which a host lists its interfaces does not matter. */
module NetOrder {
  import opened Options
  import opened Decimal
  import opened Util
  import opened Snapshots
  import opened Net

  /** The map the parallel arrays stand for; the first slot with a name wins, as in the linear search. */
  function Counters(table: seq<NetEntry>): map<string, (u64, u64)> {
    if table == [] then map[]
    else Counters(table[1..])[table[0].name := (table[0].rx, table[0].tx)]
  }

  /** The row for one interface from the map alone. */
  function RowFromMap(last: map<string, (u64, u64)>, dt: real, r: IfRow): NetSample {
    if dt > 0.0 && r.name in last then
      NetSample(Trunc(r.name, NAME_LEN), r.rx, r.tx, Rate(last[r.name].0, r.rx, dt), Rate(last[r.name].1, r.tx, dt))
    else NetSample(Trunc(r.name, NAME_LEN), r.rx, r.tx, 0.0, 0.0)
  }

  lemma {:induction false} SlotIsLookup(table: seq<NetEntry>, name: string)
    ensures name in Counters(table) <==> Slot(table, name) < |table|
    ensures name in Counters(table) ==>
      Counters(table)[name] == (table[Slot(table, name)].rx, table[Slot(table, name)].tx)
  {
    if table != [] && table[0].name != name {
      SlotIsLookup(table[1..], name);
    }
  }

  /** The search through the arrays refines the map. */
  lemma RowRefinesMap(table: seq<NetEntry>, dt: real, r: IfRow)
    ensures RowFor(table, dt, r) == RowFromMap(Counters(table), dt, r)
  {
    SlotIsLookup(table, r.name);
    hide Counters, Rate;
  }

  // ---------------------------------------------------------------- permutations

  predicate DistinctEntries(table: seq<NetEntry>) {
    forall i, j :: 0 <= i < j < |table| ==> table[i].name != table[j].name
  }

  predicate DistinctRows(rows: seq<IfRow>) {
    forall i, j :: 0 <= i < j < |rows| ==> rows[i].name != rows[j].name
  }

  predicate ShortNames(rows: seq<IfRow>) {
    forall i :: 0 <= i < |rows| ==> |rows[i].name| < NAME_LEN
  }

  function Usable(rows: seq<IfRow>): (u: seq<IfRow>)
    ensures |u| <= |rows|
  {
    if rows == [] then []
    else
      var u, last := Usable(rows[..|rows| - 1]), rows[|rows| - 1];
      if last.usable then u + [last] else u
  }

  lemma {:induction false} AcceptedUsable(rows: seq<IfRow>)
    ensures |Accepted(rows)| <= |Usable(rows)|
    ensures |Usable(rows)| <= MAX_NETS ==> Accepted(rows) == Usable(rows)
  {
    if rows != [] {
      AcceptedUsable(rows[..|rows| - 1]);
    }
  }

  lemma {:induction false} UsableCount(rows: seq<IfRow>, r: IfRow)
    ensures multiset(Usable(rows))[r] == if r.usable then multiset(rows)[r] else 0
  {
    if rows != [] {
      UsableCount(rows[..|rows| - 1], r);
      assert rows == rows[..|rows| - 1] + [rows[|rows| - 1]];
    }
  }

  lemma UsablePermuted(a: seq<IfRow>, b: seq<IfRow>)
    requires multiset(a) == multiset(b)
    ensures multiset(Usable(a)) == multiset(Usable(b)) && |Usable(a)| == |Usable(b)|
  {
    forall r: IfRow ensures multiset(Usable(a))[r] == multiset(Usable(b))[r] {
      UsableCount(a, r);
      UsableCount(b, r);
    }
    assert |multiset(Usable(a))| == |Usable(a)| && |multiset(Usable(b))| == |Usable(b)|;
  }

  lemma RowsAppend(table: seq<NetEntry>, dt: real, a: seq<IfRow>, b: seq<IfRow>)
    ensures RowsFor(table, dt, a + b) == RowsFor(table, dt, a) + RowsFor(table, dt, b)
  {
    hide RowFor;
  }

  lemma RowsOne(table: seq<NetEntry>, dt: real, r: IfRow)
    ensures RowsFor(table, dt, [r]) == [RowFor(table, dt, r)]
  {
    hide RowFor;
  }

  lemma Extract(b: seq<IfRow>, x: IfRow) returns (left: seq<IfRow>, right: seq<IfRow>)
    requires x in multiset(b)
    ensures b == left + [x] + right && multiset(left + right) == multiset(b) - multiset{x}
  {
    var j :| 0 <= j < |b| && b[j] == x;
    left, right := b[..j], b[j + 1..];
    assert b == left + [x] + right;
  }

  /** Rows are computed one by one, so permuting the interfaces permutes the rows. */
  lemma {:induction false} RowsPermuted(table: seq<NetEntry>, dt: real, a: seq<IfRow>, b: seq<IfRow>)
    requires multiset(a) == multiset(b)
    ensures multiset(RowsFor(table, dt, a)) == multiset(RowsFor(table, dt, b))
    decreases |a|
  {
    if a == [] {
      assert |multiset(b)| == |b| == 0;
    } else {
      hide RowFor, RowsFor;
      var front, last := a[..|a| - 1], a[|a| - 1];
      assert a == front + [last];
      var left, right := Extract(b, last);
      RowsPermuted(table, dt, front, left + right);
      var l, r, y := RowsFor(table, dt, left), RowsFor(table, dt, right), RowFor(table, dt, last);
      RowsOne(table, dt, last);
      RowsAppend(table, dt, front, [last]);
      RowsAppend(table, dt, left, right);
      RowsAppend(table, dt, left, [last]);
      RowsAppend(table, dt, left + [last], right);
      assert multiset(l + [y] + r) == multiset(l + r) + multiset{y};
    }
  }

  /** Whatever order the host lists them in, at most 12 usable interfaces give the same rows. */
  lemma SameRows(table: seq<NetEntry>, dt: real, rows: seq<IfRow>, other: seq<IfRow>)
    requires multiset(rows) == multiset(other) && |Usable(rows)| <= MAX_NETS
    ensures multiset(NetStep(table, dt, Some(rows)).1) == multiset(NetStep(table, dt, Some(other)).1)
  {
    UsablePermuted(rows, other);
    AcceptedUsable(rows);
    AcceptedUsable(other);
    hide Usable, Accepted, RowsFor;
    RowsPermuted(table, dt, Usable(rows), Usable(other));
  }

  // ---------------------------------------------------------------- the stored table

  lemma {:induction false} CountersMember(table: seq<NetEntry>, name: string)
    requires DistinctEntries(table)
    ensures name in Counters(table) <==> exists e :: e in table && e.name == name
    ensures forall e :: e in table && e.name == name ==>
      name in Counters(table) && Counters(table)[name] == (e.rx, e.tx)
  {
    if table != [] {
      var rest := table[1..];
      CountersMember(rest, name);
      assert table == [table[0]] + rest;
      assert forall e :: e in rest ==> e.name != table[0].name;
      hide DistinctEntries;
      assert table[0] in table;
    }
  }

  lemma SameCounters(a: seq<NetEntry>, b: seq<NetEntry>)
    requires DistinctEntries(a) && DistinctEntries(b) && forall e :: e in a <==> e in b
    ensures Counters(a) == Counters(b)
  {
    forall name: string
      ensures name in Counters(a) <==> name in Counters(b)
      ensures name in Counters(a) ==> Counters(a)[name] == Counters(b)[name]
    {
      CountersMember(a, name);
      CountersMember(b, name);
    }
  }

  /** What a row leaves in the table. */
  function Stored(r: IfRow): NetEntry {
    NetEntry(Trunc(r.name, NAME_LEN), r.rx, r.tx)
  }

  lemma StoredEntries(table: seq<NetEntry>, dt: real, rows: seq<IfRow>)
    ensures var t := EntriesOf(RowsFor(table, dt, rows));
      |t| == |rows| && forall i :: 0 <= i < |t| ==> t[i] == Stored(rows[i])
  {
  }

  lemma {:induction false} AcceptedDistinct(rows: seq<IfRow>)
    requires DistinctRows(rows)
    ensures DistinctRows(Accepted(rows))
    ensures forall r :: r in Accepted(rows) ==> r in rows
  {
    if rows != [] {
      AcceptedDistinct(rows[..|rows| - 1]);
      assert forall r :: r in rows[..|rows| - 1] ==> r.name != rows[|rows| - 1].name;
    }
  }

  /** The table after a read is exactly what was just reported, and it holds each accepted interface once. */
  lemma TableIsReport(table: seq<NetEntry>, dt: real, rows: seq<IfRow>)
    requires DistinctRows(rows) && ShortNames(rows)
    ensures var r := NetStep(table, dt, Some(rows));
      && r.0 == EntriesOf(r.1) && DistinctEntries(r.0)
      && forall e :: e in r.0 <==> exists x :: x in Accepted(rows) && Stored(x) == e
  {
    var a := Accepted(rows);
    AcceptedDistinct(rows);
    StoredEntries(table, dt, a);
    var t := NetStep(table, dt, Some(rows)).0;
    hide Accepted, RowsFor, EntriesOf;
    assert forall i :: 0 <= i < |a| ==> t[i].name == a[i].name by {
      forall i | 0 <= i < |a| ensures t[i].name == a[i].name {
        assert a[i] in rows;
      }
    }
    forall e | exists x :: x in a && Stored(x) == e ensures e in t {
      var x :| x in a && Stored(x) == e;
      var i :| 0 <= i < |a| && a[i] == x;
      assert t[i] == e;
    }
    forall e | e in t ensures exists x :: x in a && Stored(x) == e {
      var i :| 0 <= i < |t| && t[i] == e;
      assert a[i] in a && Stored(a[i]) == e;
    }
  }

  /** The order of a read is all that differs: at most 12 usable interfaces, distinctly and shortly named. */
  predicate Reordered(read: Option<seq<IfRow>>, other: Option<seq<IfRow>>) {
    if read.None? then other.None?
    else
      && other.Some? && multiset(read.value) == multiset(other.value)
      && DistinctRows(read.value) && ShortNames(read.value) && |Usable(read.value)| <= MAX_NETS
  }

  lemma PermutedNames(rows: seq<IfRow>, other: seq<IfRow>)
    requires multiset(rows) == multiset(other) && DistinctRows(rows) && ShortNames(rows)
    ensures DistinctRows(other) && ShortNames(other)
  {
    forall i | 0 <= i < |other| ensures |other[i].name| < NAME_LEN {
      assert other[i] in multiset(rows);
    }
    forall i, j | 0 <= i < j < |other| ensures other[i].name != other[j].name {
      TwoNames(rows, other, i, j);
    }
  }

  lemma OtherStays(s: seq<IfRow>, i: nat, j: nat)
    requires i < j < |s|
    ensures s[j] in multiset(s) - multiset{s[i]}
  {
    var rest := s[i + 1..];
    assert s == s[..i] + [s[i]] + rest;
    assert rest[j - i - 1] == s[j];
    assert s[j] in multiset(rest);
  }

  lemma OthersDiffer(left: seq<IfRow>, x: IfRow, right: seq<IfRow>, y: IfRow)
    requires DistinctRows(left + [x] + right) && y in multiset(left + right)
    ensures x.name != y.name
  {
    var s := left + [x] + right;
    var k :| 0 <= k < |left + right| && (left + right)[k] == y;
    assert s[|left|] == x && s[if k < |left| then k else k + 1] == y;
  }

  lemma TwoNames(rows: seq<IfRow>, other: seq<IfRow>, i: nat, j: nat)
    requires multiset(rows) == multiset(other) && DistinctRows(rows) && i < j < |other|
    ensures other[i].name != other[j].name
  {
    hide DistinctRows;
    OtherStays(other, i, j);
    assert other[i] in multiset(rows);
    var left, right := Extract(rows, other[i]);
    OthersDiffer(left, other[i], right, other[j]);
  }

  lemma SameTables(a: seq<NetEntry>, b: seq<NetEntry>, dt: real, rows: seq<IfRow>, other: seq<IfRow>)
    requires Reordered(Some(rows), Some(other))
    ensures Counters(NetStep(a, dt, Some(rows)).0) == Counters(NetStep(b, dt, Some(other)).0)
  {
    PermutedNames(rows, other);
    TableIsReport(a, dt, rows);
    TableIsReport(b, dt, other);
    UsablePermuted(rows, other);
    AcceptedUsable(rows);
    AcceptedUsable(other);
    assert forall x :: x in Accepted(rows) <==> x in Accepted(other) by {
      assert forall x :: x in Usable(rows) <==> x in multiset(Usable(rows));
      assert forall x :: x in Usable(other) <==> x in multiset(Usable(other));
    }
    hide NetStep, Accepted, Usable, Counters, DistinctRows, ShortNames, DistinctEntries;
    SameCounters(NetStep(a, dt, Some(rows)).0, NetStep(b, dt, Some(other)).0);
  }

  /** From tables that stand for the same map, reads that differ in order give the same rows, rates included,
      and tables that again stand for the same map. */
  lemma ReorderedStep(a: seq<NetEntry>, b: seq<NetEntry>, dt: real, read: Option<seq<IfRow>>, other: Option<seq<IfRow>>)
    requires Counters(a) == Counters(b) && Reordered(read, other)
    ensures multiset(NetStep(a, dt, read).1) == multiset(NetStep(b, dt, other).1)
    ensures Counters(NetStep(a, dt, read).0) == Counters(NetStep(b, dt, other).0)
  {
    if read.Some? {
      SameTables(a, b, dt, read.value, other.value);
      SameRows(b, dt, read.value, other.value);
      var q := Accepted(read.value);
      hide NetStep, Accepted, RowFor, Usable, Counters, DistinctRows, ShortNames;
      forall i | 0 <= i < |q| ensures RowFor(a, dt, q[i]) == RowFor(b, dt, q[i]) {
        RowRefinesMap(a, dt, q[i]);
        RowRefinesMap(b, dt, q[i]);
      }
      SameRowsFor(a, b, dt, q);
      NextRows(a, dt, read);
      NextRows(b, dt, read);
    }
  }

  lemma SameRowsFor(a: seq<NetEntry>, b: seq<NetEntry>, dt: real, q: seq<IfRow>)
    requires forall i :: 0 <= i < |q| ==> RowFor(a, dt, q[i]) == RowFor(b, dt, q[i])
    ensures RowsFor(a, dt, q) == RowsFor(b, dt, q)
  {
    hide RowFor;
  }

  lemma NextRows(table: seq<NetEntry>, dt: real, read: Option<seq<IfRow>>)
    ensures NetStep(table, dt, read).1 == if read.Some? then RowsFor(table, dt, Accepted(read.value)) else []
  {
    hide RowsFor, Accepted;
  }

  // ---------------------------------------------------------------- the limit of 12

  /** No order of the interfaces changes which rows are reported. */
  ghost predicate OrderIrrelevant(table: seq<NetEntry>, dt: real, rows: seq<IfRow>) {
    forall other :: multiset(other) == multiset(rows) ==>
      multiset(NetStep(table, dt, Some(other)).1) == multiset(NetStep(table, dt, Some(rows)).1)
  }

  lemma {:induction false} AllUsable(rows: seq<IfRow>)
    requires forall i :: 0 <= i < |rows| ==> rows[i].usable
    ensures Usable(rows) == rows
    ensures Accepted(rows) == if |rows| <= MAX_NETS then rows else rows[..MAX_NETS]
  {
    if rows != [] {
      AllUsable(rows[..|rows| - 1]);
    }
  }

  lemma RowNames(table: seq<NetEntry>, dt: real, rows: seq<IfRow>)
    requires ShortNames(rows)
    ensures forall i :: 0 <= i < |rows| ==> RowsFor(table, dt, rows)[i].name == rows[i].name
  {
  }

  /** Only reported names are reported. */
  lemma NotReported(table: seq<NetEntry>, dt: real, rows: seq<IfRow>, name: string)
    requires ShortNames(rows) && forall i :: 0 <= i < |rows| ==> rows[i].name != name
    ensures forall s :: s in multiset(RowsFor(table, dt, rows)) ==> s.name != name
  {
    RowNames(table, dt, rows);
    hide RowsFor;
    forall s | s in multiset(RowsFor(table, dt, rows)) ensures s.name != name {
      var i :| 0 <= i < |rows| && RowsFor(table, dt, rows)[i] == s;
    }
  }

  lemma Exchanged(rows: seq<IfRow>, other: seq<IfRow>)
    requires |rows| > MAX_NETS && other == rows[0 := rows[MAX_NETS]][MAX_NETS := rows[0]]
    ensures multiset(other) == multiset(rows)
  {
    var x, y, mid, tail := rows[0], rows[MAX_NETS], rows[1..MAX_NETS], rows[MAX_NETS + 1..];
    assert rows == [x] + mid + [y] + tail;
    assert other == [y] + mid + [x] + tail;
  }

  /** The 13th interface is reported instead of the first when they trade places. */
  lemma ThirteenthCounts(table: seq<NetEntry>, dt: real, rows: seq<IfRow>, other: seq<IfRow>)
    requires |rows| > MAX_NETS && other == rows[0 := rows[MAX_NETS]][MAX_NETS := rows[0]]
    requires DistinctRows(rows) && ShortNames(rows) && forall i :: 0 <= i < |rows| ==> rows[i].usable
    ensures multiset(NetStep(table, dt, Some(rows)).1) != multiset(NetStep(table, dt, Some(other)).1)
  {
    var y := rows[MAX_NETS];
    AllUsable(rows);
    AllUsable(other);
    NotReported(table, dt, rows[..MAX_NETS], y.name);
    RowNames(table, dt, other[..MAX_NETS]);
    NextRows(table, dt, Some(rows));
    NextRows(table, dt, Some(other));
    hide RowsFor, NetStep, Accepted, Usable;
    var q := NetStep(table, dt, Some(other)).1;
    assert q[0].name == y.name && q[0] in multiset(q);
  }

  function Unusable(rows: seq<IfRow>): (n: seq<IfRow>)
    ensures forall i :: 0 <= i < |n| ==> !n[i].usable
  {
    if rows == [] then []
    else
      var n, last := Unusable(rows[..|rows| - 1]), rows[|rows| - 1];
      if last.usable then n else n + [last]
  }

  lemma {:induction false} Split(rows: seq<IfRow>)
    ensures multiset(Usable(rows)) + multiset(Unusable(rows)) == multiset(rows)
  {
    if rows != [] {
      var front, last := rows[..|rows| - 1], rows[|rows| - 1];
      Split(front);
      assert rows == front + [last];
    }
  }

  lemma {:induction false} UsableDistinct(rows: seq<IfRow>)
    requires DistinctRows(rows) && ShortNames(rows)
    ensures DistinctRows(Usable(rows)) && ShortNames(Usable(rows))
    ensures forall r :: r in Usable(rows) ==> r.usable && r in rows
  {
    if rows != [] {
      UsableDistinct(rows[..|rows| - 1]);
      assert forall r :: r in rows[..|rows| - 1] ==> r.name != rows[|rows| - 1].name;
    }
  }

  lemma {:induction false} TailIgnored(u: seq<IfRow>, n: seq<IfRow>)
    requires forall i :: 0 <= i < |n| ==> !n[i].usable
    ensures Accepted(u + n) == Accepted(u)
  {
    if n == [] {
      assert u + n == u;
    } else {
      TailIgnored(u, n[..|n| - 1]);
      assert (u + n)[..|u + n| - 1] == u + n[..|n| - 1];
    }
  }

  lemma SameTail(table: seq<NetEntry>, dt: real, u: seq<IfRow>, n: seq<IfRow>)
    requires forall i :: 0 <= i < |n| ==> !n[i].usable
    ensures NetStep(table, dt, Some(u + n)).1 == NetStep(table, dt, Some(u)).1
  {
    TailIgnored(u, n);
    hide RowsFor, Accepted;
  }

  /** More than twelve usable interfaces: some order changes what is reported. */
  lemma OrderCanMatter(table: seq<NetEntry>, dt: real, rows: seq<IfRow>)
    requires DistinctRows(rows) && ShortNames(rows) && |Usable(rows)| > MAX_NETS
    ensures !OrderIrrelevant(table, dt, rows)
  {
    hide NetStep, Accepted, Usable, Unusable, DistinctRows, ShortNames;
    Split(rows);
    UsableDistinct(rows);
    var u, n := Usable(rows), Unusable(rows);
    var v := u[0 := u[MAX_NETS]][MAX_NETS := u[0]];
    Exchanged(u, v);
    ThirteenthCounts(table, dt, u, v);
    SameTail(table, dt, u, n);
    SameTail(table, dt, v, n);
    assert multiset(u + n) == multiset(rows) && multiset(v + n) == multiset(rows);
  }

  /** For distinct short names the order of the interfaces is irrelevant exactly when all usable ones fit. */
  lemma OrderRule(table: seq<NetEntry>, dt: real, rows: seq<IfRow>)
    requires DistinctRows(rows) && ShortNames(rows)
    ensures OrderIrrelevant(table, dt, rows) <==> |Usable(rows)| <= MAX_NETS
  {
    hide NetStep, Usable, DistinctRows, ShortNames;
    if |Usable(rows)| <= MAX_NETS {
      forall other | multiset(other) == multiset(rows)
        ensures multiset(NetStep(table, dt, Some(other)).1) == multiset(NetStep(table, dt, Some(rows)).1)
      {
        SameRows(table, dt, rows, other);
      }
    } else {
      OrderCanMatter(table, dt, rows);
    }
  }
}

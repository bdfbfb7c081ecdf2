/** src/util.c: clamps, and the byte / rate / uptime texts with readers that take them back. */
module Util {
  import opened Options
  import opened Decimal

  const WORD: int := 0x1_0000_0000_0000_0000

  /** uint64_t */
  type u64 = n: int | 0 <= n < WORD

  function ClampInt(v: int, lo: int, hi: int): (r: int)
    ensures lo <= hi ==> lo <= r <= hi
  {
    if v < lo then lo else if v > hi then hi else v
  }

  function ClampPct(v: real): (r: real)
    ensures 0.0 <= r <= 100.0
  {
    if v < 0.0 then 0.0 else if v > 100.0 then 100.0 else v
  }

  function Percent(part: u64, whole: u64): (p: real)
    requires whole > 0
    ensures 0.0 <= p <= 100.0
  {
    ClampPct(100.0 * part as real / whole as real)
  }

  /** No percentage is closer to `v` than what the clamp gives. */
  lemma ClampPctNearest(v: real, p: real)
    requires 0.0 <= p <= 100.0
    ensures Abs(v - ClampPct(v)) <= Abs(v - p)
  {
  }

  lemma ClampIntNearest(v: int, lo: int, hi: int, p: int)
    requires lo <= p <= hi
    ensures (if v < ClampInt(v, lo, hi) then ClampInt(v, lo, hi) - v else v - ClampInt(v, lo, hi))
         <= (if v < p then p - v else v - p)
  {
  }

  // ---------------------------------------------------------------- 1024-based units

  const BYTE_UNITS: seq<string> := ["B", "KB", "MB", "GB", "TB", "PB"]
  const RATE_UNITS: seq<string> := ["B/s", "KB/s", "MB/s", "GB/s", "TB/s"]

  function Down(v: real, u: nat): real
    decreases u
  {
    if u == 0 then v else Down(v, u - 1) / 1024.0
  }

  function Up(x: real, u: nat): real {
    if u == 0 then x else 1024.0 * Up(x, u - 1)
  }

  /** The unit chosen for `v`: the first, up to `last`, in which the number is below 1024. */
  ghost predicate IsUnit(v: real, last: nat, u: nat) {
    && u <= last
    && (forall i :: 0 <= i < u ==> Down(v, i) >= 1024.0)
    && (u < last ==> Down(v, u) < 1024.0)
  }

  function UnitFrom(v: real, last: nat, u: nat): (r: nat)
    requires u <= last && forall i :: 0 <= i < u ==> Down(v, i) >= 1024.0
    ensures IsUnit(v, last, r)
    decreases last - u
  {
    if u < last && Down(v, u) >= 1024.0 then UnitFrom(v, last, u + 1) else u
  }

  function UnitOf(v: real, last: nat): (r: nat)
    ensures IsUnit(v, last, r)
  {
    UnitFrom(v, last, 0)
  }

  function Precision(u: nat, x: real): Places {
    if u == 0 then 0 else if x >= 10.0 then 1 else 2
  }

  function ScaledText(v: real, units: seq<string>): string
    requires units != []
  {
    var u := UnitOf(v, |units| - 1);
    var x := Down(v, u);
    FixedText(x, Precision(u, x)) + " " + units[u]
  }

  method FormatScaled(value: real, units: seq<string>, n: nat) returns (buf: string)
    requires units != [] && n > 0
    ensures buf == Trunc(ScaledText(value, units), n)
  {
    var v := value;
    var u := 0;
    while u < |units| - 1 && v >= 1024.0
      invariant 0 <= u <= |units| - 1
      invariant v == Down(value, u)
      invariant forall i :: 0 <= i < u ==> Down(value, i) >= 1024.0
    {
      v := v / 1024.0;
      u := u + 1;
    }
    UnitUnique(value, |units| - 1, u, UnitOf(value, |units| - 1));
    if u == 0 {
      buf := Trunc(FixedText(v, 0) + " " + units[u], n);
    } else if v >= 10.0 {
      buf := Trunc(FixedText(v, 1) + " " + units[u], n);
    } else {
      buf := Trunc(FixedText(v, 2) + " " + units[u], n);
    }
  }

  lemma UnitUnique(v: real, last: nat, a: nat, b: nat)
    requires IsUnit(v, last, a) && IsUnit(v, last, b)
    ensures a == b
  {
  }

  function BytesText(bytes: u64): string {
    ScaledText(bytes as real, BYTE_UNITS)
  }

  function RateText(bps: real): string {
    ScaledText(NonNegative(bps), RATE_UNITS)
  }

  method FormatBytes(bytes: u64, n: nat) returns (buf: string)
    requires n > 0
    ensures buf == Trunc(BytesText(bytes), n)
  {
    buf := FormatScaled(bytes as real, BYTE_UNITS, n);
  }

  method FormatRate(bps: real, n: nat) returns (buf: string)
    requires n > 0
    ensures buf == Trunc(RateText(bps), n)
  {
    var v := bps;
    if v < 0.0 {
      v := 0.0;
    }
    buf := FormatScaled(v, RATE_UNITS, n);
  }

  // ---------------------------------------------------------------- reading the text back

  function UnitIndex(units: seq<string>, name: string): (u: nat)
    ensures u <= |units|
    ensures u < |units| ==> units[u] == name
    ensures forall i :: 0 <= i < u ==> units[i] != name
  {
    if units == [] || units[0] == name then 0 else 1 + UnitIndex(units[1..], name)
  }

  ghost predicate Distinct<T>(s: seq<T>) {
    forall i, j :: 0 <= i < j < |s| ==> s[i] != s[j]
  }

  function ReadScaled(s: string, units: seq<string>): Option<real> {
    var sp := Find(s, ' ');
    if sp == |s| then None
    else
      var u := UnitIndex(units, s[sp + 1..]);
      match ReadFixed(s[..sp])
      case None => None
      case Some(x) => if u == |units| then None else Some(Up(x, u))
  }

  /** The quantity the text of `v` stands for. */
  function ScaledShown(v: real, last: nat): real
    requires v >= 0.0
  {
    var u := UnitOf(v, last);
    DownNonNegative(v, u);
    Up(Shown(Down(v, u), Precision(u, Down(v, u))), u)
  }

  lemma DownNonNegative(v: real, u: nat)
    requires v >= 0.0
    ensures Down(v, u) >= 0.0
  {
  }

  lemma FixedTextNoSpace(x: real, d: Places)
    ensures Free(FixedText(x, d), ' ')
  {
  }

  lemma {:induction false} ScaledRoundTrip(v: real, units: seq<string>)
    requires v >= 0.0 && units != [] && Distinct(units)
    ensures ReadScaled(ScaledText(v, units), units) == Some(ScaledShown(v, |units| - 1))
  {
    var u := UnitOf(v, |units| - 1);
    DownNonNegative(v, u);
    var x := Down(v, u);
    var number := FixedText(x, Precision(u, x));
    FixedTextNoSpace(x, Precision(u, x));
    FindAfter(number, ' ', units[u]);
    FixedRoundTrip(x, Precision(u, x));
    assert UnitIndex(units, units[u]) == u;
  }

  lemma {:induction false} UpMonotone(x: real, y: real, u: nat)
    requires x <= y
    ensures Up(x, u) <= Up(y, u)
  {
    if u > 0 {
      UpMonotone(x, y, u - 1);
    }
  }

  lemma {:induction false} UpDown(v: real, u: nat)
    ensures Up(Down(v, u), u) == v
  {
    if u > 0 {
      UpDown(v, u - 1);
      UpShift(Down(v, u), u - 1);
    }
  }

  lemma {:induction false} UpShift(x: real, u: nat)
    ensures Up(1024.0 * x, u) == Up(x, u + 1)
  {
    if u > 0 {
      UpShift(x, u - 1);
    }
  }

  lemma {:induction false} UpOne(a: nat, b: nat)
    requires a <= b
    ensures 0.0 < Up(1.0, a) <= Up(1.0, b)
    decreases b
  {
    if a < b {
      UpOne(a, b - 1);
    } else if a > 0 {
      UpOne(a - 1, a - 1);
    }
  }

  /** A number in any unit but the first is at least 1. */
  lemma UnitAtLeastOne(v: real, last: nat)
    requires v >= 0.0
    ensures UnitOf(v, last) > 0 ==> Down(v, UnitOf(v, last)) >= 1.0
  {
    var u := UnitOf(v, last);
    if u > 0 {
      assert Down(v, u - 1) >= 1024.0;
    }
  }

  lemma {:induction false} DownMonotone(v: real, w: real, u: nat)
    requires v <= w
    ensures Down(v, u) <= Down(w, u)
  {
    if u > 0 {
      DownMonotone(v, w, u - 1);
    }
  }

  lemma UnitMonotone(v: real, w: real, last: nat)
    requires 0.0 <= v <= w
    ensures UnitOf(v, last) <= UnitOf(w, last)
  {
    var a, b := UnitOf(v, last), UnitOf(w, last);
    if b < a {
      DownMonotone(v, w, b);
    }
  }

  /** In one unit, switching from two decimals to one at 10 keeps the order. */
  lemma ShownAcrossPrecision(x: real, y: real, u: nat)
    requires 0.0 <= x <= y
    ensures Shown(x, Precision(u, x)) <= Shown(y, Precision(u, y))
  {
    var d, e := Precision(u, x), Precision(u, y);
    if d == e {
      ShownMonotone(x, y, d);
    } else {
      ShownMonotone(x, 10.0, d);
      ShownMonotone(10.0, y, e);
      ShownExact(10, d);
      ShownExact(10, e);
    }
  }

  /** Formatting keeps order through every unit switch and precision switch. */
  lemma ScaledMonotone(v: real, w: real, last: nat)
    requires 0.0 <= v <= w
    ensures ScaledShown(v, last) <= ScaledShown(w, last)
  {
    var a, b := UnitOf(v, last), UnitOf(w, last);
    DownNonNegative(v, a);
    DownNonNegative(w, b);
    var x, y := Down(v, a), Down(w, b);
    var r, t := Shown(x, Precision(a, x)), Shown(y, Precision(b, y));
    UnitMonotone(v, w, last);
    if a == b {
      DownMonotone(v, w, a);
      ShownAcrossPrecision(x, y, a);
      UpMonotone(r, t, a);
    } else {
      ShownMonotone(x, 1024.0, Precision(a, x));
      ShownExact(1024, Precision(a, x));
      UnitAtLeastOne(w, last);
      ShownMonotone(1.0, y, Precision(b, y));
      ShownExact(1, Precision(b, y));
      calc <= {
        Up(r, a);
        { UpMonotone(r, 1024.0, a); }
        Up(1024.0, a);
        { UpShift(1.0, a); UpOne(a + 1, b); }
        Up(1.0, b);
        { UpMonotone(1.0, t, b); }
        Up(t, b);
      }
    }
  }

  lemma {:induction false} UpLinear(x: real, y: real, c: real, u: nat)
    requires c * x <= y
    ensures c * Up(x, u) <= Up(y, u)
  {
    if u > 0 {
      UpLinear(x, y, c, u - 1);
    }
  }

  /** From 1024 upward the text is within half a percent, below within one half; whole numbers below 1024 are exact. */
  lemma ScaledError(v: real, last: nat)
    requires v >= 0.0 && last > 0
    ensures v >= 1024.0 ==> 0.995 * v <= ScaledShown(v, last) <= 1.005 * v
    ensures v < 1024.0 ==> Abs(ScaledShown(v, last) - v) <= 0.5
    ensures v < 1024.0 && v == v.Floor as real ==> ScaledShown(v, last) == v
  {
    var u := UnitOf(v, last);
    DownNonNegative(v, u);
    var x := Down(v, u);
    var d := Precision(u, x);
    var r := Shown(x, d);
    if v >= 1024.0 {
      assert u > 0 by {
        assert Down(v, 0) == v;
      }
      UnitAtLeastOne(v, last);
      ShownNear(x, d);
      assert 0.995 * x <= r && r <= 1.005 * x;
      UpDown(v, u);
      UpLinear(x, r, 0.995, u);
      UpLinear(r, 1.005 * x, 1.0, u);
      UpScale(x, 1.005, u);
    } else {
      assert u == 0 by {
        assert Down(v, 0) == v;
      }
      ShownNear(v, 0);
      if v == v.Floor as real {
        ShownExact(v.Floor, 0);
      }
    }
  }

  lemma {:induction false} UpScale(x: real, c: real, u: nat)
    ensures Up(c * x, u) == c * Up(x, u)
  {
    if u > 0 {
      UpScale(x, c, u - 1);
    }
  }

  lemma UnitsDistinct()
    ensures Distinct(BYTE_UNITS) && Distinct(RATE_UNITS)
  {
    assert forall i :: 0 <= i < 5 ==> |RATE_UNITS[i]| == (if i == 0 then 3 else 4);
    assert forall i :: 0 <= i < 5 ==> RATE_UNITS[i][0] == "BKMGT"[i];
    assert forall i :: 0 <= i < 6 ==> BYTE_UNITS[i][0] == "BKMGTP"[i];
  }

  // ---------------------------------------------------------------- a reader that knows what the units mean

  /** What a unit stands for, in bytes. */
  function UnitSize(name: string): Option<real> {
    if name == "B" then Some(1.0)
    else if name == "KB" then Some(1024.0)
    else if name == "MB" then Some(1048576.0)
    else if name == "GB" then Some(1073741824.0)
    else if name == "TB" then Some(1099511627776.0)
    else if name == "PB" then Some(1125899906842624.0)
    else None
  }

  /** The same for a unit a second. */
  function SpeedSize(name: string): Option<real> {
    if |name| >= 2 && name[|name| - 2..] == "/s" then UnitSize(name[..|name| - 2]) else None
  }

  function Sized(x: real, size: real): real {
    x * size
  }

  /** Reader: a number, a blank and a unit at the start of a text; gives the amount and what follows. */
  function Amount(s: string, speed: bool): Option<(real, string)> {
    var sp := Find(s, ' ');
    if sp == |s| then None
    else
      var rest := s[sp + 1..];
      var e := Find(rest, ' ');
      var x, size := ReadFixed(s[..sp]), if speed then SpeedSize(rest[..e]) else UnitSize(rest[..e]);
      if x.Some? && size.Some? then Some((Sized(x.value, size.value), rest[e..])) else None
  }

  /** Reader: a text that is an amount and nothing else. */
  function ReadAmount(s: string, speed: bool): Option<real> {
    match Amount(s, speed)
    case Some((x, rest)) => if rest == "" then Some(x) else None
    case None => None
  }

  lemma UpOfOne(u: nat)
    requires u < 6
    ensures Up(1.0, 0) == 1.0 && Up(1.0, 1) == 1024.0 && Up(1.0, 2) == 1048576.0 && Up(1.0, 3) == 1073741824.0
    ensures Up(1.0, 4) == 1099511627776.0 && Up(1.0, 5) == 1125899906842624.0
  {
    assert Up(1.0, 1) == 1024.0 * Up(1.0, 0);
    assert Up(1.0, 2) == 1024.0 * Up(1.0, 1);
    assert Up(1.0, 3) == 1024.0 * Up(1.0, 2);
    assert Up(1.0, 4) == 1024.0 * Up(1.0, 3);
    assert Up(1.0, 5) == 1024.0 * Up(1.0, 4);
  }

  lemma UnitsMean(u: nat)
    ensures u < 6 ==> UnitSize(BYTE_UNITS[u]) == Some(Up(1.0, u)) && Free(BYTE_UNITS[u], ' ')
    ensures u < 5 ==> SpeedSize(RATE_UNITS[u]) == Some(Up(1.0, u)) && Free(RATE_UNITS[u], ' ')
  {
    hide Up;
    if u < 6 {
      UpOfOne(u);
    }
    if u < 5 {
      assert RATE_UNITS[u][..|RATE_UNITS[u]| - 2] == BYTE_UNITS[u];
    }
  }

  lemma AmountParts(number: string, unit: string, tail: string, speed: bool, x: real, size: real)
    requires Free(number, ' ') && Free(unit, ' ') && (tail == "" || tail[0] == ' ')
    requires ReadFixed(number) == Some(x) && Some(size) == if speed then SpeedSize(unit) else UnitSize(unit)
    ensures Amount(number + " " + unit + tail, speed) == Some((Sized(x, size), tail))
  {
    hide ReadFixed, SpeedSize, UnitSize, Sized;
    var s := number + " " + unit + tail;
    assert s == number + [' '] + (unit + tail);
    FindAfter(number, ' ', unit + tail);
    FindEnd(unit, tail);
    assert Find(s, ' ') == |number| < |s| && s[..|number|] == number;
    var rest := s[|number| + 1..];
    assert rest == unit + tail && rest[..|unit|] == unit && rest[|unit|..] == tail;
    assert Amount(s, speed).Some? && Amount(s, speed).value.1 == tail;
  }

  lemma UpTimes(x: real, u: nat)
    ensures Up(x, u) == x * Up(1.0, u)
  {
    UpScale(1.0, x, u);
    assert x * 1.0 == x;
  }

  /** A scaled text reads back whatever follows it, as long as that is nothing or starts with a blank. */
  lemma ScaledReads(v: real, units: seq<string>, speed: bool, tail: string)
    requires v >= 0.0 && units == if speed then RATE_UNITS else BYTE_UNITS
    requires tail == "" || tail[0] == ' '
    ensures Amount(ScaledText(v, units) + tail, speed) == Some((ScaledShown(v, |units| - 1), tail))
  {
    hide ReadFixed, FixedText, UnitSize, SpeedSize, Shown, Up, Amount, Down;
    var u := UnitOf(v, |units| - 1);
    DownNonNegative(v, u);
    var x := Down(v, u);
    var shown := Shown(x, Precision(u, x));
    FixedTextNoSpace(x, Precision(u, x));
    FixedRoundTrip(x, Precision(u, x));
    UnitsMean(u);
    AmountParts(FixedText(x, Precision(u, x)), units[u], tail, speed, shown, Up(1.0, u));
    UpTimes(shown, u);
    assert Sized(shown, Up(1.0, u)) == ScaledShown(v, |units| - 1);
    assert ScaledText(v, units) == FixedText(x, Precision(u, x)) + " " + units[u];
    assert Amount(ScaledText(v, units) + tail, speed).value.1 == tail;
  }

  lemma FindEnd(word: string, tail: string)
    requires Free(word, ' ') && (tail == "" || tail[0] == ' ')
    ensures Find(word + tail, ' ') == |word| && (word + tail)[..|word|] == word && (word + tail)[|word|..] == tail
  {
    var s := word + tail;
    assert forall k :: 0 <= k < |word| ==> s[k] == word[k];
    assert tail != "" ==> s[|word|] == ' ';
  }

  /** How far an amount read back may be off: half a percent from 1024 upward, one half below. */
  predicate Near(read: real, v: real) {
    if v >= 1024.0 then Abs(read - v) <= 0.005 * v else Abs(read - v) <= 0.5
  }

  /** A byte text at the start of a text reads back to its count. */
  lemma BytesRead(v: u64, tail: string)
    requires tail == "" || tail[0] == ' '
    ensures var r := Amount(BytesText(v) + tail, false);
      r.Some? && r.value.1 == tail && Near(r.value.0, v as real) && (v < 1024 ==> r.value.0 == v as real)
  {
    hide Amount, ScaledShown;
    ScaledReads(v as real, BYTE_UNITS, false, tail);
    ScaledError(v as real, 5);
  }

  /** The same for a rate text. */
  lemma RateRead(bps: real, tail: string)
    requires tail == "" || tail[0] == ' '
    ensures var r := Amount(RateText(bps) + tail, true);
      r.Some? && r.value.1 == tail && Near(r.value.0, NonNegative(bps))
  {
    hide Amount, ScaledShown;
    ScaledReads(NonNegative(bps), RATE_UNITS, true, tail);
    ScaledError(NonNegative(bps), 4);
  }

  /** Byte texts read back in order, within half a percent, exact for whole bytes below 1024. */
  lemma BytesReadBack(v: u64, w: u64)
    requires v <= w
    ensures var a, b := ReadAmount(BytesText(v), false), ReadAmount(BytesText(w), false);
      && a.Some? && b.Some? && a.value <= b.value
      && (v < 1024 ==> a.value == v as real)
      && (v >= 1024 ==> Abs(a.value - v as real) <= 0.005 * v as real)
  {
    hide Amount, ScaledShown, ScaledText;
    assert BytesText(v) + "" == BytesText(v) && BytesText(w) + "" == BytesText(w);
    ScaledReads(v as real, BYTE_UNITS, false, "");
    ScaledReads(w as real, BYTE_UNITS, false, "");
    ScaledMonotone(v as real, w as real, 5);
    ScaledError(v as real, 5);
  }

  function NonNegative(v: real): (r: real)
    ensures r >= 0.0 && r >= v
  {
    if v < 0.0 then 0.0 else v
  }

  /** The same for rates; a negative rate reads as zero. */
  lemma RatesReadBack(v: real, w: real)
    requires v <= w
    ensures var a, b := ReadAmount(RateText(v), true), ReadAmount(RateText(w), true);
      && a.Some? && b.Some? && a.value <= b.value
      && (v <= 0.0 ==> a.value == 0.0)
      && (0.0 <= v < 1024.0 ==> Abs(a.value - v) <= 0.5)
      && (v >= 1024.0 ==> Abs(a.value - v) <= 0.005 * v)
  {
    hide Amount, ScaledShown, ScaledText;
    assert RateText(v) + "" == RateText(v) && RateText(w) + "" == RateText(w);
    ScaledReads(NonNegative(v), RATE_UNITS, true, "");
    ScaledReads(NonNegative(w), RATE_UNITS, true, "");
    ScaledMonotone(NonNegative(v), NonNegative(w), 4);
    ScaledError(NonNegative(v), 4);
  }

  /** Digits after the point of the number a text starts with. */
  function Decimals(s: string): nat {
    var number := s[..Find(s, ' ')];
    var dot := Find(number, '.');
    if dot == |number| then 0 else |number| - dot - 1
  }

  lemma NumberDecimals(x: real, d: Places, rest: string)
    requires x >= 0.0
    ensures Decimals(FixedText(x, d) + [' '] + rest) == d
  {
    var number := FixedText(x, d);
    FixedTextNoSpace(x, d);
    FindAfter(number, ' ', rest);
    var whole := NatText(Scaled(x, d) / Unit(d));
    if d > 0 {
      var frac := FracText(Scaled(x, d) % Unit(d), d);
      assert number == whole + ['.'] + frac;
      FindAfter(whole, '.', frac);
    } else {
      assert number == whole;
    }
  }

  /** Whole bytes below 1024; from there two decimals below ten of a unit and one from ten on. */
  lemma BytesDecimals(v: u64)
    ensures v < 1024 ==> Decimals(BytesText(v)) == 0
    ensures forall k :: 1 <= k <= 5 && Up(1.0, k) <= v as real < Up(10.0, k) ==> Decimals(BytesText(v)) == 2
    ensures forall k :: 1 <= k <= 5 && Up(10.0, k) <= v as real && (k == 5 || v as real < Up(1024.0, k)) ==>
      Decimals(BytesText(v)) == 1
  {
    hide FixedText, Decimals;
    var x := v as real;
    var u := UnitOf(x, 5);
    DownNonNegative(x, u);
    NumberDecimals(Down(x, u), Precision(u, Down(x, u)), BYTE_UNITS[u]);
    assert BytesText(v) == FixedText(Down(x, u), Precision(u, Down(x, u))) + [' '] + BYTE_UNITS[u];
    if v < 1024 {
      assert Down(x, 0) == x;
    }
    forall k | 1 <= k <= 5 && Up(1.0, k) <= x && (k == 5 || x < Up(1024.0, k))
      ensures u == k && (Down(x, u) >= 10.0 <==> x >= Up(10.0, k))
    {
      UnitIs(x, 5, k);
    }
    forall k | 1 <= k <= 5 ensures Up(1.0, k) <= Up(10.0, k) <= Up(1024.0, k) {
      UpMonotone(1.0, 10.0, k);
      UpMonotone(10.0, 1024.0, k);
    }
  }

  lemma DownUp(v: real, u: nat, c: real)
    ensures Down(v, u) >= c <==> v >= Up(c, u)
  {
    UpDown(v, u);
    if Down(v, u) >= c {
      UpMonotone(c, Down(v, u), u);
    } else {
      UpStrict(Down(v, u), c, u);
    }
  }

  lemma {:induction false} UpStrict(x: real, y: real, u: nat)
    requires x < y
    ensures Up(x, u) < Up(y, u)
  {
    if u > 0 {
      UpStrict(x, y, u - 1);
    }
  }

  /** The unit is the one the size of the value calls for. */
  lemma UnitIs(v: real, last: nat, k: nat)
    requires k <= last && Up(1.0, k) <= v && (k == last || v < Up(1024.0, k))
    ensures UnitOf(v, last) == k && (Down(v, k) >= 10.0 <==> v >= Up(10.0, k))
  {
    DownUp(v, k, 10.0);
    DownUp(v, k, 1024.0);
    forall i | 0 <= i < k ensures Down(v, i) >= 1024.0 {
      DownUp(v, i, 1024.0);
      UpShift(1.0, i);
      UpOne(i + 1, k);
    }
    UnitUnique(v, last, k, UnitOf(v, last));
  }

  // ---------------------------------------------------------------- lengths

  lemma ScaledTextLength(v: real, units: seq<string>, k: nat, w: nat)
    requires v >= 0.0 && units != [] && k > 0
    requires Down(v, UnitOf(v, |units| - 1)) + 1.0 <= Pow10(k) as real
    requires |units[UnitOf(v, |units| - 1)]| <= w
    ensures |ScaledText(v, units)| <= k + 4 + w
  {
    var u := UnitOf(v, |units| - 1);
    DownNonNegative(v, u);
    FixedTextLength(Down(v, u), Precision(u, Down(v, u)), k);
  }

  lemma UnitLength(u: nat)
    ensures u < 6 ==> |BYTE_UNITS[u]| <= 2
    ensures u < 5 ==> |RATE_UNITS[u]| <= 4
  {
  }

  /** No byte count is cut by a buffer of twelve bytes or more. */
  lemma BytesTextLength(v: u64)
    ensures |BytesText(v)| <= 11
  {
    var u := UnitOf(v as real, 5);
    UnitLength(u);
    DownFive(v as real);
    assert Pow10(5) == 100000;
    ScaledTextLength(v as real, BYTE_UNITS, 5, 2);
  }

  lemma DownFive(v: real)
    ensures Down(v, 5) == v / 1125899906842624.0
  {
    assert Down(v, 5) == Down(v, 4) / 1024.0;
    assert Down(v, 4) == Down(v, 3) / 1024.0;
    assert Down(v, 3) == Down(v, 2) / 1024.0;
    assert Down(v, 2) == Down(v, 1) / 1024.0;
  }

  lemma {:induction false} Pow10Monotone(j: nat, k: nat)
    requires j <= k
    ensures Pow10(j) <= Pow10(k)
    decreases k
  {
    if j < k {
      Pow10Monotone(j, k - 1);
    }
  }

  lemma TenthsLength(m: nat, k: nat)
    requires k > 0
    ensures |UnsignedFixed(m, 1)| <= k + 2 <==> m < Pow10(k + 1)
  {
    NatTextLength(m / 10, k);
    assert Pow10(k + 1) == 10 * Pow10(k);
  }

  /** Small numbers in the last unit: neither side of the rule comes near its limit. */
  lemma SmallRate(x: real, u: nat)
    requires 0.0 <= x < 1024.0 && u < 5
    ensures |FixedText(x, Precision(u, x)) + " " + RATE_UNITS[u]| <= 63
  {
    assert Pow10(4) == 10000;
    UnitLength(u);
    FixedTextLength(x, Precision(u, x), 4);
  }

  lemma FewTenths(y: real)
    requires 0.0 <= y < 1024.0
    ensures Round(10.0 * y) < Pow10(57)
  {
    RoundNear(10.0 * y);
    assert Pow10(5) == 100000;
    Pow10Monotone(5, 57);
  }

  /** A 64-byte buffer holds the text of a rate exactly when the rate, in tenths of TB/s, rounds below 10^57. */
  lemma RateTextLength(bps: real)
    ensures |RateText(bps)| <= 63 <==> Round(10.0 * Down(NonNegative(bps), 4)) < Pow10(57)
  {
    hide Round, Pow10, NatText;
    var v := NonNegative(bps);
    var u := UnitOf(v, 4);
    var x := Down(v, u);
    DownNonNegative(v, u);
    DownNonNegative(v, 4);
    if x < 1024.0 {
      DownSteps(v, u, 4);
      SmallRate(x, u);
      FewTenths(Down(v, 4));
    } else {
      assert u == 4 && Precision(u, x) == 1;
      assert RATE_UNITS[4] == "TB/s";
      TenthsLength(Scaled(x, 1), 56);
      assert Scaled(x, 1) == Round(10.0 * x);
    }
  }

  lemma {:induction false} DownSteps(v: real, i: nat, j: nat)
    requires v >= 0.0 && i <= j
    ensures Down(v, j) <= Down(v, i)
    decreases j
  {
    if i < j {
      DownSteps(v, i, j - 1);
      DownNonNegative(v, j - 1);
    }
  }

  /** From 1024 upward a byte text takes at least seven characters. */
  lemma BytesTextAtLeast(v: u64)
    requires v >= 1024
    ensures |BytesText(v)| >= 7
  {
    var u := UnitOf(v as real, 5);
    assert u > 0 by {
      assert Down(v as real, 0) == v as real;
    }
    UnitAtLeastOne(v as real, 5);
    assert |BYTE_UNITS[u]| == 2;
    FourCharacters(Down(v as real, u), u);
  }

  lemma FourCharacters(x: real, u: nat)
    requires x >= 1.0 && u > 0
    ensures |FixedText(x, Precision(u, x))| >= 4
  {
    var d := Precision(u, x);
    var m := Scaled(x, d);
    RoundNear(x * Unit(d) as real);
    if d == 1 {
      assert m >= 100;
      assert Pow10(1) == 10;
      NatTextLength(m / 10, 1);
    }
  }

  // ---------------------------------------------------------------- uptime

  function FieldsText(days: nat, hours: nat, mins: nat, secs: nat): string {
    if days > 0 then NatText(days) + "d " + NatText(hours) + "h " + NatText(mins) + "m"
    else if hours > 0 then NatText(hours) + "h " + NatText(mins) + "m"
    else NatText(mins) + "m " + NatText(secs) + "s"
  }

  function UptimeText(seconds: nat): string {
    FieldsText(seconds / 86400, seconds % 86400 / 3600, seconds % 3600 / 60, seconds % 60)
  }

  function FieldSeconds(n: nat, suffix: char): nat {
    if suffix == 'd' then n * 86400 else if suffix == 'h' then n * 3600 else if suffix == 'm' then n * 60 else n
  }

  /** Reader for one field such as `17h`; the limit is what a lower field must stay below. */
  function ReadField(s: string): Option<nat> {
    if s == "" || s[|s| - 1] !in {'d', 'h', 'm', 's'} then None
    else
      match ReadNat(s[..|s| - 1])
      case None => None
      case Some(n) =>
        var c := s[|s| - 1];
        if (c == 'h' && n >= 24) || (c in {'m', 's'} && n >= 60) then None
        else Some(FieldSeconds(n, c))
  }

  /** Reader for a whole uptime; None unless every hour field is below 24 and minute and second fields below 60. */
  function ReadUptime(s: string): Option<nat>
    decreases |s|
  {
    var sp := Find(s, ' ');
    if sp == |s| then ReadField(s) else AddFields(ReadField(s[..sp]), ReadUptime(s[sp + 1..]))
  }

  lemma FieldRoundTrip(n: nat, c: char)
    requires c in {'d', 'h', 'm', 's'}
    requires c == 'h' ==> n < 24
    requires c in {'m', 's'} ==> n < 60
    ensures ReadField(NatText(n) + [c]) == Some(FieldSeconds(n, c))
    ensures Free(NatText(n) + [c], ' ')
  {
    NatRoundTrip(n);
    assert (NatText(n) + [c])[..|NatText(n)|] == NatText(n);
  }

  lemma LastField(f: string)
    requires Free(f, ' ')
    ensures ReadUptime(f) == ReadField(f)
  {
  }

  function AddFields(a: Option<nat>, b: Option<nat>): Option<nat> {
    match (a, b)
    case (Some(x), Some(y)) => Some(x + y)
    case _ => None
  }

  lemma FirstField(f: string, rest: string)
    requires Free(f, ' ')
    ensures ReadUptime(f + [' '] + rest) == AddFields(ReadField(f), ReadUptime(rest))
  {
    FindAfter(f, ' ', rest);
    var s := f + [' '] + rest;
    assert Find(s, ' ') == |f| < |s|;
  }

  /** What an uptime text keeps: seconds below an hour, whole minutes from an hour on. */
  function WholeUnits(seconds: nat): nat {
    if seconds < 3600 then seconds else seconds - seconds % 60
  }

  lemma TwoFields(f: string, g: string)
    requires Free(f, ' ') && Free(g, ' ')
    ensures ReadUptime(f + [' '] + g) == AddFields(ReadField(f), ReadField(g))
  {
    LastField(g);
    FirstField(f, g);
  }

  lemma UptimeFields(seconds: nat)
    ensures WholeUnits(seconds)
         == FieldsValue(seconds / 86400, seconds % 86400 / 3600, seconds % 3600 / 60, seconds % 60)
    ensures seconds % 86400 / 3600 < 24 && seconds % 3600 / 60 < 60
  {
    var days, rest := seconds / 86400, seconds % 86400;
    var hours, below := rest / 3600, rest % 3600;
    assert seconds == days * 86400 + hours * 3600 + below;
    assert seconds % 3600 == below;
    assert seconds % 60 == below % 60;
  }

  function FieldsValue(days: nat, hours: nat, mins: nat, secs: nat): nat {
    if days > 0 then days * 86400 + (hours * 3600 + mins * 60)
    else if hours > 0 then hours * 3600 + mins * 60
    else mins * 60 + secs
  }

  lemma ThreeFields(d: string, h: string, m: string)
    requires Free(d, ' ') && Free(h, ' ') && Free(m, ' ')
    ensures ReadUptime(d + [' '] + (h + [' '] + m)) == AddFields(ReadField(d), AddFields(ReadField(h), ReadField(m)))
  {
    TwoFields(h, m);
    FirstField(d, h + [' '] + m);
  }

  lemma TwoJoin(a: string, c: char, b: string, d: char)
    ensures a + [c, ' '] + b + [d] == (a + [c]) + [' '] + (b + [d])
  {
  }

  lemma DaysJoin(days: nat, hours: nat, mins: nat, secs: nat)
    requires days > 0
    ensures FieldsText(days, hours, mins, secs)
         == (NatText(days) + ['d']) + [' '] + ((NatText(hours) + ['h']) + [' '] + (NatText(mins) + ['m']))
  {
    ThreeJoin(NatText(days), NatText(hours), NatText(mins));
  }

  lemma ThreeJoin(d: string, h: string, m: string)
    ensures d + "d " + h + "h " + m + "m" == (d + ['d']) + [' '] + ((h + ['h']) + [' '] + (m + ['m']))
  {
  }

  lemma DaysRoundTrip(days: nat, hours: nat, mins: nat, secs: nat)
    requires days > 0 && hours < 24 && mins < 60
    ensures ReadUptime(FieldsText(days, hours, mins, secs)) == Some(FieldsValue(days, hours, mins, secs))
  {
    hide ReadUptime, ReadField, FieldsText, NatText;
    var d, h, m := NatText(days), NatText(hours), NatText(mins);
    FieldRoundTrip(days, 'd');
    FieldRoundTrip(hours, 'h');
    FieldRoundTrip(mins, 'm');
    DaysJoin(days, hours, mins, secs);
    ThreeFields(d + ['d'], h + ['h'], m + ['m']);
  }

  lemma HoursRoundTrip(hours: nat, mins: nat, secs: nat)
    requires 0 < hours < 24 && mins < 60
    ensures ReadUptime(FieldsText(0, hours, mins, secs)) == Some(FieldsValue(0, hours, mins, secs))
  {
    var h, m := NatText(hours), NatText(mins);
    FieldRoundTrip(hours, 'h');
    FieldRoundTrip(mins, 'm');
    assert FieldsText(0, hours, mins, secs) == h + ['h', ' '] + m + ['m'];
    TwoJoin(h, 'h', m, 'm');
    TwoFields(h + ['h'], m + ['m']);
  }

  lemma MinutesRoundTrip(mins: nat, secs: nat)
    requires mins < 60 && secs < 60
    ensures ReadUptime(FieldsText(0, 0, mins, secs)) == Some(FieldsValue(0, 0, mins, secs))
  {
    var m, s := NatText(mins), NatText(secs);
    FieldRoundTrip(mins, 'm');
    FieldRoundTrip(secs, 's');
    assert FieldsText(0, 0, mins, secs) == m + ['m', ' '] + s + ['s'];
    TwoJoin(m, 'm', s, 's');
    TwoFields(m + ['m'], s + ['s']);
  }

  lemma FieldsRoundTrip(days: nat, hours: nat, mins: nat, secs: nat)
    requires hours < 24 && mins < 60 && secs < 60
    ensures ReadUptime(FieldsText(days, hours, mins, secs)) == Some(FieldsValue(days, hours, mins, secs))
  {
    hide ReadUptime, FieldsText, FieldsValue;
    if days > 0 {
      DaysRoundTrip(days, hours, mins, secs);
    } else if hours > 0 {
      HoursRoundTrip(hours, mins, secs);
    } else {
      MinutesRoundTrip(mins, secs);
    }
  }

  /** The text gives back the exact seconds below an hour and whole minutes from an hour on. */
  lemma UptimeRoundTrip(seconds: nat)
    ensures ReadUptime(UptimeText(seconds)) == Some(WholeUnits(seconds))
  {
    hide ReadUptime;
    UptimeFields(seconds);
    FieldsRoundTrip(seconds / 86400, seconds % 86400 / 3600, seconds % 3600 / 60, seconds % 60);
  }

  lemma WholeUnitsMonotone(s: nat, t: nat)
    requires s <= t
    ensures WholeUnits(s) <= WholeUnits(t)
  {
    assert s - s % 60 == s / 60 * 60 && t - t % 60 == t / 60 * 60;
  }

  /** A longer uptime never reads back as a shorter one. */
  lemma UptimeMonotone(s: nat, t: nat)
    requires s <= t
    ensures ReadUptime(UptimeText(s)).Some? && ReadUptime(UptimeText(t)).Some?
    ensures ReadUptime(UptimeText(s)).value <= ReadUptime(UptimeText(t)).value
  {
    UptimeRoundTrip(s);
    UptimeRoundTrip(t);
    WholeUnitsMonotone(s, t);
  }

  /** Minutes and seconds below an hour, hours and minutes below a day, days, hours and minutes from there on. */
  lemma UptimeForm(seconds: nat)
    ensures var mins, hours := NatText(seconds / 60 % 60) + "m", NatText(seconds / 3600 % 24) + "h ";
      UptimeText(seconds)
      == if seconds < 3600 then mins + " " + NatText(seconds % 60) + "s"
         else if seconds < 86400 then hours + mins
         else NatText(seconds / 86400) + "d " + hours + mins
  {
    hide NatText, FieldsText;
    ClockParts(seconds);
    FieldsForm(seconds / 86400, seconds % 86400 / 3600, seconds % 3600 / 60, seconds % 60);
  }

  lemma FieldsForm(days: nat, hours: nat, mins: nat, secs: nat)
    ensures FieldsText(days, hours, mins, secs)
         == if days > 0 then NatText(days) + "d " + (NatText(hours) + "h ") + (NatText(mins) + "m")
            else if hours > 0 then (NatText(hours) + "h ") + (NatText(mins) + "m")
            else (NatText(mins) + "m") + " " + NatText(secs) + "s"
  {
    hide NatText;
    assert NatText(mins) + "m" + " " == NatText(mins) + "m ";
    FormJoin(NatText(days) + "d ", NatText(hours), NatText(mins));
  }

  lemma FormJoin(days: string, hours: string, mins: string)
    ensures days + hours + "h " + mins + "m" == days + (hours + "h ") + (mins + "m")
    ensures hours + "h " + mins + "m" == (hours + "h ") + (mins + "m")
  {
  }

  lemma ClockParts(seconds: nat)
    ensures seconds / 60 % 60 == seconds % 3600 / 60 && seconds / 3600 % 24 == seconds % 86400 / 3600
    ensures seconds < 86400 <==> seconds / 86400 == 0
    ensures seconds < 3600 ==> seconds % 86400 / 3600 == 0
    ensures 3600 <= seconds < 86400 ==> seconds % 86400 / 3600 > 0
  {
    assert seconds == seconds / 3600 * 3600 + seconds % 3600;
    assert seconds / 60 == seconds / 3600 * 60 + seconds % 3600 / 60;
    assert seconds == seconds / 86400 * 86400 + seconds % 86400;
    assert seconds / 3600 == seconds / 86400 * 24 + seconds % 86400 / 3600;
  }

  /** The text of every 64-bit uptime fits a 64-byte buffer with room to spare. */
  lemma UptimeTextLength(seconds: u64)
    ensures |UptimeText(seconds)| <= 24
  {
    NatTextLength(seconds % 86400 / 3600, 2);
    NatTextLength(seconds % 3600 / 60, 2);
    NatTextLength(seconds % 60, 2);
    assert Pow10(5) == 100000;
    assert Pow10(10) == 10000000000;
    assert Pow10(15) == 1000000000000000;
    NatTextLength(seconds / 86400, 15);
  }

  method FormatUptime(seconds: u64, n: nat) returns (buf: string)
    requires n > 0
    ensures buf == Trunc(UptimeText(seconds), n)
  {
    var days := seconds / 86400;
    var hours := seconds % 86400 / 3600;
    var mins := seconds % 3600 / 60;
    if days > 0 {
      buf := Trunc(NatText(days) + "d " + NatText(hours) + "h " + NatText(mins) + "m", n);
    } else if hours > 0 {
      buf := Trunc(NatText(hours) + "h " + NatText(mins) + "m", n);
    } else {
      buf := Trunc(NatText(mins) + "m " + NatText(seconds % 60) + "s", n);
    }
  }
}

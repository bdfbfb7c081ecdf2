/** Decimal text: the printf conversions this program uses, and readers that take the text back. */
module Decimal {
  import opened Options

  function Pow10(k: nat): (p: nat)
    ensures p >= 1
  {
    if k == 0 then 1 else 10 * Pow10(k - 1)
  }

  function Digit(d: nat): char
    requires d < 10
  {
    (48 + d) as char
  }

  predicate IsDigit(c: char) {
    '0' <= c <= '9'
  }

  predicate AllDigits(s: string) {
    forall i :: 0 <= i < |s| ==> IsDigit(s[i])
  }

  /** `%u` / `%llu` */
  function NatText(n: nat): (s: string)
    ensures |s| > 0 && AllDigits(s)
  {
    if n < 10 then [Digit(n)] else NatText(n / 10) + [Digit(n % 10)]
  }

  /** `%d` */
  function IntText(n: int): string {
    if n < 0 then "-" + NatText(-n) else NatText(n)
  }

  /** The precisions the program prints with: `%.0f`, `%.1f` and `%.2f`. */
  type Places = d: nat | d <= 2

  function Unit(d: Places): (p: nat)
    ensures p >= 1
  {
    if d == 0 then 1 else if d == 1 then 10 else 100
  }

  /** Exactly `d` digits: the fraction part of `%.df`. */
  function FracText(n: nat, d: Places): (s: string)
    requires n < Unit(d)
    ensures |s| == d && AllDigits(s)
  {
    if d == 0 then "" else if d == 1 then [Digit(n)] else [Digit(n / 10), Digit(n % 10)]
  }

  /** Reader: the number a run of digits denotes. */
  function NatValue(s: string): nat
    requires AllDigits(s)
  {
    if s == "" then 0 else NatValue(s[..|s| - 1]) * 10 + (s[|s| - 1] as int - 48)
  }

  lemma {:induction false} NatValueSnoc(s: string, d: nat)
    requires AllDigits(s) && d < 10
    ensures NatValue(s + [Digit(d)]) == NatValue(s) * 10 + d
  {
    assert (s + [Digit(d)])[..|s|] == s;
  }

  lemma {:induction false} NatRoundTrip(n: nat)
    ensures NatValue(NatText(n)) == n
  {
    if n < 10 {
      assert [Digit(n)] == "" + [Digit(n)];
      NatValueSnoc("", n);
    } else {
      NatRoundTrip(n / 10);
      NatValueSnoc(NatText(n / 10), n % 10);
    }
  }

  lemma FracRoundTrip(n: nat, d: Places)
    requires n < Unit(d)
    ensures NatValue(FracText(n, d)) == n
  {
    if d == 1 {
      NatValueSnoc("", n);
      assert FracText(n, d) == "" + [Digit(n)];
    } else if d == 2 {
      NatValueSnoc("", n / 10);
      NatValueSnoc("" + [Digit(n / 10)], n % 10);
      assert FracText(n, d) == ("" + [Digit(n / 10)]) + [Digit(n % 10)];
    }
  }

  /** A number has at most `k` digits exactly when it is below `10^k`. */
  lemma {:induction false} NatTextLength(n: nat, k: nat)
    requires k > 0
    ensures |NatText(n)| <= k <==> n < Pow10(k)
  {
    if k == 1 {
      assert Pow10(1) == 10 * Pow10(0);
    } else if n >= 10 {
      NatTextLength(n / 10, k - 1);
    } else {
      assert Pow10(k) == 10 * Pow10(k - 1);
    }
  }

  // ---------------------------------------------------------------- rounding

  /** printf's rounding: to the nearest integer, ties to even. */
  function Round(x: real): int {
    var f := x.Floor;
    var frac := x - f as real;
    if frac < 0.5 || (frac == 0.5 && f % 2 == 0) then f else f + 1
  }

  lemma RoundNear(x: real)
    ensures x - 0.5 <= Round(x) as real <= x + 0.5
  {
  }

  /** Halfway between two integers the even one is taken. */
  lemma RoundTies(n: int)
    ensures Round(n as real + 0.5) == if n % 2 == 0 then n else n + 1
  {
    assert (n as real + 0.5).Floor == n;
  }

  lemma RoundExact(n: int)
    ensures Round(n as real) == n
  {
  }

  lemma RoundMonotone(x: real, y: real)
    requires x <= y
    ensures Round(x) <= Round(y)
  {
    if x.Floor < y.Floor {
      assert Round(x) <= x.Floor + 1 <= y.Floor;
    }
  }

  function Abs(x: real): (a: real)
    ensures a >= 0.0
  {
    if x < 0.0 then -x else x
  }

  /** The integer whose digits `%.df` shows. */
  function Scaled(x: real, d: Places): (m: nat)
    requires x >= 0.0
  {
    Round(x * Unit(d) as real)
  }

  function UnsignedFixed(m: nat, d: Places): string {
    NatText(m / Unit(d)) + if d == 0 then "" else "." + FracText(m % Unit(d), d)
  }

  /** `%.df` */
  function FixedText(x: real, d: Places): string {
    (if x < 0.0 then "-" else "") + UnsignedFixed(Scaled(Abs(x), d), d)
  }

  /** The value `%.df` shows for a non-negative `x`. */
  function Shown(x: real, d: Places): real
    requires x >= 0.0
  {
    Scaled(x, d) as real / Unit(d) as real
  }

  // ---------------------------------------------------------------- reading back

  /** Position of the first `c`, or the length. */
  function Find(s: string, c: char): (i: nat)
    ensures i <= |s|
    ensures forall k :: 0 <= k < i ==> s[k] != c
    ensures i < |s| ==> s[i] == c
  {
    if s == "" || s[0] == c then 0 else 1 + Find(s[1..], c)
  }

  predicate Free(s: string, c: char) {
    forall i :: 0 <= i < |s| ==> s[i] != c
  }

  lemma FindAfter(a: string, c: char, b: string)
    requires Free(a, c)
    ensures Find(a + [c] + b, c) == |a|
    ensures (a + [c] + b)[..|a|] == a && (a + [c] + b)[|a| + 1..] == b
  {
    var s := a + [c] + b;
    assert s[|a|] == c && forall k :: 0 <= k < |a| ==> s[k] == a[k];
  }

  /** Reader for unsigned decimal text; None when it is not one. */
  function ReadNat(s: string): Option<nat> {
    if s != "" && AllDigits(s) then Some(NatValue(s)) else None
  }

  /** Reader for `%.df` text of a non-negative number; None when it is not one. */
  function ReadFixed(s: string): Option<real> {
    var dot := Find(s, '.');
    if dot == |s| then
      match ReadNat(s)
      case None => None
      case Some(n) => Some(n as real)
    else ReadParts(s[..dot], s[dot + 1..])
  }

  function ReadParts(whole: string, frac: string): Option<real> {
    if |frac| > 2 then None
    else
      match (ReadNat(whole), ReadNat(frac))
      case (Some(n), Some(f)) => Some(n as real + f as real / Unit(|frac|) as real)
      case _ => None
  }

  lemma ReadPoint(whole: string, frac: string)
    requires Free(whole, '.')
    ensures ReadFixed(whole + ['.'] + frac) == ReadParts(whole, frac)
  {
    FindAfter(whole, '.', frac);
  }

  lemma SplitUnits(m: nat, d: Places)
    ensures (m / Unit(d)) as real + (m % Unit(d)) as real / Unit(d) as real == m as real / Unit(d) as real
  {
    assert m == m / Unit(d) * Unit(d) + m % Unit(d);
  }

  lemma UnsignedRoundTrip(m: nat, d: Places)
    ensures ReadFixed(UnsignedFixed(m, d)) == Some(m as real / Unit(d) as real)
  {
    var n, f := m / Unit(d), m % Unit(d);
    NatRoundTrip(n);
    SplitUnits(m, d);
    if d == 0 {
      assert UnsignedFixed(m, d) == NatText(n);
    } else {
      hide ReadFixed, NatText, FracText;
      FracRoundTrip(f, d);
      ReadPoint(NatText(n), FracText(f, d));
      assert ReadParts(NatText(n), FracText(f, d)) == Some(n as real + f as real / Unit(d) as real);
      assert UnsignedFixed(m, d) == NatText(n) + ['.'] + FracText(f, d);
    }
  }

  /** Reading `%.df` text gives exactly the rounded value. */
  lemma FixedRoundTrip(x: real, d: Places)
    requires x >= 0.0
    ensures ReadFixed(FixedText(x, d)) == Some(Shown(x, d))
  {
    UnsignedRoundTrip(Scaled(x, d), d);
    assert FixedText(x, d) == UnsignedFixed(Scaled(x, d), d);
  }

  lemma ShownMonotone(x: real, y: real, d: Places)
    requires 0.0 <= x <= y
    ensures Shown(x, d) <= Shown(y, d)
  {
    RoundMonotone(x * Unit(d) as real, y * Unit(d) as real);
  }

  lemma ShownNear(x: real, d: Places)
    requires x >= 0.0
    ensures x - 0.5 / Unit(d) as real <= Shown(x, d) <= x + 0.5 / Unit(d) as real
  {
    RoundNear(x * Unit(d) as real);
  }

  lemma ShownExact(n: nat, d: Places)
    ensures Shown(n as real, d) == n as real
  {
    RoundExact(n * Unit(d));
    assert n as real * Unit(d) as real == (n * Unit(d)) as real;
  }

  /** The text of a number below `10^k` has at most `k` digits before the point. */
  lemma FixedTextLength(x: real, d: Places, k: nat)
    requires 0 < k && Abs(x) + 1.0 <= Pow10(k) as real
    ensures |FixedText(x, d)| <= 2 + k + d
    ensures x >= 0.0 ==> |FixedText(x, d)| <= k + (if d == 0 then 0 else d + 1)
  {
    var m := Scaled(Abs(x), d);
    RoundNear(Abs(x) * Unit(d) as real);
    var q := Pow10(k);
    assert m as real < (q * Unit(d)) as real;
    NatTextLength(m / Unit(d), k);
  }

  // ---------------------------------------------------------------- padding and buffers

  function Spaces(n: nat): (s: string)
    ensures |s| == n
  {
    seq(n, _ => ' ')
  }

  /** `%ws` */
  function PadLeft(s: string, w: nat): (r: string)
    ensures |r| == if |s| < w then w else |s|
  {
    if |s| < w then Spaces(w - |s|) + s else s
  }

  /** `%-ws` */
  function PadRight(s: string, w: nat): (r: string)
    ensures |r| == if |s| < w then w else |s|
  {
    if |s| < w then s + Spaces(w - |s|) else s
  }

  /** What a NUL-terminated buffer of `n` bytes keeps of `s`: snprintf("%s") and copy_trunc. */
  function Trunc(s: string, n: nat): (r: string)
    requires n > 0
    ensures |r| < n && r <= s
    ensures |s| < n ==> r == s
  {
    if |s| < n then s else s[..n - 1]
  }

  /** Padding only adds spaces, before the text or after it; a cut text fills its buffer up to the NUL. */
  lemma PaddedText(s: string, w: nat, n: nat)
    requires n > 0
    ensures var r := PadLeft(s, w); r[|r| - |s|..] == s && forall i :: 0 <= i < |r| - |s| ==> r[i] == ' '
    ensures var r := PadRight(s, w); r[..|s|] == s && forall i :: |s| <= i < |r| ==> r[i] == ' '
    ensures |s| >= n ==> |Trunc(s, n)| == n - 1
  {
  }

  /** `%d` reads back, sign included. */
  lemma IntRoundTrip(n: int)
    ensures n >= 0 ==> ReadNat(IntText(n)) == Some(n)
    ensures n < 0 ==> IntText(n)[0] == '-' && ReadNat(IntText(n)[1..]) == Some(-n)
  {
    NatRoundTrip(if n < 0 then -n else n);
    assert n < 0 ==> IntText(n)[1..] == NatText(-n);
  }
}

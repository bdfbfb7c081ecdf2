/** src/render.c: the fixed frame buffer and its truncating appends. A char stands for one byte. */
module FrameBuffer {

  const FRAME_CAP: nat := 24576
  const NUL: char := '\0'
  const ERASE_LINE: string := "\U{1B}[K"

  /** The concatenation of a list of pieces. */
  function Flat<A>(pieces: seq<seq<A>>): seq<A> {
    if pieces == [] then [] else Flat(pieces[..|pieces| - 1]) + pieces[|pieces| - 1]
  }

  lemma FlatSnoc<A>(pieces: seq<seq<A>>, s: seq<A>)
    ensures Flat(pieces + [s]) == Flat(pieces) + s
  {
    assert (pieces + [s])[..|pieces|] == pieces;
  }

  lemma Assoc<A>(a: seq<A>, b: seq<A>, c: seq<A>)
    ensures a + b + c == a + (b + c)
  {
  }

  lemma {:induction false} FlatAppend<A>(a: seq<seq<A>>, b: seq<seq<A>>)
    ensures Flat(a + b) == Flat(a) + Flat(b)
  {
    if b == [] {
      assert a + b == a;
    } else {
      var front, last := b[..|b| - 1], b[|b| - 1];
      assert a + b == (a + front) + [last];
      calc {
        Flat(a + b);
        { FlatSnoc(a + front, last); }
        Flat(a + front) + last;
        { FlatAppend(a, front); }
        (Flat(a) + Flat(front)) + last;
        { Assoc(Flat(a), Flat(front), last); }
        Flat(a) + Flat(b);
      }
    }
  }

  /** What a buffer holds of everything requested: the first FRAME_CAP - 1 bytes. */
  function Kept(s: string): (r: string)
    ensures |r| < FRAME_CAP && r <= s
    ensures |s| < FRAME_CAP ==> r == s
  {
    if |s| < FRAME_CAP then s else s[..FRAME_CAP - 1]
  }

  /** Keeping after each request is the same as keeping once at the end. */
  lemma KeptTwice(a: string, b: string)
    ensures Kept(Kept(a) + b) == Kept(a + b)
  {
  }

  class FrameBuf {
    const data: array<char>
    const live: bool
    var len: nat
    /** Everything requested so far, in order. */
    ghost var log: seq<string>

    ghost predicate Valid()
      reads this, data
    {
      && data.Length == FRAME_CAP
      && len < FRAME_CAP
      && data[..len] == Kept(Flat(log))
      && data[len] == NUL
    }

    /** `memset(&fb, 0, sizeof(fb)); fb.live = live;` */
    constructor (live: bool)
      ensures Valid() && fresh(data)
      ensures this.live == live && log == []
    {
      this.live := live;
      data := new char[FRAME_CAP](_ => NUL);
      len := 0;
      log := [];
    }

    /** memcpy of `n` bytes at the end, then the new NUL. */
    method Store(s: string, n: nat)
      requires data.Length == FRAME_CAP && n <= |s| && len + n < FRAME_CAP
      modifies this`len, data
      ensures len == old(len) + n
      ensures data[..len] == old(data[..len]) + s[..n]
      ensures data[len] == NUL
    {
      forall i | 0 <= i < n {
        data[len + i] := s[i];
      }
      len := len + n;
      data[len] := NUL;
    }

    method Add(s: string)
      requires Valid()
      modifies this, data
      ensures Valid()
      ensures log == old(log) + [s]
    {
      FlatSnoc(log, s);
      KeptTwice(Flat(log), s);
      log := log + [s];
      if len + 1 >= FRAME_CAP {
        return;
      }
      var n := |s|;
      var room := FRAME_CAP - 1 - len;
      if n > room {
        n := room;
      }
      Store(s, n);
    }

    method AddCh(c: char)
      requires Valid()
      modifies this, data
      ensures Valid()
      ensures log == old(log) + [[c]]
    {
      FlatSnoc(log, [c]);
      KeptTwice(Flat(log), [c]);
      log := log + [[c]];
      if len + 1 >= FRAME_CAP {
        return;
      }
      data[len] := c;
      len := len + 1;
      data[len] := NUL;
    }

    /** `parts` is what the format expands to: its literal runs and converted arguments, in order. */
    method Printf(parts: seq<string>)
      requires Valid()
      modifies this, data
      ensures Valid()
      ensures log == old(log) + parts
    {
      FlatAppend(log, parts);
      KeptTwice(Flat(log), Flat(parts));
      var room := FRAME_CAP - 1 - len;
      log := log + parts;
      if room == 0 {
        return;
      }
      var text := Flat(parts);
      var n := |text|;
      if n > room {
        Store(text, room);
      } else {
        Store(text, n);
      }
    }

    method Nl()
      requires Valid()
      modifies this, data
      ensures Valid()
      ensures log == old(log) + [if live then ERASE_LINE + "\n" else "\n"]
    {
      ghost var before := log;
      if live {
        Add(ERASE_LINE);
      }
      AddCh('\n');
      ghost var piece := if live then ERASE_LINE + "\n" else "\n";
      MergePieces(before, log, piece, live);
      log := before + [piece];
    }

    /** fb_flush: the bytes one fwrite sends to stdout. */
    method Flush() returns (out: string)
      requires Valid()
      ensures out == Kept(Flat(log))
    {
      out := data[..len];
    }
  }

  lemma MergePieces(before: seq<string>, after: seq<string>, piece: string, live: bool)
    requires piece == if live then ERASE_LINE + "\n" else "\n"
    requires after == if live then before + [ERASE_LINE] + ["\n"] else before + ["\n"]
    ensures Flat(before + [piece]) == Flat(after)
  {
    FlatSnoc(before, piece);
    if live {
      FlatSnoc(before, ERASE_LINE);
      FlatSnoc(before + [ERASE_LINE], "\n");
    }
  }

  // ---------------------------------------------------------------- whole call sequences

  /** One of the four append operations. */
  datatype Request = AddText(s: string) | AddByte(c: char) | Format(parts: seq<string>) | NewLine

  function Asked(r: Request, live: bool): string {
    match r
    case AddText(s) => s
    case AddByte(c) => [c]
    case Format(parts) => Flat(parts)
    case NewLine => if live then ERASE_LINE + "\n" else "\n"
  }

  function AskedAll(rs: seq<Request>, live: bool): string {
    if rs == [] then "" else AskedAll(rs[..|rs| - 1], live) + Asked(rs[|rs| - 1], live)
  }

  lemma NothingAsked(live: bool)
    ensures AskedAll([], live) == "" && Flat<char>([]) == ""
  {
  }

  lemma AskedSnoc(rs: seq<Request>, i: nat, live: bool)
    requires i < |rs|
    ensures AskedAll(rs[..i + 1], live) == AskedAll(rs[..i], live) + Asked(rs[i], live)
  {
    assert rs[..i + 1][..i] == rs[..i];
  }

  /** Any sequence of appends leaves the first 24575 bytes of all that was asked for. */
  method Play(rs: seq<Request>, live: bool) returns (out: string)
    ensures out == if |AskedAll(rs, live)| <= 24575 then AskedAll(rs, live) else AskedAll(rs, live)[..24575]
  {
    hide FrameBuf.Valid, Flat, AskedAll;
    NothingAsked(live);
    var fb := new FrameBuf(live);
    var i := 0;
    assert rs[..0] == [];
    while i < |rs|
      invariant 0 <= i <= |rs|
      invariant fb.Valid() && fb.live == live && fresh(fb) && fresh(fb.data)
      invariant Flat(fb.log) == AskedAll(rs[..i], live)
    {
      ghost var before := fb.log;
      AskedSnoc(rs, i, live);
      match rs[i] {
        case AddText(s) => fb.Add(s); FlatSnoc(before, s);
        case AddByte(c) => fb.AddCh(c); FlatSnoc(before, [c]);
        case Format(parts) => fb.Printf(parts); FlatAppend(before, parts);
        case NewLine => fb.Nl(); FlatSnoc(before, if live then ERASE_LINE + "\n" else "\n");
      }
      i := i + 1;
    }
    assert rs[..i] == rs;
    out := fb.Flush();
  }
}

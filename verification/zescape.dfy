/** The ZDLE escape layer: zsendline, zdlread and noxrd7. */
module ZEscape {
  import opened Crc

  const ZPAD: Code := 0x2A
  const ZDLE: Code := 0x18
  const ZBIN: Code := 0x41
  const ZHEX: Code := 0x42
  const ZBIN32: Code := 0x43
  const CAN: Code := 0x18
  const XON: Code := 0x11
  const XOFF: Code := 0x13
  const ZCRCE: Code := 0x68
  const ZCRCG: Code := 0x69
  const ZCRCQ: Code := 0x6A
  const ZCRCW: Code := 0x6B
  const ZRUB0: Code := 0x6C
  const ZRUB1: Code := 0x6D
  const GOTOR: Code := 0x100
  const GOTCAN: Code := 0x118
  const TERROR: Code := 0xFFFF
  const TIMEOUT: Code := 0xFFFE
  const HANGUP: Code := 0xFFFC

  /** What GETCHAR returns from a line: bytes and timeouts, and HANGUP once it is used up. */
  type Line = seq<Code>

  function Get(w: Line): Code {
    if w == [] then HANGUP else w[0]
  }

  function Rest(w: Line): Line {
    if w == [] then [] else w[1..]
  }

  predicate Negative(c: Code) {
    c & 0x8000 != 0
  }

  predicate Control(c: Code) {
    c & 0x60 == 0
  }

  /** XON or XOFF, with or without the high bit: inserted or removed by flow control. */
  predicate Flow(c: Code) {
    c == XON || c == XOFF || c == 0x91 || c == 0x93
  }

  // ------------------------------------------------------------------ sending

  /** Zctlesc and Zsendmask; index 32 of the mask stands for the byte 0377. */
  datatype Escapes = Escapes(ctl: bool, mask: set<Code>)

  /** The wire bytes of one data byte and the new value of `lastsent`. */
  function EncByte(e: Escapes, last: Byte, c: Byte): (seq<Byte>, Byte) {
    if c == 0xFF then
      (if e.ctl || 0x20 in e.mask then [ZDLE, ZRUB1] else [c], c)
    else if c == ZDLE then
      ([ZDLE, c ^ 0x40], c ^ 0x40)
    else if c == 0x0D || c == 0x8D then
      if !e.ctl && last & 0x7F != 0x40 then ([c], c) else ([ZDLE, c ^ 0x40], c ^ 0x40)
    else if c == 0x10 || Flow(c) then
      ([ZDLE, c ^ 0x40], c ^ 0x40)
    else if Control(c) && (e.ctl || c & 0x1F in e.mask) then
      ([ZDLE, c ^ 0x40], c ^ 0x40)
    else
      ([c], c)
  }

  function Enc(e: Escapes, last: Byte, s: seq<Byte>): seq<Byte>
    decreases |s|
  {
    if s == [] then [] else EncByte(e, last, s[0]).0 + Enc(e, EncByte(e, last, s[0]).1, s[1..])
  }

  /** `lastsent` after sending s. */
  function Last(e: Escapes, last: Byte, s: seq<Byte>): Byte
    decreases |s|
  {
    if s == [] then last else Last(e, EncByte(e, last, s[0]).1, s[1..])
  }

  // ------------------------------------------------------------------ receiving

  /** The byte after ZDLE, and after up to three more CANs. */
  function SkipCans(w: Line, more: nat): (r: (Code, Line))
    ensures |r.1| <= |w| && (w != [] ==> |r.1| < |w|)
    decreases more
  {
    var c := Get(w);
    if c == CAN && more > 0 then SkipCans(Rest(w), more - 1) else (c, Rest(w))
  }

  function ReadEscaped(ctl: bool, w: Line): (r: (Code, Line))
    ensures |r.1| <= |w| && (w != [] ==> |r.1| < |w|)
    decreases |w|
  {
    var (c, v) := SkipCans(w, 3);
    if Negative(c) then (c, v)
    else if c == CAN then (GOTCAN, v)
    else if c == ZCRCE || c == ZCRCG || c == ZCRCQ || c == ZCRCW then (c | GOTOR, v)
    else if c == ZRUB0 then (0x7F, v)
    else if c == ZRUB1 then (0xFF, v)
    else if Flow(c) || (ctl && Control(c)) then ReadEscaped(ctl, v)
    else if c & 0x60 == 0x40 then (c ^ 0x40, v)
    else (TERROR, v)
  }

  /** zdlread: a data byte, GOTOR with a frame end, GOTCAN, or a negative code. */
  function ReadByte(ctl: bool, w: Line): (r: (Code, Line))
    ensures |r.1| <= |w| && (w != [] ==> |r.1| < |w|)
    decreases |w|
  {
    var c := Get(w);
    if !Control(c) then (c, Rest(w))
    else if c == ZDLE then ReadEscaped(ctl, Rest(w))
    else if Flow(c) || ctl then ReadByte(ctl, Rest(w))
    else (c, Rest(w))
  }

  /** noxrd7: the next byte without parity, flow control and, if asked, other controls. */
  function ReadPlain(ctl: bool, w: Line): (r: (Code, Line))
    ensures |r.1| <= |w| && (w != [] ==> |r.1| < |w|)
    decreases |w|
  {
    var c := Get(w);
    if Negative(c) then (c, Rest(w)) else
    var d := c & 0x7F;
    if d == XON || d == XOFF || (ctl && Control(d) && d != 0x0D && d != 0x0A && d != ZDLE) then ReadPlain(ctl, Rest(w))
    else (d, Rest(w))
  }

  // ------------------------------------------------------------------ round trip

  /** A line with flow-control bytes inserted before any of its bytes. */
  ghost predicate Noisy(s: Line, w: Line)
    decreases |w|
  {
    if w == [] then s == []
    else if Flow(w[0]) then Noisy(s, w[1..]) && s != []
    else s != [] && w[0] == s[0] && Noisy(s[1..], w[1..])
  }

  lemma {:induction false} NoisySelf(s: Line)
    requires forall c :: c in s ==> !Flow(c)
    ensures Noisy(s, s)
    decreases |s|
  {
    if s != [] {
      NoisySelf(s[1..]);
    }
  }

  lemma {:induction false} NoisySplit(s: Line, t: Line, w: Line) returns (u: Line, v: Line)
    requires Noisy(s + t, w)
    ensures w == u + v && Noisy(s, u) && Noisy(t, v)
    decreases |w|
  {
    if s == [] {
      assert s + t == t;
      u, v := [], w;
    } else if Flow(w[0]) {
      u, v := NoisySplit(s, t, w[1..]);
      u := [w[0]] + u;
      assert u[1..] == w[1..][..|u| - 1];
    } else {
      assert (s + t)[1..] == s[1..] + t;
      u, v := NoisySplit(s[1..], t, w[1..]);
      u := [w[0]] + u;
      assert u[1..] == w[1..][..|u| - 1];
    }
  }

  /** Reading n data bytes; a code that is not a byte is passed on like one. */
  function ReadMany(ctl: bool, w: Line, n: nat): (seq<Code>, Line)
    decreases n
  {
    if n == 0 then ([], w) else
    var (c, v) := ReadByte(ctl, w);
    var (s, u) := ReadMany(ctl, v, n - 1);
    ([c] + s, u)
  }

  /** A wire byte that zdlread passes on as it is. */
  predicate Plain(ctl: bool, c: Code) {
    !Control(c) || (c != ZDLE && !Flow(c) && !ctl)
  }

  lemma {:induction false} ReadPlainNoisy(ctl: bool, c: Code, w: Line, tail: Line)
    requires Plain(ctl, c) && Noisy([c], w)
    ensures ReadByte(ctl, w + tail) == (c, tail)
    decreases |w|
  {
    assert (w + tail)[1..] == w[1..] + tail;
    if Flow(w[0]) {
      ReadPlainNoisy(ctl, c, w[1..], tail);
    } else {
      assert w[1..] == [];
    }
  }

  lemma {:induction false} ReadEscapedNoisy(ctl: bool, c: Code, w: Line, tail: Line)
    requires c & 0x60 == 0x40 && c < 0x100 && Noisy([c], w)
    ensures ReadEscaped(ctl, w + tail) == (c ^ 0x40, tail)
    decreases |w|
  {
    assert (w + tail)[1..] == w[1..] + tail;
    if Flow(w[0]) {
      ReadEscapedNoisy(ctl, c, w[1..], tail);
    } else {
      assert w[1..] == [];
    }
  }

  lemma {:induction false} ReadRuboutNoisy(ctl: bool, w: Line, tail: Line)
    requires Noisy([ZRUB1], w)
    ensures ReadEscaped(ctl, w + tail) == (0xFF, tail)
    decreases |w|
  {
    assert (w + tail)[1..] == w[1..] + tail;
    if Flow(w[0]) {
      ReadRuboutNoisy(ctl, w[1..], tail);
    } else {
      assert w[1..] == [];
    }
  }

  lemma {:induction false} ReadEndNoisy(ctl: bool, end: Code, w: Line, tail: Line)
    requires ZCRCE <= end <= ZCRCW && Noisy([end], w)
    ensures ReadEscaped(ctl, w + tail) == (end | GOTOR, tail)
    decreases |w|
  {
    assert (w + tail)[1..] == w[1..] + tail;
    if Flow(w[0]) {
      ReadEndNoisy(ctl, end, w[1..], tail);
    } else {
      assert w[1..] == [];
    }
  }

  /** Noise before an escape only delays it. */
  lemma {:induction false} ReadToEscape(ctl: bool, c: Code, w: Line, tail: Line) returns (v: Line)
    requires Noisy([ZDLE, c], w)
    ensures Noisy([c], v) && |v| < |w| && ReadByte(ctl, w + tail) == ReadEscaped(ctl, v + tail)
    decreases |w|
  {
    assert (w + tail)[1..] == w[1..] + tail;
    if Flow(w[0]) {
      v := ReadToEscape(ctl, c, w[1..], tail);
    } else {
      v := w[1..];
      assert [ZDLE, c][1..] == [c];
    }
  }

  lemma EncByteForms(e: Escapes, ctl: bool, last: Byte, c: Byte)
    requires ctl ==> e.ctl
    ensures var b := EncByte(e, last, c).0;
      || (b == [c] && Plain(ctl, c))
      || (b == [ZDLE, ZRUB1] && c == 0xFF)
      || (b == [ZDLE, c ^ 0x40] && Control(c))
  {
  }

  lemma ControlEscapes(c: Byte)
    requires Control(c)
    ensures (c ^ 0x40) & 0x60 == 0x40 && c ^ 0x40 < 0x100 && (c ^ 0x40) ^ 0x40 == c
  {
  }

  /** zdlread gives back the byte zsendline sent, through any inserted flow control. */
  lemma ReadEncByte(e: Escapes, ctl: bool, last: Byte, c: Byte, w: Line, tail: Line)
    requires ctl ==> e.ctl
    requires Noisy(EncByte(e, last, c).0, w)
    ensures ReadByte(ctl, w + tail) == (c, tail)
  {
    hide EncByte, ReadByte, ReadEscaped;
    EncByteForms(e, ctl, last, c);
    var b := EncByte(e, last, c).0;
    if b == [c] && Plain(ctl, c) {
      ReadPlainNoisy(ctl, c, w, tail);
    } else {
      var v := ReadToEscape(ctl, b[1], w, tail);
      if b[1] == ZRUB1 && c == 0xFF {
        ReadRuboutNoisy(ctl, v, tail);
      } else {
        ControlEscapes(c);
        ReadEscapedNoisy(ctl, b[1], v, tail);
      }
    }
  }

  /** Every byte string survives the escape layer, wherever XON and XOFF are inserted. */
  lemma {:induction false} ReadEnc(e: Escapes, ctl: bool, last: Byte, s: seq<Byte>, w: Line, tail: Line)
    requires ctl ==> e.ctl
    requires Noisy(Enc(e, last, s), w)
    ensures ReadMany(ctl, w + tail, |s|) == (s, tail)
    decreases |s|
  {
    hide EncByte, ReadByte;
    if s == [] {
      assert w + tail == tail;
    } else {
      var u, v := NoisySplit(EncByte(e, last, s[0]).0, Enc(e, EncByte(e, last, s[0]).1, s[1..]), w);
      assert w + tail == u + (v + tail);
      ReadEncByte(e, ctl, last, s[0], u, v + tail);
      ReadEnc(e, ctl, EncByte(e, last, s[0]).1, s[1..], v, tail);
      assert [s[0]] + s[1..] == s;
    }
  }

  ghost predicate Faithful(e: Escapes, ctl: bool) {
    forall last: Byte, s: seq<Byte>, tail: Line :: ReadMany(ctl, Enc(e, last, s) + tail, |s|) == (s, tail)
  }

  /** The escape layer is faithful exactly when a receiver that drops control characters
      has a sender that escapes them: Zsendmask alone never covers a carriage return. */
  lemma FaithfulIff(e: Escapes, ctl: bool)
    ensures Faithful(e, ctl) <==> (ctl ==> e.ctl)
  {
    if ctl ==> e.ctl {
      forall last: Byte, s: seq<Byte>, tail: Line
        ensures ReadMany(ctl, Enc(e, last, s) + tail, |s|) == (s, tail)
      {
        EncClean(e, last, s);
        NoisySelf(Enc(e, last, s));
        ReadEnc(e, ctl, last, s, Enc(e, last, s), tail);
      }
    } else {
      var s: seq<Byte> := [0x0D];
      assert Enc(e, 0, s) == [0x0D];
      assert ReadMany(true, [0x0D] + [], 1).0 != s by {
        assert [0x0D] + [] == [0x0D];
        assert ReadByte(true, [0x0D]) == ReadByte(true, []);
      }
      assert !Faithful(e, ctl);
    }
  }

  // ------------------------------------------------------------------ wire cleanliness

  predicate Return(c: Code) {
    c == 0x0D || c == 0x8D
  }

  predicate AtSign(c: Code) {
    c & 0x7F == 0x40
  }

  /** No carriage return directly follows an '@' (the Telenet command escape). */
  predicate ReturnSafe(prev: Code, w: Line)
    decreases |w|
  {
    w == [] || (!(AtSign(prev) && Return(w[0])) && ReturnSafe(w[0], w[1..]))
  }

  lemma EncByteClean(e: Escapes, last: Byte, c: Byte)
    ensures var (b, l) := EncByte(e, last, c);
      && (b == [c] || (|b| == 2 && b[0] == ZDLE && b[1] != ZDLE))
      && (forall x :: x in b ==> !Flow(x) && x != 0x10)
      && (b == [c] ==> c != ZDLE && (Return(c) ==> !AtSign(last)))
      && (|b| == 2 ==> !Return(b[1]))
      && (AtSign(b[|b| - 1]) ==> AtSign(l))
  {
  }

  /** ZDLE only starts an escape pair and never ends one. */
  predicate PairsOnly(w: Line)
    decreases |w|
  {
    if w == [] then true
    else if w[0] == ZDLE then |w| > 1 && w[1] != ZDLE && PairsOnly(w[2..])
    else PairsOnly(w[1..])
  }

  /** Encoded bytes contain no raw DLE, XON or XOFF, and ZDLE only as a prefix. */
  lemma {:induction false} EncClean(e: Escapes, last: Byte, s: seq<Byte>)
    ensures var w := Enc(e, last, s); PairsOnly(w) && forall x :: x in w ==> !Flow(x) && x != 0x10
    decreases |s|
  {
    hide EncByte;
    if s != [] {
      var (b, l) := EncByte(e, last, s[0]);
      EncByteClean(e, last, s[0]);
      EncClean(e, l, s[1..]);
      assert (b + Enc(e, l, s[1..]))[|b|..] == Enc(e, l, s[1..]);
    }
  }

  lemma {:induction false} ReturnSafeJoin(prev: Code, u: Line, v: Line)
    requires ReturnSafe(prev, u) && ReturnSafe(if u == [] then prev else u[|u| - 1], v)
    ensures ReturnSafe(prev, u + v)
    decreases |u|
  {
    if u == [] {
      assert u + v == v;
    } else {
      assert (u + v)[1..] == u[1..] + v;
      ReturnSafeJoin(u[0], u[1..], v);
    }
  }

  /** `lastsent` tracks the wire closely enough for the rule about '@' across calls. */
  lemma {:induction false} EncReturnSafe(e: Escapes, prev: Code, last: Byte, s: seq<Byte>)
    requires AtSign(prev) ==> AtSign(last)
    ensures var w := Enc(e, last, s);
      && ReturnSafe(prev, w)
      && (AtSign(if w == [] then prev else w[|w| - 1]) ==> AtSign(Last(e, last, s)))
    decreases |s|
  {
    hide EncByte;
    if s != [] {
      var (b, l) := EncByte(e, last, s[0]);
      EncByteClean(e, last, s[0]);
      var w := Enc(e, l, s[1..]);
      EncReturnSafe(e, b[|b| - 1], l, s[1..]);
      assert ReturnSafe(prev, b) by {
        if |b| == 2 {
          assert b[1..] == [b[1]] && [b[1]][1..] == [];
          assert !AtSign(ZDLE) && !Return(ZDLE);
          assert ReturnSafe(b[1], []);
        } else {
          assert b[1..] == [];
        }
      }
      ReturnSafeJoin(prev, b, w);
    }
  }
}

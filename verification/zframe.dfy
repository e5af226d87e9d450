/** ZMODEM headers and data subpackets on the wire, and the readers that take them off it. */
module ZFrame {
  import opened Crc
  import opened CrcDetect
  import opened ZEscape

  const ZSINIT: Byte := 2
  const ZACK: Byte := 3
  const ZFILE: Byte := 4
  const ZFIN: Byte := 8
  const ZDATA: Byte := 10
  const ZCAN: Byte := 16
  const ZCOMMAND: Byte := 18
  const MAXBLOCK: nat := 8192
  const ZRWINDOW: nat := 1400

  // ------------------------------------------------------------------ checks

  /** The check bytes after message m, in the CRC width of the frame. */
  function Check(wide: bool, m: seq<Byte>): (r: seq<Byte>)
    ensures |r| == CheckLength(wide)
  {
    if wide then Flush32(Crc32(INIT32, m)) else Flush16(Crc16(0, m))
  }

  function CheckLength(wide: bool): nat {
    if wide then 4 else 2
  }

  /** The receiver's test on everything it fed to its register. */
  predicate Passes(wide: bool, m: seq<Byte>) {
    if wide then Crc32(INIT32, m) == RESIDUE32 else Crc16(0, m) == 0
  }

  lemma CheckPasses(wide: bool, m: seq<Byte>)
    ensures Passes(wide, m + Check(wide, m))
  {
    hide Crc16, Crc32, Flush16, Flush32;
    if wide { Residue32(m); } else { Residue16(m); }
  }

  // ------------------------------------------------------------------ data subpackets

  datatype Sub = Sub(data: seq<Byte>, end: Byte)

  predicate FrameEnd(c: Code) {
    c == ZCRCE || c == ZCRCG || c == ZCRCQ || c == ZCRCW
  }

  /** zsdata: escaped data, ZDLE and the frame end, escaped check bytes, XON after ZCRCW. */
  function EncSub(e: Escapes, wide: bool, last: Byte, p: Sub): seq<Byte> {
    Enc(e, last, p.data) + EncEnd(e, wide, Last(e, last, p.data), p) + (if p.end == ZCRCW then [XON] else [])
  }

  function EncEnd(e: Escapes, wide: bool, last: Byte, p: Sub): seq<Byte> {
    [ZDLE, p.end] + Enc(e, last, Check(wide, p.data + [p.end]))
  }

  function LastSub(e: Escapes, wide: bool, last: Byte, p: Sub): Byte {
    Last(e, Last(e, last, p.data), Check(wide, p.data + [p.end]))
  }

  datatype SubResult = SubResult(code: Code, data: seq<Byte>, rest: Line)

  /** zrdata and zrdat32: up to `length` data bytes and a frame end whose check passes. */
  function ReadData(ctl: bool, wide: bool, length: nat, w: Line, data: seq<Byte>): (r: SubResult)
    ensures |r.rest| <= |w| && (w != [] && |data| <= length ==> |r.rest| < |w|)
    decreases length + 1 - |data|
  {
    if |data| > length then SubResult(TERROR, [], w) else
    var (c, v) := ReadByte(ctl, w);
    if c < 0x100 then ReadData(ctl, wide, length, v, data + [c]) else ReadEnd(ctl, wide, c, v, data, data)
  }

  /** The label crcfoo: a code that is not a data byte. `fed` is what the register has seen. */
  function ReadEnd(ctl: bool, wide: bool, c: Code, w: Line, data: seq<Byte>, fed: seq<Byte>): (r: SubResult)
    ensures |r.rest| <= |w|
    decreases |w|, 5
  {
    if Ended(c) then
      ReadCheck(ctl, wide, c, CheckLength(wide), w, data, fed + [c & 0xFF])
    else if c == GOTCAN then SubResult(ZCAN, [], w)
    else SubResult(c, [], w)
  }

  function ReadCheck(ctl: bool, wide: bool, d: Code, n: nat, w: Line, data: seq<Byte>, fed: seq<Byte>): (r: SubResult)
    requires n <= 4
    ensures |r.rest| <= |w|
    decreases |w|, n
  {
    if n == 0 then (if Passes(wide, fed) then SubResult(d, data, w) else SubResult(TERROR, [], w)) else
    var (c, v) := ReadByte(ctl, w);
    if c < 0x100 then ReadCheck(ctl, wide, d, n - 1, v, data, fed + [c])
    else if w == [] then SubResult(c, [], v)
    else ReadEnd(ctl, wide, c, v, data, fed)
  }

  function ReadSub(ctl: bool, wide: bool, length: nat, w: Line): SubResult {
    ReadData(ctl, wide, length, w, [])
  }

  lemma {:induction false} ReadDataEnc(e: Escapes, ctl: bool, wide: bool, length: nat, last: Byte,
                                       done: seq<Byte>, s: seq<Byte>, w: Line, tail: Line)
    requires (ctl ==> e.ctl) && |done| + |s| <= length && Noisy(Enc(e, last, s), w)
    ensures ReadData(ctl, wide, length, w + tail, done) == ReadData(ctl, wide, length, tail, done + s)
    decreases |s|
  {
    hide EncByte, ReadByte, ReadEnd;
    if s == [] {
      assert w + tail == tail && done + s == done;
    } else {
      var (b, l) := EncByte(e, last, s[0]);
      var u, v := NoisySplit(b, Enc(e, l, s[1..]), w);
      assert w + tail == u + (v + tail);
      ReadEncByte(e, ctl, last, s[0], u, v + tail);
      ReadDataEnc(e, ctl, wide, length, l, done + [s[0]], s[1..], v, tail);
      assert done + [s[0]] + s[1..] == done + s;
    }
  }

  lemma {:induction false} ReadCheckEnc(e: Escapes, ctl: bool, wide: bool, last: Byte, d: Code,
                                        data: seq<Byte>, fed: seq<Byte>, s: seq<Byte>, w: Line, tail: Line)
    requires (ctl ==> e.ctl) && |s| <= 4 && Noisy(Enc(e, last, s), w)
    ensures ReadCheck(ctl, wide, d, |s|, w + tail, data, fed)
         == if Passes(wide, fed + s) then SubResult(d, data, tail) else SubResult(TERROR, [], tail)
    decreases |s|
  {
    hide EncByte, ReadByte, ReadEnd, Passes;
    if s == [] {
      assert w + tail == tail && fed + s == fed;
    } else {
      var (b, l) := EncByte(e, last, s[0]);
      var u, v := NoisySplit(b, Enc(e, l, s[1..]), w);
      assert w + tail == u + (v + tail);
      ReadEncByte(e, ctl, last, s[0], u, v + tail);
      ReadCheckEnc(e, ctl, wide, l, d, data, fed + [s[0]], s[1..], v, tail);
      assert fed + [s[0]] + s[1..] == fed + s;
    }
  }

  lemma EndCode(end: Byte)
    requires FrameEnd(end)
    ensures ZCRCE <= end <= ZCRCW && end | GOTOR >= 0x100 && (end | GOTOR) & 0xFF == end && (end | GOTOR) & 0xFF00 == GOTOR
  {
  }

  /** A subpacket is read back with its frame end in either CRC width, through any inserted
      flow control; of the XON after ZCRCW nothing has been read yet. */
  lemma ReadEncSub(e: Escapes, ctl: bool, wide: bool, length: nat, last: Byte, p: Sub, w: Line, tail: Line)
    requires (ctl ==> e.ctl) && FrameEnd(p.end) && |p.data| <= length
    requires Noisy(Enc(e, last, p.data) + EncEnd(e, wide, Last(e, last, p.data), p), w)
    ensures ReadSub(ctl, wide, length, w + tail) == SubResult(p.end | GOTOR, p.data, tail)
  {
    hide Enc, ReadByte, ReadEscaped, ReadCheck, Passes, Check, Last;
    var l := Last(e, last, p.data);
    var m := p.data + [p.end];
    var u, v := NoisySplit(Enc(e, last, p.data), EncEnd(e, wide, l, p), w);
    assert w + tail == u + (v + tail);
    ReadDataEnc(e, ctl, wide, length, last, [], p.data, u, v + tail);
    assert [] + p.data == p.data;
    var x, y := NoisySplit([ZDLE, p.end], Enc(e, l, Check(wide, m)), v);
    assert v + tail == x + (y + tail);
    var z := ReadToEscape(ctl, p.end, x, y + tail);
    EndCode(p.end);
    ReadEndNoisy(ctl, p.end, z, y + tail);
    assert ReadByte(ctl, v + tail) == (p.end | GOTOR, y + tail);
    ReadCheckEnc(e, ctl, wide, l, p.end | GOTOR, p.data, m, Check(wide, m), y, tail);
    CheckPasses(wide, m);
  }

  // ------------------------------------------------------------------ headers

  /** stohdr: a 32-bit position, low byte first. */
  function PosHdr(pos: bv32): (r: seq<Byte>)
    ensures |r| == 4
  {
    [Octet(pos), Octet(pos >> 8), Octet(pos >> 16), Octet(pos >> 24)]
  }

  /** rclhdr. */
  function HdrPos(h: seq<Byte>): bv32
    requires |h| == 4
  {
    ((((((h[3] as bv32) << 8) | (h[2] as bv32)) << 8) | (h[1] as bv32)) << 8) | (h[0] as bv32)
  }

  lemma PosRoundTrip(pos: bv32)
    ensures HdrPos(PosHdr(pos)) == pos
  {
  }

  function EncBinHdr(e: Escapes, wide: bool, last: Byte, t: Byte, h: seq<Byte>): seq<Byte> {
    [ZPAD, ZDLE, if wide then ZBIN32 else ZBIN] + Enc(e, last, [t] + h + Check(wide, [t] + h))
  }

  function LastBinHdr(e: Escapes, wide: bool, last: Byte, t: Byte, h: seq<Byte>): Byte {
    Last(e, last, [t] + h + Check(wide, [t] + h))
  }

  function HexByte(n: Code): Byte {
    if n & 0xF < 10 then 0x30 + (n & 0xF) else 0x57 + (n & 0xF)
  }

  function EncHex(s: seq<Byte>): seq<Byte>
    decreases |s|
  {
    if s == [] then [] else [HexByte(s[0] >> 4), HexByte(s[0])] + EncHex(s[1..])
  }

  function EncHexHdr(t: Byte, h: seq<Byte>): seq<Byte> {
    var m := [t & 0x7F] + h;
    [ZPAD, ZPAD, ZDLE, ZHEX] + EncHex(m + Check(false, m)) + [0x0D, 0x8A] + (if t == ZFIN || t == ZACK then [] else [XON])
  }

  /** n bytes from a reader; `code` is 0, or what came instead of a byte. */
  datatype Bytes = Bytes(code: Code, got: seq<Byte>, rest: Line)

  function ReadSome(ctl: bool, n: nat, w: Line): (r: Bytes)
    ensures |r.rest| <= |w| && (if r.code == 0 then |r.got| == n else r.code >= 0x100)
    decreases n
  {
    if n == 0 then Bytes(0, [], w) else
    var (c, v) := ReadByte(ctl, w);
    if c >= 0x100 then Bytes(c, [], v) else
    var r := ReadSome(ctl, n - 1, v);
    r.(got := [c] + r.got)
  }

  function HexValue(c: Code): Code {
    var n := c - 0x30;
    if 9 < n && n < 0x8000 then n - 39 else n
  }

  /** zgethex: two digits of seven-bit text, or a negative code. */
  function ReadHex(ctl: bool, w: Line): (r: (Code, Line))
    ensures |r.1| <= |w| && (Negative(r.0) || r.0 < 0x100)
  {
    var (c, v) := ReadPlain(ctl, w);
    if Negative(c) then (c, v)
    else if HexValue(c) & 0xFFF0 != 0 then (TERROR, v)
    else
      var (d, u) := ReadPlain(ctl, v);
      if Negative(d) then (d, u)
      else if HexValue(d) & 0xFFF0 != 0 then (TERROR, u)
      else (HexValue(d) + (HexValue(c) << 4), u)
  }

  function ReadHexes(ctl: bool, n: nat, w: Line): (r: Bytes)
    ensures |r.rest| <= |w| && (if r.code == 0 then |r.got| == n else Negative(r.code))
    decreases n
  {
    if n == 0 then Bytes(0, [], w) else
    var (c, v) := ReadHex(ctl, w);
    if Negative(c) then Bytes(c, [], v) else
    var r := ReadHexes(ctl, n - 1, v);
    r.(got := [c] + r.got)
  }

  /** A header: its type or a code in its place, its frame indicator and its four bytes. */
  datatype Header = Header(code: Code, kind: Code, hdr: seq<Byte>, rest: Line)

  /** zrbhdr and zrbhd32. */
  function ReadBinHdr(ctl: bool, wide: bool, w: Line): (r: Header)
    ensures |r.rest| <= |w| && (r.code < 0x100 ==> |r.hdr| == 4)
    ensures r.kind == if wide then ZBIN32 else ZBIN
  {
    var kind := if wide then ZBIN32 else ZBIN;
    var b := ReadSome(ctl, 5 + CheckLength(wide), w);
    if b.code != 0 then Header(b.code, kind, [], b.rest)
    else if Passes(wide, b.got) then Header(b.got[0], kind, b.got[1..5], b.rest)
    else Header(TERROR, kind, [], b.rest)
  }

  /** zrhhdr: the digits, then one more byte, and the one after that if it was a return. */
  function ReadHexHdr(ctl: bool, w: Line): (r: Header)
    ensures |r.rest| <= |w| && (r.code < 0x100 ==> |r.hdr| == 4)
    ensures r.kind == ZHEX
  {
    var b := ReadHexes(ctl, 7, w);
    if b.code != 0 then Header(b.code, ZHEX, [], b.rest)
    else if !Passes(false, b.got) then Header(TERROR, ZHEX, [], b.rest)
    else
      var c := Get(b.rest);
      var v := Rest(b.rest);
      var (d, u) := if Return(c) then (Get(v), Rest(v)) else (c, v);
      if Negative(d) then Header(d, ZHEX, [], u) else Header(b.got[0], ZHEX, b.got[1..5], u)
  }

  // ------------------------------------------------------------------ the header hunt

  // The labels of zgethdr.  `n` is the garbage allowance, `cans` the CANs still to come.
  // Its timeout counter is set back at `startover`, so that a timeout only starts over.

  function Again(ctl: bool, n: nat, cans: int, w: Line): (r: Header)
    ensures |r.rest| <= |w| && (w != [] ==> |r.rest| < |w|)
    decreases |w|, 1
  {
    var c := Get(w);
    if c == XON || c == 0x91 then Again(ctl, n, cans, Rest(w))
    else if c == HANGUP then Header(HANGUP, 0, [], Rest(w))
    else if c == TIMEOUT then Again(ctl, n, 5, Rest(w))
    else if c == CAN then GotCan(ctl, n, cans, Rest(w))
    else if c == ZPAD || c == ZPAD | 0x80 then Splat(ctl, n, Rest(w))
    else Garbage(ctl, n, Rest(w))
  }

  /** The label agn2. */
  function Garbage(ctl: bool, n: nat, w: Line): (r: Header)
    ensures |r.rest| <= |w|
    decreases |w|, 2
  {
    if n <= 1 then Header(0xFFFC, 0, [], w) else Again(ctl, n - 1, 5, w)
  }

  /** The label gotcan. */
  function GotCan(ctl: bool, n: nat, cans: int, w: Line): (r: Header)
    ensures |r.rest| <= |w|
    decreases |w|, 2
  {
    if cans <= 1 then Header(ZCAN, 0, [], w) else
    var c := Get(w);
    var v := Rest(w);
    if c == TIMEOUT then Again(ctl, n, cans - 1, v)
    else if c == ZCRCW then
      var d := Get(v);
      if d == TIMEOUT then Header(TERROR, 0, [], Rest(v))
      else if d == HANGUP then Header(c, 0, [], Rest(v))
      else Garbage(ctl, n, Rest(v))
    else if c == HANGUP then Header(HANGUP, 0, [], v)
    else if c == CAN then (if cans <= 2 then Header(ZCAN, 0, [], v) else Again(ctl, n, cans - 2, v))
    else Garbage(ctl, n, v)
  }

  /** The label splat: a ZPAD has been seen. */
  function Splat(ctl: bool, n: nat, w: Line): (r: Header)
    ensures |r.rest| <= |w|
    decreases |w|, 2
  {
    var (c, v) := ReadPlain(ctl, w);
    if c == HANGUP || c == TIMEOUT then Header(c, 0, [], v)
    else if c == ZPAD then Splat(ctl, n, v)
    else if c == ZDLE then Indicator(ctl, n, v)
    else Garbage(ctl, n, v)
  }

  function Indicator(ctl: bool, n: nat, w: Line): (r: Header)
    ensures |r.rest| <= |w|
    decreases |w|, 2
  {
    var (c, v) := ReadPlain(ctl, w);
    if c == HANGUP || c == TIMEOUT then Header(c, c, [], v)
    else if c == ZBIN32 then ReadBinHdr(ctl, true, v)
    else if c == ZBIN then ReadBinHdr(ctl, false, v)
    else if c == ZHEX then ReadHexHdr(ctl, v)
    else if c == CAN then GotCan(ctl, n, 5, v)
    else Garbage(ctl, n, v)
  }

  /** zgethdr on a line of the given speed. */
  function GetHdr(ctl: bool, baud: nat, w: Line): (r: Header)
    ensures |r.rest| <= |w| && (w != [] ==> |r.rest| < |w|)
  {
    var r := Again(ctl, ZRWINDOW + baud, 5, w);
    if r.code == GOTCAN then r.(code := ZCAN) else r
  }

  lemma {:induction false} ReadSomeEnc(e: Escapes, ctl: bool, last: Byte, s: seq<Byte>, tail: Line)
    requires ctl ==> e.ctl
    ensures ReadSome(ctl, |s|, Enc(e, last, s) + tail) == Bytes(0, s, tail)
    decreases |s|
  {
    hide EncByte, ReadByte;
    if s == [] {
      assert Enc(e, last, s) + tail == tail;
    } else {
      var (b, l) := EncByte(e, last, s[0]);
      assert Enc(e, last, s) + tail == b + (Enc(e, l, s[1..]) + tail);
      EncByteClean(e, last, s[0]);
      NoisySelf(b);
      ReadEncByte(e, ctl, last, s[0], b, Enc(e, l, s[1..]) + tail);
      ReadSomeEnc(e, ctl, l, s[1..], tail);
      assert [s[0]] + s[1..] == s;
    }
  }

  /** Text that noxrd7 passes on unchanged. */
  predicate Text(c: Code) {
    (0x20 <= c < 0x80) || c == ZDLE
  }

  lemma ReadText(ctl: bool, c: Code, tail: Line)
    requires Text(c)
    ensures ReadPlain(ctl, [c] + tail) == (c, tail)
  {
    assert ([c] + tail)[1..] == tail;
  }

  lemma DigitValue(n: Byte)
    ensures Text(HexByte(n)) && HexValue(HexByte(n)) == n & 0xF
    ensures (n & 0xF) + (((n >> 4) & 0xF) << 4) == n && (n & 0xF) & 0xFFF0 == 0 && ((n >> 4) & 0xF) & 0xFFF0 == 0
  {
  }

  /** One byte in two digits. */
  lemma ReadHexOf(ctl: bool, c: Byte, v: Line)
    ensures ReadHex(ctl, [HexByte(c >> 4)] + ([HexByte(c)] + v)) == (c, v) && !Negative(c)
  {
    hide HexByte, HexValue, ReadPlain;
    var x, y := HexByte(c >> 4), HexByte(c);
    DigitValue(c);
    DigitValue(c >> 4);
    ReadText(ctl, x, [y] + v);
    ReadText(ctl, y, v);
    assert !Negative(x) && !Negative(y);
  }

  lemma {:induction false} ReadHexesEnc(ctl: bool, s: seq<Byte>, tail: Line)
    ensures ReadHexes(ctl, |s|, EncHex(s) + tail) == Bytes(0, s, tail)
    decreases |s|
  {
    hide HexByte, ReadHex, Negative;
    if s == [] {
      assert EncHex(s) + tail == tail;
    } else {
      var v := EncHex(s[1..]) + tail;
      assert EncHex(s) + tail == [HexByte(s[0] >> 4)] + ([HexByte(s[0])] + v);
      ReadHexOf(ctl, s[0], v);
      ReadHexesEnc(ctl, s[1..], tail);
      assert [s[0]] + s[1..] == s;
    }
  }

  lemma ReadBinHdrEnc(e: Escapes, ctl: bool, wide: bool, last: Byte, t: Byte, h: seq<Byte>, tail: Line)
    requires (ctl ==> e.ctl) && |h| == 4
    ensures ReadBinHdr(ctl, wide, Enc(e, last, [t] + h + Check(wide, [t] + h)) + tail)
         == Header(t, if wide then ZBIN32 else ZBIN, h, tail)
  {
    hide Enc, ReadSome, Passes, Check;
    var m := [t] + h;
    ReadSomeEnc(e, ctl, last, m + Check(wide, m), tail);
    CheckPasses(wide, m);
  }

  /** What precedes a header when it is read: at most the XON of the frame before it. */
  predicate Lead(w: Line) {
    w == [] || w == [XON]
  }

  lemma SkipLead(ctl: bool, n: nat, cans: int, lead: Line, w: Line)
    requires Lead(lead)
    ensures Again(ctl, n, cans, lead + w) == Again(ctl, n, cans, w)
  {
    if lead == [XON] {
      assert ([XON] + w)[1..] == w;
    } else {
      assert lead + w == w;
    }
  }

  /** A hunt finds a header where it starts. */
  lemma HuntBin(ctl: bool, wide: bool, n: nat, body: Line)
    ensures Again(ctl, n, 5, [ZPAD] + ([ZDLE] + ([if wide then ZBIN32 else ZBIN] + body))) == ReadBinHdr(ctl, wide, body)
  {
    hide ReadPlain, ReadBinHdr;
    var kind := if wide then ZBIN32 else ZBIN;
    assert ([ZPAD] + ([ZDLE] + ([kind] + body)))[1..] == [ZDLE] + ([kind] + body);
    ReadText(ctl, ZDLE, [kind] + body);
    ReadText(ctl, kind, body);
    assert Indicator(ctl, n, [kind] + body) == ReadBinHdr(ctl, wide, body);
    assert Splat(ctl, n, [ZDLE] + ([kind] + body)) == Indicator(ctl, n, [kind] + body);
  }

  lemma HuntHex(ctl: bool, n: nat, body: Line)
    ensures Again(ctl, n, 5, [ZPAD] + ([ZPAD] + ([ZDLE] + ([ZHEX] + body)))) == ReadHexHdr(ctl, body)
  {
    hide ReadPlain, ReadHexHdr;
    assert ([ZPAD] + ([ZPAD] + ([ZDLE] + ([ZHEX] + body))))[1..] == [ZPAD] + ([ZDLE] + ([ZHEX] + body));
    ReadText(ctl, ZPAD, [ZDLE] + ([ZHEX] + body));
    ReadText(ctl, ZDLE, [ZHEX] + body);
    ReadText(ctl, ZHEX, body);
    assert Indicator(ctl, n, [ZHEX] + body) == ReadHexHdr(ctl, body);
    assert Splat(ctl, n, [ZDLE] + ([ZHEX] + body)) == Indicator(ctl, n, [ZHEX] + body);
    assert Splat(ctl, n, [ZPAD] + ([ZDLE] + ([ZHEX] + body))) == Splat(ctl, n, [ZDLE] + ([ZHEX] + body));
  }

  /** A binary header of either width is read back, type and all four bytes. */
  lemma GetEncBinHdr(e: Escapes, ctl: bool, wide: bool, baud: nat, last: Byte, t: Byte, h: seq<Byte>, lead: Line, tail: Line)
    requires (ctl ==> e.ctl) && |h| == 4 && Lead(lead)
    ensures GetHdr(ctl, baud, lead + EncBinHdr(e, wide, last, t, h) + tail)
         == Header(t, if wide then ZBIN32 else ZBIN, h, tail)
  {
    hide Enc, ReadBinHdr, Check, Again;
    var body := Enc(e, last, [t] + h + Check(wide, [t] + h)) + tail;
    var w := [ZPAD] + ([ZDLE] + ([if wide then ZBIN32 else ZBIN] + body));
    assert lead + EncBinHdr(e, wide, last, t, h) + tail == lead + w;
    SkipLead(ctl, ZRWINDOW + baud, 5, lead, w);
    HuntBin(ctl, wide, ZRWINDOW + baud, body);
    ReadBinHdrEnc(e, ctl, wide, last, t, h, tail);
  }

  /** What a hex header leaves unread of itself. */
  function Uncork(t: Byte): Line {
    if t == ZFIN || t == ZACK then [] else [XON]
  }

  lemma ReadHexHdrEnc(ctl: bool, m: seq<Byte>, tail: Line)
    requires |m| == 5
    ensures ReadHexHdr(ctl, EncHex(m + Check(false, m)) + ([0x0D] + ([0x8A] + tail)))
         == Header(m[0], ZHEX, m[1..], tail)
  {
    hide EncHex, ReadHexes, Passes, Check;
    ReadHexesEnc(ctl, m + Check(false, m), [0x0D] + ([0x8A] + tail));
    CheckPasses(false, m);
    assert ([0x0D] + ([0x8A] + tail))[1..] == [0x8A] + tail;
    assert ([0x8A] + tail)[1..] == tail;
    assert (m + Check(false, m))[1..5] == m[1..];
  }

  /** A hex header is read back up to its XON, which the next reader skips. */
  lemma GetEncHexHdr(ctl: bool, baud: nat, t: Byte, h: seq<Byte>, lead: Line, tail: Line)
    requires t < 0x80 && |h| == 4 && Lead(lead)
    ensures GetHdr(ctl, baud, lead + EncHexHdr(t, h) + tail) == Header(t, ZHEX, h, Uncork(t) + tail)
  {
    hide EncHex, ReadHexHdr, Check, Again;
    var m := [t & 0x7F] + h;
    assert t & 0x7F == t;
    var body := EncHex(m + Check(false, m)) + ([0x0D] + ([0x8A] + (Uncork(t) + tail)));
    var w := [ZPAD] + ([ZPAD] + ([ZDLE] + ([ZHEX] + body)));
    assert lead + EncHexHdr(t, h) + tail == lead + w;
    SkipLead(ctl, ZRWINDOW + baud, 5, lead, w);
    HuntHex(ctl, ZRWINDOW + baud, body);
    ReadHexHdrEnc(ctl, m, Uncork(t) + tail);
    assert m[1..] == h;
  }

  // ------------------------------------------------------------------ whole streams

  /** A header with the subpackets that follow it. */
  datatype Frame = Frame(hex: bool, t: Byte, hdr: seq<Byte>, subs: seq<Sub>)

  /** The header types after which the receiver calls zrdata. */
  predicate Carries(t: Code) {
    t == ZSINIT || t == ZFILE || t == ZDATA || t == ZCOMMAND
  }

  /** The room given to zrdata: the attention string or the sector buffer. */
  function Capacity(t: Code): nat {
    if t == ZSINIT then 32 else MAXBLOCK
  }

  predicate Continues(end: Code) {
    end == ZCRCG || end == ZCRCQ
  }

  ghost predicate ValidSubs(length: nat, subs: seq<Sub>)
    decreases |subs|
  {
    && subs != []
    && |subs[0].data| <= length
    && FrameEnd(subs[0].end)
    && (if Continues(subs[0].end) then ValidSubs(length, subs[1..]) else |subs| == 1)
  }

  ghost predicate ValidFrame(f: Frame) {
    && f.t < 0x80
    && |f.hdr| == 4
    && (if Carries(f.t) then ValidSubs(Capacity(f.t), f.subs) else f.subs == [])
  }

  function EncSubs(e: Escapes, wide: bool, last: Byte, subs: seq<Sub>): seq<Byte>
    decreases |subs|
  {
    if subs == [] then [] else
    EncSub(e, wide, last, subs[0]) + EncSubs(e, wide, LastSub(e, wide, last, subs[0]), subs[1..])
  }

  function LastSubs(e: Escapes, wide: bool, last: Byte, subs: seq<Sub>): Byte
    decreases |subs|
  {
    if subs == [] then last else LastSubs(e, wide, LastSub(e, wide, last, subs[0]), subs[1..])
  }

  /** Crc32t: a hex header turns 32-bit checks off, a binary one follows Txfcs32. */
  function Wide(fcs32: bool, f: Frame): bool {
    fcs32 && !f.hex
  }

  function LastHdr(e: Escapes, fcs32: bool, last: Byte, f: Frame): Byte {
    if f.hex then last else LastBinHdr(e, fcs32, last, f.t, f.hdr)
  }

  function EncFrame(e: Escapes, fcs32: bool, last: Byte, f: Frame): seq<Byte> {
    (if f.hex then EncHexHdr(f.t, f.hdr) else EncBinHdr(e, fcs32, last, f.t, f.hdr))
    + EncSubs(e, Wide(fcs32, f), LastHdr(e, fcs32, last, f), f.subs)
  }

  function LastFrame(e: Escapes, fcs32: bool, last: Byte, f: Frame): Byte {
    LastSubs(e, Wide(fcs32, f), LastHdr(e, fcs32, last, f), f.subs)
  }

  function EncFrames(e: Escapes, fcs32: bool, last: Byte, fs: seq<Frame>): seq<Byte>
    decreases |fs|
  {
    if fs == [] then [] else
    EncFrame(e, fcs32, last, fs[0]) + EncFrames(e, fcs32, LastFrame(e, fcs32, last, fs[0]), fs[1..])
  }

  /** zrdata returned a frame end, not an error. */
  predicate Ended(c: Code) {
    c & 0xFF00 == GOTOR && FrameEnd(c & 0xFF)
  }

  datatype SubsResult = SubsResult(code: Code, subs: seq<Sub>, rest: Line)

  /** Subpackets up to one that ends the frame; the code is what the last zrdata returned. */
  function ReadSubs(ctl: bool, wide: bool, length: nat, w: Line): (r: SubsResult)
    ensures |r.rest| <= |w|
    decreases |w|
  {
    var p := ReadSub(ctl, wide, length, w);
    if !Ended(p.code) || w == [] then SubsResult(p.code, [], p.rest)
    else if !Continues(p.code & 0xFF) then SubsResult(p.code, [Sub(p.data, p.code & 0xFF)], p.rest)
    else
      var r := ReadSubs(ctl, wide, length, p.rest);
      r.(subs := [Sub(p.data, p.code & 0xFF)] + r.subs)
  }

  /** Every frame on the line up to the first that is not one, and the code that came then. */
  function ReadFrames(ctl: bool, baud: nat, w: Line): (seq<Frame>, Code)
    decreases |w|
  {
    var h := GetHdr(ctl, baud, w);
    if h.code >= 0x80 || |h.hdr| != 4 || w == [] then ([], h.code) else
    var s := if Carries(h.code) then ReadSubs(ctl, h.kind == ZBIN32, Capacity(h.code), h.rest)
             else SubsResult(GOTOR | ZCRCE, [], h.rest);
    if !Ended(s.code) then ([], s.code) else
    var (fs, c) := ReadFrames(ctl, baud, s.rest);
    ([Frame(h.kind == ZHEX, h.code, h.hdr, s.subs)] + fs, c)
  }

  /** A line that starts with the XON of what was read before is that line with noise. */
  lemma LeadIsNoise(lead: Line, s: Line)
    requires Lead(lead) && s != [] && forall c :: c in s ==> !Flow(c)
    ensures Noisy(s, lead + s)
  {
    NoisySelf(s);
    if lead == [XON] {
      assert (lead + s)[1..] == s;
    } else {
      assert lead + s == s;
    }
  }

  function SubXon(p: Sub): Line {
    if p.end == ZCRCW then [XON] else []
  }

  lemma ReadLeadSub(e: Escapes, ctl: bool, wide: bool, length: nat, last: Byte, p: Sub, lead: Line, rest: Line)
    requires (ctl ==> e.ctl) && FrameEnd(p.end) && |p.data| <= length && Lead(lead)
    ensures ReadSub(ctl, wide, length, lead + EncSub(e, wide, last, p) + rest) == SubResult(p.end | GOTOR, p.data, SubXon(p) + rest)
  {
    hide Enc, Last, ReadSub, EncEnd;
    var core := Enc(e, last, p.data) + EncEnd(e, wide, Last(e, last, p.data), p);
    assert lead + EncSub(e, wide, last, p) + rest == (lead + core) + (SubXon(p) + rest);
    EncSubClean(e, wide, last, p);
    LeadIsNoise(lead, core);
    ReadEncSub(e, ctl, wide, length, last, p, lead + core, SubXon(p) + rest);
  }

  /** The first subpacket is taken off the line, and the rest is read as it would be alone. */
  lemma ReadFirstSub(e: Escapes, ctl: bool, wide: bool, length: nat, last: Byte, p: Sub, lead: Line, rest: Line)
    requires (ctl ==> e.ctl) && FrameEnd(p.end) && |p.data| <= length && Lead(lead)
    ensures var w := lead + EncSub(e, wide, last, p) + rest;
      ReadSubs(ctl, wide, length, w) ==
        if Continues(p.end) then
          var r := ReadSubs(ctl, wide, length, SubXon(p) + rest);
          r.(subs := [p] + r.subs)
        else SubsResult(p.end | GOTOR, [p], SubXon(p) + rest)
    ensures Ended(p.end | GOTOR)
  {
    hide EncSub, ReadSub, Ended, FrameEnd, SubXon;
    ReadLeadSub(e, ctl, wide, length, last, p, lead, rest);
    EndIsEnd(p);
    ReadNothing(ctl, wide, length);
  }

  lemma {:induction false} ReadEncSubs(e: Escapes, ctl: bool, wide: bool, length: nat, last: Byte,
                                       subs: seq<Sub>, lead: Line, tail: Line) returns (xon: Line)
    requires (ctl ==> e.ctl) && ValidSubs(length, subs) && Lead(lead)
    ensures Lead(xon)
    ensures var r := ReadSubs(ctl, wide, length, lead + EncSubs(e, wide, last, subs) + tail);
      Ended(r.code) && r.subs == subs && r.rest == xon + tail
    decreases |subs|
  {
    hide EncSub, LastSub, ReadSubs, Ended, FrameEnd;
    var p := subs[0];
    var l := LastSub(e, wide, last, p);
    var more := EncSubs(e, wide, l, subs[1..]);
    assert lead + EncSubs(e, wide, last, subs) + tail == lead + EncSub(e, wide, last, p) + (more + tail);
    ReadFirstSub(e, ctl, wide, length, last, p, lead, more + tail);
    if Continues(p.end) {
      xon := ReadEncSubs(e, ctl, wide, length, l, subs[1..], [], tail);
      EndIsEnd(p);
      assert SubXon(p) + (more + tail) == [] + more + tail;
      assert [p] + subs[1..] == subs;
    } else {
      xon := SubXon(p);
      assert subs == [p] && more == [] && more + tail == tail;
    }
  }

  lemma EndIsEnd(p: Sub)
    requires FrameEnd(p.end)
    ensures Ended(p.end | GOTOR) && (p.end | GOTOR) & 0xFF == p.end
    ensures Continues(p.end) ==> SubXon(p) == []
  {
  }

  lemma ReadNothing(ctl: bool, wide: bool, length: nat)
    ensures !Ended(ReadSub(ctl, wide, length, []).code)
  {
  }

  lemma EncSubClean(e: Escapes, wide: bool, last: Byte, p: Sub)
    requires FrameEnd(p.end)
    ensures var s := Enc(e, last, p.data) + EncEnd(e, wide, Last(e, last, p.data), p);
      s != [] && forall c :: c in s ==> !Flow(c)
  {
    hide Enc, Last, Check;
    EncClean(e, last, p.data);
    EncClean(e, Last(e, last, p.data), Check(wide, p.data + [p.end]));
  }

  /** The header of a frame is read, and its subpackets are left. */
  lemma ReadEncHdr(e: Escapes, ctl: bool, fcs32: bool, baud: nat, last: Byte, f: Frame, lead: Line, tail: Line)
    requires (ctl ==> e.ctl) && f.t < 0x80 && |f.hdr| == 4 && Lead(lead)
    ensures var w := lead + EncFrame(e, fcs32, last, f) + tail;
      var subs := EncSubs(e, Wide(fcs32, f), LastHdr(e, fcs32, last, f), f.subs);
      var u := if f.hex then Uncork(f.t) else [];
      && w != [] && Lead(u)
      && GetHdr(ctl, baud, w) == Header(f.t, if f.hex then ZHEX else if fcs32 then ZBIN32 else ZBIN, f.hdr, u + (subs + tail))
  {
    hide GetHdr, EncSubs, EncHex, LastHdr, Enc, Check;
    var subs := EncSubs(e, Wide(fcs32, f), LastHdr(e, fcs32, last, f), f.subs);
    var w := lead + EncFrame(e, fcs32, last, f) + tail;
    if f.hex {
      assert w == lead + EncHexHdr(f.t, f.hdr) + (subs + tail);
      GetEncHexHdr(ctl, baud, f.t, f.hdr, lead, subs + tail);
    } else {
      assert w == lead + EncBinHdr(e, fcs32, last, f.t, f.hdr) + (subs + tail);
      GetEncBinHdr(e, ctl, fcs32, baud, last, f.t, f.hdr, lead, subs + tail);
      assert [] + (subs + tail) == subs + tail;
    }
  }

  lemma ReadEncFrame(e: Escapes, ctl: bool, fcs32: bool, baud: nat, last: Byte, f: Frame, lead: Line, tail: Line)
    returns (xon: Line)
    requires (ctl ==> e.ctl) && ValidFrame(f) && Lead(lead)
    ensures Lead(xon)
    ensures var w := lead + EncFrame(e, fcs32, last, f) + tail;
      var (fs, c) := ReadFrames(ctl, baud, xon + tail);
      ReadFrames(ctl, baud, w) == ([f] + fs, c)
  {
    hide GetHdr, EncSubs, ReadSubs, EncFrame, LastHdr, ValidSubs;
    var l := LastHdr(e, fcs32, last, f);
    var subs := EncSubs(e, Wide(fcs32, f), l, f.subs);
    var w := lead + EncFrame(e, fcs32, last, f) + tail;
    var u := if f.hex then Uncork(f.t) else [];
    ReadEncHdr(e, ctl, fcs32, baud, last, f, lead, tail);
    NoSubs(e, Wide(fcs32, f), l);
    if Carries(f.t) {
      xon := ReadEncSubs(e, ctl, Wide(fcs32, f), Capacity(f.t), l, f.subs, u, tail);
      assert u + subs + tail == u + (subs + tail);
    } else {
      xon := u;
      assert f.subs == [] && subs == [];
      assert u + (subs + tail) == xon + tail;
    }
  }

  lemma {:induction false} ReadEncFramesAfter(e: Escapes, ctl: bool, fcs32: bool, baud: nat, last: Byte, fs: seq<Frame>, lead: Line)
    requires (ctl ==> e.ctl) && Lead(lead) && forall f :: f in fs ==> ValidFrame(f)
    ensures ReadFrames(ctl, baud, lead + EncFrames(e, fcs32, last, fs)) == (fs, HANGUP)
    decreases |fs|
  {
    hide EncFrame, LastFrame, ReadFrames, ValidFrame, Lead;
    if fs == [] {
      NothingLeft(ctl, baud, lead);
      assert lead + EncFrames(e, fcs32, last, fs) == lead;
    } else {
      var l := LastFrame(e, fcs32, last, fs[0]);
      var more := EncFrames(e, fcs32, l, fs[1..]);
      var xon := ReadEncFrame(e, ctl, fcs32, baud, last, fs[0], lead, more);
      assert lead + EncFrames(e, fcs32, last, fs) == lead + EncFrame(e, fcs32, last, fs[0]) + more;
      ReadEncFramesAfter(e, ctl, fcs32, baud, l, fs[1..], xon);
      assert [fs[0]] + fs[1..] == fs;
    }
  }

  lemma NothingLeft(ctl: bool, baud: nat, lead: Line)
    requires Lead(lead)
    ensures ReadFrames(ctl, baud, lead) == ([], HANGUP)
  {
    SkipLead(ctl, ZRWINDOW + baud, 5, lead, []);
    assert lead + [] == lead;
  }

  /** Every sequence of headers and subpackets that zmmisc.c sends is read back as it was,
      in either CRC width and with any escaping the receiver can undo. */
  lemma StreamRoundTrip(e: Escapes, ctl: bool, fcs32: bool, baud: nat, last: Byte, fs: seq<Frame>)
    requires (ctl ==> e.ctl) && forall f :: f in fs ==> ValidFrame(f)
    ensures ReadFrames(ctl, baud, EncFrames(e, fcs32, last, fs)) == (fs, HANGUP)
  {
    ReadEncFramesAfter(e, ctl, fcs32, baud, last, fs, []);
    assert [] + EncFrames(e, fcs32, last, fs) == EncFrames(e, fcs32, last, fs);
  }

  // ------------------------------------------------------------------ damage

  /** Damage inside as many adjacent bytes as there are check bytes never passes the test
      that zrbhdr, zrbhd32, zrdata and zrdat32 apply to everything they fed. */
  lemma DamageDetected(wide: bool, pre: seq<Byte>, s: seq<Byte>, t: seq<Byte>, post: seq<Byte>)
    requires |s| == CheckLength(wide) && |t| == CheckLength(wide) && s != t
    requires Passes(wide, pre + s + post)
    ensures !Passes(wide, pre + t + post)
  {
    hide Crc16, Crc32;
    if Passes(wide, pre + t + post) {
      if wide { Detects32(pre, s, t, post); } else { Detects16(pre, s, t, post); }
    }
  }

  // ------------------------------------------------------------------ the whole wire

  /** The bytes that flow control and packet switches act on, apart from the XONs zmmisc.c adds. */
  predicate Harmless(c: Code) {
    c != 0x10 && c != XOFF && c != 0x91 && c != 0x93
  }

  predicate Safe(prev: Code, last: Byte, w: Line) {
    && ReturnSafe(prev, w)
    && (AtSign(Final(prev, w)) ==> AtSign(last))
    && forall c :: c in w ==> Harmless(c)
  }

  function Final(prev: Code, w: Line): Code {
    if w == [] then prev else w[|w| - 1]
  }

  lemma SafeEnc(e: Escapes, prev: Code, last: Byte, s: seq<Byte>)
    requires AtSign(prev) ==> AtSign(last)
    ensures Safe(prev, Last(e, last, s), Enc(e, last, s))
  {
    EncReturnSafe(e, prev, last, s);
    EncClean(e, last, s);
  }

  /** Bytes put in the buffer as they are: none is a return after an '@', none ends in one. */
  lemma {:induction false} SafeRaw(prev: Code, last: Byte, w: Line)
    requires forall c :: c in w ==> Harmless(c) && !AtSign(c)
    requires w != [] && !Return(w[0])
    ensures Safe(prev, last, w)
    decreases |w|
  {
    if |w| > 1 {
      if Return(w[1]) {
        SafeRawAfter(w[0], w[1..]);
      } else {
        SafeRaw(w[0], last, w[1..]);
      }
    } else {
      assert w[1..] == [];
    }
  }

  lemma {:induction false} SafeRawAfter(prev: Code, w: Line)
    requires !AtSign(prev) && forall c :: c in w ==> !AtSign(c)
    ensures ReturnSafe(prev, w)
    decreases |w|
  {
    if w != [] {
      SafeRawAfter(w[0], w[1..]);
    }
  }

  lemma SafeJoin(prev: Code, mid: Byte, last: Byte, u: Line, v: Line)
    requires Safe(prev, mid, u) && Safe(Final(prev, u), last, v)
    ensures Safe(prev, last, u + v)
  {
    ReturnSafeJoin(prev, u, v);
    if v == [] {
      assert u + v == u;
    }
  }

  lemma SafeSub(e: Escapes, wide: bool, prev: Code, last: Byte, p: Sub)
    requires FrameEnd(p.end) && (AtSign(prev) ==> AtSign(last))
    ensures Safe(prev, LastSub(e, wide, last, p), EncSub(e, wide, last, p))
  {
    hide Enc, Last, Check, ReturnSafe;
    var l := Last(e, last, p.data);
    var chk := Check(wide, p.data + [p.end]);
    var a, b, c := Enc(e, last, p.data), [ZDLE, p.end], Enc(e, l, chk);
    SafeEnc(e, prev, last, p.data);
    SafeRaw(Final(prev, a), l, b);
    SafeJoin(prev, l, l, a, b);
    SafeEnc(e, Final(prev, a + b), l, chk);
    SafeJoin(prev, l, Last(e, l, chk), a + b, c);
    assert a + b + c == a + (b + c);
    if p.end == ZCRCW {
      SafeRaw(Final(prev, a + b + c), Last(e, l, chk), [XON]);
      SafeJoin(prev, Last(e, l, chk), Last(e, l, chk), a + b + c, [XON]);
    } else {
      assert EncSub(e, wide, last, p) == a + b + c;
    }
  }

  lemma {:induction false} SafeSubs(e: Escapes, wide: bool, length: nat, prev: Code, last: Byte, subs: seq<Sub>)
    requires ValidSubs(length, subs) && (AtSign(prev) ==> AtSign(last))
    ensures Safe(prev, LastSubs(e, wide, last, subs), EncSubs(e, wide, last, subs))
    decreases |subs|
  {
    hide EncSub, LastSub, Safe;
    var l := LastSub(e, wide, last, subs[0]);
    var w := EncSub(e, wide, last, subs[0]);
    SafeSub(e, wide, prev, last, subs[0]);
    SafeFinal(prev, l, w);
    if Continues(subs[0].end) {
      SafeSubs(e, wide, length, Final(prev, w), l, subs[1..]);
      SafeJoin(prev, l, LastSubs(e, wide, l, subs[1..]), w, EncSubs(e, wide, l, subs[1..]));
    } else {
      assert subs[1..] == [];
      assert w + [] == w;
    }
  }

  lemma SafeFinal(prev: Code, last: Byte, w: Line)
    requires Safe(prev, last, w)
    ensures AtSign(Final(prev, w)) ==> AtSign(last)
  {
  }

  lemma {:induction false} HexHarmless(s: seq<Byte>)
    ensures forall c :: c in EncHex(s) ==> Harmless(c) && !AtSign(c)
    decreases |s|
  {
    if s != [] {
      HexHarmless(s[1..]);
    }
  }

  lemma SafeHexHdr(prev: Code, last: Byte, t: Byte, h: seq<Byte>)
    ensures Safe(prev, last, EncHexHdr(t, h))
  {
    hide Check, EncHex, ReturnSafe;
    var m := [t & 0x7F] + h;
    HexHarmless(m + Check(false, m));
    SafeRaw(prev, last, EncHexHdr(t, h));
  }

  lemma SafeHdr(e: Escapes, fcs32: bool, prev: Code, last: Byte, f: Frame)
    ensures var w := if f.hex then EncHexHdr(f.t, f.hdr) else EncBinHdr(e, fcs32, last, f.t, f.hdr);
      Safe(prev, LastHdr(e, fcs32, last, f), w)
  {
    hide Enc, Last, Check, EncHexHdr, ReturnSafe;
    if f.hex {
      SafeHexHdr(prev, last, f.t, f.hdr);
    } else {
      var a := [ZPAD, ZDLE, if fcs32 then ZBIN32 else ZBIN];
      var m := [f.t] + f.hdr + Check(fcs32, [f.t] + f.hdr);
      SafeRaw(prev, last, a);
      SafeEnc(e, Final(prev, a), last, m);
      SafeJoin(prev, last, Last(e, last, m), a, Enc(e, last, m));
    }
  }

  lemma SafeFrame(e: Escapes, fcs32: bool, prev: Code, last: Byte, f: Frame)
    requires ValidFrame(f)
    ensures Safe(prev, LastFrame(e, fcs32, last, f), EncFrame(e, fcs32, last, f))
  {
    hide Safe, EncSubs, EncHexHdr, EncBinHdr, LastHdr;
    var h := if f.hex then EncHexHdr(f.t, f.hdr) else EncBinHdr(e, fcs32, last, f.t, f.hdr);
    var l := LastHdr(e, fcs32, last, f);
    SafeHdr(e, fcs32, prev, last, f);
    SafeFinal(prev, l, h);
    if Carries(f.t) {
      SafeSubs(e, Wide(fcs32, f), Capacity(f.t), Final(prev, h), l, f.subs);
      SafeJoin(prev, l, LastFrame(e, fcs32, last, f), h, EncSubs(e, Wide(fcs32, f), l, f.subs));
    } else {
      NoSubs(e, Wide(fcs32, f), l);
      assert h + [] == h;
    }
  }

  lemma NoSubs(e: Escapes, wide: bool, last: Byte)
    ensures EncSubs(e, wide, last, []) == [] && LastSubs(e, wide, last, []) == last
  {
  }

  /** Over whole streams, and whatever `lastsent` is left from before: no raw DLE and no
      XOFF, and no carriage return directly after an '@'. */
  lemma {:induction false} StreamSafe(e: Escapes, fcs32: bool, prev: Code, last: Byte, fs: seq<Frame>)
    requires forall f :: f in fs ==> ValidFrame(f)
    ensures var w := EncFrames(e, fcs32, last, fs);
      ReturnSafe(prev, w) && forall c :: c in w ==> Harmless(c)
    decreases |fs|
  {
    hide EncFrame, LastFrame, ReturnSafe;
    if fs == [] {
      NothingSent(prev);
    } else {
      var w := EncFrame(e, fcs32, last, fs[0]);
      var l := LastFrame(e, fcs32, last, fs[0]);
      SafeFrame(e, fcs32, prev, last, fs[0]);
      StreamSafe(e, fcs32, Final(prev, w), l, fs[1..]);
      ReturnSafeJoin(prev, w, EncFrames(e, fcs32, l, fs[1..]));
    }
  }

  lemma NothingSent(prev: Code)
    ensures ReturnSafe(prev, [])
  {
  }
}

/** The sending half of zmmisc.c: a frame is built in a fixed buffer and then written out. */
module ZTransmit {
  import opened Crc
  import opened ZEscape
  import opened ZFrame

  const FRAME_BUFFER_SIZE: nat := 16384

  // ------------------------------------------------------------------ step lemmas

  lemma {:induction false} EncAppend(e: Escapes, last: Byte, s: seq<Byte>, t: seq<Byte>)
    ensures Enc(e, last, s + t) == Enc(e, last, s) + Enc(e, Last(e, last, s), t)
    ensures Last(e, last, s + t) == Last(e, Last(e, last, s), t)
    decreases |s|
  {
    hide EncByte;
    if s == [] {
      assert s + t == t;
    } else {
      assert (s + t)[1..] == s[1..] + t;
      EncAppend(e, EncByte(e, last, s[0]).1, s[1..], t);
    }
  }

  lemma EncSnoc(e: Escapes, last: Byte, s: seq<Byte>, n: nat)
    requires n < |s|
    ensures Enc(e, last, s[..n + 1]) == Enc(e, last, s[..n]) + EncByte(e, Last(e, last, s[..n]), s[n]).0
    ensures Last(e, last, s[..n + 1]) == EncByte(e, Last(e, last, s[..n]), s[n]).1
  {
    hide EncByte;
    assert s[..n + 1] == s[..n] + [s[n]];
    EncAppend(e, last, s[..n], [s[n]]);
    var l := Last(e, last, s[..n]);
    assert Enc(e, EncByte(e, l, s[n]).1, []) == [];
    assert EncByte(e, l, s[n]).0 + [] == EncByte(e, l, s[n]).0;
    assert Last(e, EncByte(e, l, s[n]).1, [s[n]][1..]) == EncByte(e, l, s[n]).1;
  }

  lemma {:induction false} EncLength(e: Escapes, last: Byte, s: seq<Byte>)
    ensures |s| <= |Enc(e, last, s)| <= 2 * |s|
    decreases |s|
  {
    if s != [] {
      EncLength(e, EncByte(e, last, s[0]).1, s[1..]);
    }
  }

  lemma Crc16Snoc(s: seq<Byte>, n: nat)
    requires n < |s|
    ensures Crc16(0, s[..n + 1]) == Upd16(s[n], Crc16(0, s[..n]))
  {
    hide Upd16;
    assert s[..n + 1] == s[..n] + [s[n]];
    Crc16Append(0, s[..n], [s[n]]);
    assert [s[n]][1..] == [];
  }

  lemma Crc32Snoc(s: seq<Byte>, n: nat)
    requires n < |s|
    ensures Crc32(INIT32, s[..n + 1]) == Upd32(s[n], Crc32(INIT32, s[..n]))
  {
    hide Upd32;
    assert s[..n + 1] == s[..n] + [s[n]];
    Crc32Append(INIT32, s[..n], [s[n]]);
    assert [s[n]][1..] == [];
  }

  // ------------------------------------------------------------------ the transmitter

  class Transmitter {
    const frameBuffer: array<Byte>
    var frameLength: nat
    var lastsent: Byte
    var crc32t: bool
    var txfcs32: bool
    var escapes: Escapes
    /** Everything PUT has written. */
    var line: seq<Byte>

    /** The bytes buffered so far. */
    ghost var frame: seq<Byte>

    ghost predicate Valid()
      reads this, frameBuffer
    {
      && frameBuffer.Length == FRAME_BUFFER_SIZE
      && frameLength == |frame| <= FRAME_BUFFER_SIZE
      && frameBuffer[..frameLength] == frame
    }

    constructor (escapes: Escapes, txfcs32: bool)
      ensures Valid() && fresh(frameBuffer)
      ensures line == [] && lastsent == 0 && this.escapes == escapes && this.txfcs32 == txfcs32
    {
      frameBuffer := new Byte[FRAME_BUFFER_SIZE];
      frameLength, lastsent, crc32t, line := 0, 0, false, [];
      frame := [];
      this.escapes, this.txfcs32 := escapes, txfcs32;
    }

    method BufferByte(c: Byte)
      requires Valid() && |frame| < FRAME_BUFFER_SIZE
      modifies this`frameLength, this`frame, frameBuffer
      ensures Valid() && frame == old(frame) + [c]
    {
      frameBuffer[frameLength] := c;
      frameLength := frameLength + 1;
      frame := frame + [c];
    }

    /** zsendline on its argument cut to a byte: the cases of its switch. */
    method SendLine(data: Byte)
      requires Valid() && |frame| + 2 <= FRAME_BUFFER_SIZE
      modifies this`frameLength, this`frame, this`lastsent, frameBuffer
      ensures Valid() && |frame| <= |old(frame)| + 2
      ensures frame == old(frame) + EncByte(escapes, old(lastsent), data).0
      ensures lastsent == EncByte(escapes, old(lastsent), data).1
    {
      var c := data;
      if c == 0xFF {
        lastsent := c;
        if escapes.ctl || 0x20 in escapes.mask {
          BufferByte(ZDLE);
          c := ZRUB1;
        }
        BufferByte(c);
      } else if c == ZDLE {
        BufferByte(ZDLE);
        c := c ^ 0x40;
        lastsent := c;
        BufferByte(c);
      } else {
        var escape;
        if c == 0x0D || c == 0x8D {
          escape := escapes.ctl || lastsent & 0x7F == 0x40;
        } else if c == 0x10 || c == 0x11 || c == 0x13 || c == 0x91 || c == 0x93 {
          escape := true;
        } else {
          escape := c & 0x60 == 0 && (escapes.ctl || c & 0x1F in escapes.mask);
        }
        if escape {
          BufferByte(ZDLE);
          c := c ^ 0x40;
        }
        lastsent := c;
        BufferByte(c);
      }
    }

    method Flush()
      requires Valid()
      modifies this`frameLength, this`frame, this`line
      ensures Valid() && line == old(line) + old(frame) && frame == []
    {
      line := line + frameBuffer[..frameLength];
      frameLength := 0;
      frame := [];
    }

    /** The two check bytes of a 16-bit register. */
    method SendCheck16(crc: bv16)
      requires Valid() && |frame| + 4 <= FRAME_BUFFER_SIZE
      modifies this`frameLength, this`frame, this`lastsent, frameBuffer
      ensures Valid() && |frame| <= |old(frame)| + 4
      ensures frame == old(frame) + Enc(escapes, old(lastsent), Flush16(crc))
      ensures lastsent == Last(escapes, old(lastsent), Flush16(crc))
    {
      hide *;
      var chk := Flush16(crc);
      EncTwo(escapes, lastsent, chk);
      SendLine(chk[0]);
      SendLine(chk[1]);
    }

    /** The four check bytes of a 32-bit register. */
    method SendCheck32(crc: bv32)
      requires Valid() && |frame| + 8 <= FRAME_BUFFER_SIZE
      modifies this`frameLength, this`frame, this`lastsent, frameBuffer
      ensures Valid() && |frame| <= |old(frame)| + 8
      ensures frame == old(frame) + Enc(escapes, old(lastsent), Flush32(crc))
      ensures lastsent == Last(escapes, old(lastsent), Flush32(crc))
    {
      hide EncByte, Flush32;
      var chk := Flush32(crc);
      for n := 0 to 4
        invariant Valid() && |frame| <= |old(frame)| + 2 * n
        invariant frame == old(frame) + Enc(escapes, old(lastsent), chk[..n])
        invariant lastsent == Last(escapes, old(lastsent), chk[..n])
      {
        EncSnoc(escapes, old(lastsent), chk, n);
        SendLine(chk[n]);
      }
      assert chk[..4] == chk;
    }

    method SendBody16(data: seq<Byte>) returns (crc: bv16)
      requires Valid() && |frame| + 2 * |data| <= FRAME_BUFFER_SIZE
      modifies this`frameLength, this`frame, this`lastsent, frameBuffer
      ensures Valid() && |frame| <= |old(frame)| + 2 * |data|
      ensures frame == old(frame) + Enc(escapes, old(lastsent), data)
      ensures lastsent == Last(escapes, old(lastsent), data) && crc == Crc16(0, data)
    {
      hide EncByte, Upd16;
      crc := 0;
      var i := 0;
      while i < |data|
        invariant 0 <= i <= |data| && Valid() && |frame| <= |old(frame)| + 2 * i
        invariant frame == old(frame) + Enc(escapes, old(lastsent), data[..i])
        invariant lastsent == Last(escapes, old(lastsent), data[..i]) && crc == Crc16(0, data[..i])
      {
        EncSnoc(escapes, old(lastsent), data, i);
        Crc16Snoc(data, i);
        SendLine(data[i]);
        crc := Upd16(data[i], crc);
        i := i + 1;
      }
      assert data[..|data|] == data;
    }

    method SendBody32(data: seq<Byte>) returns (crc: bv32)
      requires Valid() && |frame| + 2 * |data| <= FRAME_BUFFER_SIZE
      modifies this`frameLength, this`frame, this`lastsent, frameBuffer
      ensures Valid() && |frame| <= |old(frame)| + 2 * |data|
      ensures frame == old(frame) + Enc(escapes, old(lastsent), data)
      ensures lastsent == Last(escapes, old(lastsent), data) && crc == Crc32(INIT32, data)
    {
      hide EncByte, Upd32;
      crc := INIT32;
      var i := 0;
      while i < |data|
        invariant 0 <= i <= |data| && Valid() && |frame| <= |old(frame)| + 2 * i
        invariant frame == old(frame) + Enc(escapes, old(lastsent), data[..i])
        invariant lastsent == Last(escapes, old(lastsent), data[..i]) && crc == Crc32(INIT32, data[..i])
      {
        EncSnoc(escapes, old(lastsent), data, i);
        Crc32Snoc(data, i);
        SendLine(data[i]);
        crc := Upd32(data[i], crc);
        i := i + 1;
      }
      assert data[..|data|] == data;
    }

    /** zsdata with a 16-bit check. */
    method SendSub16(p: Sub)
      requires Valid() && |frame| + 2 * |p.data| + 6 <= FRAME_BUFFER_SIZE
      modifies this`frameLength, this`frame, this`lastsent, frameBuffer
      ensures Valid() && |frame| <= |old(frame)| + 2 * |p.data| + 6
      ensures frame == old(frame) + (Enc(escapes, old(lastsent), p.data) + EncEnd(escapes, false, Last(escapes, old(lastsent), p.data), p))
      ensures lastsent == LastSub(escapes, false, old(lastsent), p)
    {
      hide Enc, Last, Upd16, Flush16, Crc16;
      Check16Of(p.data, p.end);
      var crc := SendBody16(p.data);
      BufferByte(ZDLE);
      BufferByte(p.end);
      crc := Upd16(p.end, crc);
      SendCheck16(crc);
    }

    /** zsda32. */
    method SendSub32(p: Sub)
      requires Valid() && |frame| + 2 * |p.data| + 10 <= FRAME_BUFFER_SIZE
      modifies this`frameLength, this`frame, this`lastsent, frameBuffer
      ensures Valid() && |frame| <= |old(frame)| + 2 * |p.data| + 10
      ensures frame == old(frame) + (Enc(escapes, old(lastsent), p.data) + EncEnd(escapes, true, Last(escapes, old(lastsent), p.data), p))
      ensures lastsent == LastSub(escapes, true, old(lastsent), p)
    {
      hide Enc, Last, Upd32, Flush32, Crc32;
      Check32Of(p.data, p.end);
      var crc := SendBody32(p.data);
      BufferByte(ZDLE);
      BufferByte(p.end);
      crc := Upd32(p.end, crc);
      SendCheck32(crc);
    }

    /** zsdata.  The frame buffer is never checked for room, so that the caller must know
        that even an all-escaped subpacket fits. */
    method SendData(p: Sub)
      requires Valid() && 2 * |p.data| + 11 <= FRAME_BUFFER_SIZE
      modifies this`frameLength, this`frame, this`lastsent, this`line, frameBuffer
      ensures Valid()
      ensures line == old(line) + EncSub(escapes, crc32t, old(lastsent), p)
      ensures lastsent == LastSub(escapes, crc32t, old(lastsent), p)
    {
      hide Enc, Last, EncEnd, LastSub;
      Clear();
      if crc32t {
        SendSub32(p);
      } else {
        SendSub16(p);
      }
      if p.end == ZCRCW {
        BufferByte(XON);
      }
      assert frame == EncSub(escapes, crc32t, old(lastsent), p);
      Flush();
    }

    method Clear()
      requires Valid()
      modifies this`frameLength, this`frame
      ensures Valid() && frame == []
    {
      frameLength, frame := 0, [];
    }

    /** A message and its check in the current width. */
    method SendChecked(m: seq<Byte>)
      requires Valid() && |frame| + 2 * |m| + 8 <= FRAME_BUFFER_SIZE
      modifies this`frameLength, this`frame, this`lastsent, frameBuffer
      ensures Valid()
      ensures frame == old(frame) + (Enc(escapes, old(lastsent), m) + Enc(escapes, Last(escapes, old(lastsent), m), Check(crc32t, m)))
      ensures lastsent == Last(escapes, Last(escapes, old(lastsent), m), Check(crc32t, m))
    {
      hide Enc, Last, Crc16, Crc32, Flush16, Flush32;
      if crc32t {
        var crc := SendBody32(m);
        SendCheck32(crc);
      } else {
        var crc := SendBody16(m);
        SendCheck16(crc);
      }
    }

    /** zsbhdr and zsbh32, without the leading nulls that Znulls never asks for. */
    method SendBinHeader(t: Byte, h: seq<Byte>)
      requires Valid() && |h| == 4
      modifies this`frameLength, this`frame, this`lastsent, this`line, this`crc32t, frameBuffer
      ensures Valid() && crc32t == txfcs32
      ensures line == old(line) + EncBinHdr(escapes, txfcs32, old(lastsent), t, h)
      ensures lastsent == LastBinHdr(escapes, txfcs32, old(lastsent), t, h)
    {
      hide Enc, Last, Crc16, Crc32, Flush16, Flush32;
      crc32t := txfcs32;
      Clear();
      BufferByte(ZPAD);
      BufferByte(ZDLE);
      BufferByte(if crc32t then ZBIN32 else ZBIN);
      EncAppend(escapes, lastsent, [t] + h, Check(crc32t, [t] + h));
      SendChecked([t] + h);
      assert frame == EncBinHdr(escapes, txfcs32, old(lastsent), t, h);
      Flush();
    }

    /** zputhex. */
    method PutHex(c: Byte)
      requires Valid() && |frame| + 2 <= FRAME_BUFFER_SIZE
      modifies this`frameLength, this`frame, frameBuffer
      ensures Valid() && |frame| == |old(frame)| + 2
      ensures frame == old(frame) + [HexByte(c >> 4), HexByte(c)]
    {
      BufferByte(HexByte((c & 0xF0) >> 4));
      BufferByte(HexByte(c & 0xF));
    }

    /** The loop of zshhdr over a message, with its CRC. */
    method PutHexes(m: seq<Byte>) returns (crc: bv16)
      requires Valid() && |frame| + 2 * |m| <= FRAME_BUFFER_SIZE
      modifies this`frameLength, this`frame, frameBuffer
      ensures Valid() && |frame| == |old(frame)| + 2 * |m|
      ensures frame == old(frame) + EncHex(m) && crc == Crc16(0, m)
    {
      hide Upd16, HexByte;
      crc := 0;
      var i := 0;
      while i < |m|
        invariant 0 <= i <= |m| && Valid() && |frame| == |old(frame)| + 2 * i
        invariant frame == old(frame) + EncHex(m[..i]) && crc == Crc16(0, m[..i])
      {
        Crc16Snoc(m, i);
        EncHexSnoc(m, i);
        PutHex(m[i]);
        crc := Upd16(m[i], crc);
        i := i + 1;
      }
      assert m[..|m|] == m;
    }

    /** The type, the header bytes and the check bytes, all in hex. */
    method PutChecked(m: seq<Byte>)
      requires Valid() && |m| == 5 && |frame| <= 100
      modifies this`frameLength, this`frame, frameBuffer
      ensures Valid() && |frame| == |old(frame)| + 14
      ensures frame == old(frame) + EncHex(m + Check(false, m))
    {
      hide EncHex, Crc16, Flush16, HexByte;
      var crc := PutHexes(m);
      var chk := Flush16(crc);
      EncHexPair(m, chk);
      PutHex(chk[0]);
      PutHex(chk[1]);
    }

    /** zshhdr: always a 16-bit check, and XON at the end unless the type is ZFIN or ZACK. */
    method SendHexHeader(t: Byte, h: seq<Byte>)
      requires Valid() && |h| == 4
      modifies this`frameLength, this`frame, this`line, this`crc32t, frameBuffer
      ensures Valid() && !crc32t
      ensures line == old(line) + EncHexHdr(t, h)
    {
      hide EncHex, Check;
      Clear();
      crc32t := false;
      BufferByte(ZPAD);
      BufferByte(ZPAD);
      BufferByte(ZDLE);
      BufferByte(ZHEX);
      assert frame == [ZPAD, ZPAD, ZDLE, ZHEX];
      ghost var m := [t & 0x7F] + h;
      ghost var body := [ZPAD, ZPAD, ZDLE, ZHEX] + EncHex(m + Check(false, m));
      PutChecked([t & 0x7F] + h);
      assert frame == body;
      BufferByte(0x0D);
      BufferByte(0x8A);
      assert frame == body + [0x0D, 0x8A];
      if t != ZFIN && t != ZACK {
        BufferByte(XON);
      }
      assert frame == EncHexHdr(t, h);
      Flush();
    }
  }

  lemma Check16Of(s: seq<Byte>, c: Byte)
    ensures Check(false, s + [c]) == Flush16(Upd16(c, Crc16(0, s)))
  {
    hide Upd16, Flush16;
    Crc16Last(s, c);
  }

  lemma Check32Of(s: seq<Byte>, c: Byte)
    ensures Check(true, s + [c]) == Flush32(Upd32(c, Crc32(INIT32, s)))
  {
    hide Upd32, Flush32;
    Crc32Last(s, c);
  }

  lemma EncTwo(e: Escapes, last: Byte, s: seq<Byte>)
    requires |s| == 2
    ensures var (x, l) := EncByte(e, last, s[0]);
      && Enc(e, last, s) == x + EncByte(e, l, s[1]).0
      && Last(e, last, s) == EncByte(e, l, s[1]).1
  {
    hide EncByte;
    EncSnoc(e, last, s, 0);
    EncSnoc(e, last, s, 1);
    assert s[..0] == [] && s[..2] == s;
  }

  lemma Crc16Last(s: seq<Byte>, c: Byte)
    ensures Crc16(0, s + [c]) == Upd16(c, Crc16(0, s))
  {
    hide Upd16;
    assert (s + [c])[..|s| + 1] == s + [c] && (s + [c])[..|s|] == s;
    Crc16Snoc(s + [c], |s|);
  }

  lemma Crc32Last(s: seq<Byte>, c: Byte)
    ensures Crc32(INIT32, s + [c]) == Upd32(c, Crc32(INIT32, s))
  {
    hide Upd32;
    assert (s + [c])[..|s| + 1] == s + [c] && (s + [c])[..|s|] == s;
    Crc32Snoc(s + [c], |s|);
  }

  lemma {:induction false} EncHexAppend(s: seq<Byte>, t: seq<Byte>)
    ensures EncHex(s + t) == EncHex(s) + EncHex(t)
    decreases |s|
  {
    hide HexByte;
    if s == [] {
      assert s + t == t;
    } else {
      assert (s + t)[1..] == s[1..] + t;
      EncHexAppend(s[1..], t);
    }
  }

  lemma EncHexSnoc(s: seq<Byte>, n: nat)
    requires n < |s|
    ensures EncHex(s[..n + 1]) == EncHex(s[..n]) + [HexByte(s[n] >> 4), HexByte(s[n])]
  {
    hide HexByte;
    assert s[..n + 1] == s[..n] + [s[n]];
    EncHexAppend(s[..n], [s[n]]);
    assert [s[n]][1..] == [];
  }

  lemma EncHexPair(m: seq<Byte>, chk: seq<Byte>)
    requires |chk| == 2
    ensures EncHex(m + chk) == EncHex(m) + [HexByte(chk[0] >> 4), HexByte(chk[0])] + [HexByte(chk[1] >> 4), HexByte(chk[1])]
  {
    hide HexByte;
    EncHexAppend(m, chk);
    assert chk[..0] == [] && chk[..2] == chk;
    EncHexSnoc(chk, 0);
    EncHexSnoc(chk, 1);
  }

  /** Every subpacket of up to 8186 bytes fits in the frame buffer, however it is escaped. */
  lemma SubFits(e: Escapes, wide: bool, last: Byte, p: Sub)
    requires 2 * |p.data| + 11 <= FRAME_BUFFER_SIZE
    ensures |EncSub(e, wide, last, p)| <= FRAME_BUFFER_SIZE
  {
    hide Enc, Last, Check;
    EncLength(e, last, p.data);
    EncLength(e, Last(e, last, p.data), Check(wide, p.data + [p.end]));
  }
}

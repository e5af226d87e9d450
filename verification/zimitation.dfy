/** What the token view of a channel leaves out: file data that look like a header to a receiver that has lost its place. */
module ZImitation {
  import opened Crc
  import opened ZEscape
  import opened ZFrame

  // ------------------------------------------------------------------ a mark in the data

  /** Data that a sender turns into ZDLE, or a byte that differs from it in parity, and a frame indicator. */
  function Mark(e: Escapes, kind: Byte): seq<Byte> {
    if e.ctl || kind ^ 0x40 in e.mask then [kind ^ 0x40] else [0x98, kind]
  }

  predicate Indicates(kind: Byte) {
    kind == ZBIN || kind == ZHEX || kind == ZBIN32
  }

  /** Either the code for the indicator is escaped, so that ZDLE comes to stand in front of it, or 0x98 is not. */
  predicate Markable(e: Escapes, kind: Byte) {
    e.ctl || kind ^ 0x40 in e.mask || 0x18 !in e.mask
  }

  predicate Printable(c: Byte) {
    0x20 <= c < 0x7F
  }

  lemma {:induction false} EncPrintable(e: Escapes, last: Byte, s: seq<Byte>)
    requires forall c :: c in s ==> Printable(c)
    ensures Enc(e, last, s) == s
    decreases |s|
  {
    if s != [] {
      assert s[0] in s && EncByte(e, last, s[0]) == ([s[0]], s[0]);
      EncPrintable(e, s[0], s[1..]);
      assert [s[0]] + s[1..] == s;
    }
  }

  lemma DigitPrintable(n: Byte)
    ensures Printable(HexByte(n))
  {
  }

  lemma {:induction false} HexPrintable(s: seq<Byte>)
    ensures forall c :: c in EncHex(s) ==> Printable(c)
    decreases |s|
  {
    hide HexByte;
    if s != [] {
      DigitPrintable(s[0] >> 4);
      DigitPrintable(s[0]);
      HexPrintable(s[1..]);
    }
  }

  lemma EncMark(e: Escapes, last: Byte, kind: Byte)
    requires Indicates(kind) && Markable(e, kind)
    ensures EncByte(e, last, ZPAD) == ([ZPAD], ZPAD)
    ensures if e.ctl || kind ^ 0x40 in e.mask then EncByte(e, ZPAD, kind ^ 0x40) == ([ZDLE, kind], kind)
            else EncByte(e, ZPAD, 0x98) == ([0x98], 0x98) && EncByte(e, 0x98, kind) == ([kind], kind)
  {
  }

  /** What the receiver gets of such data. */
  lemma Encoded(e: Escapes, last: Byte, kind: Byte, s: seq<Byte>) returns (d: Byte)
    requires Indicates(kind) && Markable(e, kind)
    ensures d & 0x7F == ZDLE
    ensures Enc(e, last, [ZPAD] + (Mark(e, kind) + s)) == [ZPAD] + ([d] + ([kind] + Enc(e, kind, s)))
  {
    hide EncByte;
    EncMark(e, last, kind);
    var w := Mark(e, kind) + s;
    assert ([ZPAD] + w)[1..] == w;
    if e.ctl || kind ^ 0x40 in e.mask {
      d := ZDLE;
      assert w[1..] == s;
      assert Enc(e, ZPAD, w) == [ZDLE, kind] + Enc(e, kind, s);
    } else {
      d := 0x98;
      assert w[1..] == [kind] + s && ([kind] + s)[1..] == s;
      assert Enc(e, 0x98, [kind] + s) == [kind] + Enc(e, kind, s);
    }
  }

  lemma ReadMark(ctl: bool, d: Byte, kind: Byte, body: Line)
    requires d & 0x7F == ZDLE && Indicates(kind)
    ensures ReadPlain(ctl, [d] + ([kind] + body)) == (ZDLE, [kind] + body) && ReadPlain(ctl, [kind] + body) == (kind, body)
  {
    assert ([d] + ([kind] + body))[1..] == [kind] + body;
    assert ([kind] + body)[1..] == body;
  }

  /** The hunt takes it for the start of a header. */
  lemma HuntMark(ctl: bool, n: nat, d: Byte, kind: Byte, body: Line)
    requires d & 0x7F == ZDLE && Indicates(kind)
    ensures Again(ctl, n, 5, [ZPAD] + ([d] + ([kind] + body))) == if kind == ZHEX then ReadHexHdr(ctl, body) else ReadBinHdr(ctl, kind == ZBIN32, body)
  {
    hide ReadPlain, ReadBinHdr, ReadHexHdr;
    ReadMark(ctl, d, kind, body);
    assert ([ZPAD] + ([d] + ([kind] + body)))[1..] == [d] + ([kind] + body);
    assert Splat(ctl, n, [d] + ([kind] + body)) == Indicator(ctl, n, [kind] + body);
  }

  // ------------------------------------------------------------------ headers made of data

  function Hex(t: Byte, h: seq<Byte>): seq<Byte> {
    var m := [t & 0x7F] + h;
    EncHex(m + Check(false, m))
  }

  /** File data that imitate a hex header of any type below 128 and any position; x is whatever follows them. */
  lemma {:induction false} DataImitateHeader(e: Escapes, ctl: bool, baud: nat, last: Byte, t: Byte, h: seq<Byte>, x: Byte, tail: Line)
    requires Markable(e, ZHEX) && t < 0x80 && |h| == 4 && !Return(x)
    ensures GetHdr(ctl, baud, Enc(e, last, [ZPAD] + (Mark(e, ZHEX) + Hex(t, h))) + ([x] + tail)) == Header(t, ZHEX, h, tail)
  {
    hide EncHex, Enc, Check, Mark, ReadHexHdr, Again;
    var d := Encoded(e, last, ZHEX, Hex(t, h));
    var m := [t & 0x7F] + h;
    HexPrintable(m + Check(false, m));
    EncPrintable(e, ZHEX, Hex(t, h));
    assert t & 0x7F == t && m[1..] == h;
    var body := Hex(t, h) + ([x] + tail);
    assert [ZPAD] + ([d] + ([ZHEX] + Hex(t, h))) + ([x] + tail) == [ZPAD] + ([d] + ([ZHEX] + body));
    HuntMark(ctl, ZRWINDOW + baud, d, ZHEX, body);
    HexHdrBefore(ctl, m, x, tail);
  }

  lemma HexHdrBefore(ctl: bool, m: seq<Byte>, x: Byte, tail: Line)
    requires |m| == 5 && !Return(x)
    ensures ReadHexHdr(ctl, EncHex(m + Check(false, m)) + ([x] + tail)) == Header(m[0], ZHEX, m[1..], tail)
  {
    hide EncHex, ReadHexes, Passes, Check;
    ReadHexesEnc(ctl, m + Check(false, m), [x] + tail);
    CheckPasses(false, m);
    assert ([x] + tail)[1..] == tail;
    assert (m + Check(false, m))[1..5] == m[1..];
  }

  function Body(wide: bool, t: Byte, h: seq<Byte>): seq<Byte> {
    [t] + h + Check(wide, [t] + h)
  }

  function Kind(wide: bool): Byte {
    if wide then ZBIN32 else ZBIN
  }

  /** The same for binary headers of either width: of every type and position if the receiver drops nothing that the sender
      leaves unescaped, and otherwise at least of those that are printable throughout. */
  lemma {:induction false} DataImitateBinary(e: Escapes, ctl: bool, wide: bool, baud: nat, last: Byte, t: Byte, h: seq<Byte>, tail: Line)
    requires Markable(e, Kind(wide)) && |h| == 4
    requires (ctl ==> e.ctl) || forall c :: c in Body(wide, t, h) ==> Printable(c)
    ensures GetHdr(ctl, baud, Enc(e, last, [ZPAD] + (Mark(e, Kind(wide)) + Body(wide, t, h))) + tail) == Header(t, Kind(wide), h, tail)
  {
    hide Enc, Check, Mark, ReadBinHdr, Again;
    var kind, m := Kind(wide), Body(wide, t, h);
    var d := Encoded(e, last, kind, m);
    var body := Enc(e, kind, m) + tail;
    assert [ZPAD] + ([d] + ([kind] + Enc(e, kind, m))) + tail == [ZPAD] + ([d] + ([kind] + body));
    HuntMark(ctl, ZRWINDOW + baud, d, kind, body);
    if ctl ==> e.ctl {
      ReadBinHdrEnc(e, ctl, wide, kind, t, h, tail);
    } else {
      var f := Escapes(true, e.mask);
      EncPrintable(e, kind, m);
      EncPrintable(f, kind, m);
      ReadBinHdrEnc(f, ctl, wide, kind, t, h, tail);
    }
  }

  // ------------------------------------------------------------------ data that cannot

  /** Nothing that noxrd7 passes for ZDLE is followed by what it passes over or by an indicator. */
  predicate Unmarked(w: Line) {
    forall i :: 0 <= i < |w| - 1 && w[i] & 0x7F == ZDLE ==> Harmless7(w[i + 1])
  }

  predicate Harmless7(c: Code) {
    c & 0x60 != 0 && !Indicates7(c & 0x7F)
  }

  predicate Indicates7(c: Code) {
    c == ZBIN || c == ZHEX || c == ZBIN32
  }

  /** The rest of a line after some of it has been read. */
  predicate Behind(w: Line, v: Line) {
    |v| <= |w| && v == w[|w| - |v|..]
  }

  lemma BehindUnmarked(w: Line, v: Line)
    requires Unmarked(w) && Behind(w, v)
    ensures Unmarked(v)
  {
  }

  lemma BehindRest(w: Line)
    ensures Behind(w, Rest(w)) && Behind(w, w)
  {
  }

  lemma BehindBoth(w: Line, v: Line, u: Line)
    requires Behind(w, v) && Behind(v, u)
    ensures Behind(w, u)
  {
  }

  /** v is what is left of w behind a byte that noxrd7 gives as c. */
  predicate LeftBy(w: Line, v: Line, c: Code) {
    Behind(w, v) && |v| < |w| && w[|w| - |v| - 1] & 0x7F == c
  }

  lemma LeftLater(w: Line, v: Line, c: Code)
    requires w != [] && LeftBy(w[1..], v, c)
    ensures LeftBy(w, v, c)
  {
  }

  lemma LeftNow(w: Line)
    requires w != []
    ensures LeftBy(w, w[1..], w[0] & 0x7F)
  {
  }

  /** noxrd7 stops right behind the byte it returns. */
  lemma {:induction false} PlainLeft(ctl: bool, w: Line)
    ensures var (c, v) := ReadPlain(ctl, w);
      if Negative(c) then Behind(w, v) else LeftBy(w, v, c)
    decreases |w|
  {
    hide Behind, LeftBy;
    BehindRest(w);
    var c := Get(w);
    if !Negative(c) {
      var d := c & 0x7F;
      LeftNow(w);
      NotNegative(c);
      if d == XON || d == XOFF || (ctl && Control(d) && d != 0x0D && d != 0x0A && d != ZDLE) {
        PlainLeft(ctl, Rest(w));
        var (e, v) := ReadPlain(ctl, Rest(w));
        if Negative(e) {
          BehindBoth(w, Rest(w), v);
        } else {
          LeftLater(w, v, e);
        }
      }
    }
  }

  lemma NotNegative(c: Code)
    ensures !Negative(c & 0x7F)
  {
  }

  /** After ZDLE comes neither an indicator nor anything that noxrd7 would pass over. */
  lemma NoIndicator(ctl: bool, w: Line)
    requires w == [] || Harmless7(w[0])
    ensures var (c, v) := ReadPlain(ctl, w);
      !Indicates7(c) && c != CAN && (c == HANGUP || v == Rest(w))
  {
  }

  /** A hunt through such a line finds no header. */
  lemma {:induction false} AgainFindsNone(ctl: bool, n: nat, cans: int, w: Line)
    requires Unmarked(w)
    ensures Again(ctl, n, cans, w).hdr == []
    decreases |w|, 1
  {
    hide Unmarked, GotCan, Splat, Garbage;
    var c := Get(w);
    UnmarkedRest(w);
    if c == XON || c == 0x91 {
      AgainFindsNone(ctl, n, cans, Rest(w));
    } else if c == HANGUP {
    } else if c == TIMEOUT {
      AgainFindsNone(ctl, n, 5, Rest(w));
    } else if c == CAN {
      CanFindsNone(ctl, n, cans, Rest(w));
    } else if c == ZPAD || c == ZPAD | 0x80 {
      SplatFindsNone(ctl, n, Rest(w));
    } else {
      GarbageFindsNone(ctl, n, Rest(w));
    }
  }

  lemma {:induction false} GarbageFindsNone(ctl: bool, n: nat, w: Line)
    requires Unmarked(w)
    ensures Garbage(ctl, n, w).hdr == []
    decreases |w|, 2
  {
    if n > 1 {
      AgainFindsNone(ctl, n - 1, 5, w);
    }
  }

  lemma {:induction false} CanFindsNone(ctl: bool, n: nat, cans: int, w: Line)
    requires Unmarked(w)
    ensures GotCan(ctl, n, cans, w).hdr == []
    decreases |w|, 2
  {
    hide Unmarked, Behind, Again, Garbage;
    if cans > 1 && w != [] {
      var c, v := Get(w), Rest(w);
      UnmarkedRest(w);
      if c == TIMEOUT {
        AgainFindsNone(ctl, n, cans - 1, v);
      } else if c == ZCRCW {
        if v != [] {
          UnmarkedRest(v);
          GarbageFindsNone(ctl, n, Rest(v));
        }
      } else if c == CAN {
        if cans > 2 { AgainFindsNone(ctl, n, cans - 2, v); }
      } else {
        GarbageFindsNone(ctl, n, v);
      }
    }
  }

  lemma UnmarkedRest(w: Line)
    requires Unmarked(w)
    ensures Unmarked(Rest(w))
  {
  }

  lemma {:induction false} SplatFindsNone(ctl: bool, n: nat, w: Line)
    requires Unmarked(w)
    ensures Splat(ctl, n, w).hdr == []
    decreases |w|, 2
  {
    hide Unmarked, ReadPlain, Garbage, Behind, Harmless7, LeftBy, Indicates7;
    PlainEnd(ctl);
    var (c, v) := ReadPlain(ctl, w);
    PlainLeft(ctl, w);
    LeftUnmarked(w, v, c);
    if c == ZPAD {
      SplatFindsNone(ctl, n, v);
    } else if c == ZDLE {
      NoIndicator(ctl, v);
      UnmarkedRest(v);
      IndicatorFindsNone(ctl, n, v);
    } else if c != HANGUP && c != TIMEOUT && w != [] {
      GarbageFindsNone(ctl, n, v);
    }
  }

  lemma {:induction false} IndicatorFindsNone(ctl: bool, n: nat, w: Line)
    requires Unmarked(Rest(w)) && var (c, v) := ReadPlain(ctl, w); !Indicates7(c) && c != CAN && (c == HANGUP || v == Rest(w))
    ensures Indicator(ctl, n, w).hdr == []
    decreases |w|, 2
  {
    hide Unmarked, ReadPlain, Garbage;
    PlainEnd(ctl);
    var (c, v) := ReadPlain(ctl, w);
    if c != HANGUP && c != TIMEOUT && w != [] {
      GarbageFindsNone(ctl, n, v);
    }
  }

  lemma PlainEnd(ctl: bool)
    ensures ReadPlain(ctl, []) == (HANGUP, [])
  {
  }

  lemma LeftUnmarked(w: Line, v: Line, c: Code)
    requires Unmarked(w) && (Behind(w, v) || LeftBy(w, v, c))
    ensures Unmarked(v) && (LeftBy(w, v, c) && c == ZDLE ==> v == [] || Harmless7(v[0]))
  {
    BehindUnmarked(w, v);
    assert v != [] ==> w[|w| - |v|] == v[0];
  }

  /** ZDLE and 0x98 are escaped, the codes of the three indicators are not: no mark can be made of data. */
  predicate Guarded(e: Escapes) {
    !e.ctl && 0x18 in e.mask && 0x01 !in e.mask && 0x02 !in e.mask && 0x03 !in e.mask
  }

  predicate Sealed(w: Line) {
    Unmarked(w) && (w != [] ==> w[|w| - 1] & 0x7F != ZDLE)
  }

  lemma SealedBoth(v: Line, w: Line)
    requires Sealed(v) && Sealed(w)
    ensures Sealed(v + w)
  {
    var u := v + w;
    forall i | 0 <= i < |u| - 1 && u[i] & 0x7F == ZDLE ensures Harmless7(u[i + 1]) {
      if i < |v| {
        assert v[i] & 0x7F == ZDLE;
      }
    }
  }

  lemma SealedByte(e: Escapes, last: Byte, c: Byte)
    requires Guarded(e)
    ensures Sealed(EncByte(e, last, c).0)
  {
  }

  lemma {:induction false} SealedData(e: Escapes, last: Byte, s: seq<Byte>)
    requires Guarded(e)
    ensures Sealed(Enc(e, last, s))
    decreases |s|
  {
    hide EncByte, Sealed, Guarded;
    if s == [] {
      SealedNothing();
    } else {
      var (b, l) := EncByte(e, last, s[0]);
      SealedByte(e, last, s[0]);
      SealedData(e, l, s[1..]);
      SealedBoth(b, Enc(e, l, s[1..]));
    }
  }

  lemma SealedNothing()
    ensures Sealed([])
  {
  }

  lemma SealedEnd(c: Byte)
    requires FrameEnd(c)
    ensures Sealed([ZDLE, c]) && Sealed([XON])
  {
  }

  lemma SealedSub(e: Escapes, wide: bool, last: Byte, p: Sub)
    requires Guarded(e) && FrameEnd(p.end)
    ensures Sealed(EncSub(e, wide, last, p))
  {
    hide Enc, Sealed, Guarded, Check, FrameEnd;
    var l := Last(e, last, p.data);
    var a, b, c := Enc(e, last, p.data), [ZDLE, p.end], Enc(e, l, Check(wide, p.data + [p.end]));
    SealedData(e, last, p.data);
    SealedData(e, l, Check(wide, p.data + [p.end]));
    SealedEnd(p.end);
    SealedBoth(b, c);
    SealedBoth(a, b + c);
    SealedBoth(a + (b + c), [XON]);
    assert EncSub(e, wide, last, p) == a + (b + c) + (if p.end == ZCRCW then [XON] else []);
    assert a + (b + c) + [] == a + (b + c);
  }

  lemma {:induction false} SealedSubs(e: Escapes, wide: bool, length: nat, last: Byte, subs: seq<Sub>)
    requires Guarded(e) && ValidSubs(length, subs)
    ensures Sealed(EncSubs(e, wide, last, subs))
    decreases |subs|
  {
    hide Sealed, Guarded, EncSub, LastSub;
    var l := LastSub(e, wide, last, subs[0]);
    SealedSub(e, wide, last, subs[0]);
    if subs[1..] == [] {
      SealedNothing();
    } else {
      SealedSubs(e, wide, length, l, subs[1..]);
    }
    SealedBoth(EncSub(e, wide, last, subs[0]), EncSubs(e, wide, l, subs[1..]));
  }

  lemma HuntFindsNone(ctl: bool, baud: nat, w: Line)
    requires Unmarked(w)
    ensures GetHdr(ctl, baud, w).hdr == []
  {
    hide Again, Unmarked;
    AgainFindsNone(ctl, ZRWINDOW + baud, 5, w);
  }

  /** With such a mask, a receiver that has lost its place anywhere in the data of a frame finds no header there. */
  lemma {:induction false} DataHideNothing(e: Escapes, ctl: bool, wide: bool, baud: nat, length: nat, last: Byte, subs: seq<Sub>, k: nat)
    requires Guarded(e) && ValidSubs(length, subs) && k <= |EncSubs(e, wide, last, subs)|
    ensures GetHdr(ctl, baud, EncSubs(e, wide, last, subs)[k..]).hdr == []
  {
    hide EncSubs, GetHdr, Guarded, ValidSubs;
    SealedSubs(e, wide, length, last, subs);
    HuntFindsNone(ctl, baud, EncSubs(e, wide, last, subs)[k..]);
  }

  // ------------------------------------------------------------------ exactly when

  /** Some file data are taken for a header by a receiver that hunts for one. */
  ghost predicate Imitable(e: Escapes, ctl: bool, baud: nat) {
    exists last: Byte, s: seq<Byte> :: |GetHdr(ctl, baud, Enc(e, last, s)).hdr| == 4
  }

  lemma HexImitable(e: Escapes, ctl: bool, baud: nat)
    requires Markable(e, ZHEX)
    ensures Imitable(e, ctl, baud)
  {
    hide GetHdr, Mark, Hex, Enc, EncByte;
    var h := [0, 0, 0, 0];
    var s := [ZPAD] + (Mark(e, ZHEX) + Hex(0, h));
    DataImitateHeader(e, ctl, baud, 0, 0, h, 0x30, []);
    DigitAppended(e, 0, s);
  }

  lemma {:induction false} DigitAppended(e: Escapes, last: Byte, s: seq<Byte>)
    ensures Enc(e, last, s + [0x30]) == Enc(e, last, s) + ([0x30] + [])
    decreases |s|
  {
    hide EncByte;
    if s == [] {
      assert [0x30][1..] == [];
      EncPrintable(e, last, [0x30]);
    } else {
      assert (s + [0x30])[1..] == s[1..] + [0x30];
      DigitAppended(e, EncByte(e, last, s[0]).1, s[1..]);
    }
  }

  lemma Crc16Five(c: bv16, s: seq<Byte>)
    requires |s| == 5
    ensures Crc16(c, s) == Upd16(s[4], Upd16(s[3], Upd16(s[2], Upd16(s[1], Upd16(s[0], c)))))
  {
    hide Upd16;
    var c1 := Upd16(s[0], c);
    assert s[1..] == s[1..3] + s[3..];
    Crc16Append(c1, s[1..3], s[3..]);
    Crc16Two(c1, s[1..3]);
    Crc16Two(Crc16(c1, s[1..3]), s[3..]);
  }

  lemma Crc32Five(c: bv32, s: seq<Byte>)
    requires |s| == 5
    ensures Crc32(c, s) == Upd32(s[4], Upd32(s[3], Upd32(s[2], Upd32(s[1], Upd32(s[0], c)))))
  {
    hide Upd32;
    Crc32Four(Upd32(s[0], c), s[1..]);
  }

  /** Two headers whose check bytes are printable as well. */
  lemma PrintableNarrow()
    ensures forall c :: c in Body(false, 0x31, [0x30, 0x30, 0x30, 0x30]) ==> Printable(c)
  {
    var m := [0x31] + [0x30, 0x30, 0x30, 0x30];
    Crc16Five(0, m);
    Registers16();
    hide Upd16, Crc16;
    assert Check(false, m) == [0x7C, 0x35];
  }

  lemma Registers16()
    ensures Upd16(0x31, 0x0) == 0x31 && Upd16(0x30, 0x31) == 0x3130 && Upd16(0x30, 0x3130) == 0x1642 && Upd16(0x30, 0x1642) == 0x30C7 && Upd16(0x30, 0x30C7) == 0xF163
    ensures Upd16(0, 0xF163) == 0x9C3E && Upd16(0, 0x9C3E) == 0x7C35
  {
  }

  lemma PrintableWide()
    ensures forall c :: c in Body(true, 0x30, [0x30, 0x30, 0x34, 0x39]) ==> Printable(c)
  {
    var m := [0x30] + [0x30, 0x30, 0x34, 0x39];
    Crc32Five(INIT32, m);
    Registers32();
    hide Upd32, Crc32;
    assert Check(true, m) == [0x55, 0x29, 0x6C, 0x57];
  }

  lemma Registers32()
    ensures Upd32(0x30, 0xFFFFFFFF) == 0xB2420DE && Upd32(0x30, 0xB2420DE) == 0x47B9EB5F && Upd32(0x30, 0x47B9EB5F) == 0xDD4AC522 && Upd32(0x34, 0xDD4AC522) == 0xF409FF94 && Upd32(0x39, 0xF409FF94) == 0xA893D6AA
  {
  }

  lemma BinaryImitable(e: Escapes, ctl: bool, wide: bool, baud: nat)
    requires Markable(e, Kind(wide))
    ensures Imitable(e, ctl, baud)
  {
    hide GetHdr, Mark, Enc, Check;
    var t := if wide then 0x30 else 0x31;
    var h := if wide then [0x30, 0x30, 0x34, 0x39] else [0x30, 0x30, 0x30, 0x30];
    if wide { PrintableWide(); } else { PrintableNarrow(); }
    DataImitateBinary(e, ctl, wide, baud, 0, t, h, []);
    var w := Enc(e, 0, [ZPAD] + (Mark(e, Kind(wide)) + Body(wide, t, h)));
    assert w + [] == w;
  }

  /** File data can be taken for a header exactly if control characters are escaped throughout, or ZDLE with the high bit is
      not, or the code of one of the three indicators is: by default, then, they can. */
  lemma {:induction false} ImitableIff(e: Escapes, ctl: bool, baud: nat)
    ensures Imitable(e, ctl, baud) <==> e.ctl || 0x18 !in e.mask || 0x01 in e.mask || 0x02 in e.mask || 0x03 in e.mask
  {
    hide GetHdr, Enc, Sealed, EncByte;
    assert ZBIN ^ 0x40 == 0x01 && ZHEX ^ 0x40 == 0x02 && ZBIN32 ^ 0x40 == 0x03;
    if Markable(e, ZHEX) {
      HexImitable(e, ctl, baud);
    } else if Markable(e, ZBIN) {
      BinaryImitable(e, ctl, false, baud);
    } else if Markable(e, ZBIN32) {
      BinaryImitable(e, ctl, true, baud);
    } else {
      forall last: Byte, s: seq<Byte> ensures GetHdr(ctl, baud, Enc(e, last, s)).hdr == [] {
        SealedData(e, last, s);
        SealedUnmarked(Enc(e, last, s));
        HuntFindsNone(ctl, baud, Enc(e, last, s));
      }
    }
  }

  lemma SealedUnmarked(w: Line)
    requires Sealed(w)
    ensures Unmarked(w)
  {
  }
}

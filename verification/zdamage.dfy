/** What the ZMODEM readers make of frames that are damaged, break off or are cancelled. */
module ZDamage {
  import opened Crc
  import opened ZEscape
  import opened ZFrame
  import ZHunt

  // ------------------------------------------------------------------ binary headers

  /** Type, position and check after transmission: `to` in place of as many bytes as the check has. */
  ghost predicate Altered(wide: bool, m: seq<Byte>, to: seq<Byte>) {
    exists pre: seq<Byte>, s: seq<Byte>, t: seq<Byte>, post: seq<Byte> {:trigger pre + s + post, pre + t + post} ::
      m == pre + s + post && to == pre + t + post && |s| == |t| == CheckLength(wide) && s != t
  }

  lemma AlteredFails(wide: bool, m: seq<Byte>, to: seq<Byte>)
    requires Altered(wide, m, to) && Passes(wide, m)
    ensures !Passes(wide, to) && |to| == |m|
  {
    hide Passes;
    var pre: seq<Byte>, s: seq<Byte>, t: seq<Byte>, post: seq<Byte> :|
      m == pre + s + post && to == pre + t + post && |s| == |t| == CheckLength(wide) && s != t;
    DamageDetected(wide, pre, s, t, post);
  }

  /** A binary header altered within as many adjacent bytes as its check has is read to its end and refused. */
  lemma BinRefused(e: Escapes, ctl: bool, wide: bool, baud: nat, ps: seq<ZHunt.Piece>, last: Byte, t: Byte, h: seq<Byte>, to: seq<Byte>, tail: Line)
    requires (ctl ==> e.ctl) && |h| == 4 && Altered(wide, [t] + h + Check(wide, [t] + h), to)
    requires ZHunt.AllOk(ps) && ZHunt.Garbled(ps) < 1400 + baud
    ensures var kind := if wide then ZBIN32 else ZBIN;
      GetHdr(ctl, baud, ZHunt.AllWritten(ps) + ([ZPAD] + ([ZDLE] + ([kind] + (Enc(e, last, to) + tail))))) == Header(TERROR, kind, [], tail)
  {
    hide Enc, ReadSome, Passes, Check, Again, Altered, ZHunt.AllWritten, ZHunt.Garbled;
    var m := [t] + h;
    CheckPasses(wide, m);
    AlteredFails(wide, m + Check(wide, m), to);
    ReadSomeEnc(e, ctl, last, to, tail);
    var kind := if wide then ZBIN32 else ZBIN;
    ZHunt.PastGarbage(ctl, ZRWINDOW + baud, ps, [ZPAD] + ([ZDLE] + ([kind] + (Enc(e, last, to) + tail))));
    HuntBin(ctl, wide, ZRWINDOW + baud - ZHunt.Garbled(ps), Enc(e, last, to) + tail);
    assert ReadBinHdr(ctl, wide, Enc(e, last, to) + tail) == Header(TERROR, kind, [], tail);
  }

  /** One that breaks off gives what came instead of the next byte; five CANs in it give ZCAN. */
  lemma BinBroken(e: Escapes, ctl: bool, wide: bool, baud: nat, last: Byte, part: seq<Byte>, c: Code, tail: Line)
    requires (ctl ==> e.ctl) && |part| < 5 + CheckLength(wide) && (c == TIMEOUT || c == HANGUP)
    ensures var kind := if wide then ZBIN32 else ZBIN; var begun := [ZPAD] + ([ZDLE] + ([kind] + Enc(e, last, part)));
      && GetHdr(ctl, baud, begun + ([c] + tail)) == Header(c, kind, [], tail)
      && GetHdr(ctl, baud, begun + (FiveCans() + tail)) == Header(ZCAN, kind, [], tail)
  {
    hide Enc, ReadSome, Again;
    Instead(ctl, c, tail);
    BinStops(e, ctl, wide, baud, last, part, c, [c] + tail, tail);
    BinStops(e, ctl, wide, baud, last, part, GOTCAN, FiveCans() + tail, tail);
  }

  lemma BinStops(e: Escapes, ctl: bool, wide: bool, baud: nat, last: Byte, part: seq<Byte>, c: Code, w: Line, tail: Line)
    requires (ctl ==> e.ctl) && |part| < 5 + CheckLength(wide) && c >= 0x100 && ReadByte(ctl, w) == (c, tail)
    ensures var kind := if wide then ZBIN32 else ZBIN;
      GetHdr(ctl, baud, [ZPAD] + ([ZDLE] + ([kind] + Enc(e, last, part))) + w) == Header(if c == GOTCAN then ZCAN else c, kind, [], tail)
  {
    hide Enc, ReadSome, Again;
    var kind := if wide then ZBIN32 else ZBIN;
    PartRead(e, ctl, 5 + CheckLength(wide), last, part, c, w, tail);
    HuntBin(ctl, wide, ZRWINDOW + baud, Enc(e, last, part) + w);
    assert [ZPAD] + ([ZDLE] + ([kind] + Enc(e, last, part))) + w == [ZPAD] + ([ZDLE] + ([kind] + (Enc(e, last, part) + w)));
  }

  function FiveCans(): Line {
    [CAN, CAN, CAN, CAN, CAN]
  }

  lemma Instead(ctl: bool, c: Code, tail: Line)
    requires c == TIMEOUT || c == HANGUP
    ensures ReadByte(ctl, [c] + tail) == (c, tail)
    ensures ReadByte(ctl, FiveCans() + tail) == (GOTCAN, tail)
  {
    assert ([c] + tail)[1..] == tail;
    var w := FiveCans() + tail;
    assert w[1..][1..][1..][1..][1..] == tail;
    assert SkipCans(w[1..][1..][1..][1..], 0) == (CAN, tail);
    assert SkipCans(w[1..][1..][1..], 1) == (CAN, tail);
    assert SkipCans(w[1..][1..], 2) == (CAN, tail);
    assert SkipCans(w[1..], 3) == (CAN, tail);
  }

  lemma {:induction false} PartRead(e: Escapes, ctl: bool, n: nat, last: Byte, part: seq<Byte>, c: Code, w: Line, tail: Line)
    requires (ctl ==> e.ctl) && |part| < n && c >= 0x100 && ReadByte(ctl, w) == (c, tail)
    ensures ReadSome(ctl, n, Enc(e, last, part) + w).code == c && ReadSome(ctl, n, Enc(e, last, part) + w).rest == tail
    decreases |part|
  {
    hide EncByte, ReadByte;
    if part == [] {
      assert Enc(e, last, part) + w == w;
    } else {
      var (b, l) := EncByte(e, last, part[0]);
      assert Enc(e, last, part) + w == b + (Enc(e, l, part[1..]) + w);
      EncByteClean(e, last, part[0]);
      NoisySelf(b);
      ReadEncByte(e, ctl, last, part[0], b, Enc(e, l, part[1..]) + w);
      PartRead(e, ctl, n - 1, l, part[1..], c, w, tail);
    }
  }

  // ------------------------------------------------------------------ hex headers

  /** Hex digits are what stands for the bytes. */
  lemma {:induction false} HexDigits(s: seq<Byte>, i: nat)
    requires i < |s|
    ensures |EncHex(s)| == 2 * |s| && IsDigit(s[i] >> 4, EncHex(s)[2 * i]) && IsDigit(s[i] & 0xF, EncHex(s)[2 * i + 1])
    decreases |s|
  {
    hide HexByte, IsDigit;
    DigitOf(s[0]);
    var two, rest := [HexByte(s[0] >> 4), HexByte(s[0])], EncHex(s[1..]);
    assert EncHex(s) == two + rest;
    if |s| == 1 {
      assert s[1..] == [] && EncHex(s[1..]) == [];
    } else if i == 0 {
      HexDigits(s[1..], 0);
    } else {
      HexDigits(s[1..], i - 1);
      hide EncHex;
      assert s[1..][i - 1] == s[i];
      assert (two + rest)[2 * i] == rest[2 * i - 2] && (two + rest)[2 * i + 1] == rest[2 * i - 1];
    }
  }

  predicate IsDigit(n: Code, c: Code) {
    if n < 10 then c == 0x30 + n else n < 16 && c == 0x61 + (n - 10)
  }

  lemma DigitOf(b: Byte)
    ensures IsDigit(b >> 4, HexByte(b >> 4)) && IsDigit(b & 0xF, HexByte(b))
  {
  }

  /** A hex header altered within two adjacent bytes is refused behind its digits. */
  lemma HexRefused(ctl: bool, t: Byte, h: seq<Byte>, to: seq<Byte>, tail: Line)
    requires |h| == 4 && Altered(false, [t] + h + Check(false, [t] + h), to)
    ensures ReadHexHdr(ctl, EncHex(to) + tail) == Header(TERROR, ZHEX, [], tail)
  {
    hide EncHex, ReadHexes, Passes, Check, Altered;
    var m := [t] + h;
    CheckPasses(false, m);
    AlteredFails(false, m + Check(false, m), to);
    ReadHexesEnc(ctl, to, tail);
  }

  /** Text that zgeth1 refuses: all but the digits, the letters up to 'f', and the ten characters before them, which it takes for 0 to 9. */
  predicate NoDigit(c: Code) {
    0x20 <= c < 0x80 && !(0x30 <= c <= 0x39) && !(0x57 <= c <= 0x66)
  }

  /** A digit that is none refuses it there and then; a timeout or hang-up among the digits, or in the line end, is returned. */
  lemma HexBroken(ctl: bool, part: seq<Byte>, c: Code, tail: Line)
    requires |part| < 7 && (Negative(c) || NoDigit(c))
    ensures var r := ReadHexHdr(ctl, EncHex(part) + ([c] + tail));
      r.code == (if Negative(c) then c else TERROR) && r.rest == tail
  {
    hide EncHex, ReadHexes;
    DigitRefused(ctl, c, tail);
    PartHex(ctl, 7, part, if Negative(c) then c else TERROR, [c] + tail, tail);
  }

  lemma DigitRefused(ctl: bool, c: Code, tail: Line)
    requires Negative(c) || NoDigit(c)
    ensures ReadHex(ctl, [c] + tail) == (if Negative(c) then c else TERROR, tail)
  {
    assert ([c] + tail)[1..] == tail;
    if !Negative(c) {
      ReadText(ctl, c, tail);
      NoValue(c);
    }
  }

  lemma NoValue(c: Code)
    requires NoDigit(c)
    ensures HexValue(c) & 0xFFF0 != 0 && !Negative(c)
  {
  }

  lemma {:induction false} PartHex(ctl: bool, n: nat, part: seq<Byte>, c: Code, w: Line, tail: Line)
    requires |part| < n && Negative(c) && ReadHex(ctl, w) == (c, tail)
    ensures ReadHexes(ctl, n, EncHex(part) + w).code == c && ReadHexes(ctl, n, EncHex(part) + w).rest == tail
    decreases |part|
  {
    hide HexByte, ReadHex, Negative;
    if part == [] {
      assert EncHex(part) + w == w;
    } else {
      var v := EncHex(part[1..]) + w;
      assert EncHex(part) + w == [HexByte(part[0] >> 4)] + ([HexByte(part[0])] + v);
      ReadHexOf(ctl, part[0], v);
      PartHex(ctl, n - 1, part[1..], c, w, tail);
    }
  }

  /** The second digit of a byte. */
  lemma SecondDigit(ctl: bool, b: Byte, c: Code, tail: Line)
    requires Negative(c) || NoDigit(c)
    ensures ReadHex(ctl, [HexByte(b)] + ([c] + tail)) == (if Negative(c) then c else TERROR, tail)
  {
    hide HexByte, HexValue, ReadPlain;
    DigitValue(b);
    ReadText(ctl, HexByte(b), [c] + tail);
    assert !Negative(HexByte(b)) && HexValue(HexByte(b)) & 0xFFF0 == 0;
    OneRead(ctl, c, tail);
    if !Negative(c) { NoValue(c); }
  }

  lemma OneRead(ctl: bool, c: Code, tail: Line)
    requires Negative(c) || NoDigit(c)
    ensures ReadPlain(ctl, [c] + tail) == (c, tail)
  {
    assert ([c] + tail)[1..] == tail;
    if !Negative(c) { ReadText(ctl, c, tail); }
  }

  /** And the line end. */
  lemma HexLineEnd(ctl: bool, m: seq<Byte>, c: Code, tail: Line)
    requires |m| == 5 && Negative(c)
    ensures ReadHexHdr(ctl, EncHex(m + Check(false, m)) + ([c] + tail)) == Header(c, ZHEX, [], tail)
    ensures ReadHexHdr(ctl, EncHex(m + Check(false, m)) + ([0x0D] + ([c] + tail))) == Header(c, ZHEX, [], tail)
  {
    hide EncHex, ReadHexes, Passes, Check;
    var all := m + Check(false, m);
    CheckPasses(false, m);
    ReadHexesEnc(ctl, all, [c] + tail);
    ReadHexesEnc(ctl, all, [0x0D] + ([c] + tail));
    ZHunt.Next(c, tail);
    ZHunt.Next(0x0D, [c] + tail);
    NoReturn(c);
  }

  lemma NoReturn(c: Code)
    requires Negative(c)
    ensures !Return(c) && Return(0x0D)
  {
  }

  // ------------------------------------------------------------------ data subpackets

  lemma ReadDataClean(e: Escapes, ctl: bool, wide: bool, length: nat, last: Byte, s: seq<Byte>, tail: Line)
    requires (ctl ==> e.ctl) && |s| <= length
    ensures ReadSub(ctl, wide, length, Enc(e, last, s) + tail) == ReadData(ctl, wide, length, tail, s)
  {
    hide Enc, ReadData;
    EncClean(e, last, s);
    NoisySelf(Enc(e, last, s));
    ReadDataEnc(e, ctl, wide, length, last, [], s, Enc(e, last, s), tail);
    assert [] + s == s;
  }

  /** Undamaged it is read, with each of the four frame ends. */
  lemma FourEnds(e: Escapes, ctl: bool, wide: bool, length: nat, last: Byte, p: Sub, tail: Line)
    requires (ctl ==> e.ctl) && 0x68 <= p.end <= 0x6B && |p.data| <= length
    ensures ReadSub(ctl, wide, length, Enc(e, last, p.data) + EncEnd(e, wide, Last(e, last, p.data), p) + tail) == SubResult(p.end | 0x100, p.data, tail)
  {
    hide Enc, ReadSub, EncByte;
    EndAmong(p.end);
    var w := Enc(e, last, p.data) + EncEnd(e, wide, Last(e, last, p.data), p);
    EncClean(e, last, p.data);
    EncClean(e, Last(e, last, p.data), Check(wide, p.data + [p.end]));
    NoisySelf(w);
    ReadEncSub(e, ctl, wide, length, last, p, w, tail);
  }

  lemma EndAmong(end: Byte)
    requires 0x68 <= end <= 0x6B
    ensures FrameEnd(end) && !Flow(end) && !Flow(ZDLE)
  {
  }

  /** A subpacket whose data, frame end and check have been altered within as many adjacent bytes as the check has is refused behind its check. */
  lemma SubRefused(e: Escapes, ctl: bool, wide: bool, length: nat, last: Byte, l: Byte, p: Sub, q: Sub, check: seq<Byte>, tail: Line)
    requires (ctl ==> e.ctl) && FrameEnd(p.end) && FrameEnd(q.end) && |q.data| <= length && |check| == CheckLength(wide)
    requires Altered(wide, p.data + [p.end] + Check(wide, p.data + [p.end]), q.data + [q.end] + check)
    ensures ReadSub(ctl, wide, length, Enc(e, last, q.data) + ([ZDLE, q.end] + (Enc(e, l, check) + tail))) == SubResult(TERROR, [], tail)
  {
    hide Enc, Altered, Passes, ReadCheck, Check, ReadByte, ReadEscaped;
    var v := Enc(e, l, check) + tail;
    ReadDataClean(e, ctl, wide, length, last, q.data, [ZDLE, q.end] + v);
    CheckPasses(wide, p.data + [p.end]);
    AlteredFails(wide, p.data + [p.end] + Check(wide, p.data + [p.end]), q.data + [q.end] + check);
    EndRead(ctl, q.end, v);
    EndCode(q.end);
    EncClean(e, l, check);
    NoisySelf(Enc(e, l, check));
    ReadCheckEnc(e, ctl, wide, l, q.end | GOTOR, q.data, q.data + [q.end], check, Enc(e, l, check), tail);
  }

  lemma EndRead(ctl: bool, end: Byte, v: Line)
    requires FrameEnd(end)
    ensures ReadByte(ctl, [ZDLE, end] + v) == (end | GOTOR, v)
  {
    hide ReadEscaped;
    assert ([ZDLE, end] + v)[1..] == [end] + v;
    EndCode(end);
    NoisySelf([end]);
    ReadEndNoisy(ctl, end, [end], v);
  }

  /** What comes instead of a check byte, behind k of them. */
  lemma {:induction false} CheckStops(e: Escapes, ctl: bool, wide: bool, last: Byte, d: Code, n: nat, data: seq<Byte>, fed: seq<Byte>, part: seq<Byte>,
                                      c: Code, w: Line, tail: Line)
    requires (ctl ==> e.ctl) && |part| < n <= 4 && c >= 0x100 && w != [] && ReadByte(ctl, w) == (c, tail)
    ensures ReadCheck(ctl, wide, d, n, Enc(e, last, part) + w, data, fed) == ReadEnd(ctl, wide, c, tail, data, fed + part)
    decreases |part|
  {
    hide EncByte, ReadByte, ReadEnd, Passes;
    if part == [] {
      assert Enc(e, last, part) + w == w && fed + part == fed;
    } else {
      var (b, l) := EncByte(e, last, part[0]);
      assert Enc(e, last, part) + w == b + (Enc(e, l, part[1..]) + w);
      EncByteClean(e, last, part[0]);
      NoisySelf(b);
      ReadEncByte(e, ctl, last, part[0], b, Enc(e, l, part[1..]) + w);
      CheckStops(e, ctl, wide, l, d, n - 1, data, fed + [part[0]], part[1..], c, w, tail);
      assert fed + [part[0]] + part[1..] == fed + part;
    }
  }

  /** A timeout or hang-up in the check is returned, and five CANs there give ZCAN. */
  lemma CheckBroken(e: Escapes, ctl: bool, wide: bool, length: nat, last: Byte, l: Byte, data: seq<Byte>, end: Byte, part: seq<Byte>, c: Code, tail: Line)
    requires (ctl ==> e.ctl) && |data| <= length && FrameEnd(end) && |part| < CheckLength(wide) && (c == TIMEOUT || c == HANGUP)
    ensures ReadSub(ctl, wide, length, Enc(e, last, data) + ([ZDLE, end] + (Enc(e, l, part) + ([c] + tail)))) == SubResult(c, [], tail)
    ensures ReadSub(ctl, wide, length, Enc(e, last, data) + ([ZDLE, end] + (Enc(e, l, part) + (FiveCans() + tail)))) == SubResult(ZCAN, [], tail)
  {
    hide Enc, ReadByte, ReadCheck, ReadSub;
    Instead(ctl, c, tail);
    NotEnded(c);
    ToCheck(e, ctl, wide, length, last, data, end, Enc(e, l, part) + ([c] + tail));
    ToCheck(e, ctl, wide, length, last, data, end, Enc(e, l, part) + (FiveCans() + tail));
    CheckStops(e, ctl, wide, l, end | GOTOR, CheckLength(wide), data, data + [end], part, c, [c] + tail, tail);
    CheckStops(e, ctl, wide, l, end | GOTOR, CheckLength(wide), data, data + [end], part, GOTCAN, FiveCans() + tail, tail);
  }

  /** Up to the frame end. */
  lemma ToCheck(e: Escapes, ctl: bool, wide: bool, length: nat, last: Byte, data: seq<Byte>, end: Byte, v: Line)
    requires (ctl ==> e.ctl) && |data| <= length && FrameEnd(end)
    ensures ReadSub(ctl, wide, length, Enc(e, last, data) + ([ZDLE, end] + v)) == ReadCheck(ctl, wide, end | GOTOR, CheckLength(wide), v, data, data + [end])
  {
    hide Enc, ReadByte, ReadCheck, ReadSub;
    ReadDataClean(e, ctl, wide, length, last, data, [ZDLE, end] + v);
    EndRead(ctl, end, v);
    EndCode(end);
  }

  /** A frame end in the check begins the check again, over all that was read so far, and is the one that counts. */
  lemma EndInCheck(e: Escapes, ctl: bool, wide: bool, length: nat, last: Byte, l: Byte, k: Byte, data: seq<Byte>, end: Byte, part: seq<Byte>, again: Byte, check: seq<Byte>, tail: Line)
    requires (ctl ==> e.ctl) && |data| <= length && FrameEnd(end) && FrameEnd(again) && |part| < CheckLength(wide) && |check| == CheckLength(wide)
    ensures ReadSub(ctl, wide, length, Enc(e, last, data) + ([ZDLE, end] + (Enc(e, l, part) + ([ZDLE, again] + (Enc(e, k, check) + tail)))))
         == (if Passes(wide, data + [end] + part + [again] + check) then SubResult(again | GOTOR, data, tail) else SubResult(TERROR, [], tail))
  {
    hide Enc, ReadByte, ReadCheck, ReadSub, Passes;
    var v := Enc(e, k, check) + tail;
    ToCheck(e, ctl, wide, length, last, data, end, Enc(e, l, part) + ([ZDLE, again] + v));
    EndRead(ctl, again, v);
    EndCode(again);
    CheckStops(e, ctl, wide, l, end | GOTOR, CheckLength(wide), data, data + [end], part, again | GOTOR, [ZDLE, again] + v, v);
    EncClean(e, k, check);
    NoisySelf(Enc(e, k, check));
    ReadCheckEnc(e, ctl, wide, k, again | GOTOR, data, data + [end] + part + [again], check, Enc(e, k, check), tail);
  }

  /** More data than there is room for are refused behind the first byte too many. */
  lemma TooLong(e: Escapes, ctl: bool, wide: bool, last: Byte, s: seq<Byte>, b: Byte, tail: Line)
    requires ctl ==> e.ctl
    ensures ReadSub(ctl, wide, |s|, Enc(e, last, s + [b]) + tail) == SubResult(TERROR, [], tail)
  {
    hide Enc, ReadByte;
    EncMore(e, last, s, b);
    var (x, l) := EncByte(e, Last(e, last, s), b);
    assert Enc(e, last, s + [b]) + tail == Enc(e, last, s) + (x + tail);
    ReadDataClean(e, ctl, wide, |s|, last, s, x + tail);
    EncByteClean(e, Last(e, last, s), b);
    NoisySelf(x);
    ReadEncByte(e, ctl, Last(e, last, s), b, x, tail);
  }

  lemma {:induction false} EncMore(e: Escapes, last: Byte, s: seq<Byte>, b: Byte)
    ensures Enc(e, last, s + [b]) == Enc(e, last, s) + EncByte(e, Last(e, last, s), b).0
    decreases |s|
  {
    hide EncByte;
    if s == [] {
      assert s + [b] == [b] && [b][1..] == [];
      assert Enc(e, EncByte(e, last, b).1, []) == [];
      assert EncByte(e, last, b).0 + [] == [] + EncByte(e, last, b).0;
    } else {
      assert (s + [b])[1..] == s[1..] + [b];
      EncMore(e, EncByte(e, last, s[0]).1, s[1..], b);
    }
  }

  /** A timeout or hang-up in the data or behind the frame end is returned; five CANs give ZCAN. */
  lemma SubBroken(e: Escapes, ctl: bool, wide: bool, length: nat, last: Byte, data: seq<Byte>, c: Code, tail: Line)
    requires (ctl ==> e.ctl) && |data| <= length && (c == TIMEOUT || c == HANGUP)
    ensures ReadSub(ctl, wide, length, Enc(e, last, data) + ([c] + tail)) == SubResult(c, [], tail)
    ensures ReadSub(ctl, wide, length, Enc(e, last, data) + (FiveCans() + tail)) == SubResult(ZCAN, [], tail)
  {
    hide Enc, ReadByte;
    Instead(ctl, c, tail);
    ReadDataClean(e, ctl, wide, length, last, data, [c] + tail);
    ReadDataClean(e, ctl, wide, length, last, data, FiveCans() + tail);
    NotEnded(c);
  }

  lemma NotEnded(c: Code)
    requires c == TIMEOUT || c == HANGUP
    ensures !Ended(c) && !Ended(GOTCAN) && c >= 0x100
  {
  }
}

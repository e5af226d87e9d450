/** Which bytes zsendline escapes, and what zdlread and noxrd7 make of every byte. */
module ZBytes {
  import opened Crc
  import opened ZEscape

  /** Always: the escape itself, DLE, XON and XOFF of either parity.  A return: unless it may stand.  0377 and other controls: if asked for. */
  predicate IsEscaped(e: Escapes, last: Byte, c: Byte) {
    if c == 0xFF then e.ctl || 0x20 in e.mask
    else if c in {0x18, 0x10, 0x11, 0x13, 0x91, 0x93} then true
    else if c == 0x0D || c == 0x8D then e.ctl || last == 0x40 || last == 0xC0
    else (c < 0x20 || 0x80 <= c < 0xA0) && (e.ctl || c % 0x20 in e.mask)
  }

  /** What is sent for a byte, and what counts as sent last. */
  lemma SentAs(e: Escapes, last: Byte, c: Byte)
    ensures var (w, l) := EncByte(e, last, c);
      if !IsEscaped(e, last, c) then w == [c] && l == c
      else if c == 0xFF then w == [0x18, 0x6D] && l == 0xFF
      else w == [0x18, c + 0x40] && l == c + 0x40
  {
    BitsOf(c);
    BitsOf(last);
  }

  lemma BitsOf(c: Byte)
    ensures (Control(c) <==> c < 0x20 || 0x80 <= c < 0xA0) && c & 0x1F == c % 0x20
    ensures LowSeven(c) == (if c >= 0x80 then c - 0x80 else c)
    ensures Control(c) ==> c ^ 0x40 == c + 0x40
  {
  }

  function LowSeven(c: Byte): Byte {
    c & 0x7F
  }

  predicate FlowByte(c: Code) {
    c in {0x11, 0x13, 0x91, 0x93}
  }

  predicate Ctrl(c: Code) {
    c < 0x20 || 0x80 <= c < 0xA0
  }

  /** zdlread in front of any byte but the escape: flow control and, if asked, every other control byte is passed over, everything else is data. */
  lemma PlainRead(ctl: bool, c: Code, w: Line)
    requires c < 0x100 && c != ZDLE
    ensures ReadByte(ctl, [c] + w) == if FlowByte(c) || (ctl && Ctrl(c)) then ReadByte(ctl, w) else (c, w)
  {
    BitsOf(c);
    assert ([c] + w)[1..] == w;
  }

  /** Behind the escape: a frame end, DEL, 0377; a letter's or sign's control code; flow control and, if asked, control bytes are passed over there,
      too; a code that is no byte is returned; anything else is an error. */
  lemma EscapedRead(ctl: bool, c: Code, w: Line)
    requires c != CAN && (c < 0x100 || Negative(c))
    ensures var r := ReadByte(ctl, [ZDLE] + ([c] + w));
      if Negative(c) then r == (c, w)
      else if 0x68 <= c <= 0x6B then r == (0x100 + c, w)
      else if c == 0x6C then r == (0x7F, w)
      else if c == 0x6D then r == (0xFF, w)
      else if FlowByte(c) || (ctl && Ctrl(c)) then r == ReadByte(ctl, [ZDLE] + w)
      else if 0x40 <= c < 0x60 || 0xC0 <= c < 0xE0 then r == (c - 0x40, w)
      else r == (TERROR, w)
  {
    assert ([ZDLE] + ([c] + w))[1..] == [c] + w && ([c] + w)[1..] == w && ([ZDLE] + w)[1..] == w;
    Behind(c);
    if c < 0x100 { BitsOf(c); }
    assert SkipCans([c] + w, 3) == (c, w);
  }

  lemma Behind(c: Code)
    ensures c < 0x100 ==> !Negative(c) && (c & 0x60 == 0x40 <==> 0x40 <= c < 0x60 || 0xC0 <= c < 0xE0) && (c & 0x60 == 0x40 ==> c ^ 0x40 == c - 0x40)
    ensures 0x68 <= c <= 0x6B ==> c | GOTOR == 0x100 + c
  {
  }

  /** noxrd7: parity is removed; flow control and, if asked, all controls but return, line feed and the escape are passed over. */
  lemma TextRead(ctl: bool, c: Code, w: Line)
    requires c < 0x100 || Negative(c)
    ensures var d := if c >= 0x80 then c - 0x80 else c;
      ReadPlain(ctl, [c] + w) ==
      if Negative(c) then (c, w)
      else if d == 0x11 || d == 0x13 || (ctl && d < 0x20 && d !in {0x0D, 0x0A, 0x18}) then ReadPlain(ctl, w)
      else (d, w)
  {
    assert ([c] + w)[1..] == w;
    if !Negative(c) {
      BitsOf(c);
      var d := LowSeven(c);
      BitsOf(d);
    }
  }
}

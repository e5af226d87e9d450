/** The receiving half of zmmisc.c, reading a line of bytes and timeouts. */
module ZReceive {
  import opened Crc
  import opened ZEscape
  import opened ZFrame
  import ZTransmit

  lemma {:induction false} FedSnoc(s: seq<Byte>, c: Byte)
    ensures Crc16(0, s + [c]) == Upd16(c, Crc16(0, s)) && Crc32(INIT32, s + [c]) == Upd32(c, Crc32(INIT32, s))
  {
    hide Upd16, Upd32;
    ZTransmit.Crc16Last(s, c);
    ZTransmit.Crc32Last(s, c);
  }

  /** Where zgethdr continues. */
  datatype Label = LAgain | LGotCan | LGarbage | LSplat | LIndicator

  class Receiver {
    /** What GETCHAR has still to return. */
    var w: Line
    var zctlesc: bool
    var crc32r: bool
    var rxcount: nat

    constructor (w: Line, zctlesc: bool)
      ensures this.w == w && this.zctlesc == zctlesc
    {
      this.w, this.zctlesc, crc32r, rxcount := w, zctlesc, false, 0;
    }

    method GetChar() returns (c: Code)
      modifies this`w
      ensures c == Get(old(w)) && w == Rest(old(w))
    {
      if w == [] {
        c := HANGUP;
      } else {
        c, w := w[0], w[1..];
      }
    }

    /** zdlread. */
    method ZdlRead() returns (c: Code)
      modifies this`w
      ensures (c, w) == ReadByte(zctlesc, old(w))
    {
      while true
        invariant ReadByte(zctlesc, w) == ReadByte(zctlesc, old(w))
        decreases |w|
      {
        c := GetChar();
        if c & 0x60 != 0 { return; }
        if c == ZDLE { break; }
        if !Flow(c) && !zctlesc { return; }
      }
      c := ReadAfterZdle();
    }

    /** A byte, with up to three more for as many CANs. */
    method PastCans() returns (c: Code)
      modifies this`w
      ensures (c, w) == SkipCans(old(w), 3)
    {
      c := GetChar();
      var cans := 0;
      while cans < 3 && c == CAN
        invariant 0 <= cans <= 3
        invariant (if c == CAN && cans < 3 then SkipCans(w, 2 - cans) else (c, w)) == SkipCans(old(w), 3)
      {
        c := GetChar();
        cans := cans + 1;
      }
    }

    /** The label again2 of zdlread. */
    method ReadAfterZdle() returns (c: Code)
      modifies this`w
      ensures (c, w) == ReadEscaped(zctlesc, old(w))
    {
      hide SkipCans;
      while true
        invariant ReadEscaped(zctlesc, w) == ReadEscaped(zctlesc, old(w))
        decreases |w|
      {
        CansEmpty();
        c := PastCans();
        if Negative(c) { return; }
        if c == CAN { return GOTCAN; }
        if c == ZCRCE || c == ZCRCG || c == ZCRCQ || c == ZCRCW { return c | GOTOR; }
        if c == ZRUB0 { return 0x7F; }
        if c == ZRUB1 { return 0xFF; }
        if !Flow(c) && !(zctlesc && Control(c)) {
          if c & 0x60 == 0x40 { return c ^ 0x40; }
          return TERROR;
        }
      }
    }

    /** noxrd7. */
    method NoXRd7() returns (c: Code)
      modifies this`w
      ensures (c, w) == ReadPlain(zctlesc, old(w))
    {
      while true
        invariant ReadPlain(zctlesc, w) == ReadPlain(zctlesc, old(w))
        decreases |w|
      {
        c := GetChar();
        if Negative(c) { return; }
        c := c & 0x7F;
        if c != XON && c != XOFF && !(zctlesc && Control(c) && c != 0x0D && c != 0x0A && c != ZDLE) { return; }
      }
    }

    /** zgethex and zgeth1. */
    method ZGetHex() returns (c: Code)
      modifies this`w
      ensures (c, w) == ReadHex(zctlesc, old(w))
    {
      hide ReadPlain, HexValue;
      c := NoXRd7();
      if Negative(c) { return; }
      var n := HexValue(c);
      if n & 0xFFF0 != 0 { return TERROR; }
      c := NoXRd7();
      if Negative(c) { return; }
      c := HexValue(c);
      if c & 0xFFF0 != 0 { return TERROR; }
      c := c + (n << 4);
    }

    /** The check bytes behind a frame end; `ok` if all of them were bytes. */
    method CheckBytes16(d: Code, init: bv16, ghost data: seq<Byte>, ghost fed0: seq<Byte>)
      returns (ok: bool, c: Code, crc: bv16, ghost fed: seq<Byte>)
      requires init == Crc16(0, fed0)
      modifies this`w
      ensures |w| <= |old(w)| && crc == Crc16(0, fed)
      ensures var r := ReadCheck(zctlesc, false, d, 2, old(w), data, fed0);
        if ok then r == ReadCheck(zctlesc, false, d, 0, w, data, fed)
        else r == ReadEnd(zctlesc, false, c, w, data, fed) && (Ended(c) ==> |w| < |old(w)|)
    {
      hide ReadByte, ReadEnd, Upd16, Crc16, Ended, Passes;
      c, crc, fed := 0, init, fed0;
      var k := 0;
      while k < 2
        invariant 0 <= k <= 2 && crc == Crc16(0, fed) && |w| <= |old(w)|
        invariant ReadCheck(zctlesc, false, d, 2 - k, w, data, fed) == ReadCheck(zctlesc, false, d, 2, old(w), data, fed0)
      {
        ghost var line := w;
        c := ZdlRead();
        if c >= 0x100 {
          NothingRead(zctlesc, false, line, c, data, fed);
          return false, c, crc, fed;
        }
        FedSnoc(fed, c);
        crc, fed := Upd16(c, crc), fed + [c];
        k := k + 1;
      }
      ok := true;
    }

    /** The label crcfoo of zrdata: a frame end and its check, or a code to give up with. */
    method CrcFoo16(first: Code, init: bv16, ghost data: seq<Byte>) returns (code: Code)
      requires init == Crc16(0, data)
      modifies this`w
      ensures var r := ReadEnd(zctlesc, false, first, old(w), data, data);
        code == r.code && w == r.rest && (Ended(code) ==> r.data == data)
    {
      hide ReadByte, Upd16, Crc16, Ended, FrameEnd;
      EndedError();
      var c, crc := first, init;
      ghost var fed: seq<Byte> := data;
      while Ended(c)
        invariant crc == Crc16(0, fed)
        invariant ReadEnd(zctlesc, false, c, w, data, fed) == ReadEnd(zctlesc, false, first, old(w), data, data)
        decreases |w|, Ended(c)
      {
        var d := c;
        FedSnoc(fed, d & 0xFF);
        crc, fed := Upd16(d & 0xFF, crc), fed + [d & 0xFF];
        var ok;
        ok, c, crc, fed := CheckBytes16(d, crc, data, fed);
        if ok {
          if crc != 0 { return TERROR; }
          return d;
        }
      }
      if c == GOTCAN { return ZCAN; }
      return c;
    }

    /** zrdata with Crc32r off: data into buf until a frame end, then the check.  The code stores one byte
        more than `length` before it gives up. */
    method ZrData16(buf: array<Byte>, length: nat) returns (code: Code)
      requires length < buf.Length
      modifies this`w, this`rxcount, buf
      ensures var r := ReadSub(zctlesc, false, length, old(w));
        code == r.code && w == r.rest && (Ended(code) ==> rxcount <= buf.Length && buf[..rxcount] == r.data)
    {
      hide ReadByte, ReadEnd, Upd16, Crc16, FrameEnd, Ended;
      EmptyCrc();
      rxcount := 0;
      var crc: bv16 := 0;
      var n := 0;
      while n <= length
        invariant 0 <= n <= length + 1 && rxcount == 0 && crc == Crc16(0, buf[..n])
        invariant ReadData(zctlesc, false, length, w, buf[..n]) == ReadSub(zctlesc, false, length, old(w))
      {
        var c := ZdlRead();
        ghost var data := buf[..n];
        if c >= 0x100 {
          code := CrcFoo16(c, crc, data);
          rxcount := if Ended(code) then n else 0;
          return;
        }
        buf[n] := c;
        FedSnoc(data, c);
        crc := Upd16(c, crc);
        n := n + 1;
        assert buf[..n] == data + [c];
      }
      EndedError();
      return TERROR;
    }

    /** The check bytes behind a frame end; `ok` if all of them were bytes. */
    method CheckBytes32(d: Code, init: bv32, ghost data: seq<Byte>, ghost fed0: seq<Byte>)
      returns (ok: bool, c: Code, crc: bv32, ghost fed: seq<Byte>)
      requires init == Crc32(INIT32, fed0)
      modifies this`w
      ensures |w| <= |old(w)| && crc == Crc32(INIT32, fed)
      ensures var r := ReadCheck(zctlesc, true, d, 4, old(w), data, fed0);
        if ok then r == ReadCheck(zctlesc, true, d, 0, w, data, fed)
        else r == ReadEnd(zctlesc, true, c, w, data, fed) && (Ended(c) ==> |w| < |old(w)|)
    {
      hide ReadByte, ReadEnd, Upd32, Crc32, Ended, Passes;
      c, crc, fed := 0, init, fed0;
      var k := 0;
      while k < 4
        invariant 0 <= k <= 4 && crc == Crc32(INIT32, fed) && |w| <= |old(w)|
        invariant ReadCheck(zctlesc, true, d, 4 - k, w, data, fed) == ReadCheck(zctlesc, true, d, 4, old(w), data, fed0)
      {
        ghost var line := w;
        c := ZdlRead();
        if c >= 0x100 {
          NothingRead(zctlesc, true, line, c, data, fed);
          return false, c, crc, fed;
        }
        FedSnoc(fed, c);
        crc, fed := Upd32(c, crc), fed + [c];
        k := k + 1;
      }
      ok := true;
    }

    /** The label crcfoo of zrdat32: a frame end and its check, or a code to give up with. */
    method CrcFoo32(first: Code, init: bv32, ghost data: seq<Byte>) returns (code: Code)
      requires init == Crc32(INIT32, data)
      modifies this`w
      ensures var r := ReadEnd(zctlesc, true, first, old(w), data, data);
        code == r.code && w == r.rest && (Ended(code) ==> r.data == data)
    {
      hide ReadByte, Upd32, Crc32, Ended, FrameEnd;
      EndedError();
      var c, crc := first, init;
      ghost var fed: seq<Byte> := data;
      while Ended(c)
        invariant crc == Crc32(INIT32, fed)
        invariant ReadEnd(zctlesc, true, c, w, data, fed) == ReadEnd(zctlesc, true, first, old(w), data, data)
        decreases |w|, Ended(c)
      {
        var d := c;
        FedSnoc(fed, d & 0xFF);
        crc, fed := Upd32(d & 0xFF, crc), fed + [d & 0xFF];
        var ok;
        ok, c, crc, fed := CheckBytes32(d, crc, data, fed);
        if ok {
          if crc != RESIDUE32 { return TERROR; }
          return d;
        }
      }
      if c == GOTCAN { return ZCAN; }
      return c;
    }

    /** zrdat32: data into buf until a frame end, then the check.  The code stores one byte
        more than `length` before it gives up. */
    method ZrData32(buf: array<Byte>, length: nat) returns (code: Code)
      requires length < buf.Length
      modifies this`w, this`rxcount, buf
      ensures var r := ReadSub(zctlesc, true, length, old(w));
        code == r.code && w == r.rest && (Ended(code) ==> rxcount <= buf.Length && buf[..rxcount] == r.data)
    {
      hide ReadByte, ReadEnd, Upd32, Crc32, FrameEnd, Ended;
      EmptyCrc();
      rxcount := 0;
      var crc: bv32 := INIT32;
      var n := 0;
      while n <= length
        invariant 0 <= n <= length + 1 && rxcount == 0 && crc == Crc32(INIT32, buf[..n])
        invariant ReadData(zctlesc, true, length, w, buf[..n]) == ReadSub(zctlesc, true, length, old(w))
      {
        var c := ZdlRead();
        ghost var data := buf[..n];
        if c >= 0x100 {
          code := CrcFoo32(c, crc, data);
          rxcount := if Ended(code) then n else 0;
          return;
        }
        buf[n] := c;
        FedSnoc(data, c);
        crc := Upd32(c, crc);
        n := n + 1;
        assert buf[..n] == data + [c];
      }
      EndedError();
      return TERROR;
    }

    /** zrdata. */
    method ZrData(buf: array<Byte>, length: nat) returns (code: Code)
      requires length < buf.Length
      modifies this`w, this`rxcount, buf
      ensures var r := ReadSub(zctlesc, crc32r, length, old(w));
        code == r.code && w == r.rest && (Ended(code) ==> rxcount <= buf.Length && buf[..rxcount] == r.data)
    {
      if crc32r {
        code := ZrData32(buf, length);
      } else {
        code := ZrData16(buf, length);
      }
    }

    /** n bytes, all fed to the register. */
    method Feed16(n: nat) returns (b: Bytes, crc: bv16)
      modifies this`w
      ensures b == ReadSome(zctlesc, n, old(w)) && w == b.rest
      ensures b.code == 0 ==> crc == Crc16(0, b.got)
    {
      hide ReadByte, ReadSome, Upd16, Crc16;
      EmptyCrc();
      crc := 0;
      var got: seq<Byte> := [];
      while |got| < n
        invariant |got| <= n && crc == Crc16(0, got)
        invariant ReadSome(zctlesc, n, old(w)) == Prepend(got, ReadSome(zctlesc, n - |got|, w))
      {
        SomeStep(zctlesc, n - |got|, w, got);
        var c := ZdlRead();
        if c >= 0x100 {
          return Bytes(c, got, w), crc;
        }
        FedSnoc(got, c);
        crc, got := Upd16(c, crc), got + [c];
      }
      SomeDone(zctlesc, w, got);
      b := Bytes(0, got, w);
    }

    /** zrbhdr: type, four bytes and the check bytes. */
    method ZrBinHdr16() returns (r: Header)
      modifies this`w
      ensures r == ReadBinHdr(zctlesc, false, old(w)) && w == r.rest
    {
      hide ReadSome, Crc16;
      var b, crc := Feed16(7);
      if b.code != 0 { return Header(b.code, ZBIN, [], w); }
      if crc != 0 { return Header(TERROR, ZBIN, [], w); }
      return Header(b.got[0], ZBIN, b.got[1..5], w);
    }

    /** n bytes, all fed to the register. */
    method Feed32(n: nat) returns (b: Bytes, crc: bv32)
      modifies this`w
      ensures b == ReadSome(zctlesc, n, old(w)) && w == b.rest
      ensures b.code == 0 ==> crc == Crc32(INIT32, b.got)
    {
      hide ReadByte, ReadSome, Upd32, Crc32;
      EmptyCrc();
      crc := INIT32;
      var got: seq<Byte> := [];
      while |got| < n
        invariant |got| <= n && crc == Crc32(INIT32, got)
        invariant ReadSome(zctlesc, n, old(w)) == Prepend(got, ReadSome(zctlesc, n - |got|, w))
      {
        SomeStep(zctlesc, n - |got|, w, got);
        var c := ZdlRead();
        if c >= 0x100 {
          return Bytes(c, got, w), crc;
        }
        FedSnoc(got, c);
        crc, got := Upd32(c, crc), got + [c];
      }
      SomeDone(zctlesc, w, got);
      b := Bytes(0, got, w);
    }

    /** zrbhd32: type, four bytes and the check bytes. */
    method ZrBinHdr32() returns (r: Header)
      modifies this`w
      ensures r == ReadBinHdr(zctlesc, true, old(w)) && w == r.rest
    {
      hide ReadSome, Crc32;
      var b, crc := Feed32(9);
      if b.code != 0 { return Header(b.code, ZBIN32, [], w); }
      if crc != RESIDUE32 { return Header(TERROR, ZBIN32, [], w); }
      return Header(b.got[0], ZBIN32, b.got[1..5], w);
    }

    /** n bytes in hex, all fed to the register. */
    method FeedHex(n: nat) returns (b: Bytes, crc: bv16)
      modifies this`w
      ensures b == ReadHexes(zctlesc, n, old(w)) && w == b.rest
      ensures b.code == 0 ==> crc == Crc16(0, b.got)
    {
      hide ReadHex, ReadHexes, Upd16, Crc16, Negative;
      EmptyCrc();
      crc := 0;
      var got: seq<Byte> := [];
      while |got| < n
        invariant |got| <= n && crc == Crc16(0, got)
        invariant ReadHexes(zctlesc, n, old(w)) == Prepend(got, ReadHexes(zctlesc, n - |got|, w))
      {
        HexStep(zctlesc, n - |got|, w, got);
        var c := ZGetHex();
        if Negative(c) { return Bytes(c, got, w), crc; }
        FedSnoc(got, c);
        crc, got := Upd16(c, crc), got + [c];
      }
      HexDone(zctlesc, w, got);
      b := Bytes(0, got, w);
    }

    /** zrhhdr: the digits, then a line end, of which a line feed is not insisted on. */
    method ZrHexHdr() returns (r: Header)
      modifies this`w
      ensures r == ReadHexHdr(zctlesc, old(w)) && w == r.rest
    {
      hide ReadHexes, Crc16;
      var b, crc := FeedHex(7);
      if b.code != 0 { return Header(b.code, ZHEX, [], w); }
      if crc != 0 { return Header(TERROR, ZHEX, [], w); }
      var c := GetChar();
      if Return(c) {
        c := GetChar();
      }
      if Negative(c) { return Header(c, ZHEX, [], w); }
      return Header(b.got[0], ZHEX, b.got[1..5], w);
    }

    ghost function From(at: Label, n: nat, cans: int): Header
      reads this`w, this`zctlesc
    {
      match at
      case LAgain => Again(zctlesc, n, cans, w)
      case LGotCan => GotCan(zctlesc, n, cans, w)
      case LGarbage => Garbage(zctlesc, n, w)
      case LSplat => Splat(zctlesc, n, w)
      case LIndicator => Indicator(zctlesc, n, w)
    }

    /** zgethdr, with its labels as the values of `at`. */
    method ZGetHdr(baud: nat) returns (r: Header)
      modifies this`w, this`crc32r
      ensures r == GetHdr(zctlesc, baud, old(w)) && w == r.rest
      ensures r.kind == ZBIN32 ==> crc32r
      ensures r.kind == ZBIN || r.kind == ZHEX ==> !crc32r
    {
      r := Hunt(baud);
      if r.code == GOTCAN {
        r := r.(code := ZCAN);
      }
    }

    method Hunt(baud: nat) returns (r: Header)
      modifies this`w, this`crc32r
      ensures r == Again(zctlesc, ZRWINDOW + baud, 5, old(w)) && w == r.rest
      ensures r.kind == ZBIN32 ==> crc32r
      ensures r.kind == ZBIN || r.kind == ZHEX ==> !crc32r
    {
      hide ReadPlain, ReadBinHdr, ReadHexHdr;
      var n: nat := ZRWINDOW + baud;
      var cans, timeouts, at := 5, 5, LAgain;
      ghost var goal := Again(zctlesc, n, cans, w);
      PlainEmpty(zctlesc);
      while true
        invariant From(at, n, cans) == goal && timeouts == 5
        decreases |w|, at != LAgain
      {
        var c;
        match at
        case LAgain =>
          c := GetChar();
          if c == HANGUP { return Header(HANGUP, 0, [], w); }
          if c == TIMEOUT {
            timeouts := timeouts - 1;
            if timeouts <= 0 { return Header(TERROR, 0, [], w); }
            cans, timeouts := 5, 5;
          } else if c == CAN {
            at := LGotCan;
          } else if c == ZPAD || c == ZPAD | 0x80 {
            at := LSplat;
          } else if c != XON && c != 0x91 {
            at := LGarbage;
          }
        case LGarbage =>
          if n <= 1 { return Header(0xFFFC, 0, [], w); }
          n, cans, at := n - 1, 5, LAgain;
        case LGotCan =>
          cans := cans - 1;
          if cans <= 0 { return Header(ZCAN, 0, [], w); }
          c := GetChar();
          if c == TIMEOUT {
            at := LAgain;
          } else if c == ZCRCW {
            var d := GetChar();
            if d == TIMEOUT { return Header(TERROR, 0, [], w); }
            if d == HANGUP { return Header(c, 0, [], w); }
            at := LGarbage;
          } else if c == HANGUP {
            return Header(HANGUP, 0, [], w);
          } else if c == CAN {
            cans := cans - 1;
            if cans <= 0 { return Header(ZCAN, 0, [], w); }
            at := LAgain;
          } else {
            at := LGarbage;
          }
        case LSplat =>
          c := NoXRd7();
          if c == HANGUP || c == TIMEOUT { return Header(c, 0, [], w); }
          if c == ZDLE {
            at := LIndicator;
          } else if c != ZPAD {
            at := LGarbage;
          }
        case LIndicator =>
          cans := 5;
          c := NoXRd7();
          if c == ZBIN32 {
            crc32r := true;
            r := ZrBinHdr32();
            return;
          }
          if c == HANGUP || c == TIMEOUT { return Header(c, c, [], w); }
          if c == ZBIN {
            crc32r := false;
            r := ZrBinHdr16();
            return;
          }
          if c == ZHEX {
            crc32r := false;
            r := ZrHexHdr();
            return;
          }
          at := if c == CAN then LGotCan else LGarbage;
      }
    }
  }

  function Prepend(got: seq<Byte>, r: Bytes): Bytes {
    r.(got := got + r.got)
  }

  lemma SomeStep(ctl: bool, n: nat, w: Line, got: seq<Byte>)
    requires n > 0
    ensures var (c, v) := ReadByte(ctl, w);
      Prepend(got, ReadSome(ctl, n, w)) == if c >= 0x100 then Bytes(c, got, v) else Prepend(got + [c], ReadSome(ctl, n - 1, v))
  {
    hide ReadByte;
    var (c, v) := ReadByte(ctl, w);
    if c >= 0x100 {
      assert got + [] == got;
    } else {
      assert got + ([c] + ReadSome(ctl, n - 1, v).got) == got + [c] + ReadSome(ctl, n - 1, v).got;
    }
  }

  lemma HexStep(ctl: bool, n: nat, w: Line, got: seq<Byte>)
    requires n > 0
    ensures var (c, v) := ReadHex(ctl, w);
      Prepend(got, ReadHexes(ctl, n, w)) == if Negative(c) then Bytes(c, got, v) else Prepend(got + [c], ReadHexes(ctl, n - 1, v))
  {
    hide ReadHex, Negative;
    var (c, v) := ReadHex(ctl, w);
    if Negative(c) {
      assert got + [] == got;
    } else {
      assert got + ([c] + ReadHexes(ctl, n - 1, v).got) == got + [c] + ReadHexes(ctl, n - 1, v).got;
    }
  }

  lemma HexDone(ctl: bool, w: Line, got: seq<Byte>)
    ensures Prepend(got, ReadHexes(ctl, 0, w)) == Bytes(0, got, w)
  {
    assert got + [] == got;
  }

  lemma SomeDone(ctl: bool, w: Line, got: seq<Byte>)
    ensures Prepend(got, ReadSome(ctl, 0, w)) == Bytes(0, got, w)
  {
    assert got + [] == got;
  }

  lemma PlainEmpty(ctl: bool)
    ensures ReadPlain(ctl, []) == (HANGUP, [])
  {
  }

  lemma EmptyCrc()
    ensures Crc16(0, []) == 0 && Crc32(INIT32, []) == INIT32
  {
  }

  lemma CansEmpty()
    ensures SkipCans([], 3) == (HANGUP, [])
  {
  }

  lemma EndedError()
    ensures !Ended(TERROR) && !Ended(ZCAN)
  {
  }

  /** On an empty line the reader's code is all there is, and it is not a frame end. */
  lemma NothingRead(ctl: bool, wide: bool, line: Line, c: Code, data: seq<Byte>, fed: seq<Byte>)
    requires c == ReadByte(ctl, line).0
    ensures line == [] ==> ReadEnd(ctl, wide, c, [], data, fed) == SubResult(c, [], []) && c == HANGUP && !Ended(c)
  {
  }
}

/** ymsend.c and ymrecv.c as objects over a line of bytes, and a whole file from one to the other. */
module YTransfer {
  import opened Crc
  import opened CrcRegister
  import opened ZEscape
  import opened YBlocks
  import opened YSector
  import ZTransmit

  function Num(n: nat): Byte {
    (n % 256) as bv16
  }

  // ------------------------------------------------------------------ wcrx

  datatype RxResult = RxResult(ok: bool, out: seq<Byte>, replies: seq<Byte>, rest: Line)

  lemma OneShrinks(crc: bool, lastCan: bool, w: Line)
    ensures var (got, v) := ReadOne(crc, lastCan, w); |v| <= |w| && (got.GotSector? ==> |v| < |w|) && got != TooMany
  {
    hide ReadN, Passes;
  }

  lemma {:induction false} SectorShrinks(crc: bool, nak: Byte, errors: nat, lastCan: bool, w: Line)
    ensures var r := GetSec(crc, nak, errors, lastCan, w);
      |r.rest| <= |w| && (r.got.GotSector? ==> |r.rest| < |w|) && r.got != GotCan && r.got != Noise
    decreases RETRYMAX - errors
  {
    hide ReadOne, Drain;
    if errors < RETRYMAX {
      var (got, v) := ReadOne(crc, lastCan, w);
      OneShrinks(crc, lastCan, w);
      if got == GotCan {
        SectorShrinks(crc, nak, errors + 1, true, v);
      } else if got == Noise {
        SectorShrinks(crc, nak, errors + 1, false, Drain(1000, v));
      }
    }
  }

  /** wcrx: the sectors of one file, from count n on. */
  function Rx(crc: bool, nakchar: Byte, left: int, first: bool, sendchar: Byte, n: nat, received: nat, out: seq<Byte>, w: Line): RxResult
    decreases |w|
  {
    var g := GetSec(crc, if first then nakchar else NAK, 0, false, w);
    var said := [sendchar] + g.replies;
    SectorShrinks(crc, if first then nakchar else NAK, 0, false, w);
    match g.got
    case GotSector(num, data) =>
      if num == Num(n + 1) then
        var t := Trimmed(left, received, data);
        var r := Rx(crc, nakchar, left, false, ACK, n + 1, received + |t|, out + t, g.rest);
        r.(replies := said + r.replies)
      else if num == Num(n) then
        var r := Rx(crc, nakchar, left, false, ACK, n, received, out, g.rest);
        r.(replies := said + r.replies)
      else RxResult(false, out, said, g.rest)
    case GotEot => RxResult(true, out, said + [ACK], g.rest)
    case _ => RxResult(false, out, said, g.rest)
  }

  /** A result after earlier replies. */
  function RxAfter(said: seq<Byte>, r: RxResult): RxResult {
    r.(replies := said + r.replies)
  }

  /** The next sector and nothing before it. */
  lemma RxNext(crc: bool, nakchar: Byte, left: int, first: bool, sendchar: Byte, n: nat, received: nat, out: seq<Byte>, w: Line, data: seq<Byte>, rest: Line)
    requires GetSec(crc, if first then nakchar else NAK, 0, false, w) == SecResult(GotSector(Num(n + 1), data), [], rest)
    ensures var t := Trimmed(left, received, data);
      Rx(crc, nakchar, left, first, sendchar, n, received, out, w)
      == RxAfter([sendchar], Rx(crc, nakchar, left, false, ACK, n + 1, received + |t|, out + t, rest))
  {
    hide GetSec, Num, Trimmed;
    assert [sendchar] + [] == [sendchar];
  }

  lemma RxEot(crc: bool, nakchar: Byte, left: int, first: bool, sendchar: Byte, n: nat, received: nat, out: seq<Byte>)
    ensures Rx(crc, nakchar, left, first, sendchar, n, received, out, [EOT, TIMEOUT]) == RxResult(true, out, [sendchar, ACK], [])
  {
    hide GetSec;
    EotRead(crc, if first then nakchar else NAK);
    assert [sendchar] + [] + [ACK] == [sendchar, ACK];
  }

  /** Sectors numbered from k on, then EOT and silence. */
  function Stream(crc: bool, k: nat, bs: seq<seq<Byte>>): Line
    decreases |bs|
  {
    if bs == [] then [EOT, TIMEOUT] else Sector(crc, Num(k), bs[0]) + Stream(crc, k + 1, bs[1..])
  }

  lemma EotRead(crc: bool, nak: Byte)
    ensures GetSec(crc, nak, 0, false, [EOT, TIMEOUT]) == SecResult(GotEot, [], [])
  {
    var w: Line := [EOT, TIMEOUT];
    assert w[1..] == [TIMEOUT] && [TIMEOUT][1..] == [];
    assert ReadOne(crc, false, w) == (GotEot, []);
  }

  lemma {:induction false} RxStream(crc: bool, nakchar: Byte, left: int, first: bool, sendchar: Byte, n: nat, received: nat, out: seq<Byte>, bs: seq<seq<Byte>>)
    requires forall b :: b in bs ==> |b| == 128 || |b| == 1024
    ensures var r := Rx(crc, nakchar, left, first, sendchar, n, received, out, Stream(crc, n + 1, bs));
      && r.ok && r.rest == [] && r.out == out + Written(left, received, bs)
      && |r.replies| == |bs| + 2 && r.replies[0] == sendchar && forall k :: 1 <= k < |r.replies| ==> r.replies[k] == ACK
    decreases |bs|
  {
    hide Sector, Num, Trimmed, GetSec, Rx;
    var nak := if first then nakchar else NAK;
    if bs == [] {
      EotRead(crc, nak);
      RxEot(crc, nakchar, left, first, sendchar, n, received, out);
      assert out + [] == out;
    } else {
      var rest := Stream(crc, n + 2, bs[1..]);
      SectorRead(crc, nak, Num(n + 1), bs[0], rest);
      var t := Trimmed(left, received, bs[0]);
      RxNext(crc, nakchar, left, first, sendchar, n, received, out, Sector(crc, Num(n + 1), bs[0]) + rest, bs[0], rest);
      RxStream(crc, nakchar, left, false, ACK, n + 1, received + |t|, out + t, bs[1..]);
      assert out + t + Written(left, received + |t|, bs[1..]) == out + (t + Written(left, received + |t|, bs[1..]));
    }
  }

  /** Over an undisturbed line wcrx brings back every file of every size, with either check and either block size,
      and acknowledges each sector once. */
  lemma {:induction false} WholeFile(crc: bool, nakchar: Byte, f: seq<Byte>, blklen: nat)
    requires blklen == 128 || blklen == 1024
    ensures var r := Rx(crc, nakchar, |f|, true, nakchar, 0, 0, [], Stream(crc, 1, Blocks(f, |f|, 0, blklen)));
      r.ok && r.out == f && |r.replies| == |Blocks(f, |f|, 0, blklen)| + 2
  {
    hide Rx, Stream, Blocks, Written;
    PlanHolds(f, blklen);
    TrimmingExact(f, blklen, |f|);
    RxStream(crc, nakchar, |f|, true, nakchar, 0, 0, [], Blocks(f, |f|, 0, blklen));
  }

  // ------------------------------------------------------------------ the sender

  function PutAfter(said: seq<Byte>, r: PutResult): PutResult {
    r.(sent := said + r.sent)
  }

  lemma PutNothing(r: PutResult)
    ensures PutAfter([], r) == r
  {
    assert [] + r.sent == r.sent;
  }

  /** One attempt of wcputsec after earlier ones. */
  lemma PutUnrolled(first: bool, crc: bool, attempts: nat, last: Code, num: Byte, data: seq<Byte>, w: Line, said: seq<Byte>)
    ensures var r := PutAfter(said, PutSec(first, crc, attempts, last, num, data, w));
      if attempts > RETRYMAX then r == PutResult(Exceeded, crc, said, w)
      else
        var h := YSector.Hear(first, crc, last, w);
        var now := said + Sector(crc, num, data);
        if h.answer != Retry then r == PutResult(h.answer, h.crc, now, h.rest)
        else r == PutAfter(now, PutSec(first, h.crc, attempts + 1, h.last, num, data, h.rest))
  {
    hide Sector, YSector.Hear;
    if attempts > RETRYMAX {
      assert said + [] == said;
    } else {
      var h := YSector.Hear(first, crc, last, w);
      if h.answer == Retry {
        var r := PutSec(first, h.crc, attempts + 1, h.last, num, data, h.rest);
        assert said + (Sector(crc, num, data) + r.sent) == said + Sector(crc, num, data) + r.sent;
      }
    }
  }

  datatype TxResult = TxResult(ok: bool, crc: bool, sent: seq<Byte>, rest: Line)

  /** The sending loop of wctx on the blocks still to come, from number k on. */
  function Tx(first: bool, crc: bool, k: nat, bs: seq<seq<Byte>>, w: Line): TxResult
    decreases |bs|
  {
    if bs == [] then TxResult(true, crc, [], w) else
    var r := PutSec(first, crc, 0, 0, Num(k), bs[0], w);
    if r.answer != Acked then TxResult(false, r.crc, r.sent, r.rest) else
    var t := Tx(false, r.crc, k + 1, bs[1..], r.rest);
    t.(sent := r.sent + t.sent)
  }

  function TxAfter(said: seq<Byte>, r: TxResult): TxResult {
    r.(sent := said + r.sent)
  }

  lemma TxNothing(r: TxResult)
    ensures TxAfter([], r) == r
  {
    assert [] + r.sent == r.sent;
  }

  lemma TxUnrolled(first: bool, crc: bool, k: nat, bs: seq<seq<Byte>>, w: Line, said: seq<Byte>)
    ensures var t := TxAfter(said, Tx(first, crc, k, bs, w));
      if bs == [] then t == TxResult(true, crc, said, w)
      else
        var r := PutSec(first, crc, 0, 0, Num(k), bs[0], w);
        if r.answer != Acked then t == TxResult(false, r.crc, said + r.sent, r.rest)
        else t == TxAfter(said + r.sent, Tx(false, r.crc, k + 1, bs[1..], r.rest))
  {
    hide YSector.PutSec, Num;
    if bs == [] {
      assert said + [] == said;
    } else {
      var r := PutSec(first, crc, 0, 0, Num(k), bs[0], w);
      var t := Tx(false, r.crc, k + 1, bs[1..], r.rest);
      assert said + (r.sent + t.sent) == said + r.sent + t.sent;
    }
  }

  /** How often and with which check each sector was sent. */
  function Rounds(kinds: seq<seq<bool>>, k: nat, bs: seq<seq<Byte>>): seq<Byte>
    requires |kinds| == |bs|
    decreases |bs|
  {
    if bs == [] then [] else Copies(kinds[0], Num(k), bs[0]) + Rounds(kinds[1..], k + 1, bs[1..])
  }

  /** Whatever is answered: the sectors go out in order, each repeated until it is acknowledged, no more than eleven times,
      and none before the one before it was acknowledged; success means that all of them were. */
  lemma {:induction false} TxInOrder(first: bool, crc: bool, k: nat, bs: seq<seq<Byte>>, w: Line) returns (kinds: seq<seq<bool>>)
    ensures var r := Tx(first, crc, k, bs, w);
      && |kinds| <= |bs| && r.sent == Rounds(kinds, k, bs[..|kinds|])
      && (forall s :: s in kinds ==> 1 <= |s| <= RETRYMAX + 1)
      && (r.ok ==> |kinds| == |bs|)
      && (!r.ok ==> kinds != [])
    decreases |bs|
  {
    hide YSector.PutSec, Num, Copies;
    kinds := [];
    if bs != [] {
      var r := PutSec(first, crc, 0, 0, Num(k), bs[0], w);
      var one := PutSecSends(first, crc, 0, 0, Num(k), bs[0], w);
      var more := [];
      if r.answer == Acked {
        more := TxInOrder(false, r.crc, k + 1, bs[1..], r.rest);
      }
      kinds := [one] + more;
      assert kinds[1..] == more;
      assert bs[..|kinds|][0] == bs[0] && bs[..|kinds|][1..] == bs[1..][..|more|];
      if r.answer != Acked {
        assert Copies(one, Num(k), bs[0]) + [] == Copies(one, Num(k), bs[0]);
      }
    }
  }

  lemma WideSnoc(c: bv32, s: seq<Byte>, n: nat)
    requires n < |s|
    ensures CrcWide(c, s[..n + 1]) == UpdWide(s[n], CrcWide(c, s[..n]))
  {
    assert s[..n + 1] == s[..n] + [s[n]];
    WideAppend(c, s[..n], s[n]);
  }

  lemma {:induction false} WideAppend(c: bv32, s: seq<Byte>, b: Byte)
    ensures CrcWide(c, s + [b]) == UpdWide(b, CrcWide(c, s))
    decreases |s|
  {
    hide UpdWide;
    if s == [] {
      assert s + [b] == [b] && [b][1..] == [];
    } else {
      assert (s + [b])[1..] == s[1..] + [b];
      WideAppend(UpdWide(s[0], c), s[1..], b);
    }
  }

  lemma {:induction false} SumAppend(acc: Byte, s: seq<Byte>, b: Byte)
    ensures Sum8(acc, s + [b]) == Add8(Sum8(acc, s), b)
    decreases |s|
  {
    hide Add8;
    if s == [] {
      assert s + [b] == [b] && [b][1..] == [];
    } else {
      assert (s + [b])[1..] == s[1..] + [b];
      SumAppend(Add8(acc, s[0]), s[1..], b);
    }
  }

  function HighByte(c: bv32): Byte {
    Low16(c) >> 8
  }

  function LowByte(c: bv32): Byte {
    Low16(c) & 0xFF
  }

  /** The check bytes that the uncut register gives. */
  lemma WideChecks(data: seq<Byte>)
    ensures var c := UpdWide(0, UpdWide(0, CrcWide(0, data))); Flush16(Crc16(0, data)) == [HighByte(c), LowByte(c)]
  {
    hide UpdWide, Upd16;
    assert Low16(0) == 0;
    WideAgrees(0, data);
    hide Low16;
    WideStep(0, CrcWide(0, data));
    WideStep(0, UpdWide(0, CrcWide(0, data)));
  }

  class YSender {
    var crcflg: bool
    var firstsec: bool
    /** What GETCHAR has still to return, and what was sent. */
    var w: Line
    var sent: seq<Byte>

    constructor (w: Line)
      ensures this.w == w && sent == [] && !crcflg && firstsec
    {
      this.w, sent, crcflg, firstsec := w, [], false, true;
    }

    method SendLine(c: Byte)
      modifies this`sent
      ensures sent == old(sent) + [c]
    {
      sent := sent + [c];
    }

    method GetChar() returns (c: Code)
      modifies this`w
      ensures c == Get(old(w)) && w == Rest(old(w))
    {
      if w == [] {
        c := HANGUP;
      } else {
        c, w := w[0], w[1..];
      }
    }

    /** The data of a sector, with both checks kept up on the way. */
    method SendData(buf: array<Byte>, cseclen: nat) returns (oldcrc: bv32, checksum: Byte)
      requires cseclen <= buf.Length
      modifies this`sent
      ensures sent == old(sent) + buf[..cseclen]
      ensures oldcrc == CrcWide(0, buf[..cseclen]) && checksum == Sum8(0, buf[..cseclen])
    {
      hide UpdWide, Sum8;
      oldcrc, checksum := 0, 0;
      assert CrcWide(0, []) == 0;
      SumNone();
      var wcj := 0;
      while wcj < cseclen
        invariant 0 <= wcj <= cseclen && sent == old(sent) + buf[..wcj]
        invariant oldcrc == CrcWide(0, buf[..wcj]) && checksum == Sum8(0, buf[..wcj])
      {
        SendLine(buf[wcj]);
        WideSnoc(0, buf[..], wcj);
        assert buf[..][..wcj] == buf[..wcj] && buf[..][..wcj + 1] == buf[..wcj + 1] == buf[..wcj] + [buf[wcj]];
        SumAppend(0, buf[..wcj], buf[wcj]);
        oldcrc := UpdWide(buf[wcj], oldcrc);
        checksum := Add8(checksum, buf[wcj]);
        wcj := wcj + 1;
      }
    }

    method SendChecks(crc: bv32, checksum: Byte, ghost data: seq<Byte>)
      requires crc == CrcWide(0, data) && checksum == Sum8(0, data)
      modifies this`sent
      ensures sent == old(sent) + Checks(crcflg, data)
    {
      hide UpdWide, Sum8, CrcWide, Flush16, Crc16, Low16, HighByte, LowByte;
      if crcflg {
        WideChecks(data);
        var oldcrc := UpdWide(0, UpdWide(0, crc));
        SendLine(HighByte(oldcrc));
        SendLine(LowByte(oldcrc));
      } else {
        SendLine(checksum);
      }
    }

    method SendSector(buf: array<Byte>, sectnum: nat, cseclen: nat)
      requires cseclen <= buf.Length
      modifies this`sent
      ensures sent == old(sent) + Sector(crcflg, Num(sectnum), buf[..cseclen])
    {
      hide Sum8, CrcWide, Checks, Num;
      SendLine(if cseclen == 1024 then STX else SOH);
      SendLine(Num(sectnum));
      Complement(Num(sectnum));
      SendLine(0xFF - Num(sectnum));
      var oldcrc, checksum := SendData(buf, cseclen);
      SendChecks(oldcrc, checksum, buf[..cseclen]);
    }

    /** What follows a sector: the code up to the end of an attempt. */
    method Hear(last: Code) returns (answer: Answer, firstch: Code)
      modifies this`w, this`crcflg
      ensures YSector.Hear(firstsec, old(crcflg), last, old(w)) == Heard(answer, crcflg, firstch, w)
    {
      var lastrx := last;
      firstch := GetChar();
      if firstch == CAN {
        if lastrx == CAN { return GaveUp, firstch; }
      } else if firstch == TIMEOUT || firstch == NAK {
        return Retry, firstch;
      } else if firstch == WANTCRC {
        if firstsec { crcflg := true; }
        return Retry, firstch;
      } else if firstch == ACK {
        return Acked, firstch;
      }
      while w != []
        invariant Listen(firstsec, crcflg, firstch, w) == YSector.Hear(firstsec, old(crcflg), last, old(w))
        invariant crcflg == old(crcflg)
        decreases |w|
      {
        lastrx := firstch;
        firstch := GetChar();
        if firstch == TIMEOUT || firstch == NAK { return Retry, firstch; }
        if firstch == WANTCRC {
          if firstsec { crcflg := true; }
          return Retry, firstch;
        }
        if firstch == CAN && lastrx == CAN { return GaveUp, firstch; }
      }
      return Stuck, firstch;
    }

    /** One attempt of wcputsec. */
    method Attempt(buf: array<Byte>, sectnum: nat, cseclen: nat, last: Code) returns (answer: Answer, firstch: Code)
      requires cseclen <= buf.Length
      modifies this`w, this`sent, this`crcflg
      ensures sent == old(sent) + Sector(old(crcflg), Num(sectnum), buf[..cseclen])
      ensures YSector.Hear(firstsec, old(crcflg), last, old(w)) == Heard(answer, crcflg, firstch, w)
    {
      hide Sector, YSector.Hear, Num;
      SendSector(buf, sectnum, cseclen);
      answer, firstch := Hear(last);
    }

    /** wcputsec. */
    method WcPutSec(buf: array<Byte>, sectnum: nat, cseclen: nat) returns (answer: Answer)
      requires cseclen <= buf.Length
      modifies this`w, this`sent, this`crcflg, this`firstsec
      ensures var r := PutSec(old(firstsec), old(crcflg), 0, 0, Num(sectnum), buf[..cseclen], old(w));
        answer == r.answer && crcflg == r.crc && w == r.rest && sent == old(sent) + r.sent
      ensures firstsec == (old(firstsec) && answer != Acked)
    {
      hide Sector, YSector.Hear, Num, PutSec, PutAfter;
      var firstch: Code := 0;
      var attempts := 0;
      ghost var data := buf[..cseclen];
      ghost var goal := PutSec(firstsec, crcflg, 0, 0, Num(sectnum), data, w);
      ghost var said: seq<Byte> := [];
      PutNothing(goal);
      while attempts <= RETRYMAX
        invariant 0 <= attempts <= RETRYMAX + 1 && firstsec == old(firstsec) && sent == old(sent) + said
        invariant buf[..cseclen] == data
        invariant goal == PutAfter(said, PutSec(firstsec, crcflg, attempts, firstch, Num(sectnum), data, w))
      {
        PutUnrolled(firstsec, crcflg, attempts, firstch, Num(sectnum), data, w, said);
        said := said + Sector(crcflg, Num(sectnum), data);
        answer, firstch := Attempt(buf, sectnum, cseclen, firstch);
        if answer != Retry {
          if answer == Acked { firstsec := false; }
          return;
        }
        attempts := attempts + 1;
      }
      PutUnrolled(firstsec, crcflg, attempts, firstch, Num(sectnum), data, w, said);
      return Exceeded;
    }

    /** The sending loop of wctx: sectors 1 and up, each filled, padded and sent until it is acknowledged. */
    method SendFile(f: seq<Byte>, blklen: nat, buf: array<Byte>) returns (ok: bool)
      requires (blklen == 128 || blklen == 1024) && buf.Length >= 1024
      modifies this, buf
      ensures var r := Tx(old(firstsec), old(crcflg), 1, Blocks(f, |f|, 0, blklen), old(w));
        ok == r.ok && crcflg == r.crc && w == r.rest && sent == old(sent) + r.sent
    {
      hide YSector.PutSec, BlockLength, TxAfter, Num;
      var thisblklen := blklen;
      var sectnum: nat := 0;
      var bytesSent: nat := 0;
      ghost var bs := Blocks(f, |f|, 0, blklen);
      ghost var goal := Tx(firstsec, crcflg, 1, bs, w);
      ghost var said: seq<Byte> := [];
      TxNothing(goal);
      while true
        invariant goal == TxAfter(said, Tx(firstsec, crcflg, sectnum + 1, bs, w)) && bs == Blocks(f, |f|, bytesSent, blklen)
        invariant thisblklen == blklen || (thisblklen == 128 && |f| <= bytesSent + 896)
        invariant sent == old(sent) + said
        decreases |bs|
      {
        Unrolled(f, bytesSent, blklen);
        TxUnrolled(firstsec, crcflg, sectnum + 1, bs, w, said);
        if |f| <= bytesSent + 896 { thisblklen := 128; }
        var n := FilBuf(f, bytesSent, buf, thisblklen);
        if n == 0 { return true; }
        sectnum := sectnum + 1;
        said := said + PutSec(firstsec, crcflg, 0, 0, Num(sectnum), bs[0], w).sent;
        var answer := WcPutSec(buf, sectnum, thisblklen);
        if answer != Acked { return false; }
        bytesSent := bytesSent + thisblklen;
        bs := bs[1..];
      }
    }

    /** wctx after the data: EOT until it is acknowledged, and an ACK for the tenth comes too late. */
    method SendEot() returns (ok: bool, attempts: nat)
      modifies this`w, this`sent
      ensures (ok, attempts, w) == PutEot(0, old(w))
      ensures 1 <= attempts <= RETRYMAX && sent == old(sent) + Eots(attempts) && (ok <==> attempts < RETRYMAX)
      ensures ok ==> |old(w)| >= attempts && old(w)[attempts - 1] == ACK
    {
      attempts := 0;
      ghost var start := w;
      var firstch: Code := 0;
      while firstch != ACK && attempts < RETRYMAX
        invariant 0 <= attempts <= RETRYMAX && sent == old(sent) + Eots(attempts)
        invariant w == if attempts <= |start| then start[attempts..] else []
        invariant firstch == if attempts == 0 then 0 else if attempts <= |start| then start[attempts - 1] else HANGUP
        invariant PutEot(0, start) == if firstch != ACK && attempts < RETRYMAX then PutEot(attempts, w) else (attempts != RETRYMAX, attempts, w)
        decreases RETRYMAX - attempts
      {
        SendLine(EOT);
        assert Eots(attempts + 1) == Eots(attempts) + [EOT];
        attempts := attempts + 1;
        firstch := GetChar();
      }
      ok := attempts != RETRYMAX;
    }
  }

  /** The loop with EOT from an attempt on: whether it succeeds, the attempts made, and what is left of the line. */
  function PutEot(attempts: nat, w: Line): (bool, nat, Line)
    requires attempts < RETRYMAX
    decreases RETRYMAX - attempts
  {
    var c, v := Get(w), Rest(w);
    if c == ACK || attempts + 1 == RETRYMAX then (attempts + 1 != RETRYMAX, attempts + 1, v) else PutEot(attempts + 1, v)
  }

  function Eots(n: nat): seq<Byte> {
    seq(n, _ => EOT)
  }

  lemma SumNone()
    ensures Sum8(0, []) == 0
  {
  }

  lemma Unrolled(f: seq<Byte>, sent: nat, blklen: nat)
    requires blklen == 128 || blklen == 1024
    ensures var bs := Blocks(f, |f|, sent, blklen); var n := if |f| <= sent + 896 then 128 else blklen;
      (bs == [] <==> sent >= |f|) && (bs != [] ==> bs[0] == Padded(f, sent, n) && bs[1..] == Blocks(f, |f|, sent + n, blklen))
  {
    hide Padded;
  }

  // ------------------------------------------------------------------ the receiver

  /** One turn of wcrx after earlier replies. */
  lemma RxUnrolled(crc: bool, nakchar: Byte, left: int, first: bool, sendchar: Byte, n: nat, received: nat, out: seq<Byte>, w: Line, said: seq<Byte>)
    ensures var g := GetSec(crc, if first then nakchar else NAK, 0, false, w);
      var r := RxAfter(said, Rx(crc, nakchar, left, first, sendchar, n, received, out, w));
      var now := said + ([sendchar] + g.replies);
      match g.got
      case GotSector(num, data) =>
        var t := Trimmed(left, received, data);
        if num == Num(n + 1) then r == RxAfter(now, Rx(crc, nakchar, left, false, ACK, n + 1, received + |t|, out + t, g.rest))
        else if num == Num(n) then r == RxAfter(now, Rx(crc, nakchar, left, false, ACK, n, received, out, g.rest))
        else r == RxResult(false, out, now, g.rest)
      case GotEot => r == RxResult(true, out, now + [ACK], g.rest)
      case _ => r == RxResult(false, out, now, g.rest)
  {
    hide GetSec, Num, Trimmed;
    var g := GetSec(crc, if first then nakchar else NAK, 0, false, w);
    forall more: seq<Byte> ensures said + ([sendchar] + g.replies + more) == said + ([sendchar] + g.replies) + more {
    }
  }

  lemma AfterNothing(r: RxResult)
    ensures RxAfter([], r) == r
  {
    assert [] + r.replies == r.replies;
  }

  lemma AfterOne(said: seq<Byte>, c: Byte, r: SecResult)
    ensures After(said, r.(replies := [c] + r.replies)) == After(said + [c], r)
  {
    assert said + ([c] + r.replies) == said + [c] + r.replies;
  }

  /** A result after earlier replies. */
  function After(replies: seq<Byte>, r: SecResult): SecResult {
    r.(replies := replies + r.replies)
  }

  class YReceiver {
    const crcflg: bool
    const nakchar: Byte
    var firstsec: bool
    var w: Line
    var sent: seq<Byte>
    /** putsec: what has been written to the file. */
    var out: seq<Byte>

    constructor (crcflg: bool, nakchar: Byte, w: Line)
      ensures this.crcflg == crcflg && this.nakchar == nakchar && this.w == w && sent == [] && out == []
    {
      this.crcflg, this.nakchar, this.w := crcflg, nakchar, w;
      firstsec, sent, out := true, [], [];
    }

    method GetChar() returns (c: Code)
      modifies this`w
      ensures c == Get(old(w)) && w == Rest(old(w))
    {
      if w == [] {
        c := HANGUP;
      } else {
        c, w := w[0], w[1..];
      }
    }

    method SendLine(c: Byte)
      modifies this`sent
      ensures sent == old(sent) + [c]
    {
      sent := sent + [c];
    }

    /** The data of a sector, with both checks kept up on the way. */
    method ReadData(buf: array<Byte>, length: nat) returns (ok: bool, oldcrc: bv16, checksum: Byte)
      requires length <= buf.Length
      modifies this`w, buf
      ensures var r := ReadN(length, old(w));
        ok == r.1 && w == r.2 && (ok ==> buf[..length] == r.0 && oldcrc == Crc16(0, r.0) && checksum == Sum8(0, r.0))
    {
      hide Upd16, Add8, Sum8, Crc16, ReadN;
      oldcrc, checksum := 0, 0;
      SumNone();
      CrcNone();
      Behindless(ReadN(length, w));
      var n := 0;
      assert buf[..0] == [];
      while n < length
        invariant 0 <= n <= length && oldcrc == Crc16(0, buf[..n]) && checksum == Sum8(0, buf[..n])
        invariant ReadN(length, old(w)) == Behind(buf[..n], ReadN(length - n, w))
      {
        ghost var before := buf[..n];
        ReadNStep(length - n, w, before);
        var c := GetChar();
        if c >= 0x100 { return false, oldcrc, checksum; }
        buf[n] := c;
        assert buf[..n + 1] == before + [c];
        ZTransmit.Crc16Last(before, c);
        SumAppend(0, before, c);
        oldcrc := Upd16(c, oldcrc);
        checksum := Add8(checksum, c);
        n := n + 1;
      }
      ReadNDone(w, buf[..n]);
      ok := true;
    }

    /** The check behind the data. */
    method ReadChecks(oldcrc: bv16, checksum: Byte, ghost data: seq<Byte>) returns (ok: bool)
      requires oldcrc == Crc16(0, data) && checksum == Sum8(0, data)
      modifies this`w
      ensures var (checks, good, v) := ReadN(if crcflg then 2 else 1, old(w));
        w == v && (ok <==> good && Passes(crcflg, data, checks))
    {
      hide Upd16, Sum8, Crc16;
      ReadTwo(old(w));
      var c := GetChar();
      if c >= 0x100 { return false; }
      if crcflg {
        ZTransmit.Crc16Last(data, c);
        var crc := Upd16(c, oldcrc);
        var d := GetChar();
        if d >= 0x100 { return false; }
        ZTransmit.Crc16Last(data + [c], d);
        assert data + [c] + [d] == data + [c, d];
        crc := Upd16(d, crc);
        return crc == 0;
      }
      return checksum == c;
    }

    /** The label get2. */
    method ReadBlock(buf: array<Byte>, length: nat) returns (ok: bool, num: Byte)
      requires length <= buf.Length
      modifies this`w, buf
      ensures var (got, v) := YSector.ReadBlock(crcflg, length, old(w));
        w == v && (if ok then got == GotSector(num, buf[..length]) else got == Noise)
    {
      hide Passes, ReadN, Crc16, Sum8, Paired;
      num := 0;
      var sectcurr := GetChar();
      var oldcrc := GetChar();
      if !Paired(sectcurr, oldcrc) { return false, num; }
      PairedByte(sectcurr, oldcrc);
      var good, crc, sum := ReadData(buf, length);
      if !good { return false, num; }
      ok := ReadChecks(crc, sum, buf[..length]);
      num := sectcurr;
    }

    /** Reading until the line is quiet. */
    method Quiet()
      modifies this`w
      ensures w == Drain(1000, old(w))
    {
      var cnt := 1000;
      while cnt > 0
        invariant 0 <= cnt <= 1000 && Drain(cnt, w) == Drain(1000, old(w))
      {
        var c := GetChar();
        if c == TIMEOUT { return; }
        cnt := cnt - 1;
      }
    }

    /** One turn of the loop in wcgetsec. */
    method Turn(buf: array<Byte>, lastCan: bool) returns (got: Got, blklen: nat)
      requires buf.Length >= 1024
      modifies this`w, buf
      ensures (got, w) == ReadOne(crcflg, lastCan, old(w))
      ensures got.GotSector? ==> blklen <= buf.Length && got.data == buf[..blklen]
    {
      hide YSector.ReadBlock;
      blklen := 0;
      var firstch := GetChar();
      if firstch == STX || firstch == SOH {
        blklen := if firstch == STX then 1024 else 128;
        var ok, num := ReadBlock(buf, blklen);
        return if ok then GotSector(num, buf[..blklen]) else Noise, blklen;
      }
      if firstch == EOT {
        var next := GetChar();
        return if next == TIMEOUT then GotEot else Noise, blklen;
      }
      if firstch == CAN { return if lastCan then Cancelled else GotCan, blklen; }
      return Noise, blklen;
    }

    /** wcgetsec: what came, and how much of it is in the buffer. */
    method WcGetSec(buf: array<Byte>) returns (got: Got, blklen: nat)
      requires buf.Length >= 1024
      modifies this`w, this`sent, this`firstsec, buf
      ensures var r := GetSec(crcflg, if old(firstsec) then nakchar else NAK, 0, false, old(w));
        && w == r.rest && sent == old(sent) + r.replies && got == r.got
        && (got.GotSector? ==> blklen <= buf.Length && got.data == buf[..blklen])
      ensures firstsec == (old(firstsec) && !got.GotSector?)
    {
      hide ReadOne, Drain;
      blklen := 0;
      var nak := if firstsec then nakchar else NAK;
      var lastCan := false;
      var errors := 0;
      ghost var goal := GetSec(crcflg, nak, 0, false, w);
      ghost var said: seq<Byte> := [];
      assert [] + goal.replies == goal.replies;
      while errors < RETRYMAX
        invariant 0 <= errors <= RETRYMAX && firstsec == old(firstsec)
        invariant goal == After(said, GetSec(crcflg, nak, errors, lastCan, w)) && sent == old(sent) + said
      {
        got, blklen := Turn(buf, lastCan);
        if got != Noise && got != GotCan {
          if got.GotSector? { firstsec := false; }
          return;
        }
        lastCan := got == GotCan;
        if !lastCan {
          Quiet();
          SendLine(nak);
          AfterOne(said, nak, GetSec(crcflg, nak, errors + 1, false, w));
          said := said + [nak];
        }
        errors := errors + 1;
      }
      return TooMany, blklen;
    }

    /** The part of a sector that belongs to the file. */
    method PutSec(bytesleft: int, received: nat, buf: array<Byte>, blklen: nat) returns (total: nat)
      requires blklen <= buf.Length
      modifies this`out
      ensures var t := Trimmed(bytesleft, received, buf[..blklen]); out == old(out) + t && total == received + |t|
    {
      var n := blklen;
      if bytesleft != 0 && 0 <= bytesleft - received < n { n := bytesleft - received; }
      out := out + buf[..n];
      total := received + n;
    }

    /** wcrx. */
    method WcRx(bytesleft: int, buf: array<Byte>) returns (ok: bool)
      requires buf.Length >= 1024
      modifies this, buf
      ensures var r := Rx(crcflg, nakchar, bytesleft, true, nakchar, 0, 0, old(out), old(w));
        ok == r.ok && out == r.out && w == r.rest && sent == old(sent) + r.replies
    {
      hide GetSec, Num, Trimmed, Rx, RxAfter;
      firstsec := true;
      var sendchar := nakchar;
      var sectnum: nat := 0;
      var received: nat := 0;
      ghost var goal := Rx(crcflg, nakchar, bytesleft, true, nakchar, 0, 0, out, w);
      ghost var said: seq<Byte> := [];
      AfterNothing(goal);
      while true
        invariant goal == RxAfter(said, Rx(crcflg, nakchar, bytesleft, firstsec, sendchar, sectnum, received, out, w))
        invariant sent == old(sent) + said
        decreases |w|
      {
        ghost var nak := if firstsec then nakchar else NAK;
        SectorShrinks(crcflg, nak, 0, false, w);
        RxUnrolled(crcflg, nakchar, bytesleft, firstsec, sendchar, sectnum, received, out, w, said);
        said := said + ([sendchar] + GetSec(crcflg, nak, 0, false, w).replies);
        SendLine(sendchar);
        var got, blklen := WcGetSec(buf);
        if got == GotEot {
          SendLine(ACK);
          return true;
        }
        if !got.GotSector? { return false; }
        if got.num == Num(sectnum + 1) {
          sectnum := sectnum + 1;
          received := PutSec(bytesleft, received, buf, blklen);
        } else if got.num != Num(sectnum) {
          return false;
        }
        sendchar := ACK;
      }
    }
  }

  /** What is read after `got` has been. */
  function Behind(got: seq<Byte>, r: (seq<Byte>, bool, Line)): (seq<Byte>, bool, Line) {
    (got + r.0, r.1, r.2)
  }

  lemma ReadNStep(n: nat, w: Line, got: seq<Byte>)
    requires n > 0
    ensures var c := Get(w);
      Behind(got, ReadN(n, w)) == if c >= 0x100 then (got, false, Rest(w)) else Behind(got + [c], ReadN(n - 1, Rest(w)))
  {
    if Get(w) < 0x100 {
      var r := ReadN(n - 1, Rest(w));
      assert got + ([Get(w)] + r.0) == got + [Get(w)] + r.0;
    } else {
      assert got + [] == got;
    }
  }

  lemma ReadNDone(w: Line, got: seq<Byte>)
    ensures Behind(got, ReadN(0, w)) == (got, true, w)
  {
    assert got + [] == got;
  }

  lemma PairedByte(a: Code, b: Code)
    ensures Paired(a, b) ==> a < 0x100
  {
  }

  lemma CrcNone()
    ensures Crc16(0, []) == 0
  {
  }

  lemma ReadTwo(w: Line)
    ensures var c := Get(w); var d := Get(Rest(w));
      && ReadN(1, w) == (if c >= 0x100 then ([], false, Rest(w)) else ([c], true, Rest(w)))
      && ReadN(2, w) == (if c >= 0x100 then ([], false, Rest(w)) else if d >= 0x100 then ([c], false, Rest(Rest(w)))
                         else ([c, d], true, Rest(Rest(w))))
  {
    hide ReadN;
    var v := Rest(w);
    Behindless(ReadN(1, w));
    Behindless(ReadN(2, w));
    ReadNStep(1, w, []);
    ReadNStep(2, w, []);
    if Get(w) < 0x100 {
      assert [] + [Get(w)] == [Get(w)];
      ReadNDone(v, [Get(w)]);
      ReadNStep(1, v, [Get(w)]);
      if Get(v) < 0x100 {
        assert [Get(w)] + [Get(v)] == [Get(w), Get(v)];
        ReadNDone(Rest(v), [Get(w), Get(v)]);
      }
    }
  }

  lemma Behindless(r: (seq<Byte>, bool, Line))
    ensures Behind([], r) == r
  {
    assert [] + r.0 == r.0;
  }
}

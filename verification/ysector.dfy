/** XMODEM and YMODEM sectors on the wire: what wcputsec sends, and what wcgetsec makes of a line. */
module YSector {
  import opened Crc
  import opened CrcDetect
  import opened YBlocks
  import opened ZEscape

  const SOH: Byte := 0x01
  const STX: Byte := 0x02
  const EOT: Byte := 0x04
  const ACK: Byte := 0x06
  const NAK: Byte := 0x15
  const WANTCRC: Byte := 0x43

  // ------------------------------------------------------------------ sectors

  function Add8(a: Byte, b: Byte): Byte {
    (a + b) & 0xFF
  }

  /** The checksum, of which one byte is sent. */
  function Sum8(acc: Byte, s: seq<Byte>): Byte
    decreases |s|
  {
    if s == [] then acc else Sum8(Add8(acc, s[0]), s[1..])
  }

  function Checks(crc: bool, data: seq<Byte>): seq<Byte> {
    if crc then Flush16(Crc16(0, data)) else [Sum8(0, data)]
  }

  predicate Passes(crc: bool, data: seq<Byte>, checks: seq<Byte>) {
    if crc then Crc16(0, data + checks) == 0 else checks == [Sum8(0, data)]
  }

  function Sector(crc: bool, num: Byte, data: seq<Byte>): seq<Byte> {
    [if |data| == 1024 then STX else SOH, num, 0xFF - num] + data + Checks(crc, data)
  }

  // ------------------------------------------------------------------ reading

  datatype Got = GotSector(num: Byte, data: seq<Byte>) | GotEot | GotCan | Cancelled | Noise | TooMany

  /** n bytes, or those before a code that is none. */
  function ReadN(n: nat, w: Line): (r: (seq<Byte>, bool, Line))
    ensures |r.2| <= |w| && |r.0| <= n && (r.1 ==> |r.0| == n)
    decreases n
  {
    if n == 0 then ([], true, w)
    else if Get(w) >= 0x100 then ([], false, Rest(w))
    else
      var (s, ok, v) := ReadN(n - 1, Rest(w));
      ([Get(w)] + s, ok, v)
  }

  /** A sector number and its complement. */
  predicate Paired(a: Code, b: Code) {
    a < 0x100 && b < 0x100 && a + b == 0xFF
  }

  /** The label get2: number and complement, data, check. */
  function ReadBlock(crc: bool, length: nat, w: Line): (r: (Got, Line))
    ensures |r.1| <= |w|
  {
    var a, b, v := Get(w), Get(Rest(w)), Rest(Rest(w));
    if !Paired(a, b) then (Noise, v) else
    var (data, ok, u) := ReadN(length, v);
    if !ok then (Noise, u) else
    var (checks, ok2, t) := ReadN(if crc then 2 else 1, u);
    if ok2 && Passes(crc, data, checks) then (GotSector(a, data), t) else (Noise, t)
  }

  /** One turn of the loop in wcgetsec. */
  function ReadOne(crc: bool, lastCan: bool, w: Line): (r: (Got, Line))
    ensures |r.1| <= |w|
  {
    var c, v := Get(w), Rest(w);
    if c == STX then ReadBlock(crc, 1024, v)
    else if c == SOH then ReadBlock(crc, 128, v)
    else if c == EOT then (if Get(v) == TIMEOUT then GotEot else Noise, Rest(v))
    else if c == CAN then (if lastCan then Cancelled else GotCan, v)
    else (Noise, v)
  }

  /** Reading on until the line is quiet, a thousand codes at most. */
  function Drain(n: nat, w: Line): (r: Line)
    ensures |r| <= |w|
    decreases n
  {
    if n == 0 then w else if Get(w) == TIMEOUT then Rest(w) else Drain(n - 1, Rest(w))
  }

  datatype SecResult = SecResult(got: Got, replies: seq<Byte>, rest: Line)

  /** wcgetsec: up to ten turns, each unreadable one answered with `nak`. */
  function GetSec(crc: bool, nak: Byte, errors: nat, lastCan: bool, w: Line): SecResult
    decreases RETRYMAX - errors
  {
    if errors >= RETRYMAX then SecResult(TooMany, [], w) else
    var (got, v) := ReadOne(crc, lastCan, w);
    match got
    case GotCan => GetSec(crc, nak, errors + 1, true, v)
    case Noise =>
      var r := GetSec(crc, nak, errors + 1, false, Drain(1000, v));
      r.(replies := [nak] + r.replies)
    case _ => SecResult(got, [], v)
  }

  // ------------------------------------------------------------------ what arrives is what was sent

  lemma {:induction false} ReadBytes(s: seq<Byte>, tail: Line)
    ensures ReadN(|s|, s + tail) == (s, true, tail)
    decreases |s|
  {
    if s == [] {
      assert s + tail == tail;
    } else {
      assert (s + tail)[1..] == s[1..] + tail;
      ReadBytes(s[1..], tail);
      assert [s[0]] + s[1..] == s;
    }
  }

  lemma ChecksPass(crc: bool, data: seq<Byte>)
    ensures Passes(crc, data, Checks(crc, data)) && |Checks(crc, data)| == if crc then 2 else 1
  {
    hide Crc16, Flush16;
    Residue16(data);
  }

  lemma Complement(num: Byte)
    ensures 0xFF - num < 0x100 && num + (0xFF - num) == 0xFF
  {
  }

  lemma ReadBlockOf(crc: bool, num: Byte, data: seq<Byte>, checks: seq<Byte>, tail: Line)
    requires |checks| == if crc then 2 else 1
    ensures ReadBlock(crc, |data|, [num, 0xFF - num] + (data + (checks + tail)))
         == (if Passes(crc, data, checks) then GotSector(num, data) else Noise, tail)
  {
    hide Passes;
    Complement(num);
    var body := data + (checks + tail);
    var w := [num, 0xFF - num] + body;
    assert Rest(Rest(w)) == body;
    ReadBytes(data, checks + tail);
    ReadBytes(checks, tail);
  }

  /** A sector is read back, number and data, whatever follows. */
  lemma SectorRead(crc: bool, nak: Byte, num: Byte, data: seq<Byte>, tail: Line)
    requires |data| == 128 || |data| == 1024
    ensures GetSec(crc, nak, 0, false, Sector(crc, num, data) + tail) == SecResult(GotSector(num, data), [], tail)
  {
    hide Passes, Checks, ReadBlock;
    ChecksPass(crc, data);
    ReadBlockOf(crc, num, data, Checks(crc, data), tail);
    var w := Sector(crc, num, data) + tail;
    assert w == [w[0]] + ([num, 0xFF - num] + (data + (Checks(crc, data) + tail)));
    assert w[1..] == [num, 0xFF - num] + (data + (Checks(crc, data) + tail));
  }

  /** A sector damaged inside two adjacent bytes of its data and check is never taken, however long it is. */
  lemma {:induction false} SectorDamage(lastCan: bool, num: Byte, data: seq<Byte>, pre: seq<Byte>, s: seq<Byte>, t: seq<Byte>, post: seq<Byte>, tail: Line)
    requires |data| == 128 || |data| == 1024
    requires data + Checks(true, data) == pre + s + post && |s| == 2 && |t| == 2 && s != t
    ensures ReadOne(true, lastCan, Sector(true, num, data)[..3] + (pre + t + post) + tail) == (Noise, tail)
  {
    hide ReadBlock, Crc16, Flush16;
    ChecksPass(true, data);
    var body := pre + t + post;
    var d, checks := body[..|data|], body[|data|..];
    assert |body| == |pre + s + post| == |data| + 2;
    assert d + checks == body;
    assert !Passes(true, d, checks) by {
      if Crc16(0, pre + t + post) == 0 {
        Detects16(pre, s, t, post);
      }
    }
    hide Passes;
    ReadBlockOf(true, num, d, checks, tail);
    var w := Sector(true, num, data)[..3] + body + tail;
    assert w[1..] == [num, 0xFF - num] + (d + (checks + tail));
  }

  // ------------------------------------------------------------------ sending and listening

  datatype Answer = Acked | Retry | GaveUp | Stuck | Exceeded

  /** What wcputsec is told, whether it switched to CRC, the last code read, and what is left of the line. */
  datatype Heard = Heard(answer: Answer, crc: bool, last: Code, rest: Line)

  /** The inner loop, which waits for quiet, NAK or CAN CAN.  On a line that has hung up the code stays in it. */
  function Listen(first: bool, crc: bool, last: Code, w: Line): Heard
    decreases |w|
  {
    if w == [] then Heard(Stuck, crc, last, w) else
    var c, v := w[0], w[1..];
    if c == TIMEOUT then Heard(Retry, crc, c, v)
    else if c == NAK then Heard(Retry, crc, c, v)
    else if c == WANTCRC then Heard(Retry, crc || first, c, v)
    else if c == CAN && last == CAN then Heard(GaveUp, crc, c, v)
    else Listen(first, crc, c, v)
  }

  /** The answer to a sector: `last` is what was read before. */
  function Hear(first: bool, crc: bool, last: Code, w: Line): Heard {
    var c, v := Get(w), Rest(w);
    if c == CAN && last == CAN then Heard(GaveUp, crc, c, v)
    else if c == TIMEOUT || c == NAK then Heard(Retry, crc, c, v)
    else if c == WANTCRC then Heard(Retry, crc || first, c, v)
    else if c == ACK then Heard(Acked, crc, c, v)
    else Listen(first, crc, c, v)
  }

  datatype PutResult = PutResult(answer: Answer, crc: bool, sent: seq<Byte>, rest: Line)

  /** wcputsec from its attempt number `attempts` on. */
  function PutSec(first: bool, crc: bool, attempts: nat, last: Code, num: Byte, data: seq<Byte>, w: Line): PutResult
    decreases RETRYMAX + 1 - attempts
  {
    if attempts > RETRYMAX then PutResult(Exceeded, crc, [], w) else
    var h := Hear(first, crc, last, w);
    if h.answer != Retry then PutResult(h.answer, h.crc, Sector(crc, num, data), h.rest) else
    var r := PutSec(first, h.crc, attempts + 1, h.last, num, data, h.rest);
    r.(sent := Sector(crc, num, data) + r.sent)
  }

  /** Copies of one sector, each with the kind of check given. */
  function Copies(kinds: seq<bool>, num: Byte, data: seq<Byte>): seq<Byte>
    decreases |kinds|
  {
    if kinds == [] then [] else Sector(kinds[0], num, data) + Copies(kinds[1..], num, data)
  }

  /** `rest` is what follows an ACK on the line. */
  predicate AfterAck(w: Line, rest: Line) {
    |rest| < |w| && w[|w| - |rest|..] == rest && w[|w| - |rest| - 1] == ACK
  }

  lemma {:induction false} HeardAck(first: bool, crc: bool, last: Code, w: Line)
    ensures Listen(first, crc, last, w).answer != Acked
    ensures Hear(first, crc, last, w).answer == Acked <==> w != [] && w[0] == ACK
    decreases |w|
  {
    if w != [] {
      HeardAck(first, crc, w[0], w[1..]);
    }
  }

  lemma {:induction false} ListenRest(first: bool, crc: bool, last: Code, w: Line)
    ensures var h := Listen(first, crc, last, w); |h.rest| <= |w| && h.rest == w[|w| - |h.rest|..]
    decreases |w|
  {
    if w != [] {
      ListenRest(first, crc, w[0], w[1..]);
    }
  }

  lemma HearRest(first: bool, crc: bool, last: Code, w: Line)
    ensures var h := Hear(first, crc, last, w); |h.rest| <= |w| && h.rest == w[|w| - |h.rest|..]
    ensures var h := Hear(first, crc, last, w); h.answer == Acked ==> AfterAck(w, h.rest)
  {
    hide Listen;
    HeardAck(first, crc, last, w);
    ListenRest(first, crc, Get(w), Rest(w));
  }

  lemma AfterAckLater(w: Line, v: Line, rest: Line)
    requires |v| <= |w| && v == w[|w| - |v|..] && AfterAck(v, rest)
    ensures AfterAck(w, rest)
  {
  }

  /** wcputsec sends its one sector and nothing else, eleven times at most, and it reports success only on an ACK. */
  lemma {:induction false} PutSecSends(first: bool, crc: bool, attempts: nat, last: Code, num: Byte, data: seq<Byte>, w: Line)
    returns (kinds: seq<bool>)
    requires attempts <= RETRYMAX + 1
    ensures var r := PutSec(first, crc, attempts, last, num, data, w);
      && r.sent == Copies(kinds, num, data) && |kinds| + attempts <= RETRYMAX + 1
      && (attempts <= RETRYMAX ==> kinds != [] && kinds[0] == crc)
      && (r.answer == Acked ==> AfterAck(w, r.rest))
    decreases RETRYMAX + 1 - attempts
  {
    hide Sector, Listen, Hear, AfterAck;
    if attempts > RETRYMAX {
      kinds := [];
    } else {
      var h := Hear(first, crc, last, w);
      HearRest(first, crc, last, w);
      if h.answer != Retry {
        kinds := [crc];
        assert Copies(kinds[1..], num, data) == [];
        assert Sector(crc, num, data) + [] == Sector(crc, num, data);
      } else {
        var r := PutSec(first, h.crc, attempts + 1, h.last, num, data, h.rest);
        var more := PutSecSends(first, h.crc, attempts + 1, h.last, num, data, h.rest);
        kinds := [crc] + more;
        assert kinds[1..] == more;
        if r.answer == Acked {
          AfterAckLater(w, h.rest, r.rest);
        }
      }
    }
  }
}

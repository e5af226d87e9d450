/** What wcputsec makes of the bytes on its line, byte by byte. */
module YListen {
  import opened Crc
  import opened YBlocks
  import opened YSector
  import opened ZEscape

  /** Byte i of what follows a sector ends the listening: a timeout, NAK or 'C' anywhere, ACK at once, or the second of two CANs. */
  predicate EndsAt(w: Line, i: nat)
    requires i < |w|
  {
    || w[i] in {TIMEOUT, NAK, WANTCRC}
    || (i == 0 && w[i] == ACK)
    || (i > 0 && w[i] == CAN && w[i - 1] == CAN)
  }

  /** The first byte from i on that does, or the end of the line. */
  function FirstEnd(w: Line, i: nat): (n: nat)
    requires i <= |w|
    ensures i <= n <= |w| && (forall k :: i <= k < n ==> !EndsAt(w, k)) && (n < |w| ==> EndsAt(w, n))
    decreases |w| - i
  {
    if i == |w| || EndsAt(w, i) then i else FirstEnd(w, i + 1)
  }

  /** What becomes of a sector from an attempt on. */
  function Verdict(attempts: nat, w: Line): Answer
    decreases RETRYMAX + 1 - attempts
  {
    var n := FirstEnd(w, 0);
    if attempts > RETRYMAX then Exceeded
    else if n == |w| then Stuck
    else if w[n] == ACK then Acked
    else if w[n] == CAN then GaveUp
    else Verdict(attempts + 1, w[n + 1..])
  }

  /** The checks of the copies sent from that attempt on: a 'C' for the first sector asks for the CRC. */
  function Kinds(first: bool, crc: bool, attempts: nat, w: Line): seq<bool>
    decreases RETRYMAX + 1 - attempts
  {
    var n := FirstEnd(w, 0);
    if attempts > RETRYMAX then []
    else if n == |w| || w[n] == ACK || w[n] == CAN then [crc]
    else [crc] + Kinds(first, crc || (first && w[n] == WANTCRC), attempts + 1, w[n + 1..])
  }

  /** What wcputsec has not read when it returns. */
  function Unread(attempts: nat, w: Line): Line
    decreases RETRYMAX + 1 - attempts
  {
    var n := FirstEnd(w, 0);
    if attempts > RETRYMAX then w
    else if n == |w| then []
    else if w[n] == ACK || w[n] == CAN then w[n + 1..]
    else Unread(attempts + 1, w[n + 1..])
  }

  lemma {:induction false} Listens(first: bool, crc: bool, v: Line, i: nat)
    requires 0 < i <= |v| && !EndsAt(v, i - 1)
    ensures var n := FirstEnd(v, i);
      Listen(first, crc, v[i - 1], v[i..]) ==
      if n == |v| then Heard(Stuck, crc, v[|v| - 1], [])
      else if v[n] == CAN then Heard(GaveUp, crc, CAN, v[n + 1..])
      else Heard(Retry, crc || (first && v[n] == WANTCRC), v[n], v[n + 1..])
    decreases |v| - i
  {
    if i < |v| {
      assert v[i..][0] == v[i] && v[i..][1..] == v[i + 1..];
      if !EndsAt(v, i) { Listens(first, crc, v, i + 1); }
    }
  }

  /** One answer, however it is come by. */
  lemma HearsFirst(first: bool, crc: bool, last: Code, w: Line)
    requires last != CAN
    ensures var n, h := FirstEnd(w, 0), Hear(first, crc, last, w);
      && h.answer == (if n == |w| then Stuck else if w[n] == ACK then Acked else if w[n] == CAN then GaveUp else Retry)
      && h.crc == (crc || (first && n < |w| && w[n] == WANTCRC))
      && h.rest == (if n == |w| then [] else w[n + 1..]) && (h.answer == Retry ==> h.last == w[n])
  {
    hide Listen;
    if w == [] {
      Hangs(first, crc);
    } else if !EndsAt(w, 0) {
      Listens(first, crc, w, 1);
    }
  }

  lemma Hangs(first: bool, crc: bool)
    ensures Listen(first, crc, HANGUP, []) == Heard(Stuck, crc, HANGUP, [])
  {
  }

  /** On every line: wcputsec sends its sector again after a timeout, NAK or 'C', while attempts last; it succeeds on an ACK that comes at
      once, and gives up exactly on two CANs in a row. */
  lemma {:induction false} PutSecIs(first: bool, crc: bool, attempts: nat, last: Code, num: Byte, data: seq<Byte>, w: Line)
    requires last != CAN && attempts <= RETRYMAX + 1
    ensures var r := PutSec(first, crc, attempts, last, num, data, w);
      && r.answer == Verdict(attempts, w) && r.rest == Unread(attempts, w)
      && r.sent == Copies(Kinds(first, crc, attempts, w), num, data)
    decreases RETRYMAX + 1 - attempts
  {
    hide Sector, Hear, FirstEnd;
    if attempts <= RETRYMAX {
      var n, h := FirstEnd(w, 0), Hear(first, crc, last, w);
      HearsFirst(first, crc, last, w);
      OneCopy(crc, num, data);
      if h.answer == Retry {
        PutSecIs(first, h.crc, attempts + 1, h.last, num, data, h.rest);
        var more := Kinds(first, h.crc, attempts + 1, h.rest);
        assert ([crc] + more)[1..] == more;
      }
    }
  }

  lemma OneCopy(crc: bool, num: Byte, data: seq<Byte>)
    ensures Copies([crc], num, data) == Sector(crc, num, data)
  {
    assert [crc][1..] == [];
    assert Sector(crc, num, data) + [] == Sector(crc, num, data);
  }

  /** From the first copy with a CRC on all have it; and only the first sector changes over. */
  lemma {:induction false} StaysCrc(first: bool, crc: bool, attempts: nat, w: Line)
    ensures Later(first, crc, Kinds(first, crc, attempts, w))
    decreases RETRYMAX + 1 - attempts
  {
    hide FirstEnd;
    var n := FirstEnd(w, 0);
    if attempts <= RETRYMAX && n < |w| && w[n] != ACK && w[n] != CAN {
      var turned := crc || (first && w[n] == WANTCRC);
      StaysCrc(first, turned, attempts + 1, w[n + 1..]);
      AllLater(crc, turned, first, Kinds(first, turned, attempts + 1, w[n + 1..]));
    }
  }

  predicate Later(first: bool, crc: bool, ks: seq<bool>) {
    && (forall i, j :: 0 <= i <= j < |ks| && ks[i] ==> ks[j]) && (!first ==> forall i :: 0 <= i < |ks| ==> ks[i] == crc)
    && (crc ==> forall i :: 0 <= i < |ks| ==> ks[i])
  }

  lemma AllLater(crc: bool, turned: bool, first: bool, more: seq<bool>)
    requires Later(first, turned, more) && (crc ==> turned) && (!first ==> turned == crc)
    ensures Later(first, crc, [crc] + more)
  {
  }

  /** The 'C' that wcgetsec sends for a garbled first sector brings the sector with a CRC. */
  lemma AskedForCrc(num: Byte, data: seq<Byte>, w: Line)
    ensures var r := PutSec(true, false, 0, 0, num, data, [WANTCRC, ACK] + w);
      r.answer == Acked && r.sent == Sector(false, num, data) + Sector(true, num, data) && r.rest == w
  {
    hide Sector, PutSec;
    var v := [WANTCRC, ACK] + w;
    assert FirstEnd(v, 0) == 0;
    var u := v[1..];
    assert u[0] == ACK && FirstEnd(u, 0) == 0 && u[1..] == w;
    PutSecIs(true, false, 0, 0, num, data, v);
    assert Kinds(true, true, 1, u) == [true];
    assert Kinds(true, false, 0, v) == [false] + [true];
    assert [false, true][1..] == [true];
    OneCopy(true, num, data);
  }

  // ------------------------------------------------------------------ the checksum

  function Plus(a: Code, b: Code): Code {
    a + b
  }

  /** Bytes added up in sixteen bits. */
  function Added(sum: Code, s: seq<Byte>): Code
    decreases |s|
  {
    if s == [] then sum else Added(Plus(sum, s[0]), s[1..])
  }

  /** The checksum is that sum, of which the low eight bits are kept. */
  lemma {:induction false} ChecksumIs(sum: Code, s: seq<Byte>)
    ensures Sum8(Low(sum), s) == Low(Added(sum, s))
    decreases |s|
  {
    hide Add8, Low, Plus;
    if s != [] {
      ChecksumIs(Plus(sum, s[0]), s[1..]);
      AddLow(sum, s[0]);
    }
  }

  function Low(a: Code): Byte {
    a & 0xFF
  }

  lemma AddLow(sum: Code, b: Byte)
    ensures Add8(Low(sum), b) == Low(Plus(sum, b))
  {
  }
}

/** What wcgetsec makes of a line on which sectors come between errors. */
module YSync {
  import opened Crc
  import opened CrcDetect
  import opened YBlocks
  import opened YSector
  import opened ZEscape

  /** What can go wrong before a sector: a code that begins none, an EOT that does not stand alone, a number without its complement, a
      sector that breaks off, one that does not pass, each with what follows until the line is quiet; and a CAN. */
  datatype Trouble =
    | Strange(c: Code, q: Line)
    | FalseEot(c: Code, q: Line)
    | Unpaired(long: bool, a: Code, b: Code, q: Line)
    | Short(long: bool, num: Byte, part: seq<Byte>, c: Code, q: Line)
    | Failing(long: bool, num: Byte, data: seq<Byte>, checks: seq<Byte>, q: Line)
    | OneCan

  function Length(long: bool): nat {
    if long then 1024 else 128
  }

  function Checked(crc: bool): nat {
    if crc then 2 else 1
  }

  predicate Noisy(q: Line) {
    |q| < 1000 && TIMEOUT !in q
  }

  predicate TroubleOk(crc: bool, t: Trouble) {
    match t
    case Strange(c, q) => c !in {SOH, STX, EOT, CAN} && Noisy(q)
    case FalseEot(c, q) => c != TIMEOUT && Noisy(q)
    case Unpaired(_, a, b, q) => !(a < 0x100 && b == 0xFF - a) && Noisy(q)
    case Short(long, _, part, c, q) => |part| < Length(long) + Checked(crc) && c >= 0x100 && Noisy(q)
    case Failing(long, _, data, checks, q) => |data| == Length(long) && |checks| == Checked(crc) && checks != Checks(crc, data) && Noisy(q)
    case OneCan => true
  }

  function Start(long: bool): Code {
    if long then STX else SOH
  }

  function Front(t: Trouble): Line
    requires !t.OneCan?
  {
    match t
    case Strange(c, _) => [c]
    case FalseEot(c, _) => [EOT] + [c]
    case Unpaired(long, a, b, _) => [Start(long)] + ([a] + [b])
    case Short(long, num, part, c, _) => [Start(long)] + ([num, 0xFF - num] + (part + [c]))
    case Failing(long, num, data, checks, _) => [Start(long)] + ([num, 0xFF - num] + (data + checks))
  }

  function Written(t: Trouble): Line {
    if t.OneCan? then [CAN] else Front(t) + (t.q + [TIMEOUT])
  }

  function AllWritten(ts: seq<Trouble>): Line
    decreases |ts|
  {
    if ts == [] then [] else Written(ts[0]) + AllWritten(ts[1..])
  }

  /** All but a CAN bring a complaint. */
  function Complaints(nak: Byte, ts: seq<Trouble>): seq<Byte>
    decreases |ts|
  {
    if ts == [] then [] else (if ts[0].OneCan? then [] else [nak]) + Complaints(nak, ts[1..])
  }

  predicate TwoCans(ts: seq<Trouble>) {
    exists i :: 0 <= i < |ts| - 1 && ts[i].OneCan? && ts[i + 1].OneCan?
  }

  predicate AllOk(crc: bool, ts: seq<Trouble>) {
    forall t :: t in ts ==> TroubleOk(crc, t)
  }

  lemma {:induction false} DrainsTo(n: nat, q: Line, w: Line)
    requires |q| < n && TIMEOUT !in q
    ensures Drain(n, q + ([TIMEOUT] + w)) == w
    decreases n
  {
    if q == [] {
      assert q + ([TIMEOUT] + w) == [TIMEOUT] + w;
      assert ([TIMEOUT] + w)[1..] == w;
    } else {
      assert (q + ([TIMEOUT] + w))[1..] == q[1..] + ([TIMEOUT] + w);
      assert q[0] in q;
      DrainsTo(n - 1, q[1..], w);
    }
  }

  lemma Next(c: Code, w: Line)
    ensures Get([c] + w) == c && Rest([c] + w) == w
  {
  }

  lemma {:induction false} ReadShort(n: nat, part: seq<Byte>, c: Code, w: Line)
    requires |part| < n && c >= 0x100
    ensures ReadN(n, part + ([c] + w)) == (part, false, w)
    decreases n
  {
    if part == [] {
      assert part + ([c] + w) == [c] + w;
      Next(c, w);
    } else {
      assert (part + ([c] + w))[1..] == part[1..] + ([c] + w);
      ReadShort(n - 1, part[1..], c, w);
      assert [part[0]] + part[1..] == part;
    }
  }

  lemma ShortBlock(crc: bool, length: nat, num: Byte, part: seq<Byte>, c: Code, w: Line)
    requires |part| < length + Checked(crc) && c >= 0x100
    ensures ReadBlock(crc, length, [num, 0xFF - num] + (part + ([c] + w))) == (Noise, w)
  {
    hide YSector.Passes, ReadN, Paired;
    Complement(num);
    PairedIs(num, 0xFF - num);
    var body := part + ([c] + w);
    assert Rest(Rest([num, 0xFF - num] + body)) == body;
    if |part| < length {
      ReadShort(length, part, c, w);
    } else {
      var data, more := part[..length], part[length..];
      assert body == data + (more + ([c] + w));
      ReadBytes(data, more + ([c] + w));
      ReadShort(Checked(crc), more, c, w);
    }
  }

  lemma PairedIs(a: Code, b: Code)
    ensures Paired(a, b) <==> a < 0x100 && b == 0xFF - a
  {
  }

  lemma PassesIs(crc: bool, data: seq<Byte>, checks: seq<Byte>)
    requires |checks| == Checked(crc)
    ensures YSector.Passes(crc, data, checks) <==> checks == Checks(crc, data)
  {
    hide Crc16;
    ChecksPass(crc, data);
    if crc && YSector.Passes(true, data, checks) {
      OnlyCheck(data, checks, Checks(true, data));
    }
  }

  lemma OnlyCheck(data: seq<Byte>, a: seq<Byte>, b: seq<Byte>)
    requires |a| == |b| == 2 && Crc16(0, data + a) == 0 && Crc16(0, data + b) == 0
    ensures a == b
  {
    hide Crc16;
    Detects16(data, a, b, []);
    assert data + a + [] == data + a;
    assert data + b + [] == data + b;
  }

  /** One turn of the loop on trouble. */
  lemma TurnFails(crc: bool, lastCan: bool, t: Trouble, w: Line)
    requires TroubleOk(crc, t) && !t.OneCan?
    ensures ReadOne(crc, lastCan, Front(t) + w) == (Noise, w)
  {
    hide ReadOne, Checks, Noisy, Start;
    match t
    case Strange(c, _) => OtherStart(crc, lastCan, c, w);
    case FalseEot(c, _) =>
      assert [EOT] + [c] + w == [EOT] + ([c] + w);
      NoEot(crc, lastCan, c, w);
    case Unpaired(long, a, b, _) => UnpairedTurn(crc, lastCan, long, a, b, w);
    case Short(long, num, part, c, _) => ShortTurn(crc, lastCan, long, num, part, c, w);
    case Failing(long, num, data, checks, _) => FailingTurn(crc, lastCan, long, num, data, checks, w);
  }

  lemma UnpairedTurn(crc: bool, lastCan: bool, long: bool, a: Code, b: Code, w: Line)
    requires !(a < 0x100 && b == 0xFF - a)
    ensures ReadOne(crc, lastCan, [Start(long)] + ([a] + [b]) + w) == (Noise, w)
  {
    hide ReadOne, ReadBlock, Start;
    assert [Start(long)] + ([a] + [b]) + w == [Start(long)] + ([a] + ([b] + w));
    SectorStart(crc, lastCan, long, [a] + ([b] + w));
    NotPaired(crc, Length(long), a, b, w);
  }

  lemma ShortTurn(crc: bool, lastCan: bool, long: bool, num: Byte, part: seq<Byte>, c: Code, w: Line)
    requires |part| < Length(long) + Checked(crc) && c >= 0x100
    ensures ReadOne(crc, lastCan, [Start(long)] + ([num, 0xFF - num] + (part + [c])) + w) == (Noise, w)
  {
    hide ReadOne, ReadBlock, Start;
    var v := [num, 0xFF - num] + (part + ([c] + w));
    assert [Start(long)] + ([num, 0xFF - num] + (part + [c])) + w == [Start(long)] + v;
    SectorStart(crc, lastCan, long, v);
    ShortBlock(crc, Length(long), num, part, c, w);
  }

  lemma FailingTurn(crc: bool, lastCan: bool, long: bool, num: Byte, data: seq<Byte>, checks: seq<Byte>, w: Line)
    requires |data| == Length(long) && |checks| == Checked(crc) && checks != Checks(crc, data)
    ensures ReadOne(crc, lastCan, [Start(long)] + ([num, 0xFF - num] + (data + checks)) + w) == (Noise, w)
  {
    hide ReadOne, ReadBlock, Checks, Start;
    var v := [num, 0xFF - num] + (data + (checks + w));
    assert [Start(long)] + ([num, 0xFF - num] + (data + checks)) + w == [Start(long)] + v;
    SectorStart(crc, lastCan, long, v);
    PassesIs(crc, data, checks);
    ReadBlockOf(crc, num, data, checks, w);
  }

  lemma OtherStart(crc: bool, lastCan: bool, c: Code, w: Line)
    requires c !in {SOH, STX, EOT, CAN}
    ensures ReadOne(crc, lastCan, [c] + w) == (Noise, w)
  {
    hide ReadBlock;
    Next(c, w);
  }

  lemma NoEot(crc: bool, lastCan: bool, c: Code, w: Line)
    requires c != TIMEOUT
    ensures ReadOne(crc, lastCan, [EOT] + ([c] + w)) == (Noise, w)
  {
    hide ReadBlock;
    Next(EOT, [c] + w);
    Next(c, w);
  }

  lemma SectorStart(crc: bool, lastCan: bool, long: bool, v: Line)
    ensures ReadOne(crc, lastCan, [Start(long)] + v) == ReadBlock(crc, Length(long), v)
  {
    hide ReadBlock;
    Next(Start(long), v);
  }

  lemma NotPaired(crc: bool, length: nat, a: Code, b: Code, w: Line)
    requires !(a < 0x100 && b == 0xFF - a)
    ensures ReadBlock(crc, length, [a] + ([b] + w)) == (Noise, w)
  {
    hide YSector.Passes, Paired;
    PairedIs(a, b);
    Next(a, [b] + w);
    Next(b, w);
  }

  function After(said: seq<Byte>, r: SecResult): SecResult {
    r.(replies := said + r.replies)
  }

  lemma PastTrouble(crc: bool, nak: Byte, errors: nat, lastCan: bool, t: Trouble, w: Line)
    requires TroubleOk(crc, t) && errors < 10 && !(lastCan && t.OneCan?)
    ensures GetSec(crc, nak, errors, lastCan, Written(t) + w)
         == After(if t.OneCan? then [] else [nak], GetSec(crc, nak, errors + 1, t.OneCan?, w))
  {
    hide ReadOne, Drain;
    if t.OneCan? {
      CanRead(crc, lastCan, w);
      var r := GetSec(crc, nak, errors + 1, true, w);
      assert [] + r.replies == r.replies;
    } else {
      var v := t.q + ([TIMEOUT] + w);
      assert Written(t) + w == Front(t) + v;
      TurnFails(crc, lastCan, t, v);
      QuietAfter(crc, t);
      DrainsTo(1000, t.q, w);
    }
  }

  lemma QuietAfter(crc: bool, t: Trouble)
    requires TroubleOk(crc, t) && !t.OneCan?
    ensures Noisy(t.q)
  {
  }

  lemma CanRead(crc: bool, lastCan: bool, w: Line)
    ensures ReadOne(crc, lastCan, [CAN] + w) == (if lastCan then Cancelled else GotCan, w)
  {
    Next(CAN, w);
  }

  predicate EndsInCan(ts: seq<Trouble>, before: bool) {
    if ts == [] then before else ts[|ts| - 1].OneCan?
  }

  /** Troubles one after another, fewer than ten in all and no two CANs in a row, cost a complaint each, but for the CANs. */
  lemma {:induction false} PastTroubles(crc: bool, nak: Byte, errors: nat, before: bool, ts: seq<Trouble>, w: Line)
    requires AllOk(crc, ts) && errors + |ts| <= 10 && !TwoCans(ts) && (ts != [] && before ==> !ts[0].OneCan?)
    ensures GetSec(crc, nak, errors, before, AllWritten(ts) + w)
         == After(Complaints(nak, ts), GetSec(crc, nak, errors + |ts|, EndsInCan(ts, before), w))
    decreases |ts|
  {
    hide GetSec, Written, TroubleOk;
    if ts == [] {
      assert AllWritten(ts) + w == w;
      Unsaid(GetSec(crc, nak, errors, before, w));
    } else {
      assert ts[0] in ts;
      NoTwoLater(ts);
      var v := AllWritten(ts[1..]) + w;
      assert AllWritten(ts) + w == Written(ts[0]) + v;
      PastTrouble(crc, nak, errors, before, ts[0], v);
      PastTroubles(crc, nak, errors + 1, ts[0].OneCan?, ts[1..], w);
      var first := if ts[0].OneCan? then [] else [nak];
      var r := GetSec(crc, nak, errors + |ts|, EndsInCan(ts, before), w);
      assert first + (Complaints(nak, ts[1..]) + r.replies) == first + Complaints(nak, ts[1..]) + r.replies;
    }
  }

  lemma Unsaid(r: SecResult)
    ensures After([], r) == r
  {
    assert [] + r.replies == r.replies;
  }

  lemma NoTwoLater(ts: seq<Trouble>)
    requires ts != [] && !TwoCans(ts)
    ensures !TwoCans(ts[1..]) && (|ts| > 1 && ts[0].OneCan? ==> !ts[1].OneCan?)
  {
    var us := ts[1..];
    forall i | 0 <= i < |us| - 1 ensures !(us[i].OneCan? && us[i + 1].OneCan?) {
      assert us[i] == ts[i + 1] && us[i + 1] == ts[i + 1 + 1];
    }
  }

  /** A sector behind fewer than ten troubles is read, number and data, after a complaint for each that was no CAN; so is an EOT that stands
      alone. */
  lemma SectorBehind(crc: bool, nak: Byte, ts: seq<Trouble>, num: Byte, data: seq<Byte>, tail: Line)
    requires AllOk(crc, ts) && !TwoCans(ts) && |ts| < 10 && (|data| == 128 || |data| == 1024)
    ensures GetSec(crc, nak, 0, false, AllWritten(ts) + (Sector(crc, num, data) + tail)) == SecResult(GotSector(num, data), Complaints(nak, ts), tail)
    ensures GetSec(crc, nak, 0, false, AllWritten(ts) + ([EOT] + ([TIMEOUT] + tail))) == SecResult(GotEot, Complaints(nak, ts), tail)
  {
    hide GetSec, Sector;
    PastTroubles(crc, nak, 0, false, ts, Sector(crc, num, data) + tail);
    PastTroubles(crc, nak, 0, false, ts, [EOT] + ([TIMEOUT] + tail));
    SectorNow(crc, nak, |ts|, EndsInCan(ts, false), num, data, tail);
    EotNow(crc, nak, |ts|, EndsInCan(ts, false), tail);
    assert Complaints(nak, ts) + [] == Complaints(nak, ts);
  }

  lemma SectorNow(crc: bool, nak: Byte, errors: nat, lastCan: bool, num: Byte, data: seq<Byte>, tail: Line)
    requires errors < 10 && (|data| == 128 || |data| == 1024)
    ensures GetSec(crc, nak, errors, lastCan, Sector(crc, num, data) + tail) == SecResult(GotSector(num, data), [], tail)
  {
    hide YSector.Passes, Checks, ReadBlock;
    ChecksPass(crc, data);
    var v := [num, 0xFF - num] + (data + (Checks(crc, data) + tail));
    ReadBlockOf(crc, num, data, Checks(crc, data), tail);
    assert Sector(crc, num, data) + tail == [Start(|data| == 1024)] + v;
    Next(Start(|data| == 1024), v);
  }

  lemma EotNow(crc: bool, nak: Byte, errors: nat, lastCan: bool, tail: Line)
    requires errors < 10
    ensures GetSec(crc, nak, errors, lastCan, [EOT] + ([TIMEOUT] + tail)) == SecResult(GotEot, [], tail)
  {
    Next(EOT, [TIMEOUT] + tail);
    Next(TIMEOUT, tail);
  }

  /** At the tenth trouble wcgetsec stops, having said no more; and at the second of two CANs in a row. */
  lemma StopsBehind(crc: bool, nak: Byte, ts: seq<Trouble>, w: Line)
    requires AllOk(crc, ts) && !TwoCans(ts)
    ensures |ts| == 10 ==> GetSec(crc, nak, 0, false, AllWritten(ts) + w) == SecResult(TooMany, Complaints(nak, ts), w)
    ensures |ts| < 10 && EndsInCan(ts, false) ==> GetSec(crc, nak, 0, false, AllWritten(ts) + ([CAN] + w)) == SecResult(Cancelled, Complaints(nak, ts), w)
  {
    assert Complaints(nak, ts) + [] == Complaints(nak, ts);
    hide AllOk, TwoCans;
    if |ts| == 10 {
      PastTroubles(crc, nak, 0, false, ts, w);
    } else if |ts| < 10 {
      PastTroubles(crc, nak, 0, false, ts, [CAN] + w);
      CanRead(crc, true, w);
    }
  }
}

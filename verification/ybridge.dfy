/** The two sides of the stop-and-wait model are what wcrx and wctx do on any line, and its runs what they do together. */
module YBridge {
  import opened Common
  import Bytes
  import opened Crc
  import opened YBlocks
  import opened YSector
  import opened YTransfer
  import opened ZEscape
  import Lock = YLockStep

  // ------------------------------------------------------------------ the receiver

  /** What one turn of wcgetsec yields: a good sector, EOT, nothing of use, one CAN, or the second in a row. */
  datatype Seen = Sees(num: Byte, data: seq<Byte>) | SeesEot | Unreadable | LoneCan | Cancel

  function Step(left: int, r: Lock.Receiver, e: Seen): Lock.Receiver {
    match e
    case Sees(num, data) => Lock.TakeSector(Lock.Config([], left), r, num as nat, data).0
    case SeesEot => Lock.TakeEot(r).0
    case Unreadable | LoneCan => Lock.Complain(r)
    case Cancel => if r.phase.Stopped? then r else r.(phase := Lock.Stopped(false))
  }

  function Steps(left: int, r: Lock.Receiver, es: seq<Seen>): Lock.Receiver
    decreases |es|
  {
    if es == [] then r else Steps(left, Step(left, r, es[0]), es[1..])
  }

  /** What a line holds for a receiver that has counted `errors` since the last sector, turn by turn, up to EOT, two CANs or ten
      errors in a row. */
  function SeenOn(crc: bool, errors: nat, lastCan: bool, w: Line): seq<Seen>
    decreases |w|, RETRYMAX - errors
  {
    if errors >= RETRYMAX then [] else
    var (got, v) := ReadOne(crc, lastCan, w);
    OneShrinks(crc, lastCan, w);
    match got
    case GotSector(num, data) => [Sees(num, data)] + SeenOn(crc, 0, false, v)
    case GotEot => [SeesEot]
    case GotCan => [LoneCan] + SeenOn(crc, errors + 1, true, v)
    case Noise => [Unreadable] + SeenOn(crc, errors + 1, false, Drain(1000, v))
    case Cancelled => [Cancel]
    case TooMany => []
  }

  /** What is answered to it: an ACK for what is taken, `nak` for what cannot be read. */
  function Answer(nak: Byte, left: int, r: Lock.Receiver, e: Seen): seq<Byte> {
    if r.phase != Lock.Filing then [] else
    match e
    case Sees(num, data) => if Lock.TakeSector(Lock.Config([], left), r, num as nat, data).1 then [ACK] else []
    case SeesEot => [ACK]
    case Unreadable => [nak]
    case LoneCan | Cancel => []
  }

  function Nak(first: bool, nakchar: Byte): Byte {
    if first then nakchar else NAK
  }

  function Answers(first: bool, nakchar: Byte, left: int, r: Lock.Receiver, es: seq<Seen>): seq<Byte>
    decreases |es|
  {
    if es == [] then []
    else Answer(Nak(first, nakchar), left, r, es[0]) + Answers(first && !es[0].Sees?, nakchar, left, Step(left, r, es[0]), es[1..])
  }

  lemma StepsOn(left: int, r: Lock.Receiver, e: Seen, es: seq<Seen>)
    ensures Steps(left, r, [e] + es) == Steps(left, Step(left, r, e), es)
  {
    assert ([e] + es)[1..] == es;
  }

  lemma AnswersOn(first: bool, nakchar: Byte, left: int, r: Lock.Receiver, e: Seen, es: seq<Seen>)
    ensures Answers(first, nakchar, left, r, [e] + es)
         == Answer(Nak(first, nakchar), left, r, e) + Answers(first && !e.Sees?, nakchar, left, Step(left, r, e), es)
  {
    assert ([e] + es)[1..] == es;
  }

  /** A receiver that has stopped answers nothing and stays as it is. */
  lemma {:induction false} Stays(first: bool, nakchar: Byte, left: int, r: Lock.Receiver, es: seq<Seen>)
    requires r.phase.Stopped?
    ensures Steps(left, r, es) == r && Answers(first, nakchar, left, r, es) == []
    decreases |es|
  {
    if es != [] {
      Stays(first && !es[0].Sees?, nakchar, left, r, es[1..]);
    }
  }

  /** The receiver after wcgetsec has counted k errors. */
  function Complained(r: Lock.Receiver, k: nat): Lock.Receiver {
    if k >= RETRYMAX then r.(phase := Lock.Stopped(false), errors := RETRYMAX - 1) else r.(errors := k)
  }

  lemma Counted(left: int, r: Lock.Receiver, errors: nat)
    requires r.phase == Lock.Filing && errors < RETRYMAX
    ensures Step(left, Complained(r, errors), Unreadable) == Step(left, Complained(r, errors), LoneCan) == Complained(r, errors + 1)
  {
  }

  lemma SameNumber(num: Byte, n: nat)
    ensures num == Num(n) <==> num as nat == Lock.Number(n)
  {
    Bytes.ThereAndBack(n % 256);
    Bytes.BackAndThere(num);
  }

  predicate InStep(n: nat, num: Byte) {
    num == Num(n + 1) || num == Num(n)
  }

  /** What wcrx makes of a sector number, its data or EOT is what the model makes of it. */
  lemma SectorStep(left: int, r: Lock.Receiver, errors: nat, nak: Byte, num: Byte, data: seq<Byte>)
    requires r.phase == Lock.Filing && errors < RETRYMAX
    ensures var u := Step(left, Complained(r, errors), Sees(num, data)); var t := Trimmed(left, r.received, data);
      if num == Num(r.n + 1) then u == r.(n := r.n + 1, received := r.received + |t|, out := r.out + t, errors := 0)
      else if num == Num(r.n) then u == r.(errors := 0)
      else u == r.(phase := Lock.Stopped(true), errors := errors)
    ensures Answer(nak, left, Complained(r, errors), Sees(num, data)) == if InStep(r.n, num) then [ACK] else []
  {
    SameNumber(num, r.n + 1);
    SameNumber(num, r.n);
  }

  lemma EotStep(left: int, r: Lock.Receiver, errors: nat, nak: Byte)
    requires r.phase == Lock.Filing && errors < RETRYMAX
    ensures Step(left, Complained(r, errors), SeesEot) == r.(phase := Lock.Closed, errors := 0)
    ensures Answer(nak, left, Complained(r, errors), SeesEot) == [ACK]
  {
  }

  lemma ErrorAnswers(left: int, r: Lock.Receiver, errors: nat, nak: Byte)
    requires r.phase == Lock.Filing && errors < RETRYMAX
    ensures Answer(nak, left, Complained(r, errors), Unreadable) == [nak]
    ensures Answer(nak, left, Complained(r, errors), LoneCan) == [] == Answer(nak, left, Complained(r, errors), Cancel)
  {
  }

  /** What is left of the model's receiver when wcgetsec has returned with g, and what it has answered by then. */
  ghost predicate Agrees(first: bool, nakchar: Byte, left: int, r: Lock.Receiver, crc: bool, u: Lock.Receiver, said: seq<Byte>, g: SecResult) {
    match g.got
    case GotSector(num, data) =>
      if InStep(r.n, num) then
        var v, es := Step(left, r, Sees(num, data)), SeenOn(crc, 0, false, g.rest);
        u == Steps(left, v, es) && said == g.replies + ([ACK] + Answers(false, nakchar, left, v, es))
      else u.phase == Lock.Stopped(true) && u.out == r.out && said == g.replies
    case GotEot => u.phase == Lock.Closed && u.out == r.out && said == g.replies + [ACK]
    case _ => u.phase == Lock.Stopped(false) && u.out == r.out && said == g.replies
  }

  /** wcgetsec from `errors` on. */
  lemma {:induction false} GetSecSeen(first: bool, nakchar: Byte, left: int, r: Lock.Receiver, crc: bool, errors: nat, lastCan: bool, w: Line)
    requires r.phase == Lock.Filing && errors <= RETRYMAX && r.errors == 0
    ensures var r0, es := Complained(r, errors), SeenOn(crc, errors, lastCan, w);
      Agrees(first, nakchar, left, r, crc, Steps(left, r0, es), Answers(first, nakchar, left, r0, es), GetSec(crc, Nak(first, nakchar), errors, lastCan, w))
    decreases RETRYMAX - errors
  {
    hide ReadOne, Drain, Step, Answer, Steps, Answers, Agrees, Complained;
    var nak := Nak(first, nakchar);
    var r0, es := Complained(r, errors), SeenOn(crc, errors, lastCan, w);
    if errors == RETRYMAX {
      TooManySeen(first, nakchar, left, r, crc, w);
    } else {
      var (got, v) := ReadOne(crc, lastCan, w);
      OneShrinks(crc, lastCan, w);
      ErrorAnswers(left, r, errors, nak);
      Counted(left, r, errors);
      match got
      case GotSector(num, data) => SectorSeen(first, nakchar, left, r, errors, crc, num, data, v);
      case GotEot => EndSeen(first, nakchar, left, r, errors, crc, v);
      case Cancelled => EndSeen(first, nakchar, left, r, errors, crc, v);
      case GotCan =>
        var more := SeenOn(crc, errors + 1, true, v);
        GetSecSeen(first, nakchar, left, r, crc, errors + 1, true, v);
        StepsOn(left, r0, LoneCan, more);
        AnswersOn(first, nakchar, left, r0, LoneCan, more);
        var said := Answers(first, nakchar, left, Complained(r, errors + 1), more);
        assert [] + said == said;
      case Noise =>
        var u := Drain(1000, v);
        var more := SeenOn(crc, errors + 1, false, u);
        GetSecSeen(first, nakchar, left, r, crc, errors + 1, false, u);
        StepsOn(left, r0, Unreadable, more);
        AnswersOn(first, nakchar, left, r0, Unreadable, more);
        var r1 := Complained(r, errors + 1);
        AgreesLonger(first, nakchar, left, r, crc, Steps(left, r1, more), Answers(first, nakchar, left, r1, more), GetSec(crc, nak, errors + 1, false, u), nak);
      case TooMany => assert false;
    }
  }

  lemma TooManySeen(first: bool, nakchar: Byte, left: int, r: Lock.Receiver, crc: bool, w: Line)
    ensures var r0 := Complained(r, RETRYMAX);
      Agrees(first, nakchar, left, r, crc, Steps(left, r0, []), Answers(first, nakchar, left, r0, []), SecResult(TooMany, [], w))
  {
    Nothing(first, nakchar, left, Complained(r, RETRYMAX));
  }

  lemma EndSeen(first: bool, nakchar: Byte, left: int, r: Lock.Receiver, errors: nat, crc: bool, v: Line)
    requires r.phase == Lock.Filing && errors < RETRYMAX
    ensures var r0 := Complained(r, errors);
      && Agrees(first, nakchar, left, r, crc, Steps(left, r0, [SeesEot]), Answers(first, nakchar, left, r0, [SeesEot]), SecResult(GotEot, [], v))
      && Agrees(first, nakchar, left, r, crc, Steps(left, r0, [Cancel]), Answers(first, nakchar, left, r0, [Cancel]), SecResult(Cancelled, [], v))
  {
    hide Step, Answer, Steps, Answers;
    var r0 := Complained(r, errors);
    EotStep(left, r, errors, Nak(first, nakchar));
    CancelStep(left, r0);
    ErrorAnswers(left, r, errors, Nak(first, nakchar));
    Single(first, nakchar, left, r0, SeesEot);
    Single(first, nakchar, left, r0, Cancel);
    assert [] + [ACK] == [ACK];
  }

  lemma AgreesLonger(first: bool, nakchar: Byte, left: int, r: Lock.Receiver, crc: bool, u: Lock.Receiver, said: seq<Byte>, g: SecResult, c: Byte)
    requires Agrees(first, nakchar, left, r, crc, u, said, g)
    ensures Agrees(first, nakchar, left, r, crc, u, [c] + said, g.(replies := [c] + g.replies))
  {
    hide Step, Steps, Answers, SeenOn, InStep;
    Longer(c, g.replies);
  }

  lemma CancelStep(left: int, r: Lock.Receiver)
    requires r.phase == Lock.Filing
    ensures Step(left, r, Cancel) == r.(phase := Lock.Stopped(false))
  {
  }

  lemma Nothing(first: bool, nakchar: Byte, left: int, r: Lock.Receiver)
    ensures Steps(left, r, []) == r && Answers(first, nakchar, left, r, []) == []
  {
  }

  lemma Single(first: bool, nakchar: Byte, left: int, r: Lock.Receiver, e: Seen)
    ensures Steps(left, r, [e]) == Step(left, r, e) && Answers(first, nakchar, left, r, [e]) == Answer(Nak(first, nakchar), left, r, e)
  {
    assert [e] == [e] + [];
    StepsOn(left, r, e, []);
    AnswersOn(first, nakchar, left, r, e, []);
  }

  lemma Longer(c: Byte, replies: seq<Byte>)
    ensures forall more: seq<Byte> :: [c] + (replies + more) == ([c] + replies) + more
    ensures [c] + replies + [] == [c] + replies
  {
    forall more: seq<Byte> ensures [c] + (replies + more) == ([c] + replies) + more {
    }
  }

  lemma SectorSeen(first: bool, nakchar: Byte, left: int, r: Lock.Receiver, errors: nat, crc: bool, num: Byte, data: seq<Byte>, v: Line)
    requires r.phase == Lock.Filing && errors < RETRYMAX && r.errors == 0
    ensures var r0, es := Complained(r, errors), [Sees(num, data)] + SeenOn(crc, 0, false, v);
      Agrees(first, nakchar, left, r, crc, Steps(left, r0, es), Answers(first, nakchar, left, r0, es), SecResult(GotSector(num, data), [], v))
  {
    hide Step, Answer, Steps, Answers, SeenOn, Trimmed, Num;
    var r0, more := Complained(r, errors), SeenOn(crc, 0, false, v);
    SectorStep(left, r, errors, Nak(first, nakchar), num, data);
    SectorStep(left, r, 0, Nak(first, nakchar), num, data);
    StepsOn(left, r0, Sees(num, data), more);
    AnswersOn(first, nakchar, left, r0, Sees(num, data), more);
    var u := Step(left, r0, Sees(num, data));
    if !InStep(r.n, num) {
      Stays(false, nakchar, left, u, more);
    }
    assert Complained(r, 0) == r;
  }

  /** On every line: wcrx writes what the model's receiver writes when it sees what is on that line, succeeds exactly if that has
      closed the file, and answers what that answers. */
  lemma {:induction false} WcRxSteps(crc: bool, nakchar: Byte, left: int, first: bool, sendchar: Byte, r: Lock.Receiver, w: Line)
    requires r.phase == Lock.Filing && r.errors == 0
    ensures var x, es := Rx(crc, nakchar, left, first, sendchar, r.n, r.received, r.out, w), SeenOn(crc, 0, false, w);
      var u := Steps(left, r, es);
      && x.out == u.out && (x.ok <==> u.phase == Lock.Closed) && (!x.ok <==> u.phase.Stopped?)
      && x.replies == [sendchar] + Answers(first, nakchar, left, r, es)
    decreases |w|
  {
    hide GetSec, Trimmed, Num, Step, Steps, Answers, SeenOn;
    var g := GetSec(crc, Nak(first, nakchar), 0, false, w);
    SectorShrinks(crc, Nak(first, nakchar), 0, false, w);
    GetSecSeen(first, nakchar, left, r, crc, 0, false, w);
    assert Complained(r, 0) == r;
    match g.got
    case GotSector(num, data) =>
      SectorStep(left, r, 0, NAK, num, data);
      if InStep(r.n, num) {
        var v := Step(left, r, Sees(num, data));
        WcRxSteps(crc, nakchar, left, false, ACK, v, g.rest);
        var more := Answers(false, nakchar, left, v, SeenOn(crc, 0, false, g.rest));
        assert [sendchar] + g.replies + ([ACK] + more) == [sendchar] + (g.replies + ([ACK] + more));
      }
    case GotEot => assert [sendchar] + g.replies + [ACK] == [sendchar] + (g.replies + [ACK]);
    case _ =>
  }

  // ------------------------------------------------------------------ the sender

  /** What follows a sector or an EOT: ACK, something to try again after, the end of patience. */
  datatype Told = Ack | Again | Quit

  function Next(c: Lock.Config, s: Lock.Sender, e: Told): Lock.Sender {
    if s.rc != Lock.Running then s else
    match e
    case Ack => Lock.Acked(c, s)
    case Again => Lock.Unanswered(c, s)
    case Quit => s.(rc := Lock.Failed)
  }

  function Nexts(c: Lock.Config, s: Lock.Sender, es: seq<Told>): Lock.Sender
    decreases |es|
  {
    if es == [] then s else Nexts(c, Next(c, s, es[0]), es[1..])
  }

  /** What a line tells a sender that has m sectors and then EOT to go and is at an attempt for the first of them. */
  function ToldOn(m: nat, attempts: nat, w: Line): seq<Told>
    decreases m, RETRYMAX + 1 - attempts
  {
    if m == 0 then
      if attempts >= RETRYMAX then []
      else if Get(w) == ACK then [Ack]
      else [Again] + ToldOn(0, attempts + 1, Rest(w))
    else if attempts > RETRYMAX then []
    else
      var h := Hear(false, false, 0, w);
      match h.answer
      case Acked => [Ack] + ToldOn(m - 1, 0, h.rest)
      case Retry => [Again] + ToldOn(m, attempts + 1, h.rest)
      case _ => [Quit]
  }

  lemma NextsOn(c: Lock.Config, s: Lock.Sender, e: Told, es: seq<Told>)
    ensures Nexts(c, s, [e] + es) == Nexts(c, Next(c, s, e), es)
  {
    assert ([e] + es)[1..] == es;
  }

  lemma {:induction false} NextsStay(c: Lock.Config, s: Lock.Sender, es: seq<Told>)
    requires s.rc != Lock.Running
    ensures Nexts(c, s, es) == s
    decreases |es|
  {
    if es != [] {
      NextsStay(c, s, es[1..]);
    }
  }

  lemma One(c: Lock.Config, s: Lock.Sender, e: Told)
    ensures Nexts(c, s, [e]) == Next(c, s, e)
  {
    assert [e] == [e] + [];
    NextsOn(c, s, e, []);
  }

  /** The answer does not depend on the check asked for, nor on what was read before, if that was no CAN; nor is what an attempt
      ends with a CAN. */
  lemma {:induction false} ListenSame(first: bool, crc: bool, last: Code, w: Line)
    ensures var h, g := Listen(first, crc, last, w), Listen(false, false, last, w);
      h.answer == g.answer && h.rest == g.rest && h.answer != Acked && h.answer != Exceeded && (h.answer == Retry ==> h.last != CAN)
    decreases |w|
  {
    if w != [] {
      ListenSame(first, crc, w[0], w[1..]);
    }
  }

  lemma HearSame(first: bool, crc: bool, last: Code, w: Line)
    requires last != CAN
    ensures var h, g := Hear(first, crc, last, w), Hear(false, false, 0, w);
      h.answer == g.answer && h.rest == g.rest && h.answer != Exceeded && (h.answer == Retry ==> h.last != CAN)
  {
    hide Listen;
    ListenSame(first, crc, Get(w), Rest(w));
  }

  /** wcputsec from one of its attempts on, with m sectors to go. */
  lemma {:induction false} PutSecTold(c: Lock.Config, m: nat, first: bool, crc: bool, attempts: nat, last: Code, num: Byte, data: seq<Byte>, w: Line)
    requires 0 < m <= |c.items| && attempts <= RETRYMAX && last != CAN
    ensures var k, r := |c.items| - m, PutSec(first, crc, attempts, last, num, data, w);
      var s := Nexts(c, Lock.Sender(k, attempts, Lock.Running), ToldOn(m, attempts, w));
      if r.answer == Acked then s == Nexts(c, Lock.Sender(k + 1, 0, Lock.Running), ToldOn(m - 1, 0, r.rest)) else s.rc == Lock.Failed
    decreases RETRYMAX - attempts
  {
    hide Sector, Hear, Nexts;
    var k := |c.items| - m;
    var s := Lock.Sender(k, attempts, Lock.Running);
    var h := Hear(first, crc, last, w);
    HearSame(first, crc, last, w);
    if h.answer == Acked {
      NextsOn(c, s, Ack, ToldOn(m - 1, 0, h.rest));
    } else if h.answer == Retry {
      NextsOn(c, s, Again, ToldOn(m, attempts + 1, h.rest));
      if attempts < RETRYMAX {
        PutSecTold(c, m, first, h.crc, attempts + 1, h.last, num, data, h.rest);
      } else {
        NextsStay(c, Lock.Sender(k, attempts + 1, Lock.Failed), []);
      }
    } else {
      One(c, s, Quit);
    }
  }

  /** The sending loop of wctx. */
  lemma {:induction false} TxTold(c: Lock.Config, first: bool, crc: bool, k: nat, w: Line)
    requires k <= |c.items|
    ensures var r, s := Tx(first, crc, k, c.items[k..], w), Nexts(c, Lock.Sender(k, 0, Lock.Running), ToldOn(|c.items| - k, 0, w));
      if r.ok then s == Nexts(c, Lock.Sender(|c.items|, 0, Lock.Running), ToldOn(0, 0, r.rest)) else s.rc == Lock.Failed
    decreases |c.items| - k
  {
    hide PutSec, Num, Nexts, ToldOn;
    if k < |c.items| {
      var r := PutSec(first, crc, 0, 0, Num(k), c.items[k], w);
      PutSecTold(c, |c.items| - k, first, crc, 0, 0, Num(k), c.items[k], w);
      assert c.items[k..][0] == c.items[k] && c.items[k..][1..] == c.items[k + 1..];
      if r.answer == Acked {
        TxTold(c, false, r.crc, k + 1, r.rest);
      }
    }
  }

  /** The loop with EOT. */
  lemma {:induction false} EotTold(c: Lock.Config, attempts: nat, w: Line)
    requires attempts < RETRYMAX
    ensures Nexts(c, Lock.Sender(|c.items|, attempts, Lock.Running), ToldOn(0, attempts, w))
         == Lock.Sender(|c.items|, PutEot(attempts, w).1, if PutEot(attempts, w).0 then Lock.OK else Lock.Failed)
    decreases RETRYMAX - attempts
  {
    hide Nexts;
    var s := Lock.Sender(|c.items|, attempts, Lock.Running);
    if Get(w) == ACK {
      One(c, s, Ack);
    } else {
      NextsOn(c, s, Again, ToldOn(0, attempts + 1, Rest(w)));
      if attempts + 1 < RETRYMAX {
        EotTold(c, attempts + 1, Rest(w));
      } else {
        NextsStay(c, Lock.Sender(|c.items|, RETRYMAX, Lock.Failed), []);
      }
    }
  }

  /** On every line: wctx behind its first sync succeeds exactly if the model's sender does when it is told what is on that line,
      and that sender is never left running. */
  lemma {:induction false} WcTxNexts(c: Lock.Config, first: bool, crc: bool, k: nat, w: Line)
    requires k <= |c.items|
    ensures var r, s := Tx(first, crc, k, c.items[k..], w), Nexts(c, Lock.Sender(k, 0, Lock.Running), ToldOn(|c.items| - k, 0, w));
      s.rc != Lock.Running && (s.rc == Lock.OK <==> r.ok && PutEot(0, r.rest).0)
  {
    hide Tx, PutEot, Nexts, ToldOn;
    TxTold(c, first, crc, k, w);
    EotTold(c, 0, Tx(first, crc, k, c.items[k..], w).rest);
  }

  // ------------------------------------------------------------------ together

  /** What the sender puts on the line: a sector, or EOT and silence. */
  function Puts(crc: bool, c: Lock.Config, s: Lock.Sender): Line {
    if Lock.AtEot(c, s) then [EOT, TIMEOUT] else Sector(crc, Num(s.k), c.items[s.k])
  }

  predicate Arrives(y: Lock.System, m: Lock.Move) {
    m.Exchange? && m.there && y.s.rc == Lock.Running
  }

  predicate Confuses(y: Lock.System, m: Lock.Move) {
    m.Nudge? || (m.Exchange? && !m.there && m.noticed && y.s.rc == Lock.Running)
  }

  /** What a move is on the line to the receiver: what was put on it, or two silences, or nothing. */
  function Forth(crc: bool, c: Lock.Config, y: Lock.System, m: Lock.Move): Line {
    if Arrives(y, m) then Puts(crc, c, y.s) else if Confuses(y, m) then [TIMEOUT, TIMEOUT] else []
  }

  predicate Heeded(c: Lock.Config, y: Lock.System, m: Lock.Move) {
    Arrives(y, m) && Lock.Take(c, y).1 && m.back
  }

  /** And on the line to the sender: the receiver's ACK, its complaint, or a silence. */
  function Back(c: Lock.Config, y: Lock.System, m: Lock.Move, complaint: Byte): Line {
    if y.s.rc != Lock.Running then []
    else if m.Exchange? then [if Heeded(c, y, m) then ACK else if !m.there && m.noticed && m.back then complaint else TIMEOUT]
    else if m.Nudge? && m.heard then [complaint]
    else []
  }

  /** What wcgetsec complains with until the first sector, and then. */
  predicate Complaint(k: Byte) {
    k == NAK || k == WANTCRC
  }

  function Forths(crc: bool, c: Lock.Config, y: Lock.System, ms: seq<Lock.Move>): Line
    decreases |ms|
  {
    if ms == [] then [] else Forth(crc, c, y, ms[0]) + Forths(crc, c, Lock.Apply(c, y, ms[0]), ms[1..])
  }

  function Backs(c: Lock.Config, y: Lock.System, ms: seq<Lock.Move>, firstsec: bool, nakchar: Byte): Line
    decreases |ms|
  {
    if ms == [] then []
    else Back(c, y, ms[0], Nak(firstsec, nakchar)) + Backs(c, Lock.Apply(c, y, ms[0]), ms[1..], firstsec && !Arrives(y, ms[0]), nakchar)
  }

  /** Nobody gives up out of turn. */
  predicate Patient(ms: seq<Lock.Move>) {
    forall m :: m in ms ==> m.Exchange? || m.Nudge?
  }

  predicate Sized(c: Lock.Config) {
    forall k :: 0 <= k < |c.items| ==> |c.items[k]| == 128 || |c.items[k]| == 1024
  }

  lemma OneSector(crc: bool, lastCan: bool, num: Byte, data: seq<Byte>, tail: Line)
    requires |data| == 128 || |data| == 1024
    ensures ReadOne(crc, lastCan, Sector(crc, num, data) + tail) == (GotSector(num, data), tail)
  {
    hide Passes, Checks, ReadBlock;
    ChecksPass(crc, data);
    ReadBlockOf(crc, num, data, Checks(crc, data), tail);
    var w := Sector(crc, num, data) + tail;
    assert w[1..] == [num, 0xFF - num] + (data + (Checks(crc, data) + tail));
  }

  lemma OneEot(crc: bool, lastCan: bool, tail: Line)
    ensures ReadOne(crc, lastCan, [EOT, TIMEOUT] + tail) == (GotEot, tail)
  {
    var w := [EOT, TIMEOUT] + tail;
    assert w[1..] == [TIMEOUT] + tail && w[1..][1..] == tail;
  }

  lemma OneSilence(crc: bool, lastCan: bool, tail: Line)
    ensures ReadOne(crc, lastCan, [TIMEOUT, TIMEOUT] + tail) == (Noise, [TIMEOUT] + tail) && Drain(1000, [TIMEOUT] + tail) == tail
  {
    var w := [TIMEOUT, TIMEOUT] + tail;
    assert w[1..] == [TIMEOUT] + tail && ([TIMEOUT] + tail)[1..] == tail;
  }

  /** An exchange in which the sector arrives: one attempt of wcputsec puts it on the line and goes by the answer, and one turn of
      wcgetsec gives it, number and data; the model moves each side by just that. */
  lemma {:induction false} OneExchange(c: Lock.Config, y: Lock.System, m: Lock.Move, first: bool, crc: bool, nak: Byte, complaint: Byte, last: Code, w: Line, v: Line)
    requires Sized(c) && Arrives(y, m) && y.s.k < |c.items| && y.s.attempts <= RETRYMAX && y.r.phase == Lock.Filing && y.r.errors < RETRYMAX && last != CAN
    ensures var data, num, told := c.items[y.s.k], Num(y.s.k), if Heeded(c, y, m) then Ack else Again;
      && GetSec(crc, nak, y.r.errors, false, Forth(crc, c, y, m) + w) == SecResult(GotSector(num, data), [], w)
      && PutSec(first, crc, y.s.attempts, last, num, data, Back(c, y, m, complaint) + v) ==
         (if told == Ack then PutResult(Acked, crc, Forth(crc, c, y, m), v)
          else PutAfter(Forth(crc, c, y, m), PutSec(first, crc, y.s.attempts + 1, TIMEOUT, num, data, v)))
      && Lock.Apply(c, y, m) == Lock.System(Next(c, y.s, told), Step(c.left, y.r, Sees(num, data)))
  {
    hide Sector, Num, Lock.TakeSector, ReadOne;
    OneSector(crc, false, Num(y.s.k), c.items[y.s.k], w);
    assert (Back(c, y, m, complaint) + v)[1..] == v;
    SameNumber(Num(y.s.k), y.s.k);
    TakesAlike(c, y.r, y.s.k);
  }

  lemma TakesAlike(c: Lock.Config, r: Lock.Receiver, k: nat)
    requires k < |c.items|
    ensures Lock.TakeSector(c, r, Lock.Number(k), c.items[k]) == Lock.TakeSector(Lock.Config([], c.left), r, Num(k) as nat, c.items[k])
  {
    SameNumber(Num(k), k);
  }

  /** What the receiver sees of a move. */
  function Seeing(c: Lock.Config, y: Lock.System, m: Lock.Move): seq<Seen> {
    if Arrives(y, m) then [if Lock.AtEot(c, y.s) then SeesEot else Sees(Num(y.s.k), c.items[y.s.k])]
    else if Confuses(y, m) then [Unreadable]
    else []
  }

  lemma SeeingSteps(c: Lock.Config, y: Lock.System, m: Lock.Move)
    requires m.Exchange? || m.Nudge?
    ensures Lock.Apply(c, y, m).r == Steps(c.left, y.r, Seeing(c, y, m))
  {
    hide Num, Lock.TakeSector, Lock.Acked, Lock.Unanswered, Lock.Number, Steps;
    var r := y.r;
    if Arrives(y, m) {
      if Lock.AtEot(c, y.s) {
        Single(true, NAK, c.left, r, SeesEot);
      } else {
        TakesAlike(c, r, y.s.k);
        Single(true, NAK, c.left, r, Sees(Num(y.s.k), c.items[y.s.k]));
      }
    } else if Confuses(y, m) {
      Single(true, NAK, c.left, r, Unreadable);
    } else {
      Nothing(true, NAK, c.left, r);
    }
  }

  /** On its line the receiver sees the move, and then the rest as the model's receiver goes on to it. */
  lemma ForthSeen(crc: bool, c: Lock.Config, y: Lock.System, m: Lock.Move, rest: Line)
    requires Sized(c) && (m.Exchange? || m.Nudge?) && y.r.phase == Lock.Filing && y.r.errors < RETRYMAX
    ensures var r, es := Lock.Apply(c, y, m).r, SeenOn(crc, y.r.errors, false, Forth(crc, c, y, m) + rest);
      if r.phase == Lock.Filing then r.errors < RETRYMAX && es == Seeing(c, y, m) + SeenOn(crc, r.errors, false, rest)
      else Seeing(c, y, m) != [] && es != [] && es[0] == Seeing(c, y, m)[0] && (r.phase == Lock.Closed ==> es == Seeing(c, y, m))
  {
    hide ReadOne, Sector, Num, Drain;
    if Arrives(y, m) {
      if Lock.AtEot(c, y.s) {
        OneEot(crc, false, rest);
      } else {
        OneSector(crc, false, Num(y.s.k), c.items[y.s.k], rest);
      }
    } else if Confuses(y, m) {
      OneSilence(crc, false, rest);
    } else {
      assert [] + rest == rest;
    }
  }

  /** Once wcrx has returned nothing more is written. */
  lemma {:induction false} Ended(c: Lock.Config, y: Lock.System, ms: seq<Lock.Move>)
    requires y.r.phase == Lock.Closed || y.r.phase.Stopped?
    ensures var r := Lock.Run(c, y, ms).r;
      r.out == y.r.out && (r.phase == Lock.Closed || r.phase.Stopped?) && (y.r.phase.Stopped? ==> r.phase.Stopped?)
    decreases |ms|
  {
    if ms != [] {
      Ended(c, Lock.Apply(c, y, ms[0]), ms[1..]);
    }
  }

  /** A line that ends leaves no receiver waiting. */
  lemma {:induction false} HangUp(crc: bool, left: int, r: Lock.Receiver)
    requires r.phase == Lock.Filing && r.errors < RETRYMAX
    ensures var u := Steps(left, r, SeenOn(crc, r.errors, false, [])); u.phase == Lock.Stopped(false) && u.out == r.out
    decreases RETRYMAX - r.errors
  {
    hide Steps;
    var more := SeenOn(crc, r.errors + 1, false, []);
    assert SeenOn(crc, r.errors, false, []) == [Unreadable] + more by { DrainNothing(1000); }
    StepsOn(left, r, Unreadable, more);
    var u := Step(left, r, Unreadable);
    if r.errors + 1 < RETRYMAX {
      HangUp(crc, left, u);
    } else {
      Nothing(true, NAK, left, u);
    }
  }

  lemma {:induction false} DrainNothing(n: nat)
    ensures Drain(n, []) == []
    decreases n
  {
    if n > 0 { DrainNothing(n - 1); }
  }

  lemma {:induction false} ForthsSeen(crc: bool, c: Lock.Config, y: Lock.System, ms: seq<Lock.Move>)
    requires Sized(c) && Patient(ms) && y.r.phase == Lock.Filing && y.r.errors < RETRYMAX
    ensures var r, u := Lock.Run(c, y, ms).r, Steps(c.left, y.r, SeenOn(crc, y.r.errors, false, Forths(crc, c, y, ms)));
      u.out == r.out && (r.phase == Lock.Closed ==> u.phase == Lock.Closed) && (r.phase == Lock.Filing ==> u.phase.Stopped?)
    decreases |ms|
  {
    hide Lock.Apply, Forth, Seeing, SeenOn, Steps;
    if ms == [] {
      HangUp(crc, c.left, y.r);
    } else {
      assert ms[0] in ms;
      var z, rest := Lock.Apply(c, y, ms[0]), Forths(crc, c, Lock.Apply(c, y, ms[0]), ms[1..]);
      var es := SeenOn(crc, y.r.errors, false, Forth(crc, c, y, ms[0]) + rest);
      ForthSeen(crc, c, y, ms[0], rest);
      SeeingSteps(c, y, ms[0]);
      if z.r.phase == Lock.Filing {
        ForthsSeen(crc, c, z, ms[1..]);
        StepsMore(c.left, y.r, Seeing(c, y, ms[0]), SeenOn(crc, z.r.errors, false, rest));
      } else {
        FilingEnds(c, y, ms[0]);
        Ended(c, z, ms[1..]);
        if z.r.phase.Stopped? {
          assert es == Seeing(c, y, ms[0]) + es[1..] by { OneSeen(c, y, ms[0]); }
          StepsMore(c.left, y.r, Seeing(c, y, ms[0]), es[1..]);
          Stays(true, NAK, c.left, z.r, es[1..]);
        }
      }
    }
  }

  lemma OneSeen(c: Lock.Config, y: Lock.System, m: Lock.Move)
    ensures |Seeing(c, y, m)| <= 1
  {
  }

  lemma FilingEnds(c: Lock.Config, y: Lock.System, m: Lock.Move)
    requires y.r.phase == Lock.Filing
    ensures Lock.Apply(c, y, m).r.phase != Lock.Naming
  {
  }

  lemma {:induction false} StepsMore(left: int, r: Lock.Receiver, a: seq<Seen>, b: seq<Seen>)
    ensures Steps(left, r, a + b) == Steps(left, Steps(left, r, a), b)
    decreases |a|
  {
    hide Step;
    if a == [] {
      assert a + b == b;
    } else {
      assert (a + b)[1..] == a[1..] + b;
      StepsMore(left, Step(left, r, a[0]), a[1..], b);
    }
  }

  /** On its line the sender is told of the move, and then the rest as the model's sender goes on to it. */
  lemma BackTold(c: Lock.Config, y: Lock.System, m: Lock.Move, complaint: Byte, rest: Line)
    requires Complaint(complaint) && (m.Exchange? || m.Nudge?) && y.s.rc == Lock.Running && y.s.k <= |c.items|
    requires y.s.attempts <= RETRYMAX && (Lock.AtEot(c, y.s) ==> y.s.attempts < RETRYMAX)
    ensures var s, es := Lock.Apply(c, y, m).s, ToldOn(|c.items| - y.s.k, y.s.attempts, Back(c, y, m, complaint) + rest);
      if s.rc == Lock.Running then
        && s.k <= |c.items| && s.attempts <= RETRYMAX && (Lock.AtEot(c, s) ==> s.attempts < RETRYMAX)
        && Nexts(c, y.s, es) == Nexts(c, s, ToldOn(|c.items| - s.k, s.attempts, rest))
      else Nexts(c, y.s, es) == s
  {
    hide Nexts, Lock.Take;
    var s, k := Lock.Apply(c, y, m).s, |c.items| - y.s.k;
    if Back(c, y, m, complaint) == [] {
      assert [] + rest == rest;
    } else {
      var w := Back(c, y, m, complaint) + rest;
      assert w[1..] == rest;
      var e := if Heeded(c, y, m) then Ack else Again;
      var es := ToldOn(k, y.s.attempts, w);
      var more := if k > 0 && e == Ack then ToldOn(k - 1, 0, rest) else if e == Ack then [] else ToldOn(k, y.s.attempts + 1, rest);
      assert es == [e] + more;
      NextsOn(c, y.s, e, more);
      assert Next(c, y.s, e) == s;
      if s.rc != Lock.Running {
        NextsStay(c, s, more);
      }
    }
  }

  lemma {:induction false} BacksTold(c: Lock.Config, y: Lock.System, ms: seq<Lock.Move>, firstsec: bool, nakchar: Byte)
    requires Complaint(nakchar) && Patient(ms) && y.s.rc == Lock.Running && y.s.k <= |c.items|
    requires y.s.attempts <= RETRYMAX && (Lock.AtEot(c, y.s) ==> y.s.attempts < RETRYMAX)
    ensures Lock.Run(c, y, ms).s.rc == Lock.OK <==> Nexts(c, y.s, ToldOn(|c.items| - y.s.k, y.s.attempts, Backs(c, y, ms, firstsec, nakchar))).rc == Lock.OK
    decreases |ms|
  {
    hide Lock.Apply, Back, ToldOn, Nexts;
    if ms == [] {
      CutOff(c, y.s);
    } else {
      assert ms[0] in ms;
      var z := Lock.Apply(c, y, ms[0]);
      var first := firstsec && !Arrives(y, ms[0]);
      BackTold(c, y, ms[0], Nak(firstsec, nakchar), Backs(c, z, ms[1..], first, nakchar));
      if z.s.rc == Lock.Running {
        BacksTold(c, z, ms[1..], first, nakchar);
      } else {
        Lock.Idle(c, z, ms[1..]);
      }
    }
  }

  /** A line that ends leaves no sender satisfied. */
  lemma {:induction false} CutOff(c: Lock.Config, s: Lock.Sender)
    requires s.rc == Lock.Running && s.k <= |c.items| && s.attempts <= RETRYMAX && (Lock.AtEot(c, s) ==> s.attempts < RETRYMAX)
    ensures Nexts(c, s, ToldOn(|c.items| - s.k, s.attempts, [])).rc == Lock.Failed
    decreases RETRYMAX - s.attempts
  {
    hide Nexts;
    if Lock.AtEot(c, s) {
      var more := ToldOn(0, s.attempts + 1, []);
      NextsOn(c, s, Again, more);
      var t := Next(c, s, Again);
      if t.rc == Lock.Running {
        CutOff(c, t);
      } else {
        NextsStay(c, t, more);
      }
    } else {
      One(c, s, Quit);
    }
  }

  /** Every run of the model in which nobody gives up out of turn, from a sector that is next on both sides: wcrx, on the line that the
      run is to it, writes what the model's receiver has written, and wctx, on its line, succeeds exactly if the model's
      sender does. */
  lemma {:induction false} RunOnLines(c: Lock.Config, y: Lock.System, ms: seq<Lock.Move>, first: bool, firstsec: bool, crc: bool, nakchar: Byte, sendchar: Byte)
    requires Sized(c) && Patient(ms) && Complaint(nakchar)
    requires y.r.phase == Lock.Filing && y.r.errors == 0 && y.s.rc == Lock.Running && y.s.attempts == 0 && y.s.k <= |c.items|
    ensures var z, x := Lock.Run(c, y, ms), Rx(crc, nakchar, c.left, firstsec, sendchar, y.r.n, y.r.received, y.r.out, Forths(crc, c, y, ms));
      x.out == z.r.out && (z.r.phase == Lock.Closed ==> x.ok) && (z.r.phase == Lock.Filing ==> !x.ok)
    ensures var z, t := Lock.Run(c, y, ms), Tx(first, crc, y.s.k, c.items[y.s.k..], Backs(c, y, ms, firstsec, nakchar));
      z.s.rc == Lock.OK <==> t.ok && PutEot(0, t.rest).0
  {
    hide Rx, Tx, Forths, Backs, Lock.Run, SeenOn, ToldOn, Steps, Nexts, Answers, PutEot;
    WcRxSteps(crc, nakchar, c.left, firstsec, sendchar, y.r, Forths(crc, c, y, ms));
    ForthsSeen(crc, c, y, ms);
    WcTxNexts(c, first, crc, y.s.k, Backs(c, y, ms, firstsec, nakchar));
    BacksTold(c, y, ms, firstsec, nakchar);
  }

  /** So for every file and every such run: wcrx, on its line, writes a prefix of the file, and the file once wctx, on its own, has
      succeeded. */
  lemma {:induction false} FileOnLines(f: seq<Byte>, name: seq<Byte>, blklen: nat, ms: seq<Lock.Move>, first: bool, crc: bool, nakchar: Byte)
    requires (blklen == 128 || blklen == 1024) && |name| == 128 && Patient(ms) && Complaint(nakchar)
    ensures var c := Lock.Config([name] + Blocks(f, |f|, 0, blklen), |f|);
      var x := Rx(crc, nakchar, |f|, true, nakchar, 0, 0, [], Forths(crc, c, Lock.UNNAMED, ms));
      var t := Tx(first, crc, 1, Blocks(f, |f|, 0, blklen), Backs(c, Lock.UNNAMED, ms, true, nakchar));
      x.out <= f && (t.ok && PutEot(0, t.rest).0 ==> x.out == f)
  {
    hide Rx, Tx, Forths, Backs, Lock.Run, PutEot, Blocks, Written;
    var bs := Blocks(f, |f|, 0, blklen);
    var c := Lock.Config([name] + bs, |f|);
    assert c.items[1..] == bs;
    PlanHolds(f, blklen);
    assert forall k :: 0 < k < |c.items| ==> c.items[k] == bs[k - 1];
    RunOnLines(c, Lock.UNNAMED, ms, first, true, crc, nakchar, nakchar);
    Lock.WithoutName(c, ms);
    Lock.WrittenOfFile(f, name, blklen, Lock.Run(c, Lock.UNNAMED, ms).r.n);
  }
}

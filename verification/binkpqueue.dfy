/** What becomes of the peer's messages, read off the frames that come, and a session in both directions. */
module BinkpQueue {
  import opened BinkpFinish
  import opened BinkpClean
  import opened BinkpDeaths

  /** The frame that a turn polls. */
  predicate Polls(n: Node, ev: Event, f: Frame) {
    n.ft == Switch && !(n.rx == RxDone && n.tx == TxDone) && ev.poll == GotFrame(f)
  }

  /** The states in which the receiver looks at messages. */
  predicate Listens(n: Node) {
    n.rx == RxWaitF || n.rx == RxReceD || n.rx == RxEOB
  }

  /** The messages that come while the receiver listens, in order. */
  function Arriving(n: Node, evs: seq<Event>): seq<Message>
    decreases |evs|
  {
    if evs == [] then [] else
    (match evs[0].poll
     case GotFrame(FMessage(m)) => if Polls(n, evs[0], FMessage(m)) && Listens(n) then [m] else []
     case _ => [])
    + Arriving(Turn(n, evs[0]), evs[1..])
  }

  /** The transmitter works off its queue before it reads on, and when it waits for the last acknowledgements. */
  predicate WorksOff(n: Node) {
    n.ft == Transmit && (n.tx == TxTryR || n.tx == TxWLA)
  }

  /** The messages worked off, in order. */
  function Worked(n: Node, evs: seq<Event>): seq<Message>
    decreases |evs|
  {
    if evs == [] then [] else (if WorksOff(n) then n.queue else []) + Worked(Turn(n, evs[0]), evs[1..])
  }

  /** One that has been polled and not yet been put on the queue. */
  function Between(n: Node): seq<Message> {
    if n.ft == Receive && Listens(n) && n.frame.FMessage? then [n.frame.m] else []
  }

  function Waiting(n: Node): seq<Message> {
    n.queue + Between(n)
  }

  lemma SwitchQueue(n: Node, ev: Event)
    requires n.ft == Switch
    ensures var t := Turn(n, ev);
      t.queue == n.queue && t.ft != Crashed
      && Between(t) == (match ev.poll case GotFrame(FMessage(m)) => if Polls(n, ev, FMessage(m)) && Listens(n) then [m] else [] case _ => [])
  {
  }

  lemma FramesQueue(n: Node, ev: Event)
    requires n.ft == Receive && Listens(n)
    ensures var (t, r) := Receiver(n, ev);
      t.ft != Crashed ==> t.queue == Waiting(n) && (r == Continue ==> !Listens(t))
  {
    hide NewBatch;
    BatchQueue(n);
    assert n.queue + [] == n.queue;
  }

  lemma BatchQueue(n: Node)
    ensures NewBatch(n).queue == n.queue && Clear(n).queue == n.queue && NewBatch(n).ft == n.ft
  {
  }

  lemma FileQueue(n: Node, ev: Event)
    requires n.ft == Receive && !Listens(n)
    ensures var (t, r) := Receiver(n, ev); t.queue == n.queue && (t.ft != Crashed ==> r != Continue)
  {
    hide AcceptFile;
    AcceptSame(n, ev);
    if n.rx == RxAccF {
      AcceptDone(n, ev);
    }
  }

  lemma AcceptDone(n: Node, ev: Event)
    ensures AcceptFile(n, ev).1 != Continue
  {
    hide Settle, Answer, BOpenFile;
    if n.frame.FFile? && n.frame.line.File? {
      var f := n.frame.line;
      SettleSame(n, ev, f.size, f.offset);
      SettleSame(BOpenFile(n, ev.reopen), ev, f.size, f.offset);
    }
    AnswerSame(n, ev);
  }

  lemma ReceiveQueue(n: Node, ev: Event)
    requires n.ft == Receive
    ensures var t := Turn(n, ev); t.ft != Crashed ==> t.queue == Waiting(n) && Between(t) == []
  {
    hide Receiver;
    if Listens(n) {
      FramesQueue(n, ev);
    } else {
      FileQueue(n, ev);
      assert n.queue + [] == n.queue;
    }
  }

  lemma NextQueue(n: Node, ev: Event)
    ensures GetNextFile(n, ev).0.queue == n.queue
  {
    hide MakeList, NextFile;
    OpenQueue(n, ev);
    ListQueue(n, ev);
    OpenQueue(Announce(MakeList(n, ev), ev).0, ev);
  }

  lemma OpenQueue(n: Node, ev: Event)
    ensures NextFile(n, ev).0.queue == n.queue
  {
    hide NextOpen;
  }

  lemma ListQueue(n: Node, ev: Event)
    ensures MakeList(n, ev).queue == n.queue
  {
  }

  lemma WaitQueue(n: Node)
    requires n.tx == TxWLA
    ensures WaitLast(n).0.queue == []
  {
    hide NewBatch, Clear, ProcessAll;
    BatchQueue(n);
    BatchQueue(n.(tx := TxDone, rx := if n.localEob && n.remoteEob then RxDone else n.rx));
    BatchQueue(n.(tx := TxDone, rx := RxDone));
  }

  lemma TransmitQueue(n: Node, ev: Event)
    requires n.ft == Transmit
    ensures var t := Turn(n, ev); t.ft != Crashed ==> t.queue == (if WorksOff(n) then [] else n.queue) && Between(t) == []
  {
    hide WaitLast, GetNextFile, ProcessAll;
    NextQueue(n, ev);
    if n.tx == TxWLA { WaitQueue(n); }
    TransmitPlace(n, ev);
  }

  lemma TransmitPlace(n: Node, ev: Event)
    requires n.ft == Transmit
    ensures Turn(n, ev).ft != Receive
  {
    hide GetNextFile, WaitLast, ProcessAll;
    if n.tx != TxReadS || 0 <= n.cursend < |n.bll| { TransmitterFt(n, ev); }
    if n.queue != [] { ProcessedFt(n, n.queue); }
  }

  lemma {:induction false} ProcessedFt(n: Node, ms: seq<Message>)
    ensures ProcessAll(n, ms).ft == n.ft || ProcessAll(n, ms).ft == Crashed
    decreases |ms|
  {
    if ms != [] {
      MessageLeaves(n, ms[0]);
      hide OnMessage;
      ProcessedFt(OnMessage(n, ms[0]), ms[1..]);
    }
  }

  lemma TurnQueue(n: Node, ev: Event)
    requires n.ft != Crashed && Turn(n, ev).ft != Crashed
    ensures (if WorksOff(n) then n.queue else []) + Waiting(Turn(n, ev)) == Waiting(n) + Arriving(n, [ev])
  {
    hide Turn;
    var t := Turn(n, ev);
    assert [ev][1..] == [] && Arriving(t, []) == [];
    match n.ft
    case Switch => SwitchQueue(n, ev);
    case Receive => ReceiveQueue(n, ev);
    case Transmit => TransmitQueue(n, ev);
    case _ => RestQueue(n, ev);
  }

  lemma RestQueue(n: Node, ev: Event)
    requires n.ft == DeinitTransfer || n.ft == Returned
    ensures Turn(n, ev).queue == n.queue && Turn(n, ev).ft == Returned
  {
  }

  lemma ArrivingFirst(n: Node, ev: Event, evs: seq<Event>)
    ensures Arriving(n, [ev] + evs) == Arriving(n, [ev]) + Arriving(Turn(n, ev), evs)
  {
    hide Turn;
    assert ([ev] + evs)[1..] == evs && [ev][1..] == [];
    assert Arriving(Turn(n, ev), []) == [];
  }

  lemma CrashedNever(n: Node, ev: Event)
    ensures n.ft == Crashed ==> Turn(n, ev).ft == Crashed
  {
  }

  /** In every session that has not died: what has been worked off, and what still waits, are together exactly the messages that came
      while the receiver listened, in order. */
  lemma {:induction false} NothingLost(n: Node, evs: seq<Event>)
    requires Run(n, evs).ft != Crashed
    ensures Worked(n, evs) + Waiting(Run(n, evs)) == Waiting(n) + Arriving(n, evs)
    decreases |evs|
  {
    hide Turn, Waiting, WorksOff;
    if evs == [] {
      assert Waiting(n) + [] == Waiting(n);
    } else {
      var t, rest := Turn(n, evs[0]), evs[1..];
      if t.ft == Crashed { CrashedStays(t, rest); }
      NothingLost(t, rest);
      if n.ft == Crashed { CrashedNever(n, evs[0]); }
      TurnQueue(n, evs[0]);
      assert evs == [evs[0]] + rest;
      ArrivingFirst(n, evs[0], rest);
      var now := if WorksOff(n) then n.queue else [];
      assert now + Worked(t, rest) + Waiting(Run(n, evs)) == now + (Worked(t, rest) + Waiting(Run(n, evs)));
      assert now + (Waiting(t) + Arriving(t, rest)) == now + Waiting(t) + Arriving(t, rest);
      assert Waiting(n) + Arriving(n, [evs[0]]) + Arriving(t, rest) == Waiting(n) + (Arriving(n, [evs[0]]) + Arriving(t, rest));
    }
  }

  lemma {:induction false} SessionMessages(version: Version, evs: seq<Event>)
    requires Run(Start(version), evs).ft != Crashed
    ensures Worked(Start(version), evs) + Waiting(Run(Start(version), evs)) == Arriving(Start(version), evs)
  {
    hide Run, Worked, Arriving;
    NothingLost(Start(version), evs);
    assert [] + Arriving(Start(version), evs) == Arriving(Start(version), evs);
  }

  // ------------------------------------------------------------------ what a message does

  /** The first entry that a message is about. */
  predicate About(n: Node, m: Message, i: nat) {
    i < |n.bll| && Means(m, n.bll[i].id) && forall j :: 0 <= j < i ==> !Means(m, n.bll[j].id)
  }

  /** A message about no entry does nothing.  M_GOT makes its entry Got, and so does M_GET for the end of a file that is sent; both
      dispose of every file with that local name.  M_SKIP makes it Skipped.  M_GET for an earlier position has it sent from there.
      Whatever was being sent is no longer if its entry was. */
  lemma MessageDone(n: Node, m: Message, i: nat)
    requires n.ft != Crashed && !Kills(n, m)
    requires About(n, m, i) || (i == |n.bll| && forall j :: 0 <= j < i ==> !Means(m, n.bll[j].id))
    ensures var t := OnMessage(n, m);
      if i == |n.bll| then t == n
      else
        var e := n.bll[i];
        var got := m.MGot? || (m.MGet? && m.offset == m.size && e.state == IsSent);
        && t.bll == (if got then n.bll[i := e.(state := Got)] else if m.MSkip? then n.bll[i := e.(state := Skipped)]
                     else if m.MGet? && m.offset < m.size then n.bll[i := e.(state := NoState, offset := m.offset)] else n.bll)
        && t.h.disposed == n.h.disposed + (if got then SameLocal(n.bll, e.id.local) else {})
        && t.tx == (if (m.MGet? && m.offset < m.size) || (!m.MGet? && e.state == Sending) then TxGNF else n.tx)
        && t.cursend == (if !m.MGet? && e.state == Sending then -1 else n.cursend)
        && t.fp == (if !m.MGet? && e.state == Sending then n.fp.(tx := false) else n.fp)
        && t.ft == n.ft && t.rx == n.rx && t.queue == n.queue && t.h.heard == n.h.heard
  {
    FirstIs(n, m, i);
    hide Means, SameLocal;
    assert n.h.disposed + {} == n.h.disposed;
  }

  lemma FirstIs(n: Node, m: Message, i: nat)
    requires About(n, m, i) || (i == |n.bll| && forall j :: 0 <= j < i ==> !Means(m, n.bll[j].id))
    ensures Index(n.bll, m, 0) == if i == |n.bll| then -1 else i
  {
  }

  // ------------------------------------------------------------------ both ways

  /** The first data frame of a file of the peer's: M_FILE, and a block that is not the last. */
  function Receives(size: int): seq<Event> {
    [IDLE, Hears(FFile(File(size, 0)))] + ([IDLE, IDLE] + ([Hears(FData), IDLE] + [IDLE]))
  }

  lemma PeerStarts(n: Node, size: int)
    requires size != 0
    requires n.ft == Transmit && n.tx == TxWLA && n.rx == RxWaitF && n.queue == [] && !AllDone(n.bll) && !n.remoteEob
    ensures Run(n, Receives(size)) == n.(ft := Switch, rx := RxReceD, frame := FData, messages := n.messages + 1, fp := n.fp.(rx := true, rxbytes := 0))
  {
    hide Transmitter, ProcessAll;
    var n1 := Turn(n, IDLE);
    assert n1 == n.(ft := Switch) by { Idles(n); }
    hide Clear;
    RunTwo(n, IDLE, Hears(FFile(File(size, 0))));
    var n2 := n.(ft := Receive, frame := FFile(File(size, 0)), messages := n.messages + 1);
    assert Run(n, [IDLE, Hears(FFile(File(size, 0)))]) == n2;
    RunTwo(n2, IDLE, IDLE);
    var n4 := n2.(ft := Switch, rx := RxReceD, fp := n.fp.(rx := true, rxbytes := 0));
    assert Run(n2, [IDLE, IDLE]) == n4;
    DataComes(n4, More);
    RunMore(n4, [Hears(FData), IDLE], [IDLE]);
    RunMore(n2, [IDLE, IDLE], [Hears(FData), IDLE] + [IDLE]);
    RunMore(n, [IDLE, Hears(FFile(File(size, 0)))], [IDLE, IDLE] + ([Hears(FData), IDLE] + [IDLE]));
  }

  lemma Idles(n: Node)
    requires n.ft == Transmit && n.tx == TxWLA && n.queue == [] && !AllDone(n.bll)
    ensures Turn(n, IDLE) == n.(ft := Switch)
  {
  }

  function Written(w: Write): Event {
    IDLE.(write := w)
  }

  /** A data frame, and what it comes to. */
  lemma DataComes(n: Node, w: Write)
    requires n.ft == Switch && n.rx == RxReceD && n.tx == TxWLA && n.fp.rx && !n.remoteEob && (w == More || w == Whole)
    ensures Run(n, [Hears(FData), IDLE] + [Written(w)]) ==
            n.(frame := FData, rx := if w == Whole then RxWaitF else RxReceD, messages := if w == Whole then n.messages + 1 else n.messages)
  {
    hide Transmitter, AcceptFile, NewBatch;
    RunTwo(n, Hears(FData), IDLE);
    RunMore(n, [Hears(FData), IDLE], [Written(w)]);
    RunOne(Run(n, [Hears(FData), IDLE]), Written(w));
  }

  /** A message in the middle of the peer's file. */
  lemma MessageComes(n: Node, m: Message)
    requires n.ft == Switch && n.rx == RxReceD && n.tx == TxWLA && !n.remoteEob
    ensures Run(n, [Hears(FMessage(m)), IDLE]) == AddMessage(n.(messages := n.messages + 1, frame := FMessage(m)), m)
  {
    hide Transmitter, AcceptFile, NewBatch;
    RunTwo(n, Hears(FMessage(m)), IDLE);
  }

  /** It is worked off there and then, and the session goes on. */
  lemma GotMeanwhile(n: Node, d: Id)
    requires n.ft == Switch && n.rx == RxReceD && n.tx == TxWLA && n.version == V10 && n.bll == [Entry(d, IsSent, 0)]
    requires n.queue == [MGot(d.remote, d.size, d.date)]
    ensures Run(n, [IDLE, IDLE] + [IDLE]) == n.(queue := [], bll := [Entry(d, Got, 0)], h := n.h.(disposed := n.h.disposed + {d}))
  {
    hide OnMessage, Receiver, GetNextFile, ReadSend, NewBatch;
    var m := MGot(d.remote, d.size, d.date);
    var n1 := n.(ft := Transmit);
    GotOnly(n1, d);
    assert [m][1..] == [] && ProcessAll(n1, [m]) == ProcessAll(OnMessage(n1, m), []);
    var n2 := n1.(queue := [], bll := [Entry(d, Got, 0)], h := n.h.(disposed := n.h.disposed + {d}));
    RunTwo(n, IDLE, IDLE);
    assert Turn(n, IDLE) == n1 && Turn(n1, IDLE) == n2;
    assert AllDone(n2.bll);
    RunMore(n, [IDLE, IDLE], [IDLE]);
    RunOne(n2, IDLE);
  }

  /** For every file of either side there is a session in which both go across: M_GOT for ours comes between two data frames of the
      peer's, our file is disposed of, and the session returns 0. */
  lemma {:induction false} BothWays(d: Id, size: int) returns (evs: seq<Event>)
    requires size != 0
    ensures var z := Run(Start(V10), evs);
      && z.ft == Returned && z.rc == 0 && z.h.cleared == [[Entry(d, Got, 0)]] && z.h.disposed == {d}
  {
    hide Run, Quiet, Arriving;
    var m := MGot(d.remote, d.size, d.date);
    Offers(V10, d);
    var n := Sends(V10, d);
    LastBlock(d);
    var last := [IDLE, Quiet(NoFrame, Block.Last, [])];
    var n2 := Run(n, last);
    assert NextOpen(n2.bll, 0) == 1;
    NoMore(n2);
    var n4 := Run(n2, [IDLE, IDLE]);
    assert n4.bll[0] in n4.bll && !Done(n4.bll[0]);
    PeerStarts(n4, size);
    var n5 := Run(n4, Receives(size));
    MessageComes(n5, m);
    var n6 := Run(n5, [Hears(FMessage(m)), IDLE]);
    GotMeanwhile(n6, d);
    var n7 := Run(n6, [IDLE, IDLE] + [IDLE]);
    DataComes(n7, Whole);
    var more := [Hears(FData), IDLE] + [Written(Whole)];
    var n8 := Run(n7, more);
    HearsEob(n8);
    var n9 := Run(n8, [Hears(FEob), IDLE]);
    assert AllDone(n9.bll);
    Ends(n9);
    var e9 := [IDLE, IDLE] + [IDLE, IDLE];
    var e8 := [Hears(FEob), IDLE] + e9;
    var e7 := more + e8;
    var e6 := [IDLE, IDLE] + [IDLE] + e7;
    var e5 := [Hears(FMessage(m)), IDLE] + e6;
    var e4 := Receives(size) + e5;
    var e2 := [IDLE, IDLE] + e4;
    evs := Offer(d) + (last + e2);
    RunMore(Start(V10), Offer(d), last + e2);
    RunMore(n, last, e2);
    RunMore(n2, [IDLE, IDLE], e4);
    RunMore(n4, Receives(size), e5);
    RunMore(n5, [Hears(FMessage(m)), IDLE], e6);
    RunMore(n6, [IDLE, IDLE] + [IDLE], e7);
    RunMore(n7, more, e8);
    RunMore(n8, [Hears(FEob), IDLE], e9);
  }
}

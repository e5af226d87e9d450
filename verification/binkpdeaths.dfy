/** When file_transfer dies on a null pointer, and sessions in which it does. */
module BinkpDeaths {
  import opened BinkpFinish
  import opened BinkpClean

  // ------------------------------------------------------------------ exactly when the process dies

  /** Arguments are missing; or M_GET asks for the end of a file and names the one being sent; or M_GOT or M_SKIP finds its
      file Sending and no file open. */
  predicate Kills(n: Node, m: Message) {
    var i := Index(n.bll, m, 0);
    || m.MShort?
    || (i >= 0 && m.MGet? && m.offset == m.size && 0 <= n.cursend < |n.bll| && Means(m, n.bll[n.cursend].id))
    || (i >= 0 && !m.MGet? && n.bll[i].state == Sending && !n.fp.tx)
  }

  lemma KillsIff(n: Node, m: Message)
    requires n.ft != Crashed
    ensures OnMessage(n, m).ft == Crashed <==> Kills(n, m)
  {
  }

  /** One of the messages does so, in the state the ones before it have left. */
  ghost predicate KilledBy(n: Node, ms: seq<Message>) {
    exists k :: 0 <= k < |ms| && KilledAt(n, ms, k)
  }

  ghost predicate KilledAt(n: Node, ms: seq<Message>, k: nat)
    requires k < |ms|
  {
    ProcessAll(n, ms[..k]).ft != Crashed && Kills(ProcessAll(n, ms[..k]), ms[k])
  }

  lemma KilledLater(n: Node, ms: seq<Message>, k: nat)
    requires 0 < k < |ms|
    ensures KilledAt(n, ms, k) <==> KilledAt(OnMessage(n, ms[0]), ms[1..], k - 1)
  {
    hide OnMessage, Kills;
    assert ms[..k][0] == ms[0] && ms[..k][1..] == ms[1..][..k - 1];
  }

  lemma {:induction false} StaysCrashed(n: Node, ms: seq<Message>)
    requires n.ft == Crashed
    ensures ProcessAll(n, ms) == n
    decreases |ms|
  {
    if ms != [] {
      StaysCrashed(n, ms[1..]);
    }
  }

  lemma {:induction false} ProcessKillsIff(n: Node, ms: seq<Message>)
    requires n.ft != Crashed
    ensures ProcessAll(n, ms).ft == Crashed <==> KilledBy(n, ms)
    decreases |ms|
  {
    hide OnMessage, Kills;
    if ms != [] {
      var t, rest := OnMessage(n, ms[0]), ms[1..];
      KillsIff(n, ms[0]);
      assert ms[..0] == [] && ProcessAll(n, ms[..0]) == n;
      assert KilledAt(n, ms, 0) <==> t.ft == Crashed;
      if t.ft == Crashed {
        StaysCrashed(t, rest);
      } else {
        ProcessKillsIff(t, rest);
        forall k | 0 < k < |ms| ensures KilledAt(n, ms, k) <==> KilledAt(t, rest, k - 1) {
          KilledLater(n, ms, k);
        }
        hide KilledAt;
        if KilledBy(t, rest) {
          var k :| 0 <= k < |rest| && KilledAt(t, rest, k);
          assert KilledAt(n, ms, k + 1);
        }
        if KilledBy(n, ms) {
          var k :| 0 <= k < |ms| && KilledAt(n, ms, k);
          assert KilledAt(t, rest, k - 1);
        }
      }
    }
  }

  /** The queue is about to be worked off, and one of the messages on it kills. */
  ghost predicate QueueKills(n: Node) {
    (n.tx == TxTryR || n.tx == TxWLA) && KilledBy(n, n.queue)
  }

  /** The receiver is about to look at an M_FILE without all its arguments, or one for the end of the last file found when no
      file is open, or an M_NUL that stops short. */
  predicate FrameKills(n: Node) {
    match n.rx
    case RxAccF =>
      n.frame == FFile(TooFew)
      || (n.frame.FFile? && n.frame.line.File? && n.frame.line.offset !in {0, -1} && n.frame.line.offset == n.fp.rxbytes && !n.fp.rx)
    case RxWaitF | RxReceD | RxEOB => n.frame.FNul? && n.frame.bare
    case _ => false
  }

  ghost predicate Doomed(n: Node, ev: Event) {
    match n.ft
    case Receive => FrameKills(n)
    case Transmit => QueueKills(n) || (n.tx == TxGNF && !n.listed && NothingToAddTo(ev))
    case _ => false
  }

  lemma NextFt(n: Node, ev: Event)
    requires n.ft != Crashed
    ensures GetNextFile(n, ev).0.ft == if !n.listed && NothingToAddTo(ev) then Crashed else n.ft
  {
  }

  lemma WaitFt(n: Node)
    ensures WaitLast(n).0.ft == if n.queue != [] then ProcessAll(n, n.queue).ft else n.ft
  {
    hide ProcessAll;
  }

  lemma TransmitterFt(n: Node, ev: Event)
    requires n.ft == Transmit && (n.tx == TxReadS ==> 0 <= n.cursend < |n.bll|)
    ensures Transmitter(n, ev).0.ft ==
            if n.queue != [] && (n.tx == TxTryR || n.tx == TxWLA) then ProcessAll(n, n.queue).ft
            else if n.tx == TxGNF && !n.listed && NothingToAddTo(ev) then Crashed
            else Transmit
  {
    hide ProcessAll, GetNextFile, WaitLast;
    NextFt(n, ev);
    WaitFt(n);
  }

  lemma TransmitKillsIff(n: Node, ev: Event)
    requires n.ft == Transmit && Orderly(n)
    ensures Turn(n, ev).ft == Crashed <==> Doomed(n, ev)
  {
    hide OnMessage, Kills, Orderly, KilledAt, GetNextFile, ReadSend;
    CursendSet(n);
    ProcessKillsIff(n, n.queue);
    TransmitterFt(n, ev);
  }

  lemma ReceiverKillsIff(n: Node, ev: Event)
    requires n.ft != Crashed
    ensures Receiver(n, ev).0.ft == if FrameKills(n) then Crashed else n.ft
  {
    hide AcceptFile, WaitFrame, OtherFrame;
    AcceptFt(n, ev);
    if n.rx == RxWaitF || n.rx == RxReceD || n.rx == RxEOB { FrameFt(n); }
  }

  lemma AcceptFt(n: Node, ev: Event)
    ensures n.rx == RxAccF ==> AcceptFile(n, ev).0.ft == if FrameKills(n) then Crashed else n.ft
  {
    hide Settle, Answer, BOpenFile;
    if n.frame.FFile? && n.frame.line.File? {
      var f := n.frame.line;
      SettleSame(n, ev, f.size, f.offset);
      SettleSame(BOpenFile(n, ev.reopen), ev, f.size, f.offset);
      OpenSame(n, ev.reopen);
    }
    AnswerSame(n, ev);
  }

  lemma FrameFt(n: Node)
    requires n.ft != Crashed
    ensures WaitFrame(n).0.ft == OtherFrame(n).0.ft == if n.frame.FNul? && n.frame.bare then Crashed else n.ft
  {
  }

  /** A turn kills the process exactly if it works off a queue on which such a message waits, or looks at such a frame, or
      adds requested files to an empty list. */
  lemma {:induction false} TurnKillsIff(n: Node, ev: Event)
    requires Going(n) && n.ft != Crashed
    ensures Turn(n, ev).ft == Crashed <==> Doomed(n, ev)
  {
    hide Receiver, Transmitter, Orderly, QueueKills;
    match n.ft
    case Transmit => TransmitKillsIff(n, ev);
    case Receive => ReceiverKillsIff(n, ev);
    case _ =>
  }

  lemma {:induction false} CrashedStays(n: Node, evs: seq<Event>)
    requires n.ft == Crashed
    ensures Run(n, evs) == n
    decreases |evs|
  {
    if evs != [] {
      CrashedStays(n, evs[1..]);
    }
  }

  ghost predicate DoomedAt(n: Node, evs: seq<Event>, j: nat)
    requires j < |evs|
  {
    Run(n, evs[..j]).ft != Crashed && Doomed(Run(n, evs[..j]), evs[j])
  }

  lemma DoomedLater(n: Node, evs: seq<Event>, j: nat)
    requires 0 < j < |evs|
    ensures DoomedAt(n, evs, j) <==> DoomedAt(Turn(n, evs[0]), evs[1..], j - 1)
  {
    hide Turn, Doomed;
    assert evs[..j][0] == evs[0] && evs[..j][1..] == evs[1..][..j - 1];
  }

  lemma {:induction false} RunKillsIff(n: Node, evs: seq<Event>)
    requires Going(n) && n.ft != Crashed
    ensures Run(n, evs).ft == Crashed <==> exists j :: 0 <= j < |evs| && DoomedAt(n, evs, j)
    decreases |evs|
  {
    hide Turn, Going, Doomed;
    if evs != [] {
      var t, rest := Turn(n, evs[0]), evs[1..];
      TurnKillsIff(n, evs[0]);
      TurnOrderly(n, evs[0]);
      assert evs[..0] == [] && Run(n, evs[..0]) == n;
      assert DoomedAt(n, evs, 0) <==> t.ft == Crashed;
      if t.ft == Crashed {
        CrashedStays(t, rest);
      } else {
        RunKillsIff(t, rest);
        forall j | 0 < j < |evs| ensures DoomedAt(n, evs, j) <==> DoomedAt(t, rest, j - 1) {
          DoomedLater(n, evs, j);
        }
        hide DoomedAt;
        if j :| 0 <= j < |rest| && DoomedAt(t, rest, j) {
          assert DoomedAt(n, evs, j + 1);
        }
        if j :| 0 <= j < |evs| && DoomedAt(n, evs, j) {
          assert DoomedAt(t, rest, j - 1);
        }
      }
    }
  }

  /** A session dies on a null pointer exactly if it comes to such a turn. */
  lemma {:induction false} DiesIff(version: Version, evs: seq<Event>)
    ensures Run(Start(version), evs).ft == Crashed <==> exists j :: 0 <= j < |evs| && DoomedAt(Start(version), evs, j)
  {
    hide Run, DoomedAt;
    RunKillsIff(Start(version), evs);
  }

  // ------------------------------------------------------------------ sessions that die

  /** And there are such sessions for every file. */
  lemma GetAtEndKills(version: Version, d: Id) returns (evs: seq<Event>)
    ensures Run(Start(version), evs).ft == Crashed
  {
    hide Run;
    var m := MGet(d.remote, d.size, d.date, d.size);
    var q := Quiet(NoFrame, Middle, []);
    Offers(version, d);
    var n := Sends(version, d);
    var n2 := Turn(Turn(n, q), q);
    assert n2 == n.(ft := Switch, tx := TxTryR);
    RunTwo(n, q, q);
    var n4 := Turn(Turn(n2, Hears(FMessage(m))), q);
    assert n4.ft == Switch && n4.queue == [m] && n4.tx == TxTryR && n4.bll == n.bll && n4.cursend == 0;
    RunTwo(n2, Hears(FMessage(m)), q);
    var n5 := Turn(n4, q);
    assert Index(n5.bll, m, 0) == 0;
    assert OnMessage(n5, m).ft == Crashed;
    assert [m][1..] == [];
    assert ProcessAll(n5, [m]) == ProcessAll(OnMessage(n5, m), []);
    RunTwo(n4, q, q);
    evs := Offer(d) + ([q, q] + ([Hears(FMessage(m)), q] + [q, q]));
    RunMore(Start(version), Offer(d), [q, q] + ([Hears(FMessage(m)), q] + [q, q]));
    RunMore(n, [q, q], [Hears(FMessage(m)), q] + [q, q]);
    RunMore(n2, [Hears(FMessage(m)), q], [q, q]);
  }

  // ------------------------------------------------------------------ a file that is sent again

  /** Two files, neither of which a message about the other names. */
  predicate Apart(a: Id, b: Id) {
    a.remote != b.remote || a.size != b.size || a.date != b.date
  }

  /** The node with two files on its list, where only what the session changes is given. */
  function Both(version: Version, a: Entry, b: Entry, tx: TxState, messages: nat, cursend: int, frame: Frame, open: bool, heard: set<Message>): Node {
    Node(Switch, RxWaitF, tx, version, tx == TxWLA, false, messages, 0, 0, true, [a, b], cursend, [], frame, Files(open, false, 0),
         History([[a.id, b.id]], [], heard, {}, {}, {}))
  }

  function OffersBoth(a: Id, b: Id): seq<Event> {
    [IDLE, Quiet(NoFrame, Middle, [Listed(a, false), Listed(b, false)])]
  }

  /** The first file is announced. */
  lemma BothOffered(version: Version, a: Id, b: Id)
    ensures Run(Start(version), OffersBoth(a, b))
         == Both(version, Entry(a, Sending, 0), Entry(b, NoState, 0), TxTryR, 2, 0, FData, true, {}).(ft := Transmit)
  {
    var n := Start(version).(ft := Transmit);
    var offer := [Listed(a, false), Listed(b, false)];
    var t := MakeList(n, OffersBoth(a, b)[1]);
    assert offer + [] == offer && Lost(offer) == {} && Locals({}) == {};
    assert t.bll == [Entry(a, NoState, 0), Entry(b, NoState, 0)] && Ids(t.bll) == [a, b];
    assert NextOpen(t.bll, 0) == 0;
    RunTwo(Start(version), IDLE, OffersBoth(a, b)[1]);
  }

  /** A block of the current file. */
  lemma BlockSent(n: Node, block: Block)
    requires n.ft == Transmit && n.tx == TxTryR && n.queue == [] && n.fp.tx && 0 <= n.cursend < |n.bll| && (block == Middle || block == Block.Last)
    ensures Run(n, [IDLE, Quiet(NoFrame, block, [])]) ==
            if block == Middle then n.(ft := Switch)
            else n.(ft := Switch, tx := TxGNF, fp := n.fp.(tx := false), cursend := -1, bll := n.bll[n.cursend := n.bll[n.cursend].(state := IsSent)])
  {
    RunTwo(n, IDLE, Quiet(NoFrame, block, []));
  }

  /** File i is next. */
  lemma Announces(n: Node, i: nat)
    requires n.tx == TxGNF && n.rx == RxWaitF && n.listed && i < |n.bll| && NextOpen(n.bll, 0) == i && (n.ft == Switch || n.ft == Transmit)
    ensures Run(n, if n.ft == Switch then [IDLE, IDLE] else [IDLE]) ==
            n.(ft := Transmit, tx := TxTryR, messages := n.messages + 1, fp := n.fp.(tx := true), cursend := i, bll := n.bll[i := n.bll[i].(state := Sending)])
  {
    if n.ft == Switch { RunTwo(n, IDLE, IDLE); } else { RunOne(n, IDLE); }
  }

  lemma RunOne(n: Node, e: Event)
    ensures Run(n, [e]) == Turn(n, e)
  {
    hide Turn;
    assert [e][1..] == [] && Run(Turn(n, e), []) == Turn(n, e);
  }

  lemma HearsMessage(n: Node, m: Message)
    requires n.ft == Switch && n.tx != TxDone && n.rx == RxWaitF && !n.remoteEob
    ensures Run(n, [Hears(FMessage(m)), IDLE]) == AddMessage(n.(messages := n.messages + 1, frame := FMessage(m)), m)
  {
    RunTwo(n, Hears(FMessage(m)), IDLE);
  }

  /** A message alone on the queue. */
  lemma WorksOff(n: Node, m: Message)
    requires n.ft == Switch && n.rx == RxWaitF && (n.tx == TxTryR || n.tx == TxWLA) && n.queue == [m]
    ensures Run(n, [IDLE, IDLE]) == OnMessage(n.(ft := Transmit), m).(queue := [])
  {
    assert [m][1..] == [] && ProcessAll(n.(ft := Transmit), [m]) == ProcessAll(OnMessage(n.(ft := Transmit), m), []);
    RunTwo(n, IDLE, IDLE);
  }

  /** Up to M_EOB: the first file is sent, and asked for again while the second is being sent; it is sent again, and the second
      file stays behind, Sending and not open. */
  lemma SentAgain(version: Version, a: Id, b: Id) returns (evs: seq<Event>)
    requires Apart(a, b) && a.size > 0
    ensures var m := MGet(a.remote, a.size, a.date, 0);
      Run(Start(version), evs) == Both(version, Entry(a, IsSent, 0), Entry(b, Sending, 0), TxGNF, 5, -1, FMessage(m), false, {m})
  {
    hide Run, Quiet, OnMessage, NextOpen;
    var m := MGet(a.remote, a.size, a.date, 0);
    var last, middle, ask := [IDLE, Quiet(NoFrame, Block.Last, [])], [IDLE, Quiet(NoFrame, Middle, [])], [Hears(FMessage(m)), IDLE];
    BothOffered(version, a, b);
    var n0 := Both(version, Entry(a, Sending, 0), Entry(b, NoState, 0), TxTryR, 2, 0, FData, true, {}).(ft := Transmit);
    BlockSent(n0, Block.Last);
    var n1 := Both(version, Entry(a, IsSent, 0), Entry(b, NoState, 0), TxGNF, 2, -1, FData, false, {});
    assert Run(n0, last) == n1;
    assert NextOpen(n1.bll, 0) == 1 by { FirstOpen(n1.bll, 1); }
    Announces(n1, 1);
    var n2 := Both(version, Entry(a, IsSent, 0), Entry(b, Sending, 0), TxTryR, 3, 1, FData, true, {}).(ft := Transmit);
    assert Run(n1, [IDLE, IDLE]) == n2;
    BlockSent(n2, Middle);
    var n3 := n2.(ft := Switch);
    HearsMessage(n3, m);
    var n4 := AddMessage(n3.(messages := 4, frame := FMessage(m)), m);
    WorksOff(n4, m);
    var n5 := Both(version, Entry(a, NoState, 0), Entry(b, Sending, 0), TxGNF, 4, 1, FMessage(m), true, {m}).(ft := Transmit);
    assert OnMessage(n4.(ft := Transmit), m).(queue := []) == n5 by { AskedAgain(n4.(ft := Transmit), m); }
    assert NextOpen(n5.bll, 0) == 0 by { FirstOpen(n5.bll, 0); }
    Announces(n5, 0);
    var n6 := Both(version, Entry(a, Sending, 0), Entry(b, Sending, 0), TxTryR, 5, 0, FMessage(m), true, {m}).(ft := Transmit);
    assert Run(n5, [IDLE]) == n6;
    BlockSent(n6, Block.Last);
    assert Run(n6, last) == Both(version, Entry(a, IsSent, 0), Entry(b, Sending, 0), TxGNF, 5, -1, FMessage(m), false, {m});
    var e6 := [IDLE] + last;
    RunMore(n5, [IDLE], last);
    var e5 := [IDLE, IDLE] + e6;
    RunMore(n4, [IDLE, IDLE], e6);
    var e4 := ask + e5;
    RunMore(n3, ask, e5);
    var e3 := middle + e4;
    RunMore(n2, middle, e4);
    var e2 := [IDLE, IDLE] + e3;
    RunMore(n1, [IDLE, IDLE], e3);
    var e1 := last + e2;
    RunMore(n0, last, e2);
    evs := OffersBoth(a, b) + e1;
    RunMore(Start(version), OffersBoth(a, b), e1);
  }

  lemma FirstOpen(list: seq<Entry>, i: nat)
    requires i < |list| && list[i].state == NoState && forall j :: 0 <= j < i ==> list[j].state != NoState
    ensures NextOpen(list, 0) == i
  {
  }

  lemma AskedAgain(n: Node, m: Message)
    requires n.ft != Crashed && |n.bll| > 0 && m.MGet? && Means(m, n.bll[0].id) && m.offset < m.size
    ensures OnMessage(n, m) == n.(bll := n.bll[0 := n.bll[0].(state := NoState, offset := m.offset)], tx := TxGNF)
  {
    assert Index(n.bll, m, 0) == 0;
  }

  lemma NotFirst(n: Node, m: Message)
    requires n.ft != Crashed && |n.bll| == 2 && m.MGot? && !Means(m, n.bll[0].id) && Means(m, n.bll[1].id)
    requires n.bll[1].state == Sending && !n.fp.tx
    ensures OnMessage(n, m).ft == Crashed
  {
    assert Index(n.bll, m, 0) == Index(n.bll, m, 1) == 1;
  }

  /** So for every two files there is a session that dies of two plain messages: M_GET for the first, from its start, and M_GOT for
      the second. */
  lemma SentAgainKills(version: Version, a: Id, b: Id) returns (evs: seq<Event>)
    requires Apart(a, b) && a.size > 0
    ensures var z := Run(Start(version), evs);
      z.ft == Crashed && z.h.heard == {MGet(a.remote, a.size, a.date, 0), MGot(b.remote, b.size, b.date)}
  {
    hide Run, Quiet, OnMessage, NextOpen;
    var m, got := MGet(a.remote, a.size, a.date, 0), MGot(b.remote, b.size, b.date);
    var es := SentAgain(version, a, b);
    var n1 := Both(version, Entry(a, IsSent, 0), Entry(b, Sending, 0), TxGNF, 5, -1, FMessage(m), false, {m});
    NoneOpen(n1.bll);
    Waits(n1);
    var n2 := Both(version, Entry(a, IsSent, 0), Entry(b, Sending, 0), TxWLA, 6, -1, FMessage(m), false, {m});
    HearsMessage(n2, got);
    var n3 := AddMessage(n2.(messages := 7, frame := FMessage(got)), got);
    WorksOff(n3, got);
    NotFirst(n3.(ft := Transmit), got);
    OnlyCrash(n3.(ft := Transmit), got);
    var e2 := [Hears(FMessage(got)), IDLE] + [IDLE, IDLE];
    RunMore(n2, [Hears(FMessage(got)), IDLE], [IDLE, IDLE]);
    RunMore(n1, [IDLE, IDLE, IDLE], e2);
    evs := es + ([IDLE, IDLE, IDLE] + e2);
    RunMore(Start(version), es, [IDLE, IDLE, IDLE] + e2);
  }

  lemma NoneOpen(list: seq<Entry>)
    requires |list| == 2 && list[0].state == IsSent && list[1].state == Sending
    ensures NextOpen(list, 0) == |list| && !AllDone(list)
  {
    assert list[0] in list;
    assert NextOpen(list, 0) == NextOpen(list, 1) == NextOpen(list, 2);
  }

  lemma OnlyCrash(n: Node, m: Message)
    ensures OnMessage(n, m).h.heard == n.h.heard
  {
  }

  /** M_EOB with a file that is still Sending. */
  lemma Waits(n: Node)
    requires n.ft == Switch && n.tx == TxGNF && n.rx == RxWaitF && n.listed && NextOpen(n.bll, 0) == |n.bll| && n.queue == [] && !AllDone(n.bll)
    ensures Run(n, [IDLE, IDLE, IDLE]) == n.(tx := TxWLA, localEob := true, messages := n.messages + 1)
  {
    assert [IDLE, IDLE, IDLE] == [IDLE, IDLE] + [IDLE];
    RunMore(n, [IDLE, IDLE], [IDLE]);
    NoMore(n);
    RunOne(Run(n, [IDLE, IDLE]), IDLE);
  }
}

/** What a session of file_transfer that ends well says about the files, and a session that does. */
module BinkpClean {
  import opened BinkpFinish

  // ------------------------------------------------------------------ order

  /** Lists are cleared only when they are done with, and both sides done only after both have said M_EOB.  cursend is set
      whenever it is used, but for the branch of M_GET. */
  ghost predicate Orderly(n: Node) {
    && (forall l :: l in n.h.cleared ==> AllDone(l))
    && (n.tx == TxDone ==> !n.listed)
    && (n.tx == TxWLA ==> n.localEob)
    && (n.rx == RxEOB ==> n.remoteEob)
    && (n.rx == RxDone ==> n.tx == TxDone && n.localEob && n.remoteEob)
    && (n.tx == TxTryR || n.tx == TxReadS ==> n.fp.tx && 0 <= n.cursend < |n.bll|)
    && (!n.listed ==> n.bll == [])
  }

  /** Between turns: a failure has set rc, and then anything goes; an M_EOB that is still to be looked at has been counted. */
  ghost predicate Going(n: Node) {
    match n.ft
    case Switch | Transmit => n.rc == 0 && Orderly(n)
    case Receive => n.rc == 0 && Orderly(n) && (n.rx == RxWaitF && n.frame == FEob ==> n.remoteEob)
    case DeinitTransfer => n.rc == 0 ==> Orderly(n) && n.rx == RxDone
    case Returned => n.rc == 0 ==> Orderly(n) && n.rx == RxDone && !n.listed
    case Crashed => true
  }

  /** What the receiver and the transmitter promise of a result. */
  ghost predicate Sound(n: Node, r: Result) {
    r != Failure ==> n.rc == 0 && Orderly(n)
  }

  /** A message leaves alone what the order is about, but for TxState, which goes to TxGNF if at all. */
  lemma MessageLeaves(n: Node, m: Message)
    ensures var t := OnMessage(n, m);
      && t.rc == n.rc && (t.ft == n.ft || t.ft == Crashed) && t.listed == n.listed && |t.bll| == |n.bll| && t.h.cleared == n.h.cleared
      && t.rx == n.rx && t.localEob == n.localEob && t.remoteEob == n.remoteEob
      && ((t.tx == n.tx && t.cursend == n.cursend && t.fp.tx == n.fp.tx) || (t.tx == TxGNF && n.bll != []))
  {
    hide Index, Means, Refuses, OnGet, SameLocal;
    var i := Index(n.bll, m, 0);
    if n.ft != Crashed && i >= 0 {
      RefusesLeaves(n, i);
      if m.MGet? { GetLeaves(n, m, i); }
    }
  }

  lemma GetLeaves(n: Node, m: Message, i: nat)
    requires i < |n.bll| && m.MGet? && n.ft != Crashed && Means(m, n.bll[i].id)
    ensures var t := OnGet(n, m, i);
      && t.rc == n.rc && (t.ft == n.ft || t.ft == Crashed) && t.listed == n.listed && |t.bll| == |n.bll| && t.h.cleared == n.h.cleared
      && t.rx == n.rx && t.localEob == n.localEob && t.remoteEob == n.remoteEob && t.cursend == n.cursend && t.fp == n.fp
      && (t.tx == n.tx || t.tx == TxGNF)
    ensures var t := OnGet(n, m, i);
      && t.queue == n.queue && t.bll == n.bll[i := t.bll[i]] && t.bll[i].id == n.bll[i].id
      && (t.bll[i].state == n.bll[i].state || t.bll[i].state == NoState || (t.bll[i].state == Got && m.offset == m.size))
      && (t.h == n.h || (t.h == n.h.(disposed := n.h.disposed + SameLocal(n.bll, t.bll[i].id.local)) && t.bll[i].state == Got))
      && (t.ft == n.ft || (t.bll == n.bll && t.h == n.h))
  {
    hide Means, SameLocal;
  }

  lemma MessageOrderly(n: Node, m: Message)
    requires Orderly(n)
    ensures var t := OnMessage(n, m); (t.ft == Crashed || Orderly(t)) && t.rc == n.rc && (t.ft == n.ft || t.ft == Crashed)
  {
    hide OnMessage, AllDone;
    MessageLeaves(n, m);
  }

  lemma {:induction false} MessagesOrderly(n: Node, ms: seq<Message>)
    requires n.ft == Crashed || Orderly(n)
    ensures var t := ProcessAll(n, ms); (t.ft == Crashed || Orderly(t)) && t.rc == n.rc && (t.ft == n.ft || t.ft == Crashed)
    decreases |ms|
  {
    hide Orderly;
    if ms != [] {
      if n.ft != Crashed {
        MessageOrderly(n, ms[0]);
      }
      MessagesOrderly(OnMessage(n, ms[0]), ms[1..]);
    }
  }

  lemma WaitLastOrderly(n: Node)
    requires Orderly(n) && n.tx == TxWLA && n.rc == 0
    ensures var (t, r) := WaitLast(n); (t.ft == Crashed || Sound(t, r)) && (t.ft == n.ft || t.ft == Crashed)
  {
    hide ProcessAll;
    MessagesOrderly(n, n.queue);
  }

  lemma NextFileOrderly(n: Node, ev: Event)
    requires Orderly(n) && n.tx == TxGNF && n.rc == 0
    ensures var (t, r) := NextFile(n, ev); Sound(t, r) && t.ft == n.ft
  {
  }

  lemma MakeListOrderly(n: Node, ev: Event)
    requires Orderly(n) && n.tx == TxGNF && n.rc == 0 && !NothingToAddTo(ev)
    ensures var (t, r) := Announce(MakeList(n, ev), ev);
      t.ft == n.ft && r != Continue && (r == Ok ==> Orderly(t) && t.tx == TxGNF && t.rc == 0)
  {
  }

  lemma NextOrderly(n: Node, ev: Event)
    requires Orderly(n) && n.tx == TxGNF && n.rc == 0
    ensures var (t, r) := GetNextFile(n, ev); t.ft == Crashed || (Sound(t, r) && t.ft == n.ft)
  {
    hide Announce, NextFile, Orderly;
    if n.listed {
      NextFileOrderly(n, ev);
    } else if !NothingToAddTo(ev) {
      MakeListOrderly(n, ev);
      var (t, r) := Announce(MakeList(n, ev), ev);
      if r == Ok {
        NextFileOrderly(t, ev);
      }
    }
  }

  lemma TransmitterOrderly(n: Node, ev: Event)
    requires Orderly(n) && n.rc == 0
    ensures var (t, r) := Transmitter(n, ev); (t.ft == Crashed || Sound(t, r)) && (t.ft == n.ft || t.ft == Crashed)
  {
    hide WaitLast, GetNextFile, ProcessAll;
    match n.tx
    case TxGNF => NextOrderly(n, ev);
    case TxTryR => MessagesOrderly(n, n.queue);
    case TxReadS =>
    case TxWLA => WaitLastOrderly(n);
    case TxDone =>
  }

  lemma ReceiverOrderly(n: Node, ev: Event)
    requires Orderly(n) && n.rc == 0 && (n.rx == RxWaitF && n.frame == FEob ==> n.remoteEob)
    ensures var (t, r) := Receiver(n, ev);
      t.ft == Crashed || (Sound(t, r) && t.ft == n.ft && (r == Continue ==> t.rx != RxWaitF))
  {
    hide WaitFrame, OtherFrame, Orderly;
    match n.rx
    case RxWaitF => WaitFrameOrderly(n);
    case RxReceD | RxEOB => OtherFrameOrderly(n);
    case _ => FileOrderly(n, ev);
  }

  lemma WaitFrameOrderly(n: Node)
    requires Orderly(n) && n.rc == 0 && n.rx == RxWaitF && (n.frame == FEob ==> n.remoteEob)
    ensures var (t, r) := WaitFrame(n);
      t.ft == Crashed || (Sound(t, r) && t.ft == n.ft && (r == Continue ==> t.rx != RxWaitF))
  {
  }

  lemma OtherFrameOrderly(n: Node)
    requires Orderly(n) && n.rc == 0 && (n.rx == RxReceD || n.rx == RxEOB)
    ensures var (t, r) := OtherFrame(n);
      t.ft == Crashed || (Sound(t, r) && t.ft == n.ft && (r == Continue ==> t.rx != RxWaitF))
  {
  }

  lemma FileOrderly(n: Node, ev: Event)
    requires Orderly(n) && n.rc == 0 && (n.rx == RxAccF || n.rx == RxWriteD || n.rx == RxDone)
    ensures var (t, r) := Receiver(n, ev); t.ft == Crashed || (Sound(t, r) && t.ft == n.ft && r != Continue)
  {
    hide AcceptFile;
    if n.rx == RxAccF { AcceptOrderly(n, ev); }
  }

  /** RxAccF leaves the lists alone. */
  lemma AcceptSame(n: Node, ev: Event)
    ensures SameLists(n, AcceptFile(n, ev).0)
  {
    hide Settle, Answer, BOpenFile;
    if n.frame.FFile? && n.frame.line.File? {
      var f := n.frame.line;
      SettleSame(n, ev, f.size, f.offset);
      SettleSame(BOpenFile(n, ev.reopen), ev, f.size, f.offset);
      OpenSame(n, ev.reopen);
    }
    AnswerSame(n, ev);
  }

  lemma OpenSame(n: Node, r: Reopen)
    ensures var t := BOpenFile(n, r); SameLists(n, t) && t.ft == n.ft && (Orderly(n) ==> Orderly(t)) && t.rc == n.rc && t.rx == n.rx
  {
  }

  lemma AnswerSame(n: Node, ev: Event)
    ensures var (t, r) := Answer(n, ev); SameLists(n, t) && t.ft == n.ft && r != Continue && (Orderly(n) && n.rc == 0 ==> Sound(t, r))
  {
  }

  lemma SettleSame(n: Node, ev: Event, size: int, offset: int)
    ensures var (t, r) := Settle(n, ev, size, offset);
      SameLists(n, t) && t.ft == n.ft && r != Continue && (Orderly(n) && n.rc == 0 ==> Sound(t, r))
  {
    hide Answer, Orderly;
    var t := if ev.blocks then n else n.(fp := n.fp.(rx := false));
    var u := t.(fp := t.fp.(rx := false));
    assert Orderly(n) ==> Orderly(t) && Orderly(u) && Orderly(t.(rx := RxReceD)) by { FilesOrderly(n, t.fp); FilesOrderly(n, u.fp); }
    AnswerSame(t, ev);
    AnswerSame(u, ev);
  }

  lemma FilesOrderly(n: Node, fp: Files)
    requires fp.tx == n.fp.tx
    ensures Orderly(n) ==> Orderly(n.(fp := fp)) && Orderly(n.(fp := fp, rx := RxReceD))
  {
  }

  lemma AcceptOrderly(n: Node, ev: Event)
    requires Orderly(n) && n.rc == 0
    ensures var (t, r) := AcceptFile(n, ev); t.ft == Crashed || (Sound(t, r) && t.ft == n.ft && r != Continue)
  {
    hide Settle, Answer, BOpenFile, Orderly;
    if n.frame.FFile? && n.frame.line.File? {
      var f := n.frame.line;
      SettleSame(n, ev, f.size, f.offset);
      SettleSame(BOpenFile(n, ev.reopen), ev, f.size, f.offset);
      OpenSame(n, ev.reopen);
    }
    AnswerSame(n, ev);
  }

  lemma TurnOrderly(n: Node, ev: Event)
    requires Going(n)
    ensures Going(Turn(n, ev))
  {
    hide Receiver, Transmitter, Orderly;
    match n.ft
    case Switch => SwitchOrderly(n, ev);
    case Receive => ReceiveOrderly(n, ev);
    case Transmit => TransmitOrderly(n, ev);
    case DeinitTransfer => ClearOrderly(n);
    case Returned | Crashed =>
  }

  lemma TransmitOrderly(n: Node, ev: Event)
    requires Going(n) && n.ft == Transmit
    ensures Going(Turn(n, ev))
  {
    hide Transmitter, Orderly;
    CursendSet(n);
    TransmitterOrderly(n, ev);
    AfterGoing(Transmitter(n, ev).0, Transmitter(n, ev).1, Switch);
  }

  lemma ReceiveOrderly(n: Node, ev: Event)
    requires Going(n) && n.ft == Receive
    ensures Going(Turn(n, ev))
  {
    hide Receiver, Orderly;
    ReceiverOrderly(n, ev);
    var (t, r) := Receiver(n, ev);
    AfterGoing(t, r, if t.localEob && t.remoteEob then Transmit else Switch);
  }

  /** Order does not depend on where file_transfer is. */
  lemma AfterGoing(n: Node, r: Result, next: FtState)
    requires n.ft == Crashed || ((n.ft == Transmit || (n.ft == Receive && (r == Continue ==> n.rx != RxWaitF))) && Sound(n, r))
    requires next == Switch || next == Transmit
    ensures Going(After(n, r, next))
  {
  }

  lemma SwitchOrderly(n: Node, ev: Event)
    requires Orderly(n) && n.rc == 0 && n.ft == Switch
    ensures Going(SwitchTurn(n, ev))
  {
  }

  lemma CursendSet(n: Node)
    requires Orderly(n)
    ensures n.tx == TxReadS ==> n.fp.tx && 0 <= n.cursend < |n.bll|
  {
  }

  lemma ClearOrderly(n: Node)
    requires Going(n) && n.ft == DeinitTransfer
    ensures Going(Clear(n).(ft := Returned))
  {
  }

  // ------------------------------------------------------------------ what is known of each file

  predicate Confirms(m: Message, d: Id) {
    Means(m, d) && (m.MGot? || (m.MGet? && m.offset == m.size))
  }

  ghost predicate Confirmed(h: History, d: Id) {
    d.local in h.missing || exists m :: m in h.heard && Confirms(m, d)
  }

  ghost predicate Excused(h: History, d: Id) {
    d.local in h.unread || exists m :: m in h.heard && m.MSkip? && Means(m, d)
  }

  /** Got only on the peer's word or with the file missing, Skipped only on the peer's word or with the file unreadable. */
  ghost predicate Accounted(h: History, e: Entry) {
    (e.state == Got ==> Confirmed(h, e.id)) && (e.state == Skipped ==> Excused(h, e.id))
  }

  ghost predicate AllAccounted(h: History, list: seq<Entry>) {
    forall i :: 0 <= i < |list| ==> Accounted(h, list[i])
  }

  /** The lists are those that were made, entry by entry. */
  ghost predicate Conserved(n: Node) {
    && |n.h.made| == |n.h.cleared| + (if n.listed then 1 else 0)
    && (forall i :: 0 <= i < |n.h.cleared| ==> Ids(n.h.cleared[i]) == n.h.made[i])
    && (if n.listed then Ids(n.bll) == n.h.made[|n.h.cleared|] else n.bll == [])
  }

  ghost predicate Offered(h: History, d: Id) {
    exists l :: l in h.made && d in l
  }

  /** Some file of this local name was offered and confirmed, or it was missing. */
  ghost predicate Released(h: History, d: Id) {
    d.local in h.missing || exists c: Id :: c.local == d.local && Confirmed(h, c) && Offered(h, c)
  }

  ghost predicate Kept(n: Node) {
    && AllAccounted(n.h, n.bll)
    && (forall i :: 0 <= i < |n.h.cleared| ==> AllAccounted(n.h, n.h.cleared[i]))
    && (forall d :: d in n.h.disposed ==> Released(n.h, d) && Offered(n.h, d))
    && (forall m :: m in n.queue ==> m in n.h.heard)
    && Conserved(n)
  }

  /** The history has only grown. */
  ghost predicate Grown(g: History, h: History) {
    g.heard <= h.heard && g.missing <= h.missing && g.unread <= h.unread && g.made <= h.made
  }

  lemma GrownKeeps(g: History, h: History)
    requires Grown(g, h)
    ensures forall d :: Confirmed(g, d) ==> Confirmed(h, d)
    ensures forall d :: Excused(g, d) ==> Excused(h, d)
    ensures forall d :: Offered(g, d) ==> Offered(h, d)
    ensures forall d :: Released(g, d) ==> Released(h, d)
  {
    forall d | Offered(g, d) ensures Offered(h, d) {
      var l :| l in g.made && d in l;
      var i :| 0 <= i < |g.made| && g.made[i] == l;
      assert h.made[i] == l;
    }
    forall d | Released(g, d) ensures Released(h, d) {
      if d.local !in g.missing {
        var c: Id :| c.local == d.local && Confirmed(g, c) && Offered(g, c);
        assert Confirmed(h, c) && Offered(h, c);
      }
    }
  }

  lemma GrownLists(g: History, h: History)
    requires Grown(g, h)
    ensures forall e :: Accounted(g, e) ==> Accounted(h, e)
    ensures forall l :: AllAccounted(g, l) ==> AllAccounted(h, l)
  {
    GrownKeeps(g, h);
    hide Confirmed, Excused;
  }

  lemma IdsSame(list: seq<Entry>, i: nat, e: Entry)
    requires i < |list| && e.id == list[i].id
    ensures Ids(list[i := e]) == Ids(list)
  {
  }

  lemma EntryOffered(n: Node, i: nat)
    requires Conserved(n) && i < |n.bll|
    ensures Offered(n.h, n.bll[i].id)
  {
    var l := n.h.made[|n.h.cleared|];
    assert l[i] == n.bll[i].id && l in n.h.made;
  }

  /** An entry changes its state, and the history grows enough to account for it. */
  lemma EntryKept(n: Node, i: nat, e: Entry, h: History, t: Node)
    requires Kept(n) && n.ft != Crashed && i < |n.bll| && e.id == n.bll[i].id
    requires Grown(n.h, h) && h.made == n.h.made && h.cleared == n.h.cleared && Accounted(h, e)
    requires h.disposed == n.h.disposed || (h.disposed == n.h.disposed + SameLocal(n.bll, e.id.local) && e.state == Got)
    requires t.bll == n.bll[i := e] && t.h == h && t.queue == n.queue && t.listed == n.listed && t.ft != Crashed
    ensures Kept(t)
  {
    GrownKeeps(n.h, h);
    GrownLists(n.h, h);
    IdsSame(n.bll, i, e);
    EntryOffered(n, i);
    forall d | d in h.disposed ensures Released(h, d) && Offered(h, d) {
      if d !in n.h.disposed {
        var k :| 0 <= k < |n.bll| && n.bll[k].id == d && d.local == e.id.local;
        EntryOffered(n, k);
        assert Confirmed(h, e.id) && Offered(h, e.id);
      }
    }
    hide Confirmed, Excused, Offered, Released, Ids;
  }

  /** What a message does to one entry, and that it accounts for it. */
  lemma MessageChanges(n: Node, m: Message, i: nat)
    requires i == Index(n.bll, m, 0) && n.ft != Crashed && m in n.h.heard
    ensures var t := OnMessage(n, m);
      && t.queue == n.queue && t.listed == n.listed && |t.bll| == |n.bll| && t.bll == n.bll[i := t.bll[i]] && t.bll[i].id == n.bll[i].id
      && (t.bll[i].state == n.bll[i].state || Accounted(t.h, t.bll[i]))
      && (t.h == n.h || (t.h == n.h.(disposed := n.h.disposed + SameLocal(n.bll, t.bll[i].id.local)) && t.bll[i].state == Got))
      && (t.ft == n.ft || (t.ft == Crashed && t.bll == n.bll && t.h == n.h))
  {
    hide Refuses, OnGet, SameLocal, Index;
    RefusesLeaves(n, i);
    if m.MGet? { GetLeaves(n, m, i); }
    assert Means(m, n.bll[i].id);
  }

  lemma RefusesLeaves(n: Node, i: nat)
    requires i < |n.bll| && n.ft != Crashed
    ensures var t := Refuses(n, i);
      && SameLists(n, t) && (t.ft == n.ft || t.ft == Crashed) && t.rc == n.rc && t.rx == n.rx && t.localEob == n.localEob && t.remoteEob == n.remoteEob
      && ((t.tx == n.tx && t.cursend == n.cursend && t.fp.tx == n.fp.tx) || t.tx == TxGNF)
  {
  }

  lemma MessageKept(n: Node, m: Message)
    requires Kept(n) && n.ft != Crashed && m in n.h.heard
    ensures Kept(OnMessage(n, m)) && OnMessage(n, m).h.heard == n.h.heard
  {
    var t := OnMessage(n, m);
    var i := Index(n.bll, m, 0);
    if i >= 0 {
      MessageChanges(n, m, i);
      hide OnMessage, Index, Ids, Offered, Confirmed, Excused, SameLocal, Released;
      if t.ft != Crashed {
        assert Accounted(t.h, t.bll[i]) by { DisposedOnly(n.h, t.h, n.bll[i], t.bll[i]); }
        EntryKept(n, i, t.bll[i], t.h, t);
      }
    }
  }

  lemma DisposedOnly(g: History, h: History, d: Entry, e: Entry)
    requires Accounted(g, d) && d.id == e.id && (e.state == d.state || Accounted(h, e))
    requires h == g || h == g.(disposed := h.disposed)
    ensures Accounted(h, e) && Grown(g, h)
  {
  }

  lemma {:induction false} MessagesKept(n: Node, ms: seq<Message>)
    requires Kept(n) && forall m :: m in ms ==> m in n.h.heard
    ensures Kept(ProcessAll(n, ms))
    decreases |ms|
  {
    hide Kept;
    if ms != [] {
      assert ms[0] in ms;
      if n.ft == Crashed {
        MessagesKept(n, ms[1..]);
      } else {
        MessageKept(n, ms[0]);
        MessagesKept(OnMessage(n, ms[0]), ms[1..]);
      }
    }
  }

  lemma ProcessKept(n: Node)
    requires Kept(n)
    ensures Kept(Process(n).0)
  {
    MessagesKept(n, n.queue);
    hide AllAccounted, Confirmed, Offered, Conserved, Released;
    QueueGone(ProcessAll(n, n.queue));
  }

  lemma QueueGone(n: Node)
    requires Kept(n)
    ensures Kept(n.(queue := []))
  {
  }

  lemma ClearKept(n: Node)
    requires Kept(n)
    ensures Kept(Clear(n))
  {
    var t := Clear(n);
    GrownKeeps(n.h, t.h);
    GrownLists(n.h, t.h);
    hide Ids, Confirmed, Offered, Excused, Released, AllAccounted;
    assert AllAccounted(n.h, []) by { NoEntries(n.h); }
  }

  lemma NoEntries(h: History)
    ensures AllAccounted(h, [])
  {
  }

  /** Fields that no list and no history depend on. */
  predicate SameLists(n: Node, t: Node) {
    t.bll == n.bll && t.h == n.h && t.queue == n.queue && t.listed == n.listed
  }

  lemma SameKept(n: Node, t: Node)
    requires Kept(n) && SameLists(n, t)
    ensures Kept(t)
  {
  }

  lemma MadeKept(n: Node, ev: Event)
    requires Kept(n) && !n.listed && !NothingToAddTo(ev)
    ensures Kept(MakeList(n, ev))
  {
    var offer := if n.batchnr < 20 then ev.offer + ev.respond else [];
    var t := MakeList(n, ev);
    assert Grown(n.h, t.h);
    GrownKeeps(n.h, t.h);
    GrownLists(n.h, t.h);
    forall i | 0 <= i < |t.bll| ensures Accounted(t.h, t.bll[i]) {
      if t.bll[i].state == Got {
        assert t.bll[i].id in Lost(offer);
      }
    }
    forall d | d in t.h.disposed && d !in n.h.disposed ensures Released(t.h, d) && Offered(t.h, d) {
      assert d in Lost(offer);
      var f :| f in offer && f.missing && f.id == d;
      var i :| 0 <= i < |offer| && offer[i] == f;
      assert t.bll[i].id == d && Ids(t.bll)[i] == d;
      assert t.h.made[|n.h.made|] == Ids(t.bll) && Ids(t.bll) in t.h.made;
      assert d.local in Locals(Lost(offer));
    }
    hide Confirmed, Offered, Excused, Released, Ids;
  }

  lemma NextKept(n: Node, ev: Event)
    requires Kept(n) && n.ft != Crashed
    ensures Kept(NextFile(n, ev).0)
  {
    hide Ids, Offered;
    var i := NextOpen(n.bll, 0);
    var t := NextFile(n, ev).0;
    if i < |n.bll| && t.bll != n.bll {
      EntryKept(n, i, t.bll[i], t.h, t);
    }
  }

  lemma ReadKept(n: Node, ev: Event)
    requires Kept(n) && n.ft != Crashed && 0 <= n.cursend < |n.bll|
    ensures Kept(ReadSend(n, ev).0)
  {
    hide Ids, Offered;
    var t := ReadSend(n, ev).0;
    if t.bll != n.bll || t.h != n.h {
      EntryKept(n, n.cursend, t.bll[n.cursend], t.h, t);
    }
  }

  lemma WaitLastKept(n: Node)
    requires Kept(n)
    ensures Kept(WaitLast(n).0)
  {
    hide Kept, ProcessMessages;
    ProcessKept(n);
    var t := n.(tx := TxDone, rx := if n.version == V11 || (n.localEob && n.remoteEob) then RxDone else n.rx);
    SameKept(n, t);
    ClearKept(t);
    ClearKept(n);
    BatchKept(n);
  }

  lemma BatchKept(n: Node)
    requires Kept(n)
    ensures Kept(NewBatch(n))
  {
    hide Kept;
    var t := n.(batchnr := n.batchnr + 1, localEob := false, remoteEob := false, messages := 0, tx := TxGNF, rx := RxWaitF);
    SameKept(n, t);
    ClearKept(t);
  }

  lemma TransmitterKept(n: Node, ev: Event)
    requires Kept(n) && n.ft != Crashed && (n.tx == TxReadS ==> 0 <= n.cursend < |n.bll|)
    ensures Kept(Transmitter(n, ev).0)
  {
    hide Kept, ProcessMessages, WaitLast, NextFile, MakeList, ReadSend;
    match n.tx
    case TxGNF =>
      if n.listed {
        NextKept(n, ev);
      } else if NothingToAddTo(ev) {
        SameKept(n, n.(ft := Crashed));
        assert MakeList(n, ev) == n.(ft := Crashed) by { MakeListFt(n, ev); }
      } else {
        MadeKept(n, ev);
        var t := Announce(MakeList(n, ev), ev).0;
        assert MakeList(n, ev).ft == n.ft by { MakeListFt(n, ev); }
        SameKept(MakeList(n, ev), t);
        NextKept(t, ev);
      }
    case TxTryR =>
      ProcessKept(n);
      SameKept(n, n.(tx := TxReadS));
    case TxReadS => ReadKept(n, ev);
    case TxWLA => WaitLastKept(n);
    case TxDone =>
  }

  lemma MakeListFt(n: Node, ev: Event)
    ensures if NothingToAddTo(ev) then MakeList(n, ev) == n.(ft := Crashed) else MakeList(n, ev).ft == n.ft
  {
  }

  lemma HeardKept(n: Node, m: Message)
    requires Kept(n) && n.ft != Crashed
    ensures Kept(AddMessage(n, m))
  {
    var t := AddMessage(n, m);
    GrownKeeps(n.h, t.h);
    GrownLists(n.h, t.h);
    hide Confirmed, Excused, Offered, Released, Ids;
  }

  lemma ReceiverKept(n: Node, ev: Event)
    requires Kept(n) && n.ft != Crashed
    ensures Kept(Receiver(n, ev).0)
  {
    hide Kept, WaitFrame, OtherFrame, AcceptFile;
    AcceptSame(n, ev);
    match n.rx
    case RxWaitF => FrameKept(n);
    case RxReceD | RxEOB => FrameKept(n);
    case _ => SameKept(n, Receiver(n, ev).0);
  }

  lemma FrameKept(n: Node)
    requires Kept(n) && n.ft != Crashed
    ensures Kept(WaitFrame(n).0) && Kept(OtherFrame(n).0)
  {
    hide Kept, AddMessage, NewBatch;
    match n.frame
    case FMessage(m) => HeardKept(n, m);
    case FEob =>
      BatchKept(n);
      SameKept(n, n.(rx := RxEOB));
      SameKept(n, OtherFrame(n).0);
    case _ =>
      SameKept(n, WaitFrame(n).0);
      SameKept(n, OtherFrame(n).0);
  }

  lemma TurnKept(n: Node, ev: Event)
    requires Kept(n) && Going(n)
    ensures Kept(Turn(n, ev))
  {
    hide Kept, Receiver, Transmitter, Orderly;
    match n.ft
    case Switch => SameKept(n, Turn(n, ev));
    case Receive =>
      ReceiverKept(n, ev);
      SameKept(Receiver(n, ev).0, Turn(n, ev));
    case Transmit =>
      CursendSet(n);
      TransmitterKept(n, ev);
      SameKept(Transmitter(n, ev).0, Turn(n, ev));
    case DeinitTransfer =>
      ClearKept(n);
      SameKept(Clear(n), Turn(n, ev));
    case Returned | Crashed =>
  }

  lemma {:induction false} RunKept(n: Node, evs: seq<Event>)
    requires Kept(n) && Going(n)
    ensures Kept(Run(n, evs)) && Going(Run(n, evs))
    decreases |evs|
  {
    hide Kept, Going, Turn;
    if evs != [] {
      TurnKept(n, evs[0]);
      TurnOrderly(n, evs[0]);
      RunKept(Turn(n, evs[0]), evs[1..]);
    }
  }

  /** Whatever the peer sends and whatever fails: file_transfer returns 0 only if the lists cleared are those that were made,
      every entry of them is Got or Skipped, each of these on the peer's word or because the file was not to be had, and
      both sides have said M_EOB. */
  lemma {:induction false} CleanFinish(version: Version, evs: seq<Event>)
    ensures var z := Run(Start(version), evs);
      z.ft == Returned && z.rc == 0 ==>
        && z.localEob && z.remoteEob && z.bll == []
        && |z.h.cleared| == |z.h.made|
        && forall i :: 0 <= i < |z.h.made| ==>
          && Ids(z.h.cleared[i]) == z.h.made[i]
          && forall e :: e in z.h.cleared[i] ==> Done(e) && Accounted(z.h, e)
  {
    hide Run;
    RunKept(Start(version), evs);
    var z := Run(Start(version), evs);
    hide Accounted, Done;
    if z.ft == Returned && z.rc == 0 {
      forall i, e | 0 <= i < |z.h.made| && e in z.h.cleared[i] ensures Done(e) && Accounted(z.h, e) {
        assert AllAccounted(z.h, z.h.cleared[i]) && AllDone(z.h.cleared[i]);
      }
    }
  }

  /** However a session goes and ends: execute_disposition is called only on files that were offered and that the peer has
      said it has, if under the name of another entry with the same local file, or that were missing. */
  lemma {:induction false} DisposedConfirmed(version: Version, evs: seq<Event>)
    ensures var z := Run(Start(version), evs);
      forall d :: d in z.h.disposed ==> Released(z.h, d) && Offered(z.h, d)
  {
    hide Run, Released, Offered;
    RunKept(Start(version), evs);
  }

  // ------------------------------------------------------------------ a session

  /** An event of which only one thing matters. */
  function Quiet(poll: Poll, block: Block, offer: seq<Listed>): Event {
    Event(poll, true, false, true, Reopened(0), true, true, More, Opens, block, offer, false, [], false)
  }

  function Hears(f: Frame): Event {
    Quiet(GotFrame(f), Middle, [])
  }

  lemma {:induction false} RunMore(n: Node, a: seq<Event>, b: seq<Event>)
    ensures Run(n, a + b) == Run(Run(n, a), b)
    decreases |a|
  {
    hide Turn;
    if a == [] {
      assert a + b == b;
    } else {
      assert (a + b)[1..] == a[1..] + b;
      RunMore(Turn(n, a[0]), a[1..], b);
    }
  }

  lemma RunTwo(n: Node, a: Event, b: Event)
    ensures Run(n, [a, b]) == Turn(Turn(n, a), b)
  {
    hide Turn;
    assert [a, b][1..] == [b] && [b][1..] == [];
    assert Run(Turn(Turn(n, a), b), []) == Turn(Turn(n, a), b);
  }

  /** The session in which one file is being sent. */
  function Sends(version: Version, d: Id): Node {
    Start(version).(ft := Transmit, tx := TxTryR, messages := 2, listed := true, bll := [Entry(d, Sending, 0)], cursend := 0,
                    fp := Files(true, false, 0), h := History([[d]], [], {}, {}, {}, {}))
  }

  function Offer(d: Id): seq<Event> {
    [Quiet(NoFrame, Middle, []), Quiet(NoFrame, Middle, [Listed(d, false)])]
  }

  lemma Offers(version: Version, d: Id)
    ensures Run(Start(version), Offer(d)) == Sends(version, d)
  {
    var n1 := Turn(Start(version), Offer(d)[0]);
    assert n1 == Start(version).(ft := Transmit);
    var t := MakeList(n1, Offer(d)[1]);
    assert Lost([Listed(d, false)]) == {} && Locals({}) == {};
    assert t.bll == [Entry(d, NoState, 0)] && Ids(t.bll) == [d];
    assert NextOpen(t.bll, 0) == 0;
    RunTwo(Start(version), Offer(d)[0], Offer(d)[1]);
  }

  const IDLE := Quiet(NoFrame, Middle, [])

  /** Two turns at a time: the file to its end, and M_EOB. */
  lemma LastBlock(d: Id)
    ensures var n := Sends(V10, d);
      Run(n, [IDLE, Quiet(NoFrame, Block.Last, [])]) == n.(ft := Switch, tx := TxGNF, bll := [Entry(d, IsSent, 0)], cursend := -1, fp := Files(false, false, 0))
  {
    RunTwo(Sends(V10, d), IDLE, Quiet(NoFrame, Block.Last, []));
  }

  lemma NoMore(n: Node)
    requires n.ft == Switch && n.tx == TxGNF && n.rx == RxWaitF && n.listed && NextOpen(n.bll, 0) == |n.bll|
    ensures Run(n, [IDLE, IDLE]) == n.(ft := Transmit, tx := TxWLA, localEob := true, messages := n.messages + 1)
  {
    hide Receiver, ProcessAll, ReadSend, WaitLast, MakeList, NextOpen;
    RunTwo(n, IDLE, IDLE);
  }

  /** A message while the file is not acknowledged. */
  lemma HearsOne(n: Node, m: Message)
    requires n.ft == Transmit && n.tx == TxWLA && n.rx == RxWaitF && n.queue == [] && !AllDone(n.bll) && !n.remoteEob
    ensures Run(n, [IDLE, Hears(FMessage(m))]) == n.(ft := Receive, frame := FMessage(m), messages := n.messages + 1)
  {
    RunTwo(n, IDLE, Hears(FMessage(m)));
  }

  lemma Queues(n: Node, m: Message)
    requires n.ft == Receive && n.tx == TxWLA && n.rx == RxWaitF && n.frame == FMessage(m) && !n.remoteEob
    ensures Run(n, [IDLE, IDLE]) == AddMessage(n, m).(ft := Transmit)
  {
    RunTwo(n, IDLE, IDLE);
  }

  lemma Acknowledges(n: Node, d: Id)
    requires n.ft == Transmit && n.tx == TxWLA && n.rx == RxWaitF && n.version == V10 && n.bll == [Entry(d, IsSent, 0)]
    requires n.queue == [MGot(d.remote, d.size, d.date)]
    ensures Run(n, [IDLE, IDLE]) == n.(ft := Switch, queue := [], bll := [Entry(d, Got, 0)], h := n.h.(disposed := n.h.disposed + {d}))
  {
    hide OnMessage, Receiver, GetNextFile, ReadSend, NewBatch;
    var m := MGot(d.remote, d.size, d.date);
    GotOnly(n, d);
    assert [m][1..] == [] && ProcessAll(n, [m]) == ProcessAll(OnMessage(n, m), []);
    var t := n.(queue := [], bll := [Entry(d, Got, 0)], h := n.h.(disposed := n.h.disposed + {d}));
    assert Turn(n, IDLE) == t;
    assert AllDone(t.bll);
    RunTwo(n, IDLE, IDLE);
  }

  lemma GotOnly(n: Node, d: Id)
    requires n.ft != Crashed && n.bll == [Entry(d, IsSent, 0)]
    ensures OnMessage(n, MGot(d.remote, d.size, d.date)) == n.(bll := [Entry(d, Got, 0)], h := n.h.(disposed := n.h.disposed + {d}))
  {
    assert Index(n.bll, MGot(d.remote, d.size, d.date), 0) == 0;
    assert SameLocal(n.bll, d.local) == {d};
  }

  lemma HearsEob(n: Node)
    requires n.ft == Switch && n.tx == TxWLA && n.rx == RxWaitF && n.version == V10 && n.localEob
    ensures Run(n, [Hears(FEob), IDLE]) == n.(ft := Transmit, frame := FEob, messages := n.messages + 1, remoteEob := true, rx := RxEOB)
  {
    RunTwo(n, Hears(FEob), IDLE);
  }

  lemma Ends(n: Node)
    requires n.ft == Transmit && n.tx == TxWLA && n.rx == RxEOB && n.version == V10 && n.localEob && n.remoteEob
    requires n.queue == [] && n.listed && AllDone(n.bll)
    ensures Run(n, [IDLE, IDLE] + [IDLE, IDLE]) == Clear(n).(tx := TxDone, rx := RxDone, ft := Returned)
  {
    RunTwo(n, IDLE, IDLE);
    var t := Run(n, [IDLE, IDLE]);
    RunTwo(t, IDLE, IDLE);
    RunMore(n, [IDLE, IDLE], [IDLE, IDLE]);
  }

  /** And a session in which one file is sent, acknowledged and done with returns 0. */
  lemma OneFileFinishes(d: Id) returns (evs: seq<Event>)
    ensures var z := Run(Start(V10), evs);
      z.ft == Returned && z.rc == 0 && z.h.cleared == [[Entry(d, Got, 0)]] && z.h.disposed == {d}
      && z.h.heard == {MGot(d.remote, d.size, d.date)}
  {
    hide Run, Quiet;
    var m := MGot(d.remote, d.size, d.date);
    Offers(V10, d);
    var n := Sends(V10, d);
    LastBlock(d);
    var last := [IDLE, Quiet(NoFrame, Block.Last, [])];
    var n2 := Run(n, last);
    assert NextOpen(n2.bll, 0) == 1;
    NoMore(n2);
    var n4 := Run(n2, [IDLE, IDLE]);
    assert n4.bll[0] in n4.bll && !Done(n4.bll[0]);
    HearsOne(n4, m);
    var n6 := Run(n4, [IDLE, Hears(FMessage(m))]);
    Queues(n6, m);
    var n8 := Run(n6, [IDLE, IDLE]);
    Acknowledges(n8, d);
    var n10 := Run(n8, [IDLE, IDLE]);
    HearsEob(n10);
    var n12 := Run(n10, [Hears(FEob), IDLE]);
    Ends(n12);
    var e12 := [IDLE, IDLE] + [IDLE, IDLE];
    var e10 := [Hears(FEob), IDLE] + e12;
    var e8 := [IDLE, IDLE] + e10;
    var e6 := [IDLE, IDLE] + e8;
    var e4 := [IDLE, Hears(FMessage(m))] + e6;
    var e2 := [IDLE, IDLE] + e4;
    evs := Offer(d) + (last + e2);
    RunMore(Start(V10), Offer(d), last + e2);
    RunMore(n, last, e2);
    RunMore(n2, [IDLE, IDLE], e4);
    RunMore(n4, [IDLE, Hears(FMessage(m))], e6);
    RunMore(n6, [IDLE, IDLE], e8);
    RunMore(n8, [IDLE, IDLE], e10);
    RunMore(n10, [Hears(FEob), IDLE], e12);
  }
}

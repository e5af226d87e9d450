/** What single turns of file_transfer come to: when the session fails, what becomes of an M_FILE, of the list and of a batch. */
module BinkpTurns {
  import opened BinkpFinish

  /** Going on: neither over nor dead. */
  predicate Going(n: Node) {
    n.ft == Switch || n.ft == Receive || n.ft == Transmit
  }

  // ------------------------------------------------------------------ an M_FILE

  /** What bopenfile leaves: the length it found, and whether the file is open. */
  function LengthOf(n: Node, r: Reopen): int {
    match r
    case Nameless => n.fp.rxbytes
    case Unopened(length) => length
    case Reopened(length) => length
  }

  /** The file is looked for unless the offset is that of the length found the last time. */
  predicate Looked(n: Node, offset: int) {
    offset == 0 || offset != n.fp.rxbytes
  }

  function Found(n: Node, ev: Event, offset: int): int {
    if Looked(n, offset) then LengthOf(n, ev.reopen) else n.fp.rxbytes
  }

  predicate Usable(n: Node, ev: Event, offset: int) {
    ev.blocks && (if Looked(n, offset) then ev.reopen.Reopened? else n.fp.rx)
  }

  predicate Taken(n: Node, ev: Event, size: int, offset: int) {
    var len := Found(n, ev, offset);
    ev.space && Usable(n, ev, offset) && size != len && (offset != 0 || len == 0 || len > size)
  }

  predicate Takes(n: Node, ev: Event, size: int, offset: int) {
    n.fp.rx && ev.blocks && size != n.fp.rxbytes && (offset != 0 || n.fp.rxbytes == 0 || n.fp.rxbytes > size)
  }

  lemma Settles(n: Node, ev: Event, size: int, offset: int)
    ensures var (t, r) := Settle(n, ev, size, offset);
      if !ev.space then t == n.(rx := RxDone, tx := TxDone, messages := n.messages + 1, rc := FTRANSFER) && r == Failure
      else if Takes(n, ev, size, offset) then t == n.(rx := RxReceD) && r == Ok
      else
        && t == n.(rx := RxWaitF, messages := n.messages + 1, fp := t.fp) && t.fp.tx == n.fp.tx && t.fp.rxbytes == n.fp.rxbytes
        && (size == n.fp.rxbytes ==> !t.fp.rx) && r == (if ev.sends then Ok else Failure)
  {
  }

  /** A file is taken in exactly if there is space, it can be written, it is not there in full, and it is offered from where the partial one ends or
      there is none to resume.  Otherwise it is answered, and if the answer cannot be sent or there is no space the session fails. */
  lemma TakenIff(n: Node, ev: Event, size: int, offset: int)
    requires n.ft == Receive && n.rx == RxAccF && n.frame == FFile(File(size, offset)) && offset != -1 && (Looked(n, offset) || n.fp.rx)
    ensures var t, len := Turn(n, ev), Found(n, ev, offset);
      && (t.rx == RxReceD <==> Taken(n, ev, size, offset))
      && (t.rx == RxReceD ==> t == n.(rx := RxReceD, ft := t.ft, fp := Files(n.fp.tx, true, len)) && t.ft != DeinitTransfer)
      && (t.rx != RxReceD && ev.space ==> t.rx == RxWaitF && t.messages == n.messages + 1 && t.fp.rxbytes == len && (size == len ==> !t.fp.rx))
      && (t.ft == DeinitTransfer <==> !ev.space || (t.rx == RxWaitF && !ev.sends))
      && (!ev.space ==> t.rx == RxDone && t.tx == TxDone && t.messages == n.messages + 1)
      && t.bll == n.bll && t.queue == n.queue && t.tx == (if ev.space then n.tx else TxDone)
  {
    var m := if Looked(n, offset) then BOpenFile(n, ev.reopen) else n;
    OpenedIs(n, ev, offset);
    Settles(m, ev, size, offset);
    ToSettle(n, ev, size, offset);
    var (u, r) := Settle(m, ev, size, offset);
    hide Settle, BOpenFile, Receiver, Looked, Found, Usable;
    AfterIs(u, r, if u.localEob && u.remoteEob then Transmit else Switch);
  }

  lemma ToSettle(n: Node, ev: Event, size: int, offset: int)
    requires n.ft == Receive && n.rx == RxAccF && n.frame == FFile(File(size, offset)) && offset != -1 && (Looked(n, offset) || n.fp.rx)
    ensures Receiver(n, ev) == Settle(if Looked(n, offset) then BOpenFile(n, ev.reopen) else n, ev, size, offset)
  {
    hide Settle, BOpenFile;
  }

  lemma AfterIs(n: Node, r: Result, next: FtState)
    requires (n.ft == Receive || n.ft == Transmit) && next != DeinitTransfer
    ensures var t := After(n, r, next);
      t == n.(ft := t.ft, rc := if r == Failure then 1 else n.rc) && t.ft == if r == Failure then DeinitTransfer else if r == Ok then next else n.ft
  {
  }

  /** In NR mode, and with a line that is too long, it is answered without a look. */
  lemma OnlyAnswered(n: Node, ev: Event)
    requires n.ft == Receive && n.rx == RxAccF && n.frame.FFile? && (n.frame.line == Overlong || (n.frame.line.File? && n.frame.line.offset == -1))
    ensures var t := Turn(n, ev); t.rx == RxWaitF && t.messages == n.messages + 1 && t.fp == n.fp && (t.ft == DeinitTransfer <==> !ev.sends)
  {
  }

  /** Data for a file that is not open are passed over; otherwise they are written, and behind the last of them M_GOT is sent. */
  lemma DataWritten(n: Node, ev: Event)
    requires n.ft == Receive && n.rx == RxWriteD
    ensures var t := Turn(n, ev);
      && (t.rx == RxReceD <==> !n.fp.rx || ev.write == More)
      && (t.rx == RxWaitF <==> n.fp.rx && ev.write == Whole) && t.messages == n.messages + (if t.rx == RxWaitF then 1 else 0)
      && (t.ft == DeinitTransfer <==> n.fp.rx && (ev.write == WriteError || (ev.write == Whole && !ev.sends)))
      && t.fp == n.fp && t.bll == n.bll && t.queue == n.queue
  {
  }

  // ------------------------------------------------------------------ when it fails

  /** Frames that a state cannot use. */
  predicate OutOfPlace(rx: RxState, f: Frame) {
    match rx
    case RxWaitF => f == FErr || f == FOther
    case RxReceD => f == FErr || f == FOther || f == FEob
    case RxEOB => f == FErr || f == FOther || f == FEob || f.FFile? || f == FData
    case _ => false
  }

  /** No receiving and no sending can go wrong but so. */
  predicate Faulty(n: Node, ev: Event) {
    match n.ft
    case Switch => !(n.rx == RxDone && n.tx == TxDone) && (ev.poll == PollError || (ev.poll == NoFrame && !ev.room && ev.expired))
    case Receive =>
      (match n.rx
       case RxAccF => !n.frame.FFile? || (n.frame.line == Overlong && !ev.sends)
                      || (n.frame.line.File? && (if n.frame.line.offset == -1 then !ev.sends else !ev.space || (!ev.sends && !Taken(n, ev, n.frame.line.size, n.frame.line.offset))))
       case RxWriteD => n.fp.rx && (ev.write == WriteError || (ev.write == Whole && !ev.sends))
       case _ => OutOfPlace(n.rx, n.frame))
    case Transmit =>
      (match n.tx
       case TxGNF => !ev.sends && (Announces(n, ev) || Remaining(n, ev) == [] || ev.open == Opens)
       case TxReadS => ev.block == ReadError || ev.block == SendError
       case _ => false)
    case _ => false
  }

  /** Mail is announced when a list is made, in the first batch or if there is some. */
  predicate Announces(n: Node, ev: Event) {
    !n.listed && (ev.hold || n.batchnr == 0)
  }

  /** The list of files to be sent as it is now, or as it is made. */
  function Wanted(n: Node, ev: Event): seq<Entry> {
    if n.listed then n.bll
    else if n.batchnr >= 20 then []
    else
      var all := ev.offer + ev.respond;
      seq(|all|, i requires 0 <= i < |all| => Entry(all[i].id, if all[i].missing then Got else NoState, 0))
  }

  /** Those of it that are still to be sent. */
  function Remaining(n: Node, ev: Event): seq<Entry> {
    Open(Wanted(n, ev))
  }

  function Open(list: seq<Entry>): seq<Entry>
    decreases |list|
  {
    if list == [] then [] else if list[0].state == NoState then list else Open(list[1..])
  }

  lemma {:induction false} OpenIs(list: seq<Entry>, k: nat)
    requires k <= |list|
    ensures var i := NextOpen(list, k); Open(list[k..]) == list[i..]
    decreases |list| - k
  {
    if k < |list| && list[k].state != NoState {
      assert list[k..][1..] == list[k + 1..];
      OpenIs(list, k + 1);
    }
  }

  lemma WantedIs(n: Node, ev: Event)
    requires !n.listed && !NothingToAddTo(ev)
    ensures var t := MakeList(n, ev);
      && t.bll == Wanted(n, ev) && t.listed == (ev.offer != [] || ev.extra) && t.cursend == -1 && t.ft == n.ft && t.batchnr == n.batchnr && t.messages == n.messages
      && t.queue == n.queue && t.fp == n.fp && t.tx == n.tx && t.rx == n.rx && t.rc == n.rc
  {
  }

  /** The first entry to be sent, at its place. */
  lemma NextIs(n: Node, ev: Event)
    ensures var (t, r) := NextFile(n, ev); var rest := Open(n.bll); var i := |n.bll| - |rest|;
      if rest == [] then t == n.(messages := n.messages + 1, localEob := true, tx := TxWLA) && r == (if ev.sends then Continue else Failure)
      else
        && 0 <= i < |n.bll| && n.bll[i] == rest[0]
        && match ev.open
           case Opens => (if ev.sends then r == Continue && t == n.(messages := n.messages + 1, fp := n.fp.(tx := true), bll := n.bll[i := rest[0].(state := Sending)], cursend := i, tx := TxTryR)
                          else r == Failure && t == n.(messages := n.messages + 1, fp := t.fp, tx := TxDone))
           case Missing => r == Ok && t.bll == n.bll[i := rest[0].(state := Got)] && t == n.(bll := t.bll, fp := n.fp.(tx := false), h := n.h.(missing := t.h.missing, unread := t.h.unread))
           case Refused => r == Ok && t.bll == n.bll[i := rest[0].(state := Skipped)] && t == n.(bll := t.bll, fp := n.fp.(tx := false), h := n.h.(missing := t.h.missing, unread := t.h.unread))
  {
    OpenIs(n.bll, 0);
    assert n.bll[0..] == n.bll;
    hide Open;
  }

  /** TxGNF: the first file that is still to be sent, if it can be opened, and M_EOB if there is none; a list is made first if there is none. */
  lemma SendsNext(n: Node, ev: Event)
    requires n.ft == Transmit && n.tx == TxGNF && !(NothingToAddTo(ev) && !n.listed)
    ensures var t := Turn(n, ev); var list, rest := Wanted(n, ev), Remaining(n, ev); var said := if Announces(n, ev) then 1 else 0; var i := |list| - |rest|;
      && (t.ft == DeinitTransfer <==> Faulty(n, ev)) && t.rc == (if Faulty(n, ev) then 1 else n.rc)
      && (t.ft != DeinitTransfer ==>
            if rest == [] then t.tx == TxWLA && t.localEob && t.messages == n.messages + said + 1 && t.ft == Transmit && t.bll == list
            else
              && 0 <= i < |list| && list[i] == rest[0]
              && (ev.open == Opens ==>
                    && t.bll == list[i := rest[0].(state := Sending)] && t.cursend == i && t.tx == TxTryR && t.ft == Transmit && t.fp.tx
                    && t.messages == n.messages + said + 1)
              && (ev.open != Opens ==>
                    && t.bll == list[i := rest[0].(state := if ev.open == Missing then Got else Skipped)] && t.tx == TxGNF && t.ft == Switch && !t.fp.tx
                    && t.messages == n.messages + said))
  {
    GetsNext(n, ev);
    var (u, r) := GetNextFile(n, ev);
    AfterIs(u, r, Switch);
    hide GetNextFile, Wanted, Open;
  }

  /** The same of the handler. */
  lemma GetsNext(n: Node, ev: Event)
    requires n.ft == Transmit && n.tx == TxGNF && !(NothingToAddTo(ev) && !n.listed)
    ensures var (t, r) := GetNextFile(n, ev); var list, rest := Wanted(n, ev), Remaining(n, ev); var said := if Announces(n, ev) then 1 else 0; var i := |list| - |rest|;
      && t.ft == Transmit && (r == Failure <==> Faulty(n, ev)) && t.rc == n.rc && 0 <= i <= |list|
      && (r != Failure ==>
            if rest == [] then t.tx == TxWLA && t.localEob && t.messages == n.messages + said + 1 && r == Continue && t.bll == list
            else
              && i < |list| && list[i] == rest[0]
              && (ev.open == Opens ==>
                    && t.bll == list[i := rest[0].(state := Sending)] && t.cursend == i && t.tx == TxTryR && r == Continue && t.fp.tx
                    && t.messages == n.messages + said + 1)
              && (ev.open != Opens ==>
                    && t.bll == list[i := rest[0].(state := if ev.open == Missing then Got else Skipped)] && t.tx == TxGNF && r == Ok && !t.fp.tx
                    && t.messages == n.messages + said))
  {
    hide MakeList, NextFile, Open, Wanted, Announce;
    if n.listed {
      ListIs(n, ev);
      NextIs(n, ev);
    } else {
      WantedIs(n, ev);
      var m := MakeList(n, ev);
      AnnounceIs(m, ev);
      var (a, r) := Announce(m, ev);
      NextIs(a, ev);
      OpenShort(m.bll);
    }
  }

  lemma {:induction false} OpenShort(list: seq<Entry>)
    ensures |Open(list)| <= |list|
    decreases |list|
  {
    if list != [] { OpenShort(list[1..]); }
  }

  lemma ListIs(n: Node, ev: Event)
    requires n.listed
    ensures Wanted(n, ev) == n.bll
  {
  }

  lemma AnnounceIs(n: Node, ev: Event)
    ensures var (t, r) := Announce(n, ev);
      if ev.hold || n.batchnr == 0 then t == n.(messages := n.messages + 1, tx := t.tx) && (if ev.sends then r == Ok && t.tx == n.tx else r == Failure)
      else t == n && r == Ok
  {
  }

  lemma SwitchFails(n: Node, ev: Event)
    requires n.ft == Switch
    ensures var t := Turn(n, ev);
      && (t.ft == DeinitTransfer <==> Faulty(n, ev) || (n.rx == RxDone && n.tx == TxDone)) && t.ft != Crashed
      && t.rc == if !Faulty(n, ev) then n.rc else if ev.poll == PollError then 108 else 1
  {
  }

  lemma ReceiverFails(n: Node, ev: Event)
    requires n.ft == Receive
    ensures var (u, r) := Receiver(n, ev); u.ft != Crashed ==> u.ft == Receive && (r == Failure <==> Faulty(n, ev)) && (r != Failure ==> u.rc == n.rc)
  {
    hide Settle, NewBatch, BOpenFile, AcceptFile;
    BatchIs(n);
    if n.rx == RxAccF { AcceptFails(n, ev); }
  }

  lemma AcceptFails(n: Node, ev: Event)
    requires n.ft == Receive && n.rx == RxAccF
    ensures var (u, r) := AcceptFile(n, ev); u.ft != Crashed ==> u.ft == Receive && (r == Failure <==> Faulty(n, ev)) && (r != Failure ==> u.rc == n.rc)
  {
    hide Settle, BOpenFile, Looked, Found, Usable;
    if n.frame.FFile? && n.frame.line.File? && n.frame.line.offset != -1 && (Looked(n, n.frame.line.offset) || n.fp.rx) {
      var f := n.frame.line;
      var m := if Looked(n, f.offset) then BOpenFile(n, ev.reopen) else n;
      OpenedIs(n, ev, f.offset);
      Settles(m, ev, f.size, f.offset);
      ToSettle(n, ev, f.size, f.offset);
    } else {
      NotSettled(n, ev);
    }
  }

  lemma NotSettled(n: Node, ev: Event)
    requires n.ft == Receive && n.rx == RxAccF && !(n.frame.FFile? && n.frame.line.File? && n.frame.line.offset != -1 && (Looked(n, n.frame.line.offset) || n.fp.rx))
    ensures var (u, r) := AcceptFile(n, ev); u.ft != Crashed ==> u.ft == Receive && (r == Failure <==> Faulty(n, ev)) && (r != Failure ==> u.rc == n.rc)
  {
    hide Settle, BOpenFile;
  }

  lemma OpenedIs(n: Node, ev: Event, offset: int)
    ensures var m := if Looked(n, offset) then BOpenFile(n, ev.reopen) else n;
      m == n.(fp := Files(n.fp.tx, m.fp.rx, Found(n, ev, offset))) && (m.fp.rx && ev.blocks <==> Usable(n, ev, offset))
  {
  }

  lemma BatchIs(n: Node)
    ensures NewBatch(n).ft == n.ft && NewBatch(n).rc == n.rc
  {
  }

  lemma ReceiveFails(n: Node, ev: Event)
    requires n.ft == Receive && Turn(n, ev).ft != Crashed
    ensures var t := Turn(n, ev); (t.ft == DeinitTransfer <==> Faulty(n, ev)) && t.rc == if Faulty(n, ev) then 1 else n.rc
  {
    hide Receiver, Faulty;
    ReceiverFails(n, ev);
    var (u, r) := Receiver(n, ev);
    if u.ft != Crashed { AfterIs(u, r, if u.localEob && u.remoteEob then Transmit else Switch); }
  }

  lemma {:induction false} Processed(n: Node, ms: seq<Message>)
    ensures var t := ProcessAll(n, ms); t.rc == n.rc && (t.ft == n.ft || t.ft == Crashed)
    decreases |ms|
  {
    if ms != [] {
      OnlyRc(n, ms[0]);
      hide OnMessage;
      Processed(OnMessage(n, ms[0]), ms[1..]);
    }
  }

  lemma OnlyRc(n: Node, m: Message)
    ensures var t := OnMessage(n, m); t.rc == n.rc && (t.ft == n.ft || t.ft == Crashed)
  {
    hide Index, Means, SameLocal;
  }

  lemma TransmitterFails(n: Node, ev: Event)
    requires n.ft == Transmit && n.tx != TxGNF && (n.tx == TxReadS ==> 0 <= n.cursend < |n.bll|)
    ensures var (u, r) := Transmitter(n, ev); u.ft != Crashed ==> u.ft == Transmit && (r == Failure <==> Faulty(n, ev)) && (r != Failure ==> u.rc == n.rc)
  {
    hide ProcessAll, NewBatch, AllDone;
    Processed(n, n.queue);
    BatchIs(n);
  }

  lemma TransmitFails(n: Node, ev: Event)
    requires n.ft == Transmit && Turn(n, ev).ft != Crashed && n.tx != TxGNF
    ensures var t := Turn(n, ev); (t.ft == DeinitTransfer <==> Faulty(n, ev)) && t.rc == if Faulty(n, ev) then 1 else n.rc
  {
    hide Transmitter, Faulty;
    if n.tx != TxReadS || 0 <= n.cursend < |n.bll| {
      TransmitterFails(n, ev);
      var (u, r) := Transmitter(n, ev);
      if u.ft != Crashed { AfterIs(u, r, Switch); }
    }
  }

  /** The session fails at exactly these turns, with 108 if the line is lost and 1 otherwise. */
  lemma FailsIff(n: Node, ev: Event)
    requires Going(n) && Turn(n, ev).ft != Crashed
    ensures Turn(n, ev).ft == DeinitTransfer <==> Faulty(n, ev) || (n.ft == Switch && n.rx == RxDone && n.tx == TxDone)
    ensures Turn(n, ev).rc == if !Faulty(n, ev) then n.rc else if n.ft == Switch && ev.poll == PollError then 108 else 1
  {
    hide Turn, Faulty;
    match n.ft
    case Switch => SwitchFails(n, ev);
    case Receive => ReceiveFails(n, ev);
    case Transmit => if n.tx == TxGNF { GoesOn(n, ev); SendsNext(n, ev); } else { TransmitFails(n, ev); }
  }

  lemma GoesOn(n: Node, ev: Event)
    requires n.ft == Transmit && n.tx == TxGNF && Turn(n, ev).ft != Crashed
    ensures !(NothingToAddTo(ev) && !n.listed)
  {
  }

  // ------------------------------------------------------------------ blocks, batches and versions

  /** The file that cursend says is read on; behind its last block it is closed and waits for M_GOT. */
  lemma BlockSent(n: Node, ev: Event)
    requires n.ft == Transmit && n.tx == TxReadS && n.fp.tx && 0 <= n.cursend < |n.bll|
    ensures var t := Turn(n, ev); var e := n.bll[n.cursend];
      && (ev.block == Middle ==> t == n.(tx := TxTryR, ft := Switch))
      && (ev.block == Block.Last ==> t == n.(tx := TxGNF, ft := Switch, cursend := -1, fp := n.fp.(tx := false), bll := n.bll[n.cursend := e.(state := IsSent)]))
      && (ev.block == ReadError ==> t.bll == n.bll[n.cursend := e.(state := Skipped)] && e.id.local in t.h.unread)
      && (ev.block == SendError ==> t == n.(tx := TxTryR, rc := 1, ft := DeinitTransfer))
  {
  }

  predicate BothEobs(n: Node) {
    n.localEob && n.remoteEob
  }

  /** A batch begins anew. */
  predicate Renewed(n: Node, t: Node) {
    t.batchnr == n.batchnr + 1 && !t.localEob && !t.remoteEob && t.messages == 0 && t.tx == TxGNF && t.rx == RxWaitF && !t.listed && t.ft == Switch
  }

  /** With all acknowledged: under binkp/1.0 the transmitter is done once the peer has said M_EOB; under binkp/1.1 the list goes, and once both have said
      so the session ends if fewer than three commands were exchanged in this batch, and another begins if not. */
  lemma BatchIff(n: Node, ev: Event)
    requires n.ft == Transmit && n.tx == TxWLA && n.queue == []
    ensures var t := Turn(n, ev); var all := forall e :: e in n.bll ==> e.state == Got || e.state == Skipped;
      && (t.batchnr != n.batchnr <==> all && n.version == V11 && BothEobs(n) && n.messages >= 3)
      && (t.batchnr != n.batchnr ==> Renewed(n, t))
      && (t.tx == TxDone <==> all && ((n.version == V10 && (n.rx == RxEOB || n.rx == RxDone)) || (n.version == V11 && BothEobs(n) && n.messages < 3)))
      && (t.tx == TxDone ==> t.rx == if BothEobs(n) then RxDone else n.rx)
      && (t.tx == TxWLA ==> t.rx == n.rx && t.messages == n.messages)
      && (n.listed ==> (!t.listed <==> all && (n.version == V11 || (n.version == V10 && (n.rx == RxEOB || n.rx == RxDone)))))
      && (n.listed && !t.listed ==> t.h.cleared == n.h.cleared + [n.bll]) && t.ft == Switch && t.rc == n.rc
  {
    WaitedFor(n, ev);
    hide WaitLast;
  }

  /** The handler's part of it. */
  lemma WaitedFor(n: Node, ev: Event)
    requires n.ft == Transmit && n.tx == TxWLA && n.queue == []
    ensures var (t, r) := WaitLast(n); var all := forall e :: e in n.bll ==> e.state == Got || e.state == Skipped;
      && r == Ok && t.ft == Transmit && t.rc == n.rc
      && (t.batchnr != n.batchnr <==> all && n.version == V11 && BothEobs(n) && n.messages >= 3)
      && (t.batchnr != n.batchnr ==> Renewed(n, t.(ft := Switch)))
      && (t.tx == TxDone <==> all && ((n.version == V10 && (n.rx == RxEOB || n.rx == RxDone)) || (n.version == V11 && BothEobs(n) && n.messages < 3)))
      && (t.tx == TxDone ==> t.rx == if BothEobs(n) then RxDone else n.rx)
      && (t.tx == TxWLA ==> t.rx == n.rx && t.messages == n.messages)
      && (n.listed ==> (!t.listed <==> all && (n.version == V11 || (n.version == V10 && (n.rx == RxEOB || n.rx == RxDone)))))
      && (n.listed && !t.listed ==> t.h.cleared == n.h.cleared + [n.bll])
  {
    AllIs(n.bll);
    hide AllDone, ProcessAll;
  }

  lemma AllIs(list: seq<Entry>)
    ensures AllDone(list) <==> forall e :: e in list ==> e.state == Got || e.state == Skipped
  {
  }

  /** M_EOB while the receiver waits for a file: before binkp/1.1 nothing more is taken; under it another batch begins if all is acknowledged, both
      have said so and three commands were exchanged. */
  lemma EobHeard(n: Node, ev: Event)
    requires n.ft == Receive && n.rx == RxWaitF && n.frame == FEob
    ensures var t := Turn(n, ev); var all := forall e :: e in n.bll ==> e.state == Got || e.state == Skipped;
      && (n.version != V11 ==> t == n.(rx := RxEOB, ft := t.ft))
      && (n.version == V11 ==>
            if all && BothEobs(n) && n.messages >= 3 then Renewed(n, t) && t.h.cleared == (if n.listed then n.h.cleared + [n.bll] else n.h.cleared)
            else t == n.(ft := t.ft))
      && (t.batchnr == n.batchnr ==> t.ft == if BothEobs(n) then Transmit else Switch)
  {
    AllIs(n.bll);
  }

  /** Every command polled counts, and M_EOB is noted; the receiver looks at it next, and if there is nothing to poll the transmitter goes on. */
  lemma FramePolled(n: Node, ev: Event)
    requires n.ft == Switch && !(n.rx == RxDone && n.tx == TxDone) && !Faulty(n, ev)
    ensures var t := Turn(n, ev);
      match ev.poll
      case GotFrame(f) => t == n.(ft := Receive, frame := f, messages := if f == FData then n.messages else n.messages + 1, remoteEob := t.remoteEob)
                          && (t.remoteEob <==> n.remoteEob || f == FEob)
      case _ => t == n.(ft := if ev.room then Transmit else Switch)
  {
  }

  /** An M_NUL sets the version; M_FILE is looked at in its own state, after the file that is open is closed; data are written; unknown frames, and
      data out of place while waiting, are passed over. */
  lemma FrameTaken(n: Node, ev: Event)
    requires n.ft == Receive && (n.rx == RxWaitF || n.rx == RxReceD || n.rx == RxEOB) && n.frame != FEob && !OutOfPlace(n.rx, n.frame)
    ensures var t := Turn(n, ev);
      match n.frame
      case FNul(v, bare) => if bare then t.ft == Crashed else t == n.(version := v, ft := t.ft)
      case FFile(_) => t == n.(rx := RxAccF, fp := n.fp.(rx := n.fp.rx && n.rx == RxWaitF)) && t.ft == Receive
      case FData => if n.rx == RxReceD then t == n.(rx := RxWriteD) else t == n.(ft := t.ft)
      case FMessage(m) => t == n.(queue := n.queue + [m], ft := t.ft, h := n.h.(heard := n.h.heard + {m}))
      case _ => t == n.(ft := t.ft)
  {
    hide Transmitter, AcceptFile, NewBatch;
  }

  /** When a list is made, the files that cannot be found are disposed of, and it is kept if there is anything on it. */
  lemma ListMade(n: Node, ev: Event)
    requires n.ft == Transmit && n.tx == TxGNF && !n.listed && !NothingToAddTo(ev)
    ensures var t := Turn(n, ev);
      && (t.listed <==> ev.offer != [] || ev.extra)
      && t.h.disposed == n.h.disposed + (set f | f in (if n.batchnr < 20 then ev.offer + ev.respond else []) && f.missing :: f.id)
  {
    hide Turn, GetNextFile;
    TurnGets(n, ev);
    GetsListed(n, ev);
    AfterIs(GetNextFile(n, ev).0, GetNextFile(n, ev).1, Switch);
  }

  lemma TurnGets(n: Node, ev: Event)
    requires n.ft == Transmit && n.tx == TxGNF
    ensures var (u, r) := GetNextFile(n, ev); Turn(n, ev) == After(u, r, Switch)
  {
    hide GetNextFile;
  }

  lemma GetsListed(n: Node, ev: Event)
    requires n.ft == Transmit && n.tx == TxGNF && !n.listed && !NothingToAddTo(ev)
    ensures var t := GetNextFile(n, ev).0;
      && (t.listed <==> ev.offer != [] || ev.extra) && t.ft == Transmit
      && t.h.disposed == n.h.disposed + (set f | f in (if n.batchnr < 20 then ev.offer + ev.respond else []) && f.missing :: f.id)
  {
    WantedIs(n, ev);
    var m := MakeList(n, ev);
    LostIs(n, ev);
    AnnounceIs(m, ev);
    NextIs(Announce(m, ev).0, ev);
    hide MakeList, NextFile, Announce, Open, Wanted;
  }

  lemma LostIs(n: Node, ev: Event)
    requires !NothingToAddTo(ev)
    ensures MakeList(n, ev).h.disposed == n.h.disposed + (set f | f in (if n.batchnr < 20 then ev.offer + ev.respond else []) && f.missing :: f.id)
  {
  }
}

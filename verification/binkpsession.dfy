/** file_transfer of binkp.c and what it calls, as an object: the session record, the list of files and the queue of messages
    are fields that its methods change. */
module BinkpSession {
  import opened BinkpFinish
  import opened BinkpClean

  class Session {
    var ft: FtState
    var rx: RxState
    var tx: TxState
    var version: Version
    var localEob: bool
    var remoteEob: bool
    var messages: nat
    var batchnr: nat
    var rc: nat
    /** tosend is set; the binkp list made from it; the file being sent; the reply queue; the last frame. */
    var listed: bool
    var bll: seq<Entry>
    var cursend: int
    var queue: seq<Message>
    var frame: Frame
    /** Whether the file pointers are not null, and the length of the last file found. */
    var txfp: bool
    var rxfp: bool
    var rxbytes: int
    ghost var h: History

    ghost function State(): Node
      reads this
    {
      Node(ft, rx, tx, version, localEob, remoteEob, messages, batchnr, rc, listed, bll, cursend, queue, frame, Files(txfp, rxfp, rxbytes), h)
    }

    /** InitTransfer. */
    constructor (version: Version)
      ensures State() == Start(version)
    {
      this.version := version;
      ft, rx, tx := Switch, RxWaitF, TxGNF;
      localEob, remoteEob, messages, batchnr, rc := false, false, 0, 0, 0;
      listed, bll, cursend, queue, frame := false, [], -1, [], FData;
      txfp, rxfp, rxbytes := false, false, 0;
      h := History([], [], {}, {}, {}, {});
    }

    /** binkp_pendingfiles. */
    method PendingFiles() returns (count: nat)
      ensures count == Pending(bll) && (count == 0 <==> AllDone(bll))
    {
      count := 0;
      var i := 0;
      while i < |bll|
        invariant 0 <= i <= |bll| && count == Pending(bll[..i])
      {
        assert bll[..i + 1][..i] == bll[..i];
        if bll[i].state != Got && bll[i].state != Skipped { count := count + 1; }
        i := i + 1;
      }
      assert bll[..i] == bll;
    }

    /** fill_binkp_list for each file. */
    method FillList(offer: seq<Listed>)
      modifies this`bll
      ensures bll == Fill(offer)
    {
      bll := [];
      var i := 0;
      while i < |offer|
        invariant 0 <= i <= |offer| && bll == Fill(offer)[..i]
      {
        bll := bll + [Entry(offer[i].id, if offer[i].missing then Got else NoState, 0)];
        i := i + 1;
      }
      assert Fill(offer)[..i] == Fill(offer);
    }

    /** create_filelist, respond_wazoo and the list made of both. */
    method MakeList(ev: Event)
      modifies this`cursend, this`listed, this`bll, this`h, this`ft
      ensures State() == BinkpFinish.MakeList(old(State()), ev)
    {
      hide Fill, Ids, Lost, Locals;
      if ev.offer == [] && !ev.extra && ev.respond != [] {
        ft := Crashed;
        return;
      }
      var offer := if batchnr < 20 then ev.offer + ev.respond else [];
      cursend := -1;
      listed := ev.offer != [] || ev.extra;
      FillList(offer);
      h := h.(made := if listed then h.made + [Ids(Fill(offer))] else h.made,
              missing := h.missing + Locals(Lost(offer)), disposed := h.disposed + Lost(offer));
    }

    /** binkp_clear_filelist. */
    method ClearFileList()
      modifies this`listed, this`bll, this`h
      ensures State() == Clear(old(State()))
    {
      if listed {
        h := h.(cleared := h.cleared + [bll]);
        bll := [];
        listed := false;
      }
    }

    /** What a batch starts with, but for the list. */
    method ResetBatch()
      modifies this`batchnr, this`localEob, this`remoteEob, this`messages, this`tx, this`rx
      ensures State() == old(State()).(batchnr := old(batchnr) + 1, localEob := false, remoteEob := false, messages := 0, tx := TxGNF, rx := RxWaitF)
    {
      batchnr := batchnr + 1;
      localEob := false;
      remoteEob := false;
      messages := 0;
      tx := TxGNF;
      rx := RxWaitF;
    }

    method NewBatch()
      modifies this`batchnr, this`localEob, this`remoteEob, this`messages, this`tx, this`rx, this`listed, this`bll, this`h
      ensures State() == BinkpFinish.NewBatch(old(State()))
    {
      hide Clear;
      ResetBatch();
      ClearFileList();
    }

    /** The entry a message is about. */
    method Find(m: Message) returns (i: int)
      requires !m.MShort?
      ensures i == Index(bll, m, 0)
    {
      i := 0;
      while i < |bll|
        invariant 0 <= i <= |bll| && Index(bll, m, 0) == Index(bll, m, i)
      {
        if bll[i].id.remote == m.name && bll[i].id.size == m.size && bll[i].id.date == m.date { return; }
        i := i + 1;
      }
      i := -1;
    }

    method Dispose(i: nat)
      requires i < |bll|
      modifies this`bll, this`h
      ensures State() == BinkpFinish.Dispose(old(State()), i)
    {
      h := h.(disposed := h.disposed + SameLocal(bll, bll[i].id.local));
      bll := bll[i := bll[i].(state := Got)];
    }

    method OnGet(m: Message, i: nat)
      requires i < |bll| && m.MGet?
      modifies this`bll, this`h, this`ft, this`tx
      ensures State() == BinkpFinish.OnGet(old(State()), m, i)
    {
      if m.offset == m.size {
        if 0 <= cursend < |bll| && Means(m, bll[cursend].id) {
          ft := Crashed;
        } else if bll[i].state == IsSent {
          Dispose(i);
        }
      } else if m.offset < m.size {
        bll := bll[i := bll[i].(state := NoState, offset := m.offset)];
        tx := TxGNF;
      }
    }

    method Refuses(i: nat)
      requires i < |bll|
      modifies this`tx, this`cursend, this`txfp, this`ft
      ensures State() == BinkpFinish.Refuses(old(State()), i)
    {
      if bll[i].state == Sending {
        if !txfp {
          ft := Crashed;
          return;
        }
        txfp := false;
        tx := TxGNF;
        cursend := -1;
      }
    }

    /** One message of the queue. */
    method ProcessMessage(m: Message)
      modifies this`bll, this`h, this`ft, this`tx, this`cursend, this`txfp
      ensures State() == OnMessage(old(State()), m)
    {
      hide BinkpFinish.OnGet, BinkpFinish.Refuses, BinkpFinish.Dispose;
      if ft == Crashed { return; }
      if m.MShort? {
        ft := Crashed;
        return;
      }
      var i := Find(m);
      if i < 0 { return; }
      if m.MGet? {
        OnGet(m, i);
        return;
      }
      assert |State().bll| == |bll| && |old(State()).bll| == |bll|;
      Refuses(i);
      if ft == Crashed { return; }
      if m.MGot? {
        Dispose(i);
      } else {
        bll := bll[i := bll[i].(state := Skipped)];
      }
    }

    /** binkp_process_messages. */
    method ProcessMessages()
      modifies this`bll, this`h, this`ft, this`tx, this`cursend, this`txfp, this`queue
      ensures State() == BinkpFinish.ProcessMessages(old(State()))
    {
      hide OnMessage;
      var i := 0;
      assert queue[0..] == queue;
      while i < |queue|
        invariant 0 <= i <= |queue| && queue == old(queue)
        invariant ProcessAll(State(), queue[i..]) == ProcessAll(old(State()), queue)
      {
        assert queue[i..][1..] == queue[i + 1..];
        ProcessMessage(queue[i]);
        i := i + 1;
      }
      queue := [];
    }

    method Announce(ev: Event) returns (r: Result)
      modifies this`messages, this`tx
      ensures (State(), r) == BinkpFinish.Announce(old(State()), ev)
    {
      if !ev.hold && batchnr != 0 { return Ok; }
      messages := messages + 1;
      if ev.sends { return Ok; }
      tx := TxDone;
      return Failure;
    }

    method FirstOpen() returns (i: nat)
      ensures i == NextOpen(bll, 0)
    {
      i := 0;
      while i < |bll| && bll[i].state != NoState
        invariant 0 <= i <= |bll| && NextOpen(bll, 0) == NextOpen(bll, i)
      {
        i := i + 1;
      }
    }

    /** M_FILE for an open file. */
    method SendName(ev: Event, i: nat) returns (r: Result)
      requires i < |bll| && i == NextOpen(bll, 0) && ev.open == Opens
      modifies this`messages, this`tx, this`bll, this`cursend, this`txfp
      ensures (State(), r) == BinkpFinish.NextFile(old(State()), ev)
    {
      hide NextOpen;
      txfp := true;
      messages := messages + 1;
      if !ev.sends {
        tx := TxDone;
        return Failure;
      }
      bll := bll[i := bll[i].(state := Sending)];
      cursend := i;
      tx := TxTryR;
      return Continue;
    }

    /** TxGNF with a list: the next file that is still to be sent, or M_EOB. */
    method NextFile(ev: Event) returns (r: Result)
      modifies this`messages, this`localEob, this`tx, this`bll, this`cursend, this`txfp, this`h
      ensures (State(), r) == BinkpFinish.NextFile(old(State()), ev)
    {
      hide NextOpen;
      var i := FirstOpen();
      if i == |bll| {
        messages := messages + 1;
        localEob := true;
        tx := TxWLA;
        return if ev.sends then Continue else Failure;
      }
      match ev.open
      case Missing =>
        txfp := false;
        h := h.(missing := h.missing + {bll[i].id.local});
        bll := bll[i := bll[i].(state := Got)];
        return Ok;
      case Refused =>
        txfp := false;
        h := h.(unread := h.unread + {bll[i].id.local});
        bll := bll[i := bll[i].(state := Skipped)];
        return Ok;
      case Opens => r := SendName(ev, i);
    }

    /** TxGNF. */
    method GetNextFile(ev: Event) returns (r: Result)
      modifies this`messages, this`localEob, this`tx, this`bll, this`cursend, this`listed, this`txfp, this`h, this`ft
      ensures (State(), r) == BinkpFinish.GetNextFile(old(State()), ev)
    {
      hide BinkpFinish.MakeList, BinkpFinish.NextFile, BinkpFinish.Announce;
      if !listed {
        MakeList(ev);
        if ev.offer == [] && !ev.extra && ev.respond != [] { return Ok; }
        r := Announce(ev);
        if r == Failure { return; }
      }
      r := NextFile(ev);
    }

    /** TxReadS. */
    method ReadSend(ev: Event) returns (r: Result)
      requires 0 <= cursend < |bll|
      modifies this`tx, this`bll, this`cursend, this`txfp, this`h
      ensures (State(), r) == BinkpFinish.ReadSend(old(State()), ev)
    {
      tx := TxTryR;
      match ev.block
      case Middle => return Ok;
      case SendError => return Failure;
      case ReadError =>
        tx := TxDone;
        h := h.(unread := h.unread + {bll[cursend].id.local});
        bll := bll[cursend := bll[cursend].(state := Skipped)];
        return Failure;
      case Last =>
        bll := bll[cursend := bll[cursend].(state := IsSent)];
        txfp := false;
        cursend := -1;
        tx := TxGNF;
        return Ok;
    }

    /** TxWLA with all files done and no message waiting. */
    method EndBatch()
      requires queue == [] && AllDone(bll)
      modifies this`batchnr, this`localEob, this`remoteEob, this`messages, this`tx, this`rx, this`listed, this`bll, this`h
      ensures State() == BinkpFinish.WaitLast(old(State())).0
    {
      hide Clear, BinkpFinish.NewBatch;
      match version
      case Unsupported =>
      case V10 =>
        if rx == RxEOB || rx == RxDone {
          tx := TxDone;
          if localEob && remoteEob { rx := RxDone; }
          ClearFileList();
        }
      case V11 =>
        if localEob && remoteEob {
          if messages >= 3 {
            NewBatch();
            return;
          }
          rx := RxDone;
          tx := TxDone;
        }
        ClearFileList();
    }

    /** TxWLA. */
    method WaitLast() returns (r: Result)
      modifies this
      ensures (State(), r) == BinkpFinish.WaitLast(old(State()))
    {
      hide BinkpFinish.ProcessMessages, Clear, BinkpFinish.NewBatch;
      var pending := PendingFiles();
      if queue == [] && pending == 0 {
        EndBatch();
        return Ok;
      }
      if queue != [] {
        ProcessMessages();
        return Continue;
      }
      return Ok;
    }

    /** binkp_transmitter. */
    method Transmitter(ev: Event) returns (r: Result)
      requires tx == TxReadS ==> 0 <= cursend < |bll|
      modifies this
      ensures (State(), r) == BinkpFinish.Transmitter(old(State()), ev)
    {
      hide BinkpFinish.ProcessMessages, BinkpFinish.WaitLast, BinkpFinish.ReadSend, BinkpFinish.GetNextFile;
      match tx
      case TxGNF => r := GetNextFile(ev);
      case TxTryR =>
        if queue == [] {
          tx := TxReadS;
        } else {
          ProcessMessages();
        }
        r := Continue;
      case TxReadS => r := ReadSend(ev);
      case TxWLA => r := WaitLast();
      case TxDone => r := Ok;
    }

    /** binkp_add_message. */
    method AddMessage(m: Message)
      modifies this`queue, this`h
      ensures State() == BinkpFinish.AddMessage(old(State()), m)
    {
      queue := queue + [m];
      h := h.(heard := h.heard + {m});
    }

    /** M_EOB in RxWaitF. */
    method OnEob()
      modifies this`batchnr, this`localEob, this`remoteEob, this`messages, this`tx, this`rx, this`listed, this`bll, this`h
      ensures State() == BinkpFinish.OnEob(old(State()))
    {
      hide BinkpFinish.NewBatch;
      if version != V11 {
        rx := RxEOB;
      } else if localEob && remoteEob {
        var pending := PendingFiles();
        if messages >= 3 && pending == 0 { NewBatch(); }
      }
    }

    /** parse_m_nul. */
    method OnNul(v: Version, bare: bool)
      modifies this`version, this`ft
      ensures State() == BinkpFinish.OnNul(old(State()), v, bare)
    {
      version := v;
      if bare { ft := Crashed; }
    }

    /** RxWaitF. */
    method WaitFrame() returns (r: Result)
      modifies this
      ensures (State(), r) == BinkpFinish.WaitFrame(old(State()))
    {
      hide BinkpFinish.OnEob, BinkpFinish.AddMessage;
      match frame
      case FData | FUnknown => r := Ok;
      case FErr | FOther =>
        rx := RxDone;
        r := Failure;
      case FMessage(m) =>
        AddMessage(m);
        r := Ok;
      case FNul(v, bare) =>
        OnNul(v, bare);
        r := Ok;
      case FEob =>
        OnEob();
        r := Ok;
      case FFile(_) =>
        rx := RxAccF;
        r := Continue;
    }

    /** RxReceD and RxEOB. */
    method OtherFrame() returns (r: Result)
      modifies this
      ensures (State(), r) == BinkpFinish.OtherFrame(old(State()))
    {
      hide BinkpFinish.AddMessage;
      match frame
      case FUnknown => r := Ok;
      case FMessage(m) =>
        AddMessage(m);
        r := Ok;
      case FNul(v, bare) =>
        OnNul(v, bare);
        r := Ok;
      case FFile(_) =>
        if rx == RxReceD { rxfp := false; }
        r := if rx == RxReceD then Continue else Failure;
        rx := if rx == RxReceD then RxAccF else RxDone;
      case FData =>
        r := if rx == RxReceD then Continue else Failure;
        rx := if rx == RxReceD then RxWriteD else RxDone;
      case FErr | FOther | FEob =>
        rx := RxDone;
        r := Failure;
    }

    /** A command that leads back to RxWaitF. */
    method Answer(ev: Event) returns (r: Result)
      modifies this`rx, this`messages
      ensures (State(), r) == BinkpFinish.Answer(old(State()), ev)
    {
      messages := messages + 1;
      rx := RxWaitF;
      r := if ev.sends then Ok else Failure;
    }

    /** bopenfile. */
    method BOpenFile(ev: Event)
      modifies this`rxfp, this`rxbytes
      ensures State() == BinkpFinish.BOpenFile(old(State()), ev.reopen)
    {
      rxfp := ev.reopen.Reopened?;
      if !ev.reopen.Nameless? { rxbytes := ev.reopen.length; }
    }

    method Busy() returns (r: Result)
      modifies this`rx, this`tx, this`messages, this`rc
      ensures State() == old(State()).(rx := RxDone, tx := TxDone, messages := old(messages) + 1, rc := FTRANSFER) && r == Failure
    {
      messages := messages + 1;
      rx := RxDone;
      tx := TxDone;
      rc := FTRANSFER;
      r := Failure;
    }

    /** The second half of RxAccF. */
    method Settle(ev: Event, size: int, offset: int) returns (r: Result)
      modifies this`rx, this`tx, this`messages, this`rc, this`rxfp
      ensures (State(), r) == BinkpFinish.Settle(old(State()), ev, size, offset)
    {
      if !ev.space {
        r := Busy();
        return;
      }
      hide BinkpFinish.Answer;
      if !ev.blocks { rxfp := false; }
      if size == rxbytes {
        rxfp := false;
        r := Answer(ev);
      } else if (rxbytes < size && offset == 0 && rxbytes != 0) || !rxfp {
        r := Answer(ev);
      } else {
        rx := RxReceD;
        r := Ok;
      }
    }

    /** RxAccF. */
    method AcceptFile(ev: Event) returns (r: Result)
      modifies this`rx, this`tx, this`messages, this`rc, this`rxfp, this`rxbytes, this`ft
      ensures (State(), r) == BinkpFinish.AcceptFile(old(State()), ev)
    {
      hide BinkpFinish.Settle, BinkpFinish.Answer, BinkpFinish.BOpenFile;
      match frame
      case FFile(TooFew) =>
        ft := Crashed;
        r := Ok;
      case FFile(Overlong) => r := Answer(ev);
      case FFile(File(size, offset)) =>
        if offset == -1 {
          r := Answer(ev);
        } else if offset == 0 || offset != rxbytes {
          BOpenFile(ev);
          r := Settle(ev, size, offset);
        } else if rxfp {
          r := Settle(ev, size, offset);
        } else {
          ft := Crashed;
          r := Ok;
        }
      case _ =>
        rx := RxDone;
        r := Failure;
    }

    /** RxWriteD. */
    method WriteData(ev: Event) returns (r: Result)
      modifies this`rx, this`messages
      ensures (State(), r) == BinkpFinish.WriteData(old(State()), ev)
    {
      if !rxfp {
        rx := RxReceD;
        return Ok;
      }
      match ev.write
      case More =>
        rx := RxReceD;
        r := Ok;
      case Whole => r := Answer(ev);
      case WriteError =>
        rx := RxDone;
        r := Failure;
    }

    /** binkp_receiver. */
    method Receiver(ev: Event) returns (r: Result)
      modifies this
      ensures (State(), r) == BinkpFinish.Receiver(old(State()), ev)
    {
      hide BinkpFinish.WaitFrame, BinkpFinish.AcceptFile, BinkpFinish.WriteData, BinkpFinish.OtherFrame;
      match rx
      case RxWaitF => r := WaitFrame();
      case RxAccF => r := AcceptFile(ev);
      case RxWriteD => r := WriteData(ev);
      case RxReceD | RxEOB => r := OtherFrame();
      case RxDone => r := Ok;
    }

    /** binkp_poll_frame, as far as file_transfer sees it. */
    method PollFrame(f: Frame)
      modifies this`frame, this`messages, this`remoteEob
      ensures State() == BinkpFinish.PollFrame(old(State()), f)
    {
      frame := f;
      if frame != FData {
        messages := messages + 1;
        if frame == FEob { remoteEob := true; }
      }
    }

    method SwitchTurn(ev: Event)
      modifies this`ft, this`rc, this`frame, this`messages, this`remoteEob
      ensures State() == BinkpFinish.SwitchTurn(old(State()), ev)
    {
      if rx == RxDone && tx == TxDone {
        ft := DeinitTransfer;
        return;
      }
      match ev.poll
      case PollError =>
        rc := FTRANSFER;
        ft := DeinitTransfer;
      case GotFrame(f) =>
        PollFrame(f);
        ft := Receive;
      case NoFrame =>
        if ev.room {
          ft := Transmit;
        } else if ev.expired {
          rc := 1;
          ft := DeinitTransfer;
        }
    }

    method After(r: Result, next: FtState)
      modifies this`ft, this`rc
      ensures State() == BinkpFinish.After(old(State()), r, next)
    {
      if ft == Crashed { return; }
      match r
      case Ok => ft := next;
      case Failure =>
        rc := 1;
        ft := DeinitTransfer;
      case Continue =>
    }

    /** One turn of the loop of file_transfer. */
    method Turn(ev: Event)
      modifies this
      ensures State() == BinkpFinish.Turn(old(State()), ev)
    {
      hide BinkpFinish.SwitchTurn, BinkpFinish.Receiver, BinkpFinish.Transmitter, BinkpFinish.After, Clear;
      match ft
      case Switch => SwitchTurn(ev);
      case Receive =>
        var r := Receiver(ev);
        After(r, if localEob && remoteEob then Transmit else Switch);
      case Transmit =>
        if tx == TxReadS && !(txfp && 0 <= cursend < |bll|) {
          ft := Crashed;
        } else {
          var r := Transmitter(ev);
          After(r, Switch);
        }
      case DeinitTransfer =>
        ClearFileList();
        ft := Returned;
      case Returned | Crashed =>
    }

    /** file_transfer, as long as there is anything to do.  A result of 0 means that every file of every list was dealt with,
        on the peer's word or because it was not to be had. */
    method FileTransfer(evs: seq<Event>) returns (result: int)
      requires State() == Start(version)
      modifies this
      ensures State() == Run(old(State()), evs) && (result == 0 <==> ft == Returned && rc == 0)
      ensures result == 0 ==> forall l :: l in h.cleared ==> forall e :: e in l ==> Done(e) && Accounted(h, e)
      ensures forall d :: d in h.disposed ==> Released(h, d) && Offered(h, d)
    {
      hide BinkpFinish.Turn, Start, Accounted, Released, Offered, Done, Ids;
      var i := 0;
      assert evs[0..] == evs;
      while i < |evs|
        invariant 0 <= i <= |evs| && Run(State(), evs[i..]) == Run(old(State()), evs)
      {
        assert evs[i..][1..] == evs[i + 1..];
        Turn(evs[i]);
        i := i + 1;
      }
      CleanFinish(old(version), evs);
      DisposedConfirmed(old(version), evs);
      result := if ft == Returned && rc == 0 then 0 else FTRANSFER;
    }
  }
}

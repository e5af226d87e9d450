/** One file of a BinkP session as the code does it: the transmitter's and the receiver's fields of the session record, and
    the partial file of bopenfile.c. */
module BinkpTransfer {
  import opened BinkpResume
  import opened BinkpSafety
  import opened Common

  class FileSender {
    const c: Config
    var alive: bool
    var tx: TxState
    var state: FileState
    var offset: nat
    var cursend: bool
    var txpos: nat
    var queue: seq<Reply>
    var disposed: bool
    /** Everything sent in this session. */
    var sent: seq<Frame>

    ghost function State(): Sender
      reads this
    {
      Sender(alive, tx, state, offset, cursend, txpos, queue, disposed)
    }

    /** A session begins; what was disposed of before is not on its list any more. */
    constructor (c: Config, disposed: bool)
      ensures this.c == c && sent == [] && State() == FreshSender(START.s.(disposed := disposed))
    {
      this.c, this.disposed := c, disposed;
      alive, tx, state := true, TxGNF, if disposed then Got else NoState;
      offset, cursend, txpos, queue, sent := 0, false, 0, [], [];
    }

    /** TxGNF. */
    method GetNextFile(opens: bool)
      modifies this
      ensures var (t, out) := NextFile(old(State()), opens); State() == t && sent == old(sent) + out
    {
      assert sent + [] == sent;
      if state != NoState {
        tx := TxWLA;
        sent := sent + [MEob];
        return;
      }
      if !opens {
        state := Skipped;
        return;
      }
      txpos := offset;
      sent := sent + [MFile(offset)];
      state := Sending;
      cursend := true;
      tx := TxTryR;
    }

    /** TxReadS: a block from txpos on. */
    method ReadBlock(blksize: nat)
      modifies this
      ensures var (t, out) := ReadSend(c, old(State()), blksize); State() == t && sent == old(sent) + out
    {
      assert sent + [] == sent;
      var data := Slice(c.file, txpos, blksize);
      if data != [] {
        txpos := txpos + |data|;
        sent := sent + [MData(data)];
      }
      if data == [] || |data| < blksize {
        state := IsSent;
        cursend := false;
        tx := TxGNF;
      }
    }

    /** fclose and back to TxGNF, if the file is being sent. */
    method Refused()
      modifies this`tx, this`cursend
      ensures State() == if old(state) == Sending then old(State()).(tx := TxGNF, cursend := false) else old(State())
    {
      if state == Sending {
        tx := TxGNF;
        cursend := false;
      }
    }

    method GetRequest(off: nat)
      modifies this
      ensures State() == OnMessage(c, old(State()), MGet(off)) && sent == old(sent)
    {
      if off == |c.file| {
        if cursend {
          state := Got;
          cursend := false;
          tx := TxCrashed;
        } else if state == IsSent {
          state := Got;
          disposed := true;
        }
      } else if off < |c.file| {
        state := NoState;
        offset := off;
        tx := TxGNF;
      }
    }

    method Message(m: Reply)
      modifies this
      ensures State() == OnMessage(c, old(State()), m) && sent == old(sent)
    {
      match m
      case MGet(off) => GetRequest(off);
      case MGot =>
        Refused();
        state := Got;
        disposed := true;
      case MSkip =>
        Refused();
        state := Skipped;
    }

    /** binkp_process_messages. */
    method Process()
      modifies this
      ensures State() == ProcessMessages(c, old(State()).(queue := []), old(queue)) && sent == old(sent)
    {
      hide OnMessage;
      var ms := queue;
      queue := [];
      var i := 0;
      assert ms[0..] == ms;
      while i < |ms|
        invariant 0 <= i <= |ms| && sent == old(sent)
        invariant ProcessMessages(c, State(), ms[i..]) == ProcessMessages(c, old(State()).(queue := []), ms)
      {
        assert ms[i..][1..] == ms[i + 1..];
        Message(ms[i]);
        i := i + 1;
      }
    }
  }

  class FileReceiver {
    const c: Config
    var alive: bool
    var rx: RxState
    /** bp.rxfp, bp.rxbytes and bp.rxpos. */
    var rxfp: bool
    var rxbytes: nat
    var rxpos: nat
    /** tmp/ and the inbound; how much of tmp/ is sure to be on disk. */
    var tmp: Option<seq<Data>>
    var safe: nat
    var inbound: Option<seq<Data>>
    var said: Option<Reply>
    /** Every reply of this session. */
    var sent: seq<Reply>

    ghost function State(): Receiver
      reads this
    {
      Receiver(alive, rx, rxfp, rxbytes, rxpos, tmp, safe, inbound, said)
    }

    /** A session begins with what the disk holds. */
    constructor (c: Config, tmp: Option<seq<Data>>, inbound: Option<seq<Data>>)
      ensures this.c == c && sent == []
      ensures forall r: Receiver :: r.tmp == tmp && r.inbound == inbound ==> State() == FreshReceiver(r)
    {
      this.c, this.tmp, this.inbound := c, tmp, inbound;
      alive, rx, rxfp, rxbytes, rxpos := true, RxWaitF, false, 0, 0;
      safe := if tmp.Some? then |tmp.value| else 0;
      said, sent := None, [];
    }

    method Reply(m: Reply)
      modifies this`said, this`sent
      ensures State() == old(State()).(said := Some(m)) && sent == old(sent) + [m]
    {
      said := Some(m);
      sent := sent + [m];
    }

    /** bopenfile. */
    method BOpenFile(opens: bool)
      modifies this`tmp, this`rxfp, this`rxbytes, this`safe
      ensures State() == Open(old(State()), opens)
    {
      rxbytes := if tmp.Some? then |tmp.value| else 0;
      if opens {
        if tmp == None { tmp := Some([]); }
        safe := rxbytes;
      }
      rxfp := opens;
    }

    /** bclosefile: all that was written is on disk, and a complete file is moved. */
    method BCloseFile(success: bool, moves: bool)
      modifies this`rx, this`rxfp, this`tmp, this`safe, this`inbound
      ensures success ==> State() == Close(old(State()), moves)
      ensures !success ==> State() == old(State()).(rxfp := false, safe := |Content(old(State()))|)
    {
      rxfp := false;
      safe := if tmp.Some? then |tmp.value| else 0;
      if success {
        rx := RxWaitF;
        if moves {
          inbound := Some(if tmp.Some? then tmp.value else []);
          tmp := None;
          safe := 0;
        }
      }
    }

    /** The answer to M_FILE once the file has been opened. */
    method Judge(off: nat)
      requires rx == RxWaitF
      modifies this`rx, this`rxfp, this`said, this`sent
      ensures sent == old(sent) + Verdict(c, old(State()), off).1 && State() == Verdict(c, old(State()), off).0
    {
      assert sent + [] == sent;
      if |c.file| == rxbytes {
        Reply(MGot);
        rxfp := false;
      } else if rxbytes < |c.file| && off == 0 && rxbytes != 0 {
        Reply(MGet(rxbytes));
      } else if !rxfp {
        Reply(MSkip);
      } else {
        rx := RxReceD;
      }
    }

    /** RxAccF. */
    method Accept(off: nat, opens: bool)
      modifies this
      ensures var (t, out) := AcceptFile(c, old(State()), off, opens); State() == t && sent == old(sent) + out
    {
      hide Open, Verdict;
      assert sent + [] == sent;
      VerdictIs(c, State(), off, opens);
      if off != 0 && off == rxbytes {
        if !rxfp {
          rx := RxDone;
          return;
        }
      } else {
        BOpenFile(opens);
      }
      rxpos := off;
      rx := RxWaitF;
      Judge(off);
    }

    /** RxWriteD. */
    method Write(data: seq<Data>, moves: bool)
      modifies this
      ensures var (t, out) := WriteData(c, old(State()), data, moves); State() == t && sent == old(sent) + out
    {
      assert sent + [] == sent;
      if !rxfp { return; }
      tmp := Some((if tmp.Some? then tmp.value else []) + data);
      rxpos := rxpos + |data|;
      if rxpos == |c.file| {
        Reply(MGot);
        if c.atomic {
          BCloseFile(true, moves);
        } else {
          rx := RxClosing;
        }
      }
    }

    /** binkp_receiver on one frame. */
    method Take(f: Frame, opens: bool, moves: bool)
      modifies this
      ensures var (t, out) := Receive(c, old(State()), f, opens, moves); State() == t && sent == old(sent) + out
    {
      hide AcceptFile, WriteData, Close;
      assert sent + [] == sent;
      match rx
      case RxWaitF =>
        match f {
          case MFile(off) => Accept(off, opens);
          case MData(_) =>
          case MEob => if c.v10 { rx := RxEOB; }
        }
      case RxReceD =>
        match f {
          case MFile(off) =>
            BCloseFile(false, moves);
            Accept(off, opens);
          case MData(data) => Write(data, moves);
          case MEob => rx := RxDone;
        }
      case RxEOB => rx := RxDone;
      case RxClosing | RxDone =>
    }
  }

  function Verdict(c: Config, r: Receiver, off: nat): (Receiver, seq<Reply>) {
    if |c.file| == r.rxbytes then Say(r.(rxfp := false), MGot)
    else if r.rxbytes < |c.file| && off == 0 && r.rxbytes != 0 then Say(r, MGet(r.rxbytes))
    else if !r.rxfp then Say(r, MSkip)
    else (r.(rx := RxReceD), [])
  }

  lemma VerdictIs(c: Config, r: Receiver, off: nat, opens: bool)
    ensures AcceptFile(c, r, off, opens) ==
      if off != 0 && off == r.rxbytes && !r.rxfp then (r.(rx := RxDone), [])
      else Verdict(c, (if off != 0 && off == r.rxbytes then r else Open(r, opens)).(rxpos := off, rx := RxWaitF), off)
  {
  }
}

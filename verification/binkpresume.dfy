/** One file over any number of BinkP sessions, each cut at any point: binkp_transmitter and binkp_process_messages on
    one side, binkp_receiver with bopenfile and bclosefile on the other. */
module BinkpResume {
  import BinkpFrame
  import opened Common

  type Data = BinkpFrame.Octet

  /** The file, the transmitter's block size, whether the peer speaks binkp/1.0, and whether the receiver's handler
      of the last block always runs to its end once it has sent M_GOT. */
  datatype Config = Config(file: seq<Data>, v10: bool, atomic: bool)

  /** M_FILE with its offset, a data frame, M_EOB; M_GET with its offset, M_GOT, M_SKIP. */
  datatype Frame = MFile(offset: nat) | MData(data: seq<Data>) | MEob
  datatype Reply = MGet(offset: nat) | MGot | MSkip

  // ------------------------------------------------------------------ sender

  datatype FileState = NoState | Sending | IsSent | Got | Skipped

  datatype TxState = TxGNF | TxTryR | TxWLA | TxCrashed

  /** The entry of the list of files with cursend (set or not), txpos, the queue of messages; `disposed` once
      execute_disposition has run. */
  datatype Sender = Sender(alive: bool, tx: TxState, state: FileState, offset: nat, cursend: bool, txpos: nat, queue: seq<Reply>, disposed: bool)

  /** TxGNF: the file if it is still to be sent and can be opened, else M_EOB. */
  function NextFile(s: Sender, opens: bool): (Sender, seq<Frame>) {
    if s.state != NoState then (s.(tx := TxWLA), [MEob])
    else if !opens then (s.(state := Skipped), [])
    else (s.(tx := TxTryR, state := Sending, cursend := true, txpos := s.offset), [MFile(s.offset)])
  }

  /** TxReadS with no message waiting: the next block, and IsSent after the last. */
  function ReadSend(c: Config, s: Sender, blksize: nat): (Sender, seq<Frame>) {
    var data := Slice(c.file, s.txpos, blksize);
    var t := s.(txpos := s.txpos + |data|);
    (if |data| < blksize || data == [] then t.(tx := TxGNF, state := IsSent, cursend := false) else t,
     if data == [] then [] else [MData(data)])
  }

  /** One message of binkp_process_messages.  The branch for an offset at the end of the current file uses cursend
      after clearing it. */
  function OnMessage(c: Config, s: Sender, m: Reply): Sender {
    match m
    case MGet(off) =>
      if off == |c.file| then
        if s.cursend then s.(tx := TxCrashed, state := Got, cursend := false)
        else if s.state == IsSent then s.(state := Got, disposed := true)
        else s
      else if off < |c.file| then s.(state := NoState, offset := off, tx := TxGNF)
      else s
    case MGot =>
      var t := if s.state == Sending then s.(tx := TxGNF, cursend := false) else s;
      t.(state := Got, disposed := true)
    case MSkip =>
      var t := if s.state == Sending then s.(tx := TxGNF, cursend := false) else s;
      t.(state := Skipped)
  }

  function ProcessMessages(c: Config, s: Sender, ms: seq<Reply>): Sender
    decreases |ms|
  {
    if ms == [] then s else ProcessMessages(c, OnMessage(c, s, ms[0]), ms[1..])
  }

  // ------------------------------------------------------------------ receiver

  datatype RxState = RxWaitF | RxReceD | RxClosing | RxEOB | RxDone

  /** `rxfp` whether the file is open, bp.rxbytes, bp.rxpos; the partial file in tmp/ of which the first `safe` bytes are
      on disk, and the complete one; the last reply sent in this session, which is history only. */
  datatype Receiver = Receiver(alive: bool, rx: RxState, rxfp: bool, rxbytes: nat, rxpos: nat,
                               tmp: Option<seq<Data>>, safe: nat, inbound: Option<seq<Data>>, said: Option<Reply>)

  function Content(r: Receiver): seq<Data> {
    if r.tmp.Some? then r.tmp.value else []
  }

  function Say(r: Receiver, m: Reply): (Receiver, seq<Reply>) {
    (r.(said := Some(m)), [m])
  }

  /** bopenfile: the partial file is opened for appending and its size is the offset to resume at. */
  function Open(r: Receiver, opens: bool): Receiver {
    var n := |Content(r)|;
    if opens then r.(tmp := Some(Content(r)), rxfp := true, rxbytes := n, safe := n)
    else r.(rxfp := false, rxbytes := n)
  }

  /** RxAccF.  With the file closed and an offset of rxbytes the code seeks in a null file. */
  function AcceptFile(c: Config, r0: Receiver, offset: nat, opens: bool): (Receiver, seq<Reply>) {
    if offset != 0 && offset == r0.rxbytes && !r0.rxfp then (r0.(rx := RxDone), [])
    else
      var r := (if offset != 0 && offset == r0.rxbytes then r0 else Open(r0, opens)).(rxpos := offset, rx := RxWaitF);
      if |c.file| == r.rxbytes then Say(r.(rxfp := false), MGot)
      else if r.rxbytes < |c.file| && offset == 0 && r.rxbytes != 0 then Say(r, MGet(r.rxbytes))
      else if !r.rxfp then Say(r, MSkip)
      else (r.(rx := RxReceD), [])
  }

  /** bclosefile(TRUE): the complete file is moved, if that works. */
  function Close(r: Receiver, moves: bool): Receiver {
    var t := r.(rx := RxWaitF, rxfp := false, safe := |Content(r)|);
    if moves then t.(inbound := Some(Content(r)), tmp := None, safe := 0) else t
  }

  /** RxWriteD. */
  function WriteData(c: Config, r: Receiver, data: seq<Data>, moves: bool): (Receiver, seq<Reply>) {
    if !r.rxfp then (r, [])
    else
      var t := r.(tmp := Some(Content(r) + data), rxpos := r.rxpos + |data|);
      if t.rxpos != |c.file| then (t, [])
      else if c.atomic then Say(Close(t, moves), MGot)
      else Say(t.(rx := RxClosing), MGot)
  }

  function Receive(c: Config, r: Receiver, f: Frame, opens: bool, moves: bool): (Receiver, seq<Reply>) {
    match r.rx
    case RxWaitF =>
      (match f
       case MFile(off) => AcceptFile(c, r, off, opens)
       case MData(_) => (r, [])
       case MEob => (if c.v10 then r.(rx := RxEOB) else r, []))
    case RxReceD =>
      (match f
       case MFile(off) => AcceptFile(c, r.(rxfp := false, safe := |Content(r)|), off, opens)
       case MData(data) => WriteData(c, r, data, moves)
       case MEob => (r.(rx := RxDone), []))
    case RxEOB => (r.(rx := RxDone), [])
    case RxClosing | RxDone => (r, [])
  }

  // ------------------------------------------------------------------ both

  datatype System = System(s: Sender, r: Receiver, fwd: seq<Frame>, back: seq<Reply>)

  /** The sender's and the receiver's steps, the end of either (the receiver's with what was not yet on disk gone
      from byte k on), and a new session once both have ended. */
  datatype Move =
    | SNext(opens: bool) | SReads(blksize: nat) | SProcesses | STakes
    | RTakes(opens: bool, moves: bool) | RCloses(moves: bool)
    | SEnds | REnds(k: nat) | NewSession

  function FreshSender(s: Sender): Sender {
    Sender(true, TxGNF, if s.disposed then Got else NoState, 0, false, 0, [], s.disposed)
  }

  function FreshReceiver(r: Receiver): Receiver {
    Receiver(true, RxWaitF, false, 0, 0, r.tmp, |Content(r)|, r.inbound, None)
  }

  function Apply(c: Config, y: System, m: Move): System {
    match m
    case SNext(opens) =>
      if y.s.alive && y.s.tx == TxGNF then
        var (s, out) := NextFile(y.s, opens);
        y.(s := s, fwd := y.fwd + out)
      else y
    case SReads(blksize) =>
      if y.s.alive && y.s.tx == TxTryR && y.s.queue == [] && blksize > 0 then
        var (s, out) := ReadSend(c, y.s, blksize);
        y.(s := s, fwd := y.fwd + out)
      else y
    case SProcesses =>
      if y.s.alive && (y.s.tx == TxTryR || y.s.tx == TxWLA) then y.(s := ProcessMessages(c, y.s.(queue := []), y.s.queue)) else y
    case STakes =>
      if y.s.alive && y.back != [] then y.(s := y.s.(queue := y.s.queue + [y.back[0]]), back := y.back[1..]) else y
    case RTakes(opens, moves) =>
      if y.r.alive && y.fwd != [] && y.r.rx != RxClosing then
        var (r, out) := Receive(c, y.r, y.fwd[0], opens, moves);
        y.(r := r, fwd := y.fwd[1..], back := y.back + out)
      else y
    case RCloses(moves) =>
      if y.r.alive && y.r.rx == RxClosing then y.(r := Close(y.r, moves)) else y
    case SEnds => y.(s := y.s.(alive := false))
    case REnds(k) =>
      if y.r.alive then
        y.(r := y.r.(alive := false, tmp := if y.r.tmp.Some? && y.r.safe <= k < |y.r.tmp.value| then Some(y.r.tmp.value[..k]) else y.r.tmp))
      else y
    case NewSession =>
      if !y.s.alive && !y.r.alive then System(FreshSender(y.s), FreshReceiver(y.r), [], []) else y
  }

  function Run(c: Config, y: System, ms: seq<Move>): System
    decreases |ms|
  {
    if ms == [] then y else Run(c, Apply(c, y, ms[0]), ms[1..])
  }

  /** Nothing sent, nothing received. */
  const START := System(Sender(true, TxGNF, NoState, 0, false, 0, [], false), Receiver(true, RxWaitF, false, 0, 0, None, 0, None, None), [], [])

  /** The receiver has every byte of the file. */
  predicate Holds(c: Config, r: Receiver) {
    r.inbound == Some(c.file) || Content(r) == c.file
  }
}

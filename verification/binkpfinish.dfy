/** file_transfer of binkp.c with binkp_receiver, binkp_transmitter and the lists they work on, one turn of its loop a step. */
module BinkpFinish {
  const FTRANSFER := 108

  datatype FileState = NoState | Sending | IsSent | Got | Skipped

  /** A file on the list of create_filelist; `missing` if fill_binkp_list cannot find it. */
  datatype Listed = Listed(id: Id, missing: bool)

  datatype Id = Id(local: string, remote: string, size: int, date: int)

  /** An entry of the list of files to send. */
  datatype Entry = Entry(id: Id, state: FileState, offset: int)

  /** MShort: any of the three with arguments missing. */
  datatype Message =
    | MGet(name: string, size: int, date: int, offset: int)
    | MGot(name: string, size: int, date: int)
    | MSkip(name: string, size: int, date: int)
    | MShort

  datatype RxState = RxWaitF | RxAccF | RxReceD | RxWriteD | RxEOB | RxDone
  datatype TxState = TxGNF | TxTryR | TxReadS | TxWLA | TxDone
  datatype Result = Ok | Failure | Continue

  /** Also: file_transfer has returned, or the process has died on a null pointer. */
  datatype FtState = Switch | Receive | Transmit | DeinitTransfer | Returned | Crashed

  /** `bare`: an M_NUL that says VER and ends behind "Internet Rex 2.". */
  datatype Frame = FErr | FMessage(m: Message) | FNul(version: Version, bare: bool) | FEob | FFile(line: FileLine) | FOther | FUnknown | FData

  /** M_FILE with arguments missing, with a line of 512 or more, or else. */
  datatype FileLine = TooFew | Overlong | File(size: int, offset: int)

  /** The peer's binkp/1.0, binkp/1.1 or something else, which an M_NUL may still change. */
  datatype Version = V10 | V11 | Unsupported

  datatype Poll = NoFrame | PollError | GotFrame(f: Frame)

  /** bopenfile: null before it looks for the file, null after, or the file; and the length it found.  RxWriteD: not all of
      the file yet, all of it, or an error. */
  datatype Reopen = Nameless | Unopened(length: nat) | Reopened(length: nat)
  datatype Write = More | Whole | WriteError

  /** fopen and the lock in TxGNF; a block in TxReadS. */
  datatype Open = Opens | Missing | Refused
  datatype Block = Middle | Last | ReadError | SendError

  /** Everything a turn of the loop takes from outside. `space` and `blocks` are what the disk has left for a file; `offer` is
      the list of files when one is made, `extra` whether create_filelist adds entries that are not sent themselves, `respond`
      what respond_wazoo adds, `hold` whether there is mail to announce. */
  datatype Event = Event(poll: Poll, room: bool, expired: bool, sends: bool, reopen: Reopen, space: bool, blocks: bool, write: Write,
                         open: Open, block: Block, offer: seq<Listed>, extra: bool, respond: seq<Listed>, hold: bool)

  /** What has happened: the lists made; the lists cleared, as they were then; the messages received; local files that were
      missing, that could not be read; the files on which execute_disposition was called. */
  datatype History = History(made: seq<seq<Id>>, cleared: seq<seq<Entry>>, heard: set<Message>, missing: set<string>, unread: set<string>, disposed: set<Id>)

  /** Whether bp.txfp and bp.rxfp are not null (bclosefile leaves the second as it is when a file is complete), and bp.rxbytes. */
  datatype Files = Files(tx: bool, rx: bool, rxbytes: int)

  /** The session record; `listed` if tosend is set, `bll` the list made from it, `cursend` an index in it or -1, `queue` the
      messages not yet processed, `frame` the last one polled. */
  datatype Node = Node(ft: FtState, rx: RxState, tx: TxState, version: Version, localEob: bool, remoteEob: bool, messages: nat, batchnr: nat, rc: nat,
                       listed: bool, bll: seq<Entry>, cursend: int, queue: seq<Message>, frame: Frame, fp: Files, h: History)

  function Start(version: Version): Node {
    Node(Switch, RxWaitF, TxGNF, version, false, false, 0, 0, 0, false, [], -1, [], FData, Files(false, false, 0), History([], [], {}, {}, {}, {}))
  }

  // ------------------------------------------------------------------ lists

  predicate Done(e: Entry) {
    e.state == Got || e.state == Skipped
  }

  predicate AllDone(list: seq<Entry>) {
    forall e :: e in list ==> Done(e)
  }

  function Ids(list: seq<Entry>): (r: seq<Id>)
    ensures |r| == |list|
  {
    seq(|list|, i requires 0 <= i < |list| => list[i].id)
  }

  predicate Means(m: Message, d: Id) {
    !m.MShort? && d.remote == m.name && d.size == m.size && d.date == m.date
  }

  /** The first entry from k on that a message is about, or -1. */
  function Index(list: seq<Entry>, m: Message, k: nat): (i: int)
    ensures -1 <= i < |list| && (i >= 0 ==> i >= k && Means(m, list[i].id) && forall j :: k <= j < i ==> !Means(m, list[j].id))
    ensures i < 0 ==> forall j :: k <= j < |list| ==> !Means(m, list[j].id)
    decreases if k < |list| then |list| - k else 0
  {
    if k >= |list| then -1 else if Means(m, list[k].id) then k else Index(list, m, k + 1)
  }

  /** The first entry from k on that is still to be sent, or the length. */
  function NextOpen(list: seq<Entry>, k: nat): (i: nat)
    requires k <= |list|
    ensures k <= i <= |list| && (i < |list| ==> list[i].state == NoState) && forall j :: k <= j < i ==> list[j].state != NoState
    decreases |list| - k
  {
    if k == |list| || list[k].state == NoState then k else NextOpen(list, k + 1)
  }

  function Pending(list: seq<Entry>): (count: nat)
    ensures count == 0 <==> AllDone(list)
    decreases |list|
  {
    if list == [] then 0 else
    assert list == list[..|list| - 1] + [list[|list| - 1]];
    Pending(list[..|list| - 1]) + if Done(list[|list| - 1]) then 0 else 1
  }

  function Fill(offer: seq<Listed>): (r: seq<Entry>)
    ensures |r| == |offer|
  {
    seq(|offer|, i requires 0 <= i < |offer| => Entry(offer[i].id, if offer[i].missing then Got else NoState, 0))
  }

  function Lost(offer: seq<Listed>): set<Id> {
    set f | f in offer && f.missing :: f.id
  }

  function Locals(ids: set<Id>): set<string> {
    set d | d in ids :: d.local
  }

  /** Requested files are added behind the last entry, through a pointer that is null if there is none. */
  predicate NothingToAddTo(ev: Event) {
    ev.offer == [] && !ev.extra && ev.respond != []
  }

  /** create_filelist, respond_wazoo and fill_binkp_list; from the twentieth batch on nothing is offered any more. */
  function MakeList(n: Node, ev: Event): Node {
    var offer := if n.batchnr < 20 then ev.offer + ev.respond else [];
    var listed := ev.offer != [] || ev.extra;
    if NothingToAddTo(ev) then n.(ft := Crashed) else
    var h := n.h.(made := if listed then n.h.made + [Ids(Fill(offer))] else n.h.made,
                  missing := n.h.missing + Locals(Lost(offer)), disposed := n.h.disposed + Lost(offer));
    n.(cursend := -1, listed := listed, bll := Fill(offer), h := h)
  }

  /** binkp_clear_filelist. */
  function Clear(n: Node): Node {
    if n.listed then n.(listed := false, bll := [], h := n.h.(cleared := n.h.cleared + [n.bll])) else n
  }

  function NewBatch(n: Node): Node {
    Clear(n.(batchnr := n.batchnr + 1, localEob := false, remoteEob := false, messages := 0, tx := TxGNF, rx := RxWaitF))
  }

  // ------------------------------------------------------------------ messages

  function SameLocal(list: seq<Entry>, local: string): set<Id> {
    set e | e in list && e.id.local == local :: e.id
  }

  /** Entry i becomes Got, and execute_disposition is called on every file on the list with its local name. */
  function Dispose(n: Node, i: nat): Node
    requires i < |n.bll|
  {
    n.(bll := n.bll[i := n.bll[i].(state := Got)], h := n.h.(disposed := n.h.disposed + SameLocal(n.bll, n.bll[i].id.local)))
  }

  /** M_GET: the branch for an offset at the end of the current file uses cursend after clearing it. */
  function OnGet(n: Node, m: Message, i: nat): Node
    requires i < |n.bll| && m.MGet?
  {
    if m.offset == m.size then
      if 0 <= n.cursend < |n.bll| && Means(m, n.bll[n.cursend].id) then n.(ft := Crashed)
      else if n.bll[i].state == IsSent then Dispose(n, i)
      else n
    else if m.offset < m.size then n.(bll := n.bll[i := n.bll[i].(state := NoState, offset := m.offset)], tx := TxGNF)
    else n
  }

  /** M_GOT or M_SKIP for an entry that is Sending closes the file that is open, whichever that is, and there may be none. */
  function Refuses(n: Node, i: nat): Node
    requires i < |n.bll|
  {
    if n.bll[i].state != Sending then n
    else if n.fp.tx then n.(tx := TxGNF, cursend := -1, fp := n.fp.(tx := false))
    else n.(ft := Crashed)
  }

  function OnMessage(n: Node, m: Message): Node {
    var i := Index(n.bll, m, 0);
    if n.ft == Crashed then n
    else if m.MShort? then n.(ft := Crashed)
    else if i < 0 then n
    else if m.MGet? then OnGet(n, m, i)
    else
      var t := Refuses(n, i);
      if t.ft == Crashed then t
      else if m.MGot? then Dispose(t, i)
      else t.(bll := t.bll[i := t.bll[i].(state := Skipped)])
  }

  function ProcessAll(n: Node, ms: seq<Message>): Node
    decreases |ms|
  {
    if ms == [] then n else ProcessAll(OnMessage(n, ms[0]), ms[1..])
  }

  /** binkp_process_messages. */
  function ProcessMessages(n: Node): Node {
    ProcessAll(n, n.queue).(queue := [])
  }

  function AddMessage(n: Node, m: Message): Node {
    n.(queue := n.queue + [m], h := n.h.(heard := n.h.heard + {m}))
  }

  // ------------------------------------------------------------------ binkp_transmitter

  function Announce(n: Node, ev: Event): (Node, Result) {
    if ev.hold || n.batchnr == 0 then
      if ev.sends then (n.(messages := n.messages + 1), Ok) else (n.(messages := n.messages + 1, tx := TxDone), Failure)
    else (n, Ok)
  }

  /** The next file that is still to be sent, or M_EOB. */
  function NextFile(n: Node, ev: Event): (Node, Result) {
    var i := NextOpen(n.bll, 0);
    if i == |n.bll| then (n.(messages := n.messages + 1, localEob := true, tx := TxWLA), if ev.sends then Continue else Failure)
    else
      var e := n.bll[i];
      match ev.open
      case Missing => (n.(fp := n.fp.(tx := false), bll := n.bll[i := e.(state := Got)], h := n.h.(missing := n.h.missing + {e.id.local})), Ok)
      case Refused => (n.(fp := n.fp.(tx := false), bll := n.bll[i := e.(state := Skipped)], h := n.h.(unread := n.h.unread + {e.id.local})), Ok)
      case Opens =>
        if ev.sends then (n.(messages := n.messages + 1, fp := n.fp.(tx := true), bll := n.bll[i := e.(state := Sending)], cursend := i, tx := TxTryR), Continue)
        else (n.(messages := n.messages + 1, fp := n.fp.(tx := true), tx := TxDone), Failure)
  }

  /** TxGNF. */
  function GetNextFile(n: Node, ev: Event): (Node, Result) {
    if n.listed then NextFile(n, ev)
    else if NothingToAddTo(ev) then (MakeList(n, ev), Ok)
    else
      var (t, r) := Announce(MakeList(n, ev), ev);
      if r == Failure then (t, r) else NextFile(t, ev)
  }

  /** TxReadS, when cursend is set. */
  function ReadSend(n: Node, ev: Event): (Node, Result)
    requires 0 <= n.cursend < |n.bll|
  {
    var e := n.bll[n.cursend];
    match ev.block
    case Middle => (n.(tx := TxTryR), Ok)
    case Last => (n.(tx := TxGNF, fp := n.fp.(tx := false), bll := n.bll[n.cursend := e.(state := IsSent)], cursend := -1), Ok)
    case ReadError => (n.(tx := TxDone, bll := n.bll[n.cursend := e.(state := Skipped)], h := n.h.(unread := n.h.unread + {e.id.local})), Failure)
    case SendError => (n.(tx := TxTryR), Failure)
  }

  function Process(n: Node): (Node, Result) {
    (ProcessMessages(n), Continue)
  }

  /** TxWLA: the last acknowledgements, and the end of a batch or of the session. */
  function WaitLast(n: Node): (Node, Result) {
    if n.queue == [] && AllDone(n.bll) then
      match n.version
      case V10 =>
        if n.rx == RxEOB || n.rx == RxDone then (Clear(n.(tx := TxDone, rx := if n.localEob && n.remoteEob then RxDone else n.rx)), Ok)
        else (n, Ok)
      case V11 =>
        if !(n.localEob && n.remoteEob) then (Clear(n), Ok)
        else if n.messages < 3 then (Clear(n.(tx := TxDone, rx := RxDone)), Ok)
        else (NewBatch(n), Ok)
      case Unsupported => (n, Ok)
    else if n.queue != [] then Process(n)
    else (n, Ok)
  }

  function Transmitter(n: Node, ev: Event): (Node, Result)
    requires n.tx == TxReadS ==> 0 <= n.cursend < |n.bll|
  {
    match n.tx
    case TxGNF => GetNextFile(n, ev)
    case TxTryR => if n.queue == [] then (n.(tx := TxReadS), Continue) else Process(n)
    case TxReadS => ReadSend(n, ev)
    case TxWLA => WaitLast(n)
    case TxDone => (n, Ok)
  }

  // ------------------------------------------------------------------ binkp_receiver

  function Stop(n: Node): (Node, Result) {
    (n.(rx := RxDone), Failure)
  }

  function OnEob(n: Node): Node {
    if n.version != V11 then n.(rx := RxEOB)
    else if n.localEob && n.remoteEob && n.messages >= 3 && AllDone(n.bll) then NewBatch(n)
    else n
  }

  /** parse_m_nul: the version, and a number behind "Internet Rex 2." that is taken from a null pointer if there is none. */
  function OnNul(n: Node, version: Version, bare: bool): Node {
    n.(version := version, ft := if bare then Crashed else n.ft)
  }

  /** RxWaitF. */
  function WaitFrame(n: Node): (Node, Result) {
    match n.frame
    case FData | FUnknown => (n, Ok)
    case FErr | FOther => Stop(n)
    case FMessage(m) => (AddMessage(n, m), Ok)
    case FNul(v, bare) => (OnNul(n, v, bare), Ok)
    case FEob => (OnEob(n), Ok)
    case FFile(_) => (n.(rx := RxAccF), Continue)
  }

  /** RxReceD and RxEOB. */
  function OtherFrame(n: Node): (Node, Result) {
    match n.frame
    case FUnknown => (n, Ok)
    case FMessage(m) => (AddMessage(n, m), Ok)
    case FNul(v, bare) => (OnNul(n, v, bare), Ok)
    case FFile(_) => if n.rx == RxReceD then (n.(rx := RxAccF, fp := n.fp.(rx := false)), Continue) else Stop(n)
    case FData => if n.rx == RxReceD then (n.(rx := RxWriteD), Continue) else Stop(n)
    case FErr | FOther | FEob => Stop(n)
  }

  /** A command that leads back to RxWaitF. */
  function Answer(n: Node, ev: Event): (Node, Result) {
    (n.(rx := RxWaitF, messages := n.messages + 1), if ev.sends then Ok else Failure)
  }

  function BOpenFile(n: Node, r: Reopen): Node {
    match r
    case Nameless => n.(fp := n.fp.(rx := false))
    case Unopened(length) => n.(fp := n.fp.(rx := false, rxbytes := length))
    case Reopened(length) => n.(fp := n.fp.(rx := true, rxbytes := length))
  }

  /** The second half of RxAccF: busy, M_GOT, M_GET, M_SKIP, or the file. */
  function Settle(n: Node, ev: Event, size: int, offset: int): (Node, Result) {
    if !ev.space then (n.(rx := RxDone, tx := TxDone, messages := n.messages + 1, rc := FTRANSFER), Failure)
    else
      var t := if ev.blocks then n else n.(fp := n.fp.(rx := false));
      if size == t.fp.rxbytes then Answer(t.(fp := t.fp.(rx := false)), ev)
      else if t.fp.rxbytes < size && offset == 0 && t.fp.rxbytes != 0 then Answer(t, ev)
      else if !t.fp.rx then Answer(t, ev)
      else (t.(rx := RxReceD), Ok)
  }

  /** RxAccF.  Missing arguments are numbers taken from null pointers; with an offset of rxbytes the file is taken to be open. */
  function AcceptFile(n: Node, ev: Event): (Node, Result) {
    match n.frame
    case FFile(TooFew) => (n.(ft := Crashed), Ok)
    case FFile(Overlong) => Answer(n, ev)
    case FFile(File(size, offset)) =>
      if offset == -1 then Answer(n, ev)
      else if offset == 0 || offset != n.fp.rxbytes then Settle(BOpenFile(n, ev.reopen), ev, size, offset)
      else if n.fp.rx then Settle(n, ev, size, offset)
      else (n.(ft := Crashed), Ok)
    case _ => Stop(n)
  }

  function WriteData(n: Node, ev: Event): (Node, Result) {
    if !n.fp.rx then (n.(rx := RxReceD), Ok) else
    match ev.write
    case More => (n.(rx := RxReceD), Ok)
    case Whole => Answer(n, ev)
    case WriteError => Stop(n)
  }

  function Receiver(n: Node, ev: Event): (Node, Result) {
    match n.rx
    case RxWaitF => WaitFrame(n)
    case RxAccF => AcceptFile(n, ev)
    case RxWriteD => WriteData(n, ev)
    case RxReceD | RxEOB => OtherFrame(n)
    case RxDone => (n, Ok)
  }

  // ------------------------------------------------------------------ file_transfer

  /** binkp_poll_frame, as far as file_transfer sees it. */
  function PollFrame(n: Node, f: Frame): Node {
    n.(frame := f, messages := if f == FData then n.messages else n.messages + 1, remoteEob := n.remoteEob || f == FEob)
  }

  function Fail(n: Node, rc: nat): Node {
    n.(rc := rc, ft := DeinitTransfer)
  }

  function SwitchTurn(n: Node, ev: Event): Node {
    if n.rx == RxDone && n.tx == TxDone then n.(ft := DeinitTransfer)
    else
      match ev.poll
      case PollError => Fail(n, FTRANSFER)
      case GotFrame(f) => PollFrame(n, f).(ft := Receive)
      case NoFrame => if ev.room then n.(ft := Transmit) else if ev.expired then Fail(n, 1) else n
  }

  /** What file_transfer does with the result of the receiver or the transmitter. */
  function After(n: Node, r: Result, next: FtState): Node {
    if n.ft == Crashed then n
    else
      match r
      case Ok => n.(ft := next)
      case Failure => Fail(n, 1)
      case Continue => n
  }

  function Turn(n: Node, ev: Event): Node {
    match n.ft
    case Switch => SwitchTurn(n, ev)
    case Receive =>
      var (t, r) := Receiver(n, ev);
      After(t, r, if t.localEob && t.remoteEob then Transmit else Switch)
    case Transmit =>
      if n.tx == TxReadS && !(n.fp.tx && 0 <= n.cursend < |n.bll|) then n.(ft := Crashed)
      else
        var (t, r) := Transmitter(n, ev);
        After(t, r, Switch)
    case DeinitTransfer => Clear(n).(ft := Returned)
    case Returned | Crashed => n
  }

  function Run(n: Node, evs: seq<Event>): Node
    decreases |evs|
  {
    if evs == [] then n else Run(Turn(n, evs[0]), evs[1..])
  }
}

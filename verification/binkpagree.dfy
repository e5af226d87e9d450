/** The model of one file with its bytes over many sessions, and the model of a session with its lists and events: step by step they agree. */
module BinkpAgree {
  import opened Common
  import F = BinkpFinish
  import R = BinkpResume

  // ------------------------------------------------------------------ the sender

  function StateOf(s: R.FileState): F.FileState {
    match s
    case NoState => F.NoState
    case Sending => F.Sending
    case IsSent => F.IsSent
    case Got => F.Got
    case Skipped => F.Skipped
  }

  predicate TxOf(t: R.TxState, u: F.TxState) {
    match t
    case TxGNF => u == F.TxGNF
    case TxTryR => u == F.TxTryR || u == F.TxReadS
    case TxWLA => u == F.TxWLA
    case TxCrashed => false
  }

  /** The list of a session has this file and no other. */
  predicate Same(c: R.Config, s: R.Sender, n: F.Node, d: F.Id) {
    && d.size == |c.file| && n.bll == [F.Entry(d, StateOf(s.state), s.offset)] && n.cursend == (if s.cursend then 0 else -1)
    && TxOf(s.tx, n.tx) && (s.state == R.Sending ==> n.fp.tx) && n.ft != F.Crashed
  }

  function MessageOf(m: R.Reply, d: F.Id): F.Message {
    match m
    case MGet(offset) => F.MGet(d.remote, d.size, d.date, offset)
    case MGot => F.MGot(d.remote, d.size, d.date)
    case MSkip => F.MSkip(d.remote, d.size, d.date)
  }

  /** The messages that dispose of the file: M_GOT, and M_GET for the end of a file that has been sent. */
  predicate Disposes(c: R.Config, s: R.Sender, m: R.Reply) {
    m == R.MGot || (m == R.MGet(|c.file|) && !s.cursend && s.state == R.IsSent)
  }

  /** What a message has to do to both. */
  ghost predicate Agreed(c: R.Config, s: R.Sender, n: F.Node, d: F.Id, disposes: bool, t: R.Sender, u: F.Node) {
    && (t.tx == R.TxCrashed <==> u.ft == F.Crashed)
    && (t.tx != R.TxCrashed ==>
          && Same(c, t, u, d) && t.txpos == s.txpos && t.queue == s.queue && t.alive == s.alive
          && u.h.disposed == (if disposes then n.h.disposed + {d} else n.h.disposed) && t.disposed == (s.disposed || disposes))
  }

  lemma EndAgrees(c: R.Config, s: R.Sender, n: F.Node, d: F.Id)
    requires Same(c, s, n, d)
    ensures var m := F.MGet(d.remote, d.size, d.date, |c.file|);
      Agreed(c, s, n, d, !s.cursend && s.state == R.IsSent, R.OnMessage(c, s, R.MGet(|c.file|)), F.OnGet(n, m, 0))
  {
    hide F.SameLocal;
    OneLocal(n.bll, d);
    assert n.bll[0] == F.Entry(d, StateOf(s.state), s.offset);
    var m := F.MGet(d.remote, d.size, d.date, |c.file|);
    if s.cursend {
      assert F.OnGet(n, m, 0).ft == F.Crashed;
    } else if s.state == R.IsSent {
      assert F.OnGet(n, m, 0) == F.Dispose(n, 0);
    } else {
      assert F.OnGet(n, m, 0) == n;
    }
  }

  lemma GetAgrees(c: R.Config, s: R.Sender, n: F.Node, d: F.Id, offset: nat)
    requires Same(c, s, n, d) && offset != |c.file|
    ensures Agreed(c, s, n, d, false, R.OnMessage(c, s, R.MGet(offset)), F.OnGet(n, F.MGet(d.remote, d.size, d.date, offset), 0))
  {
    assert n.bll[0] == F.Entry(d, StateOf(s.state), s.offset);
  }

  lemma OneLocal(list: seq<F.Entry>, d: F.Id)
    requires |list| == 1 && list[0].id == d
    ensures F.SameLocal(list, d.local) == {d}
  {
  }

  lemma GotAgrees(c: R.Config, s: R.Sender, n: F.Node, d: F.Id)
    requires Same(c, s, n, d)
    ensures Agreed(c, s, n, d, true, R.OnMessage(c, s, R.MGot), F.Dispose(F.Refuses(n, 0), 0)) && F.Refuses(n, 0).ft != F.Crashed
  {
    hide F.SameLocal;
    OneLocal(n.bll, d);
    assert n.bll[0] == F.Entry(d, StateOf(s.state), s.offset);
  }

  lemma SkipAgrees(c: R.Config, s: R.Sender, n: F.Node, d: F.Id)
    requires Same(c, s, n, d)
    ensures var t := F.Refuses(n, 0); t.ft != F.Crashed && Agreed(c, s, n, d, false, R.OnMessage(c, s, R.MSkip), t.(bll := t.bll[0 := t.bll[0].(state := F.Skipped)]))
  {
    assert n.bll[0] == F.Entry(d, StateOf(s.state), s.offset);
  }

  /** A message does the same to both, and one dies of it exactly if the other does; the file is disposed of at the same messages. */
  lemma MessagesAgree(c: R.Config, s: R.Sender, n: F.Node, d: F.Id, m: R.Reply)
    requires Same(c, s, n, d)
    ensures Agreed(c, s, n, d, Disposes(c, s, m), R.OnMessage(c, s, m), F.OnMessage(n, MessageOf(m, d)))
  {
    assert F.Index(n.bll, MessageOf(m, d), 0) == 0;
    hide Agreed, F.Dispose, F.Refuses, F.OnGet, R.OnMessage;
    match m
    case MGet(offset) => if offset == |c.file| { EndAgrees(c, s, n, d); } else { GetAgrees(c, s, n, d, offset); }
    case MGot => GotAgrees(c, s, n, d);
    case MSkip => SkipAgrees(c, s, n, d);
  }

  /** The file is offered, given up, or M_EOB said. */
  lemma NextAgrees(c: R.Config, s: R.Sender, n: F.Node, d: F.Id, opens: bool, ev: F.Event)
    requires Same(c, s, n, d) && s.tx == R.TxGNF && n.listed && ev.sends && ev.open == (if opens then F.Opens else F.Refused)
    ensures var (t, out) := R.NextFile(s, opens); var (u, r) := F.GetNextFile(n, ev);
      && Same(c, t, u, d) && u.messages == n.messages + |out| && (u.localEob && !n.localEob ==> out == [R.MEob])
      && (out == [R.MEob] <==> s.state != R.NoState) && (out == [R.MFile(s.offset)] <==> s.state == R.NoState && opens)
      && (t.state == R.Sending && s.state != R.Sending ==> t.txpos == s.offset)
  {
    assert F.NextOpen(n.bll, 0) == if s.state == R.NoState then 0 else 1;
  }

  /** A block goes out from where the file was read up to; behind the last the file is IsSent. */
  lemma ReadsAgree(c: R.Config, s: R.Sender, n: F.Node, d: F.Id, blksize: nat, ev: F.Event)
    requires Same(c, s, n, d) && n.tx == F.TxReadS && s.cursend && blksize > 0 && s.txpos <= |c.file|
    requires ev.block == if s.txpos + blksize > |c.file| then F.Block.Last else F.Middle
    ensures var (t, out) := R.ReadSend(c, s, blksize); var (u, r) := F.ReadSend(n, ev);
      && Same(c, t, u, d) && r == F.Ok
      && out == (if s.txpos == |c.file| then [] else [R.MData(c.file[s.txpos..Min(s.txpos + blksize, |c.file|)])])
      && t.txpos == Min(s.txpos + blksize, |c.file|)
  {
    assert Slice(c.file, s.txpos, blksize) == c.file[s.txpos..Min(s.txpos + blksize, |c.file|)];
  }

  // ------------------------------------------------------------------ the receiver

  predicate SameFiles(r: R.Receiver, n: F.Node) {
    n.fp.rx == r.rxfp && n.fp.rxbytes == r.rxbytes && n.ft == F.Receive
  }

  /** What bopenfile finds is the partial file. */
  predicate Finds(r: R.Receiver, opens: bool, ev: F.Event) {
    && ev.space && ev.blocks && ev.sends
    && ev.reopen == if opens then F.Reopened(|R.Content(r)|) else F.Unopened(|R.Content(r)|)
  }

  /** Behind bopenfile, or with the file left open. */
  lemma SettlesAgree(c: R.Config, r: R.Receiver, n: F.Node, offset: nat, opens: bool, ev: F.Event)
    requires SameFiles(r, n) && Finds(r, opens, ev) && !(offset != 0 && offset == r.rxbytes && !r.rxfp)
    ensures var (t, out) := R.AcceptFile(c, r, offset, opens);
            var (u, res) := F.Settle(if offset == 0 || offset != n.fp.rxbytes then F.BOpenFile(n, ev.reopen) else n, ev, |c.file|, offset);
      && SameFiles(t, u) && u.messages == n.messages + |out| && res == F.Ok && t.rxpos == offset && R.Content(t) == R.Content(r)
      && (if out == [] then t.rx == R.RxReceD && u.rx == F.RxReceD else t.rx == R.RxWaitF && u.rx == F.RxWaitF)
  {
  }

  /** M_FILE is answered by both or taken in by both; and how it is answered. */
  lemma AcceptsAgree(c: R.Config, r: R.Receiver, n: F.Node, offset: nat, opens: bool, ev: F.Event)
    requires SameFiles(r, n) && Finds(r, opens, ev) && n.rx == F.RxAccF && n.frame == F.FFile(F.File(|c.file|, offset))
    ensures var (t, out) := R.AcceptFile(c, r, offset, opens); var (u, res) := F.AcceptFile(n, ev);
      && (u.ft == F.Crashed <==> t.rx == R.RxDone)
      && (u.ft != F.Crashed ==>
            && SameFiles(t, u) && u.messages == n.messages + |out| && res == F.Ok && t.rxpos == offset && R.Content(t) == R.Content(r)
            && (t.rx == R.RxReceD <==> u.rx == F.RxReceD) && (t.rx == R.RxWaitF <==> u.rx == F.RxWaitF) && (t.rx == R.RxReceD <==> out == []))
  {
    hide F.Settle, R.AcceptFile, F.BOpenFile;
    if offset != 0 && offset == r.rxbytes && !r.rxfp {
      DeadEnd(c, r, offset, opens);
    } else {
      SettlesAgree(c, r, n, offset, opens, ev);
    }
  }

  lemma DeadEnd(c: R.Config, r: R.Receiver, offset: nat, opens: bool)
    requires offset != 0 && offset == r.rxbytes && !r.rxfp
    ensures R.AcceptFile(c, r, offset, opens) == (r.(rx := R.RxDone), [])
  {
  }

  /** How M_FILE is answered: M_GOT exactly if as much is there as the file has, M_GET from the end of what is there if less is and the file was offered
      from its start, M_SKIP otherwise if it cannot be written. */
  lemma RepliesIff(c: R.Config, r: R.Receiver, offset: nat, opens: bool)
    requires !(offset != 0 && offset == r.rxbytes && !r.rxfp)
    ensures var (t, out) := R.AcceptFile(c, r, offset, opens); var looked := offset == 0 || offset != r.rxbytes; var len := if looked then |R.Content(r)| else r.rxbytes;
      && (out == [R.MGot] <==> len == |c.file|)
      && (out == [R.MGet(len)] <==> 0 < len < |c.file| && offset == 0)
      && (out == [R.MSkip] <==> len != |c.file| && !(0 < len < |c.file| && offset == 0) && !(if looked then opens else r.rxfp))
      && (out == [] || out == [R.MGot] || out == [R.MGet(len)] || out == [R.MSkip])
  {
  }

  /** Data are written by both or passed over by both, and behind the last byte both say M_GOT. */
  lemma WritesAgree(c: R.Config, r: R.Receiver, n: F.Node, data: seq<R.Data>, moves: bool, ev: F.Event)
    requires SameFiles(r, n) && r.rx == R.RxReceD && n.rx == F.RxWriteD && ev.sends && c.atomic
    requires ev.write == if r.rxpos + |data| == |c.file| then F.Whole else F.More
    ensures var (t, out) := R.WriteData(c, r, data, moves); var (u, res) := F.WriteData(n, ev);
      && u.messages == n.messages + |out| && res == F.Ok && (u.rx == F.RxReceD <==> t.rx == R.RxReceD) && (u.rx == F.RxWaitF <==> t.rx == R.RxWaitF)
      && (out == [] || out == [R.MGot])
      && (out == [] ==> R.Content(t) == (if r.rxfp then R.Content(r) + data else R.Content(r)) && t.inbound == r.inbound)
      && (out == [R.MGot] ==> if moves then t.inbound == Some(R.Content(r) + data) && t.tmp == None else R.Content(t) == R.Content(r) + data && t.inbound == r.inbound)
  {
  }

  /** Every frame takes both to the same place; an M_FILE while a file is open closes it first. */
  lemma FramesAgree(c: R.Config, r: R.Receiver, n: F.Node, f: R.Frame, opens: bool, moves: bool)
    requires SameFiles(r, n) && n.version == (if c.v10 then F.V10 else F.V11) && (n.version == F.V11 ==> n.messages < 3)
    requires (r.rx == R.RxWaitF && n.rx == F.RxWaitF) || (r.rx == R.RxReceD && n.rx == F.RxReceD) || (r.rx == R.RxEOB && n.rx == F.RxEOB)
    requires n.frame == (match f case MFile(offset) => F.FFile(F.File(|c.file|, offset)) case MData(_) => F.FData case MEob => F.FEob)
    ensures var (t, out) := R.Receive(c, r, f, opens, moves); var (u, res) := F.Receiver(n, F.Event(F.NoFrame, true, false, true, F.Nameless, true, true, F.More, F.Opens, F.Middle, [], false, [], false));
      match u.rx
      case RxAccF => f.MFile? && (t, out) == R.AcceptFile(c, r.(rxfp := r.rxfp && r.rx == R.RxWaitF, safe := if r.rx == R.RxReceD then |R.Content(r)| else r.safe), f.offset, opens)
      case RxWriteD => f.MData? && (t, out) == R.WriteData(c, r, f.data, moves)
      case RxDone => res == F.Failure && t == r.(rx := R.RxDone) && out == []
      case RxEOB => t == r.(rx := R.RxEOB) && out == []
      case _ => t == r && out == [] && res == F.Ok && u == n
  {
  }
}

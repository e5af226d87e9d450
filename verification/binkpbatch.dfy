/** Sessions for every list of files of either side, under both versions of the protocol. */
module BinkpBatch {
  import opened BinkpFinish
  import opened BinkpClean

  /** One of our files and how many blocks it has before the last; one of the peer's, its size and its data frames before the last. */
  datatype Ours = Ours(id: Id, blocks: nat)
  datatype Theirs = Theirs(size: int, frames: nat)

  function IdsOf(ours: seq<Ours>): (r: seq<Id>)
    ensures |r| == |ours|
  {
    seq(|ours|, i requires 0 <= i < |ours| => ours[i].id)
  }

  /** Messages tell the files apart. */
  predicate Apart(ids: seq<Id>) {
    forall i, j :: 0 <= i < j < |ids| ==> !(ids[i].remote == ids[j].remote && ids[i].size == ids[j].size && ids[i].date == ids[j].date)
  }

  function ListOf(ids: seq<Id>, k: nat, before: FileState, after: FileState): (r: seq<Entry>)
    ensures |r| == |ids|
  {
    seq(|ids|, i requires 0 <= i < |ids| => Entry(ids[i], if i < k then before else after, 0))
  }

  function Offering(ids: seq<Id>): seq<Listed> {
    seq(|ids|, i requires 0 <= i < |ids| => Listed(ids[i], false))
  }

  function Send(b: Block): Event {
    Quiet(NoFrame, b, [])
  }

  // ------------------------------------------------------------------ our files

  /** The first k files have been sent. */
  function Sent(v: Version, ids: seq<Id>, k: nat): Node {
    Start(v).(messages := 1 + k, listed := true, bll := ListOf(ids, k, IsSent, NoState), h := History([ids], [], {}, {}, {}, {}))
  }

  /** And the next is being sent. */
  function Opened(v: Version, ids: seq<Id>, k: nat): Node
    requires k < |ids|
  {
    Sent(v, ids, k).(ft := Transmit, tx := TxTryR, messages := 2 + k, bll := ListOf(ids, k, IsSent, NoState)[k := Entry(ids[k], Sending, 0)], cursend := k,
                     fp := Files(true, false, 0))
  }

  lemma Begins(v: Version, ids: seq<Id>)
    requires ids != []
    ensures Run(Start(v), [IDLE, Quiet(NoFrame, Middle, Offering(ids))]) == Opened(v, ids, 0)
  {
    var ev := Quiet(NoFrame, Middle, Offering(ids));
    var n1 := Turn(Start(v), IDLE);
    assert n1 == Start(v).(ft := Transmit);
    var t := MakeList(n1, ev);
    NoneLost(ids);
    assert t.bll == ListOf(ids, 0, IsSent, NoState) && Ids(t.bll) == ids;
    assert NextOpen(t.bll, 0) == 0;
    RunTwo(Start(v), IDLE, ev);
  }

  lemma NoneLost(ids: seq<Id>)
    ensures Lost(Offering(ids)) == {} && Locals({}) == {} && Fill(Offering(ids)) == ListOf(ids, 0, IsSent, NoState)
  {
  }

  lemma OpensNext(v: Version, ids: seq<Id>, k: nat)
    requires 0 < k < |ids|
    ensures Run(Sent(v, ids, k), [IDLE, IDLE]) == Opened(v, ids, k)
  {
    var n := Sent(v, ids, k);
    NextIs(ids, k);
    hide MakeList, NextOpen;
    RunTwo(n, IDLE, IDLE);
  }

  lemma NextIs(ids: seq<Id>, k: nat)
    requires k <= |ids|
    ensures NextOpen(ListOf(ids, k, IsSent, NoState), 0) == k
  {
    var list := ListOf(ids, k, IsSent, NoState);
    assert forall i :: 0 <= i < k ==> list[i].state == IsSent;
    assert k < |ids| ==> list[k].state == NoState;
  }

  /** Blocks that are not the last. */
  function Blocks(b: nat): seq<Event>
    decreases b
  {
    if b == 0 then [] else [IDLE, Send(Middle)] + ([IDLE] + Blocks(b - 1))
  }

  lemma {:induction false} BlocksGo(v: Version, ids: seq<Id>, k: nat, b: nat)
    requires k < |ids|
    ensures Run(Opened(v, ids, k), Blocks(b)) == Opened(v, ids, k)
    decreases b
  {
    if b > 0 {
      OneBlock(v, ids, k);
      BlocksGo(v, ids, k, b - 1);
      hide Run, Opened;
      RunMore(Opened(v, ids, k), [IDLE, Send(Middle)], [IDLE] + Blocks(b - 1));
      RunMore(Opened(v, ids, k).(ft := Switch), [IDLE], Blocks(b - 1));
    }
  }

  lemma OneBlock(v: Version, ids: seq<Id>, k: nat)
    requires k < |ids|
    ensures Run(Opened(v, ids, k), [IDLE, Send(Middle)]) == Opened(v, ids, k).(ft := Switch)
    ensures Run(Opened(v, ids, k).(ft := Switch), [IDLE]) == Opened(v, ids, k)
  {
    var n := Opened(v, ids, k);
    RunTwo(n, IDLE, Send(Middle));
    RunOne(n.(ft := Switch), IDLE);
  }

  lemma RunOne(n: Node, ev: Event)
    ensures Run(n, [ev]) == Turn(n, ev)
  {
    hide Turn;
    assert [ev][1..] == [];
    assert Run(Turn(n, ev), []) == Turn(n, ev);
  }

  lemma LastGoes(v: Version, ids: seq<Id>, k: nat)
    requires k < |ids|
    ensures Run(Opened(v, ids, k), [IDLE, Send(Block.Last)]) == Sent(v, ids, k + 1)
  {
    var n := Opened(v, ids, k);
    RunTwo(n, IDLE, Send(Block.Last));
    assert n.bll[k := Entry(ids[k], IsSent, 0)] == ListOf(ids, k + 1, IsSent, NoState);
  }

  function FileGoes(b: nat): seq<Event> {
    Blocks(b) + [IDLE, Send(Block.Last)]
  }

  lemma OneGoes(v: Version, ids: seq<Id>, k: nat, b: nat)
    requires k < |ids|
    ensures Run(Opened(v, ids, k), FileGoes(b)) == Sent(v, ids, k + 1)
  {
    BlocksGo(v, ids, k, b);
    LastGoes(v, ids, k);
    hide Run, Opened;
    RunMore(Opened(v, ids, k), Blocks(b), [IDLE, Send(Block.Last)]);
  }

  /** All the files from k on. */
  function FilesGo(ours: seq<Ours>, k: nat): seq<Event>
    decreases |ours| - k
  {
    if k >= |ours| then [] else [IDLE, IDLE] + (FileGoes(ours[k].blocks) + FilesGo(ours, k + 1))
  }

  lemma {:induction false} AllGo(v: Version, ours: seq<Ours>, k: nat)
    requires 0 < k <= |ours|
    ensures Run(Sent(v, IdsOf(ours), k), FilesGo(ours, k)) == Sent(v, IdsOf(ours), |ours|)
    decreases |ours| - k
  {
    if k < |ours| {
      var ids, b := IdsOf(ours), ours[k].blocks;
      OpensNext(v, ids, k);
      OneGoes(v, ids, k, b);
      AllGo(v, ours, k + 1);
      hide Run, Sent, Opened;
      RunMore(Sent(v, ids, k), [IDLE, IDLE], FileGoes(b) + FilesGo(ours, k + 1));
      RunMore(Opened(v, ids, k), FileGoes(b), FilesGo(ours, k + 1));
    }
  }

  // ------------------------------------------------------------------ their files, and acknowledgements

  /** All is sent, M_EOB too, and the first k files are acknowledged; the peer has not said M_EOB. */
  predicate Waits(n: Node, v: Version, ids: seq<Id>, k: nat) {
    && n.ft == Switch && n.tx == TxWLA && n.rx == RxWaitF && n.version == v && n.localEob && !n.remoteEob && n.queue == [] && n.cursend == -1
    && n.batchnr == 0 && n.rc == 0 && n.messages >= 2 && n.listed && n.bll == ListOf(ids, k, Got, IsSent)
    && n.h.cleared == [] && n.h.disposed <= (set d | d in ids) && (forall i :: 0 <= i < k <= |ids| ==> ids[i] in n.h.disposed)
  }

  function Eob(): seq<Event> {
    [IDLE, IDLE] + [IDLE]
  }

  lemma SaysEob(v: Version, ids: seq<Id>)
    requires ids != []
    ensures Waits(Run(Sent(v, ids, |ids|), Eob()), v, ids, 0)
  {
    var n := Sent(v, ids, |ids|);
    NextIs(ids, |ids|);
    NoMore(n);
    var t := Run(n, [IDLE, IDLE]);
    assert t.bll[0] in t.bll && !Done(t.bll[0]);
    assert ListOf(ids, |ids|, IsSent, NoState) == ListOf(ids, 0, Got, IsSent);
    hide Run;
    RunMore(n, [IDLE, IDLE], [IDLE]);
    RunOne(t, IDLE);
  }

  /** A data frame, and what writing it comes to. */
  function FrameWith(w: Write): seq<Event> {
    [Hears(FData), IDLE] + [IDLE.(write := w)]
  }

  /** One of the peer's files. */
  function TheirFrames(b: nat): seq<Event>
    decreases b
  {
    if b == 0 then [] else FrameWith(More) + TheirFrames(b - 1)
  }

  function TheirFile(t: Theirs): seq<Event> {
    [Hears(FFile(File(t.size, 0))), IDLE] + ([IDLE] + (TheirFrames(t.frames) + FrameWith(Whole)))
  }

  predicate Receives(n: Node, v: Version, ids: seq<Id>, k: nat) {
    n.rx == RxReceD && n.fp.rx && Waits(n.(rx := RxWaitF), v, ids, k)
  }

  lemma TheirBegins(n: Node, v: Version, ids: seq<Id>, k: nat, size: int)
    requires Waits(n, v, ids, k) && size != 0
    ensures Receives(Run(n, [Hears(FFile(File(size, 0))), IDLE] + [IDLE]), v, ids, k)
  {
    hide Transmitter, Clear, NewBatch;
    var ev := Hears(FFile(File(size, 0)));
    RunTwo(n, ev, IDLE);
    RunMore(n, [ev, IDLE], [IDLE]);
    RunOne(Run(n, [ev, IDLE]), IDLE);
  }

  lemma FrameComes(n: Node, v: Version, ids: seq<Id>, k: nat, w: Write)
    requires Receives(n, v, ids, k) && (w == More || w == Whole)
    ensures var t := Run(n, FrameWith(w)); if w == Whole then Waits(t, v, ids, k) else Receives(t, v, ids, k)
  {
    hide Transmitter, AcceptFile, Clear, NewBatch;
    RunTwo(n, Hears(FData), IDLE);
    RunMore(n, [Hears(FData), IDLE], [IDLE.(write := w)]);
    RunOne(Run(n, [Hears(FData), IDLE]), IDLE.(write := w));
  }

  lemma {:induction false} FramesCome(n: Node, v: Version, ids: seq<Id>, k: nat, b: nat)
    requires Receives(n, v, ids, k)
    ensures Receives(Run(n, TheirFrames(b)), v, ids, k)
    decreases b
  {
    if b > 0 {
      hide Run, Receives, FrameWith;
      FrameComes(n, v, ids, k, More);
      FramesCome(Run(n, FrameWith(More)), v, ids, k, b - 1);
      RunMore(n, FrameWith(More), TheirFrames(b - 1));
    }
  }

  lemma TheirOne(n: Node, v: Version, ids: seq<Id>, k: nat, t: Theirs)
    requires Waits(n, v, ids, k) && t.size != 0
    ensures Waits(Run(n, TheirFile(t)), v, ids, k)
  {
    hide Run, Waits, Receives, FrameWith;
    var first, last := [Hears(FFile(File(t.size, 0))), IDLE] + [IDLE], FrameWith(Whole);
    TheirBegins(n, v, ids, k, t.size);
    var n1 := Run(n, first);
    FramesCome(n1, v, ids, k, t.frames);
    var n2 := Run(n1, TheirFrames(t.frames));
    FrameComes(n2, v, ids, k, Whole);
    assert TheirFile(t) == first + (TheirFrames(t.frames) + last);
    RunMore(n, first, TheirFrames(t.frames) + last);
    RunMore(n1, TheirFrames(t.frames), last);
  }

  function TheirFiles(ts: seq<Theirs>): seq<Event>
    decreases |ts|
  {
    if ts == [] then [] else TheirFile(ts[0]) + TheirFiles(ts[1..])
  }

  lemma {:induction false} TheirsCome(n: Node, v: Version, ids: seq<Id>, k: nat, ts: seq<Theirs>)
    requires Waits(n, v, ids, k) && forall t :: t in ts ==> t.size != 0
    ensures Waits(Run(n, TheirFiles(ts)), v, ids, k)
    decreases |ts|
  {
    if ts == [] {
      assert Run(n, []) == n;
    } else {
      hide Waits, Run;
      assert ts[0] in ts;
      TheirOne(n, v, ids, k, ts[0]);
      TheirsCome(Run(n, TheirFile(ts[0])), v, ids, k, ts[1..]);
      RunMore(n, TheirFile(ts[0]), TheirFiles(ts[1..]));
    }
  }

  function GotOf(d: Id): Message {
    MGot(d.remote, d.size, d.date)
  }

  /** M_GOT for one of our files, and what it comes to. */
  function AckOf(d: Id): seq<Event> {
    [Hears(FMessage(GotOf(d))), IDLE] + ([IDLE, IDLE] + [IDLE])
  }

  /** Under binkp/1.1 the list goes as soon as all of it is acknowledged. */
  predicate Cleared(n: Node, ids: seq<Id>) {
    && n.ft == Switch && n.tx == TxWLA && n.rx == RxWaitF && n.version == V11 && n.localEob && !n.remoteEob && n.queue == []
    && n.batchnr == 0 && n.rc == 0 && n.messages >= 2 && !n.listed && n.bll == []
    && n.h.cleared == [ListOf(ids, |ids|, Got, IsSent)] && n.h.disposed == (set d | d in ids)
  }

  lemma MeansOne(ids: seq<Id>, k: nat)
    requires Apart(ids) && k < |ids|
    ensures Index(ListOf(ids, k, Got, IsSent), GotOf(ids[k]), 0) == k
  {
    var list := ListOf(ids, k, Got, IsSent);
    forall i | 0 <= i < k ensures !Means(GotOf(ids[k]), list[i].id) {
      assert list[i].id == ids[i];
    }
    assert Means(GotOf(ids[k]), list[k].id);
  }

  lemma GotDone(n: Node, ids: seq<Id>, k: nat)
    requires k < |ids| && Apart(ids) && n.ft != Crashed && n.bll == ListOf(ids, k, Got, IsSent) && n.queue == [GotOf(ids[k])]
    ensures ProcessMessages(n) == n.(queue := [], bll := ListOf(ids, k + 1, Got, IsSent), h := n.h.(disposed := n.h.disposed + SameLocal(n.bll, ids[k].local)))
  {
    var m := GotOf(ids[k]);
    MeansOne(ids, k);
    assert [m][1..] == [];
    assert ProcessAll(n, [m]) == ProcessAll(OnMessage(n, m), []) == OnMessage(n, m);
    var e := n.bll[k];
    assert e == Entry(ids[k], IsSent, 0);
    assert n.bll[k := e.(state := Got)] == ListOf(ids, k + 1, Got, IsSent);
  }

  lemma SameListed(list: seq<Entry>, ids: seq<Id>, k: nat)
    requires |list| == |ids| && (forall i :: 0 <= i < |ids| ==> list[i].id == ids[i]) && k < |ids|
    ensures SameLocal(list, ids[k].local) <= (set d | d in ids) && ids[k] in SameLocal(list, ids[k].local)
  {
    forall d | d in SameLocal(list, ids[k].local) ensures d in ids {
      var e :| e in list && e.id.local == ids[k].local && e.id == d;
    }
    assert list[k] in list && list[k].id == ids[k];
  }

  lemma OneAcked(n: Node, v: Version, ids: seq<Id>, k: nat)
    requires Waits(n, v, ids, k) && Apart(ids) && k < |ids| && (v == V10 || v == V11)
    ensures var t := Run(n, AckOf(ids[k])); if k + 1 < |ids| || v == V10 then Waits(t, v, ids, k + 1) else Cleared(t, ids)
  {
    var m := GotOf(ids[k]);
    var n2 := Run(n, [Hears(FMessage(m)), IDLE]);
    assert n2 == n.(messages := n.messages + 1, frame := FMessage(m), queue := [m], h := n.h.(heard := n.h.heard + {m})) by {
      hide Transmitter, AcceptFile, NewBatch;
      RunTwo(n, Hears(FMessage(m)), IDLE);
      assert [] + [m] == [m];
    }
    var n3 := n2.(ft := Transmit);
    GotDone(n3, ids, k);
    SameListed(n.bll, ids, k);
    var n4 := ProcessMessages(n3);
    WorksOff(n2);
    WaitsOn(n4, v, ids, k + 1);
    hide Run;
    RunMore(n2, [IDLE, IDLE], [IDLE]);
    RunMore(n, [Hears(FMessage(m)), IDLE], [IDLE, IDLE] + [IDLE]);
  }

  lemma WorksOff(n: Node)
    requires n.ft == Switch && n.tx == TxWLA && n.rx == RxWaitF && n.queue != [] && ProcessMessages(n.(ft := Transmit)).ft == Transmit
    ensures Run(n, [IDLE, IDLE]) == ProcessMessages(n.(ft := Transmit))
  {
    hide ProcessAll;
    RunTwo(n, IDLE, IDLE);
  }

  lemma WaitsOn(n: Node, v: Version, ids: seq<Id>, k: nat)
    requires n.ft == Transmit && Waits(n.(ft := Switch), v, ids, k) && k <= |ids| && (v == V10 || v == V11)
    ensures var t := Run(n, [IDLE]); if k < |ids| || v == V10 then Waits(t, v, ids, k) else Cleared(t, ids)
  {
    RunOne(n, IDLE);
    if k < |ids| {
      assert n.bll[k] in n.bll && !Done(n.bll[k]);
    } else {
      assert AllDone(n.bll);
      assert n.h.disposed == (set d | d in ids);
    }
  }

  function Acks(ids: seq<Id>, k: nat): seq<Event>
    decreases |ids| - k
  {
    if k >= |ids| then [] else AckOf(ids[k]) + Acks(ids, k + 1)
  }

  lemma {:induction false} AllAcked(n: Node, v: Version, ids: seq<Id>, k: nat)
    requires Waits(n, v, ids, k) && Apart(ids) && k < |ids| && (v == V10 || v == V11)
    ensures var t := Run(n, Acks(ids, k)); if v == V10 then Waits(t, v, ids, |ids|) else Cleared(t, ids)
    decreases |ids| - k
  {
    OneAcked(n, v, ids, k);
    var t := Run(n, AckOf(ids[k]));
    if k + 1 == |ids| {
      assert Acks(ids, k) == AckOf(ids[k]);
    } else {
      hide Run, Waits, Cleared;
      AllAcked(t, v, ids, k + 1);
      RunMore(n, AckOf(ids[k]), Acks(ids, k + 1));
    }
  }

  // ------------------------------------------------------------------ the end

  function Ending(v: Version): seq<Event> {
    if v == V10 then [Hears(FEob), IDLE] + ([IDLE, IDLE] + [IDLE, IDLE])
    else [Hears(FEob), IDLE] + (Eob() + ([Hears(FEob), IDLE] + ([IDLE, IDLE] + [IDLE])))
  }

  predicate Over(n: Node, ids: seq<Id>) {
    && n.ft == Returned && n.rc == 0 && n.h.cleared == [ListOf(ids, |ids|, Got, IsSent)] && n.h.disposed == (set d | d in ids)
  }

  lemma EndsOld(n: Node, ids: seq<Id>)
    requires Waits(n, V10, ids, |ids|)
    ensures Over(Run(n, Ending(V10)), ids)
  {
    HearsEob(n);
    var t := Run(n, [Hears(FEob), IDLE]);
    assert AllDone(t.bll);
    Ends(t);
    assert n.h.disposed == (set d | d in ids);
    hide Run;
    RunMore(n, [Hears(FEob), IDLE], [IDLE, IDLE] + [IDLE, IDLE]);
    assert [] + [t.bll] == [t.bll];
  }

  /** Under binkp/1.1 M_EOB of the peer begins another batch, in which there is nothing to send, and after both have said so the session ends. */
  lemma EndsNew(n: Node, ids: seq<Id>)
    requires Cleared(n, ids)
    ensures Over(Run(n, Ending(V11)), ids)
  {
    var n2 := Run(n, [Hears(FEob), IDLE]);
    BatchBegins(n);
    SecondEob(n2);
    var n5 := Run(n2, Eob());
    LastEob(n5);
    hide Run, Over;
    RunMore(n5, [Hears(FEob), IDLE], [IDLE, IDLE] + [IDLE]);
    RunMore(n2, Eob(), [Hears(FEob), IDLE] + ([IDLE, IDLE] + [IDLE]));
    RunMore(n, [Hears(FEob), IDLE], Eob() + ([Hears(FEob), IDLE] + ([IDLE, IDLE] + [IDLE])));
  }

  lemma BatchBegins(n: Node)
    requires n.ft == Switch && n.tx == TxWLA && n.rx == RxWaitF && n.version == V11 && n.localEob && n.messages >= 2 && !n.listed && n.bll == []
    ensures Run(n, [Hears(FEob), IDLE]) == n.(frame := FEob, batchnr := n.batchnr + 1, localEob := false, remoteEob := false, messages := 0, tx := TxGNF)
  {
    hide Transmitter, AcceptFile;
    RunTwo(n, Hears(FEob), IDLE);
  }

  lemma SecondEob(n: Node)
    requires n.ft == Switch && n.tx == TxGNF && n.rx == RxWaitF && n.version == V11 && !n.listed && n.bll == [] && n.batchnr == 1 && n.queue == []
    requires !n.localEob && !n.remoteEob && n.messages == 0
    ensures Run(n, Eob()) == n.(tx := TxWLA, localEob := true, messages := 1, cursend := -1)
  {
    var t := n.(ft := Transmit);
    NoList(t);
    RunTwo(n, IDLE, IDLE);
    RunMore(n, [IDLE, IDLE], [IDLE]);
    RunOne(Run(n, [IDLE, IDLE]), IDLE);
  }

  lemma NoList(n: Node)
    requires !n.listed && n.bll == []
    ensures MakeList(n, IDLE) == n.(cursend := -1)
  {
    assert Fill([]) == [] && Lost([]) == {} && Locals({}) == {};
    assert IDLE.offer + IDLE.respond == [];
    assert n.h.missing + {} == n.h.missing && n.h.disposed + {} == n.h.disposed;
  }

  lemma LastEob(n: Node)
    requires n.ft == Switch && n.tx == TxWLA && n.rx == RxWaitF && n.version == V11 && n.localEob && !n.remoteEob && n.messages == 1 && !n.listed && n.bll == [] && n.queue == []
    ensures var t := Run(n, [Hears(FEob), IDLE] + ([IDLE, IDLE] + [IDLE])); t.ft == Returned && t.rc == n.rc && t.h == n.h
  {
    var n2 := n.(ft := Transmit, frame := FEob, messages := 2, remoteEob := true);
    FirstOfLast(n);
    var n3 := n2.(ft := Switch, tx := TxDone, rx := RxDone);
    NextOfLast(n2);
    RunOne(n3, IDLE);
    var n4 := n3.(ft := DeinitTransfer);
    RunOne(n4, IDLE);
    RunTwo(n2, IDLE, IDLE);
    hide Run;
    RunMore(n2, [IDLE, IDLE], [IDLE]);
    RunMore(n, [Hears(FEob), IDLE], [IDLE, IDLE] + [IDLE]);
  }

  lemma FirstOfLast(n: Node)
    requires n.ft == Switch && n.tx == TxWLA && n.rx == RxWaitF && n.version == V11 && n.localEob && n.messages == 1
    ensures Run(n, [Hears(FEob), IDLE]) == n.(ft := Transmit, frame := FEob, messages := 2, remoteEob := true)
  {
    hide AcceptFile, NewBatch, Transmitter;
    RunTwo(n, Hears(FEob), IDLE);
  }

  lemma NextOfLast(n: Node)
    requires n.ft == Transmit && n.tx == TxWLA && n.version == V11 && n.localEob && n.remoteEob && n.messages == 2 && !n.listed && n.bll == [] && n.queue == []
    ensures Turn(n, IDLE) == n.(ft := Switch, tx := TxDone, rx := RxDone)
  {
    hide NewBatch, ProcessAll;
  }

  /** For every list of our files that messages tell apart, with any number of blocks each, every list of the peer's, and both versions there is
      a session in which all go across: every entry is Got, every file is disposed of and no other, and 0 is returned. */
  lemma AllFinish(v: Version, ours: seq<Ours>, theirs: seq<Theirs>) returns (evs: seq<Event>)
    requires (v == V10 || v == V11) && ours != [] && Apart(IdsOf(ours)) && forall t :: t in theirs ==> t.size != 0
    ensures Over(Run(Start(v), evs), IdsOf(ours))
  {
    hide Run, Waits, Cleared, Over, Opened, Sent;
    var ids, b := IdsOf(ours), ours[0].blocks;
    var first := [IDLE, Quiet(NoFrame, Middle, Offering(ids))];
    Begins(v, ids);
    OneGoes(v, ids, 0, b);
    AllGo(v, ours, 1);
    SaysEob(v, ids);
    var n := Run(Sent(v, ids, |ids|), Eob());
    TheirsCome(n, v, ids, 0, theirs);
    var n1 := Run(n, TheirFiles(theirs));
    AllAcked(n1, v, ids, 0);
    var n2 := Run(n1, Acks(ids, 0));
    if v == V10 { EndsOld(n2, ids); } else { EndsNew(n2, ids); }
    var e2 := Acks(ids, 0) + Ending(v);
    var e1 := TheirFiles(theirs) + e2;
    var e0 := FilesGo(ours, 1) + (Eob() + e1);
    evs := first + (FileGoes(b) + e0);
    RunMore(n1, Acks(ids, 0), Ending(v));
    RunMore(n, TheirFiles(theirs), e2);
    RunMore(Sent(v, ids, |ids|), Eob(), e1);
    RunMore(Sent(v, ids, 1), FilesGo(ours, 1), Eob() + e1);
    RunMore(Opened(v, ids, 0), FileGoes(b), e0);
    RunMore(Start(v), first, FileGoes(b) + e0);
  }
}

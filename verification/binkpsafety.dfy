/** What holds of a file sent over any number of broken BinkP sessions. */
module BinkpSafety {
  import opened BinkpResume
  import opened Common

  // ------------------------------------------------------------------ what is under way

  /** The offsets of the M_FILE frames under way. */
  function Files(w: seq<Frame>): seq<nat>
    decreases |w|
  {
    if w == [] then [] else (if w[0].MFile? then [w[0].offset] else []) + Files(w[1..])
  }

  function Next(at: Option<nat>, f: Frame): Option<nat> {
    match f
    case MFile(off) => Some(off)
    case MData(data) => if at.Some? then Some(at.value + |data|) else None
    case MEob => None
  }

  /** Where the data after w belong, for a reader that is at `at` before it. */
  function At(at: Option<nat>, w: seq<Frame>): Option<nat>
    decreases |w|
  {
    if w == [] then at else At(Next(at, w[0]), w[1..])
  }

  predicate Fits(c: Config, at: Option<nat>, f: Frame) {
    f.MData? && at.Some? ==> f.data == Slice(c.file, at.value, |f.data|)
  }

  /** Data behind an M_FILE are the file from its offset on. */
  predicate DataOk(c: Config, at: Option<nat>, w: seq<Frame>)
    decreases |w|
  {
    w == [] || (Fits(c, at, w[0]) && DataOk(c, Next(at, w[0]), w[1..]))
  }

  lemma {:induction false} AppendAt(c: Config, at: Option<nat>, w: seq<Frame>, f: Frame)
    ensures At(at, w + [f]) == Next(At(at, w), f)
    ensures DataOk(c, at, w + [f]) <==> DataOk(c, at, w) && Fits(c, At(at, w), f)
    decreases |w|
  {
    hide Slice;
    if w == [] {
      assert w + [f] == [f] && [f][1..] == [];
    } else {
      assert (w + [f])[1..] == w[1..] + [f];
      AppendAt(c, Next(at, w[0]), w[1..], f);
    }
  }

  lemma {:induction false} AppendFiles(w: seq<Frame>, f: Frame)
    ensures Files(w + [f]) == Files(w) + if f.MFile? then [f.offset] else []
    decreases |w|
  {
    if w == [] {
      assert w + [f] == [f] && [f][1..] == [];
    } else {
      assert (w + [f])[1..] == w[1..] + [f];
      AppendFiles(w[1..], f);
      var head := if w[0].MFile? then [w[0].offset] else [];
      var tail := if f.MFile? then [f.offset] else [];
      assert head + (Files(w[1..]) + tail) == head + Files(w[1..]) + tail;
    }
  }

  /** The first of the files under way is at the head. */
  lemma FirstFile(w: seq<Frame>)
    requires w != []
    ensures Files(w) == (if w[0].MFile? then [w[0].offset] else []) + Files(w[1..])
    ensures w[0].MFile? ==> Files(w) != [] && Files(w)[0] == w[0].offset && Files(w)[1..] == Files(w[1..])
    ensures !w[0].MFile? ==> Files(w) == Files(w[1..])
  {
  }

  lemma {:induction false} Forget(c: Config, at: Option<nat>, w: seq<Frame>)
    requires DataOk(c, at, w)
    ensures DataOk(c, None, w) && (At(None, w) == None || At(None, w) == At(at, w))
    decreases |w|
  {
    if w != [] {
      if Next(None, w[0]) == None {
        Forget(c, Next(at, w[0]), w[1..]);
      }
    }
  }

  // ------------------------------------------------------------------ the invariant

  ghost predicate SenderOk(c: Config, s: Sender) {
    && s.tx != TxCrashed
    && (s.tx == TxTryR <==> s.state == Sending)
    && (s.state == Sending ==> s.cursend) && (s.state == IsSent ==> !s.cursend)
    && (s.state == NoState ==> s.tx == TxGNF)
    && (s.state == Got ==> s.disposed)
    && s.offset <= |c.file|
  }

  predicate ReceiverOk(c: Config, r: Receiver) {
    && Content(r) <= c.file
    && (r.inbound.Some? ==> r.inbound.value == c.file)
    && r.safe <= |Content(r)|
    && (r.alive ==>
          && (r.rx == RxReceD ==> r.rxfp && r.tmp.Some? && r.rxpos == |r.tmp.value| < |c.file|)
          && (r.rx == RxWaitF || r.rx == RxEOB ==> r.safe == |Content(r)|)
          && (r.rx == RxClosing ==> !c.atomic && Content(r) == c.file))
  }

  predicate InTransit(y: System, m: Reply) {
    m in y.back || m in y.s.queue
  }

  /** The receiver has the file where the end of the session cannot take it away. */
  predicate Durable(c: Config, r: Receiver) {
    r.inbound == Some(c.file) || (Content(r) == c.file && (r.alive ==> r.safe == |c.file|))
  }

  function Place(r: Receiver): Option<nat> {
    if r.alive && r.rx == RxReceD then Some(r.rxpos) else None
  }

  predicate OnItsWay(s: Sender) {
    s.state == Sending || s.state == IsSent
  }

  /** Where the exchange of one session is: before the receiver has seen an M_FILE, after it asked to resume, while
      it receives, and after it gave its verdict. */
  ghost predicate Phase(c: Config, y: System) {
    var quiet := y.back == [] && y.s.queue == [];
    if y.r.rx == RxReceD then quiet && Files(y.fwd) == [] && OnItsWay(y.s)
    else
      match y.r.said
      case None => quiet && y.s.offset == 0 && Files(y.fwd) == if OnItsWay(y.s) then [0] else []
      case Some(MGet(o)) =>
        && 0 < o < |c.file| && o == y.r.rxbytes == |Content(y.r)|
        && (|| (OnItsWay(y.s) && Files(y.fwd) == [] && y.back == [MGet(o)] && y.s.queue == [])
            || (OnItsWay(y.s) && Files(y.fwd) == [] && y.back == [] && y.s.queue == [MGet(o)])
            || (quiet && y.s.state == NoState && y.s.offset == o && Files(y.fwd) == [])
            || (quiet && OnItsWay(y.s) && Files(y.fwd) == [o])
            || (quiet && y.s.state == Skipped && Files(y.fwd) == []))
      case Some(m) =>
        && Files(y.fwd) == [] && y.s.state != NoState
        && (quiet || (y.back == [m] && y.s.queue == []) || (y.back == [] && y.s.queue == [m]))
  }

  ghost predicate Inv(c: Config, y: System) {
    && SenderOk(c, y.s) && ReceiverOk(c, y.r)
    && (forall m :: m in y.back || m in y.s.queue ==> m.MGet? ==> m.offset < |c.file|)
    && DataOk(c, Place(y.r), y.fwd)
    && (y.s.tx == TxTryR ==> At(Place(y.r), y.fwd) == None || At(Place(y.r), y.fwd) == Some(y.s.txpos))
    && (y.r.alive && (y.r.rx == RxWaitF || y.r.rx == RxReceD || y.r.rx == RxClosing) ==> Phase(c, y))
    && (c.atomic && (y.s.disposed || InTransit(y, MGot) || (y.r.alive && y.r.said == Some(MGot))) ==> Durable(c, y.r))
  }

  // ------------------------------------------------------------------ the moves

  /** The sender adds one frame. */
  lemma SenderAdds(c: Config, y: System, s: Sender, f: Frame)
    requires Inv(c, y) && SenderOk(c, s) && s.queue == y.s.queue && (s.disposed <==> y.s.disposed)
    requires Fits(c, At(Place(y.r), y.fwd), f)
    requires s.tx == TxTryR ==>
      var a := Next(At(Place(y.r), y.fwd), f); a == None || a == Some(s.txpos)
    requires f.MFile? ==> y.s.state == NoState && s.state == Sending && f.offset == y.s.offset == s.offset
    requires !f.MFile? ==> s.offset == y.s.offset && (s.state == y.s.state || (y.s.state == Sending && s.state == IsSent))
    ensures Inv(c, y.(s := s, fwd := y.fwd + [f]))
  {
    hide ReceiverOk, Durable, Place;
    AppendAt(c, Place(y.r), y.fwd, f);
    AppendFiles(y.fwd, f);
  }

  lemma NextKeeps(c: Config, y: System, opens: bool)
    requires Inv(c, y)
    ensures Inv(c, Apply(c, y, SNext(opens)))
  {
    hide Phase, ReceiverOk, Durable, Place;
    if y.s.alive && y.s.tx == TxGNF {
      var (s, out) := NextFile(y.s, opens);
      if out == [] {
        assert y.fwd + [] == y.fwd;
        SkippedKeeps(c, y);
      } else {
        assert out == [out[0]];
        SenderAdds(c, y, s, out[0]);
      }
    }
  }

  lemma SkippedKeeps(c: Config, y: System)
    requires Inv(c, y) && y.s.state == NoState
    ensures Inv(c, y.(s := y.s.(state := Skipped)))
  {
    hide ReceiverOk, Durable, Place;
  }

  lemma ReadsKeeps(c: Config, y: System, blksize: nat)
    requires Inv(c, y)
    ensures Inv(c, Apply(c, y, SReads(blksize)))
  {
    hide Phase, ReceiverOk, Durable, Place;
    if y.s.alive && y.s.tx == TxTryR && y.s.queue == [] && blksize > 0 {
      var (s, out) := ReadSend(c, y.s, blksize);
      if out == [] {
        assert y.fwd + [] == y.fwd;
        SentKeeps(c, y, s);
      } else {
        assert out == [out[0]];
        assert out[0].data == Slice(c.file, y.s.txpos, |out[0].data|);
        SenderAdds(c, y, s, out[0]);
      }
    }
  }

  lemma SentKeeps(c: Config, y: System, s: Sender)
    requires Inv(c, y) && y.s.state == Sending && s == y.s.(tx := TxGNF, state := IsSent, cursend := false)
    ensures Inv(c, y.(s := s))
  {
    hide ReceiverOk, Durable, Place;
  }

  lemma {:induction false} MessagesKeep(c: Config, s: Sender, ms: seq<Reply>)
    requires SenderOk(c, s) && forall m :: m in ms && m.MGet? ==> m.offset < |c.file|
    ensures var t := ProcessMessages(c, s, ms);
      && SenderOk(c, t) && t.queue == s.queue && t.alive == s.alive
      && (t.tx == TxTryR ==> t.txpos == s.txpos && s.tx == TxTryR)
      && (t.disposed ==> s.disposed || MGot in ms)
    decreases |ms|
  {
    if ms != [] {
      assert ms[0] in ms;
      MessagesKeep(c, OnMessage(c, s, ms[0]), ms[1..]);
    }
  }

  lemma ProcessesKeeps(c: Config, y: System)
    requires Inv(c, y)
    ensures Inv(c, Apply(c, y, SProcesses))
  {
    if y.s.alive && (y.s.tx == TxTryR || y.s.tx == TxWLA) {
      var q := y.s.queue;
      MessagesKeep(c, y.s.(queue := []), q);
      if |q| == 1 {
        assert q == [q[0]] && q[1..] == [];
        var t := OnMessage(c, y.s.(queue := []), q[0]);
        assert ProcessMessages(c, t, []) == t;
        assert ProcessMessages(c, y.s.(queue := []), q) == t;
      }
    }
  }

  lemma TakesKeeps(c: Config, y: System)
    requires Inv(c, y)
    ensures Inv(c, Apply(c, y, STakes))
  {
    if y.s.alive && y.back != [] {
      var k := y.back[0];
      assert y.back == [k] + y.back[1..];
      assert k in y.back;
    }
  }

  /** What a step of the receiver does: the verdict is M_GOT only with the file in safety. */
  predicate StepOk(c: Config, r: Receiver, t: Receiver, out: seq<Reply>) {
    && ReceiverOk(c, t) && t.alive && |out| <= 1
    && (out == [] ==> t.said == r.said) && (out != [] ==> t.said == Some(out[0]))
    && (t.rx == RxClosing ==> out == [MGot])
    && (out != [] && out[0].MGet? ==> out[0].offset < |c.file|)
    && (c.atomic && (Durable(c, r) || MGot in out) ==> Durable(c, t))
  }

  lemma AcceptStep(c: Config, r: Receiver, off: nat, opens: bool)
    requires ReceiverOk(c, r) && r.alive && r.rx == RxWaitF
    requires off == 0 || off == r.rxbytes == |Content(r)| < |c.file|
    ensures var (t, out) := AcceptFile(c, r, off, opens);
      && StepOk(c, r, t, out) && t.rx != RxClosing && t.rx != RxEOB
      && (t.rx == RxReceD ==> out == [] && t.rxpos == off)
      && (t.rx == RxWaitF ==> out != [])
      && (out != [] && out[0].MGet? ==> off == 0 && 0 < out[0].offset == t.rxbytes == |Content(t)|)
  {
  }

  lemma WriteStep(c: Config, r: Receiver, data: seq<Data>, moves: bool)
    requires ReceiverOk(c, r) && r.alive && r.rx == RxReceD && Fits(c, Some(r.rxpos), MData(data))
    ensures var (t, out) := WriteData(c, r, data, moves);
      && StepOk(c, r, t, out)
      && (if out == [] then t.rx == RxReceD && t.rxpos == r.rxpos + |data| else out == [MGot] && t.rx != RxReceD)
  {
    var now := Content(r) + data;
    assert now <= c.file;
    if |now| == |c.file| {
      assert now == c.file;
    }
  }

  /** A frame that the receiver takes is one it can make sense of. */
  lemma TakenFrame(c: Config, y: System)
    requires Inv(c, y) && y.r.alive && y.fwd != []
    ensures y.r.rx == RxReceD ==> !y.fwd[0].MFile? && Fits(c, Some(y.r.rxpos), y.fwd[0])
    ensures y.r.rx == RxWaitF && y.fwd[0].MFile? ==>
      y.fwd[0].offset == 0 || y.fwd[0].offset == y.r.rxbytes == |Content(y.r)| < |c.file|
  {
    FirstFile(y.fwd);
  }

  lemma ReceiverKeeps(c: Config, y: System, opens: bool, moves: bool)
    requires Inv(c, y) && y.r.alive && y.fwd != [] && y.r.rx != RxClosing
    ensures var (r, out) := Receive(c, y.r, y.fwd[0], opens, moves);
      && StepOk(c, y.r, r, out)
      && (Place(r) == None || Place(r) == Next(Place(y.r), y.fwd[0]))
  {
    TakenFrame(c, y);
    hide AcceptFile, WriteData;
    match y.fwd[0]
    case MFile(off) => if y.r.rx == RxWaitF { AcceptStep(c, y.r, off, opens); }
    case MData(data) => if y.r.rx == RxReceD { WriteStep(c, y.r, data, moves); }
    case MEob =>
  }

  lemma PhaseKeeps(c: Config, y: System, opens: bool, moves: bool)
    requires Inv(c, y) && y.r.alive && y.fwd != [] && y.r.rx != RxClosing
    ensures var z := Apply(c, y, RTakes(opens, moves));
      z.r.rx == RxWaitF || z.r.rx == RxReceD || z.r.rx == RxClosing ==> Phase(c, z)
  {
    TakenFrame(c, y);
    FirstFile(y.fwd);
    hide AcceptFile, WriteData, Files, DataOk;
    assert y.back + [] == y.back;
    match y.fwd[0]
    case MFile(off) => if y.r.rx == RxWaitF { AcceptStep(c, y.r, off, opens); }
    case MData(data) => if y.r.rx == RxReceD { WriteStep(c, y.r, data, moves); }
    case MEob =>
  }

  lemma RTakesKeeps(c: Config, y: System, opens: bool, moves: bool)
    requires Inv(c, y)
    ensures Inv(c, Apply(c, y, RTakes(opens, moves)))
  {
    hide Receive, Phase, ReceiverOk, Durable;
    if y.r.alive && y.fwd != [] && y.r.rx != RxClosing {
      var (r, out) := Receive(c, y.r, y.fwd[0], opens, moves);
      ReceiverKeeps(c, y, opens, moves);
      PhaseKeeps(c, y, opens, moves);
      Forget(c, Next(Place(y.r), y.fwd[0]), y.fwd[1..]);
    }
  }

  lemma ClosesKeeps(c: Config, y: System, moves: bool)
    requires Inv(c, y)
    ensures Inv(c, Apply(c, y, RCloses(moves)))
  {
  }

  lemma EndsKeeps(c: Config, y: System, k: nat)
    requires Inv(c, y)
    ensures Inv(c, Apply(c, y, REnds(k)))
  {
    hide Phase;
    Forget(c, Place(y.r), y.fwd);
  }

  lemma NewKeeps(c: Config, y: System)
    requires Inv(c, y)
    ensures Inv(c, Apply(c, y, NewSession))
  {
  }

  lemma OtherKeeps(c: Config, y: System, m: Move)
    requires Inv(c, y) && (m.RCloses? || m.SEnds? || m.REnds? || m.NewSession?)
    ensures Inv(c, Apply(c, y, m))
  {
    match m
    case RCloses(moves) => ClosesKeeps(c, y, moves);
    case SEnds =>
    case REnds(k) => EndsKeeps(c, y, k);
    case NewSession => NewKeeps(c, y);
  }

  lemma MoveKeeps(c: Config, y: System, m: Move)
    requires Inv(c, y)
    ensures Inv(c, Apply(c, y, m))
  {
    hide Apply, Inv;
    match m
    case SNext(opens) => NextKeeps(c, y, opens);
    case SReads(blksize) => ReadsKeeps(c, y, blksize);
    case SProcesses => ProcessesKeeps(c, y);
    case STakes => TakesKeeps(c, y);
    case RTakes(opens, moves) => RTakesKeeps(c, y, opens, moves);
    case _ => OtherKeeps(c, y, m);
  }

  lemma {:induction false} RunKeeps(c: Config, y: System, ms: seq<Move>)
    requires Inv(c, y)
    ensures Inv(c, Run(c, y, ms))
    decreases |ms|
  {
    hide Apply, Inv;
    if ms != [] {
      MoveKeeps(c, y, ms[0]);
      RunKeeps(c, Apply(c, y, ms[0]), ms[1..]);
    }
  }

  /** In every run over any number of sessions: what the receiver has on disk is a prefix of the file, what it has moved
      to the inbound is the file, the branch of M_GET that would use a null pointer is never taken, and, if the handler of
      the last block is not cut short, the sender disposes of the file only after the receiver has all its bytes. */
  lemma Safety(c: Config, ms: seq<Move>)
    ensures var y := Run(c, START, ms);
      && Content(y.r) <= c.file
      && (y.r.inbound.Some? ==> y.r.inbound.value == c.file)
      && y.s.tx != TxCrashed
      && (c.atomic && y.s.disposed ==> Holds(c, y.r))
  {
    assert Inv(c, START);
    RunKeeps(c, START, ms);
  }

  // ------------------------------------------------------------------ exactly when

  lemma {:induction false} RunMore(c: Config, y: System, a: seq<Move>, b: seq<Move>)
    ensures Run(c, y, a + b) == Run(c, Run(c, y, a), b)
    decreases |a|
  {
    hide Apply;
    if a == [] {
      assert a + b == b;
    } else {
      assert (a + b)[1..] == a[1..] + b;
      RunMore(c, Apply(c, y, a[0]), a[1..], b);
    }
  }

  lemma RunOne(c: Config, y: System, m: Move)
    ensures Run(c, y, [m]) == Apply(c, y, m)
  {
    hide Apply;
    assert [m][1..] == [];
    assert Run(c, Apply(c, y, m), []) == Apply(c, y, m);
  }

  lemma RunTwo(c: Config, y: System, a: Move, b: Move)
    ensures Run(c, y, [a, b]) == Apply(c, Apply(c, y, a), b)
  {
    hide Apply, Run;
    assert [a, b] == [a] + [b];
    RunMore(c, y, [a], [b]);
    RunOne(c, y, a);
    RunOne(c, Apply(c, y, a), b);
  }

  lemma RunFour(c: Config, y: System, a: Move, b: Move, d: Move, e: Move)
    ensures Run(c, y, [a, b, d, e]) == Apply(c, Apply(c, Apply(c, Apply(c, y, a), b), d), e)
  {
    hide Apply, Run;
    assert [a, b, d, e] == [a, b] + [d, e];
    RunMore(c, y, [a, b], [d, e]);
    RunTwo(c, y, a, b);
    RunTwo(c, Apply(c, Apply(c, y, a), b), d, e);
  }

  /** The sender has sent everything and gets M_GOT. */
  function LastSteps(): seq<Move> {
    [SNext(true), STakes, SProcesses]
  }

  lemma Acknowledged(c: Config, y: System)
    requires y.s.alive && y.s.tx == TxGNF && y.s.state == IsSent && y.s.queue == [] && y.back == [MGot]
    ensures var z := Run(c, y, LastSteps()); z.s.disposed && z.r == y.r
  {
    var y1 := Apply(c, y, SNext(true));
    var y2 := Apply(c, y1, STakes);
    assert y2.s.queue == [MGot] && y2.s.tx == TxWLA;
    assert [MGot][1..] == [];
    assert ProcessMessages(c, OnMessage(c, y2.s.(queue := []), MGot), []) == OnMessage(c, y2.s.(queue := []), MGot);
    assert Apply(c, y2, SProcesses).s.disposed;
    hide Apply, Run;
    assert LastSteps() == [SNext(true), STakes] + [SProcesses];
    RunMore(c, y, [SNext(true), STakes], [SProcesses]);
    RunTwo(c, y, SNext(true), STakes);
    RunOne(c, y2, SProcesses);
  }

  /** The file is offered, accepted, and one block of it sent and written. */
  function FirstSteps(k: nat): seq<Move> {
    [SNext(true), RTakes(true, true), SReads(k), RTakes(true, true)]
  }

  lemma FirstBlock(c: Config, k: nat)
    requires c.file != [] && 0 < k && k != |c.file|
    ensures Run(c, START, FirstSteps(k)) == if k < |c.file|
      then System(Sender(true, TxTryR, Sending, 0, true, k, [], false), Receiver(true, RxReceD, true, 0, k, Some(c.file[..k]), 0, None, None), [], [])
      else
        var r := Receiver(true, RxReceD, true, 0, |c.file|, Some(c.file), 0, None, Some(MGot));
        System(Sender(true, TxGNF, IsSent, 0, false, |c.file|, [], false), if c.atomic then Close(r, true) else r.(rx := RxClosing), [], [MGot])
  {
    var y1 := Apply(c, START, SNext(true));
    assert y1.fwd == [MFile(0)] && y1.fwd[1..] == [];
    var y2 := Apply(c, y1, RTakes(true, true));
    assert y2 == System(Sender(true, TxTryR, Sending, 0, true, 0, [], false), Receiver(true, RxReceD, true, 0, 0, Some([]), 0, None, None), [], []);
    var y3 := Apply(c, y2, SReads(k));
    var data := Slice(c.file, 0, k);
    assert data == if k < |c.file| then c.file[..k] else c.file;
    assert y3.fwd == [MData(data)] && y3.fwd[1..] == [];
    assert [] + data == data;
    var y4 := Apply(c, y3, RTakes(true, true));
    RunFour(c, START, SNext(true), RTakes(true, true), SReads(k), RTakes(true, true));
  }

  /** One session in which the last block is written, M_GOT sent, and the receiver ends before the file is closed. */
  lemma CutShort(c: Config) returns (ms: seq<Move>)
    requires !c.atomic && c.file != []
    ensures MovesWork(ms) && var y := Run(c, START, ms); y.s.disposed && !Holds(c, y.r)
  {
    hide Run, Close;
    var k := |c.file| + 1;
    FirstBlock(c, k);
    var y1 := Run(c, START, FirstSteps(k));
    var y2 := Apply(c, y1, REnds(0));
    assert Content(y2.r) == [];
    RunOne(c, y1, REnds(0));
    Acknowledged(c, y2);
    ms := FirstSteps(k) + ([REnds(0)] + LastSteps());
    RunMore(c, START, FirstSteps(k), [REnds(0)] + LastSteps());
    RunMore(c, y1, [REnds(0)], LastSteps());
  }

  /** No run makes the sender dispose of bytes the receiver does not have. */
  ghost predicate NeverLost(c: Config) {
    forall ms: seq<Move> :: Run(c, START, ms).s.disposed ==> Holds(c, Run(c, START, ms).r)
  }

  /** M_GOT is sent before the file is closed, so that this holds exactly if that handler is never cut short between the
      two, or there is nothing to lose. */
  lemma NeverLostIff(c: Config)
    ensures NeverLost(c) <==> c.atomic || c.file == []
  {
    hide Run;
    if c.atomic || c.file == [] {
      forall ms: seq<Move> | Run(c, START, ms).s.disposed ensures Holds(c, Run(c, START, ms).r) {
        Safety(c, ms);
      }
    } else {
      var ms := CutShort(c);
    }
  }

  // ------------------------------------------------------------------ into the inbound

  /** The partial file is never whole, and M_GOT means that the file is in the inbound. */
  ghost predicate Moved(c: Config, y: System) {
    && |Content(y.r)| < |c.file|
    && (y.s.disposed || InTransit(y, MGot) || (y.r.alive && y.r.said == Some(MGot)) ==> y.r.inbound.Some?)
  }

  lemma ReceiveMoves(c: Config, r: Receiver, f: Frame, opens: bool)
    requires c.atomic && ReceiverOk(c, r) && r.alive && |Content(r)| < |c.file|
    requires r.rx == RxReceD ==> !f.MFile? && Fits(c, Some(r.rxpos), f)
    requires r.rx == RxWaitF && f.MFile? ==> f.offset == 0 || f.offset == r.rxbytes == |Content(r)|
    ensures var (t, out) := Receive(c, r, f, opens, true);
      && |Content(t)| < |c.file| && (r.inbound.Some? ==> t.inbound.Some?)
      && (MGot in out || (t.said == Some(MGot) && r.said != Some(MGot)) ==> t.inbound.Some?)
  {
  }

  lemma MoveMoves(c: Config, y: System, m: Move)
    requires c.atomic && Inv(c, y) && Moved(c, y) && (m.RTakes? ==> m.moves)
    ensures Moved(c, Apply(c, y, m))
  {
    hide Phase, DataOk, At, Durable;
    match m
    case SProcesses =>
      MessagesKeep(c, y.s.(queue := []), y.s.queue);
    case STakes =>
      if y.s.alive && y.back != [] {
        assert y.back[0] in y.back;
        assert y.back == [y.back[0]] + y.back[1..];
      }
    case RTakes(opens, moves) =>
      if y.r.alive && y.fwd != [] && y.r.rx != RxClosing {
        TakenFrame(c, y);
        ReceiveMoves(c, y.r, y.fwd[0], opens);
      }
    case _ =>
  }

  predicate MovesWork(ms: seq<Move>) {
    forall m :: m in ms && m.RTakes? ==> m.moves
  }

  lemma {:induction false} RunMoves(c: Config, y: System, ms: seq<Move>)
    requires c.atomic && Inv(c, y) && Moved(c, y) && MovesWork(ms)
    ensures Moved(c, Run(c, y, ms))
    decreases |ms|
  {
    hide Apply, Inv, Moved;
    if ms != [] {
      assert ms[0] in ms;
      MoveKeeps(c, y, ms[0]);
      MoveMoves(c, y, ms[0]);
      assert forall m :: m in ms[1..] ==> m in ms;
      RunMoves(c, Apply(c, y, ms[0]), ms[1..]);
    }
  }

  /** An empty file: acknowledged as already there, and never moved. */
  lemma EmptyAcknowledged(c: Config) returns (ms: seq<Move>)
    requires c.file == []
    ensures MovesWork(ms) && var y := Run(c, START, ms); y.s.disposed && y.r.inbound == None
  {
    var y1 := Apply(c, START, SNext(true));
    assert y1.fwd == [MFile(0)] && y1.fwd[1..] == [];
    var y2 := Apply(c, y1, RTakes(true, true));
    assert y2.fwd == [] && y2.back == [MGot] && y2.r.inbound == None;
    var y3 := Apply(c, y2, SReads(1));
    assert y3.s.state == IsSent && y3.s.tx == TxGNF;
    hide Run, Apply;
    Acknowledged(c, y3);
    RunTwo(c, START, SNext(true), RTakes(true, true));
    RunOne(c, y2, SReads(1));
    var a, b := [SNext(true), RTakes(true, true)], [SReads(1)];
    ms := a + (b + LastSteps());
    RunMore(c, START, a, b + LastSteps());
    RunMore(c, y2, b, LastSteps());
  }

  ghost predicate AlwaysDelivered(c: Config) {
    forall ms: seq<Move> :: MovesWork(ms) && Run(c, START, ms).s.disposed ==> Run(c, START, ms).r.inbound == Some(c.file)
  }

  /** As long as moving files works, a file the sender has disposed of is always in the inbound exactly if the last handler is
      not cut short and the file is not empty. */
  lemma {:induction false} DeliveredIff(c: Config)
    ensures AlwaysDelivered(c) <==> c.atomic && c.file != []
  {
    hide Run, MovesWork;
    if c.atomic && c.file != [] {
      forall ms: seq<Move> | MovesWork(ms) && Run(c, START, ms).s.disposed ensures Run(c, START, ms).r.inbound == Some(c.file) {
        assert Inv(c, START) && Moved(c, START);
        RunMoves(c, START, ms);
        Safety(c, ms);
      }
    } else if c.file != [] {
      var ms := CutShort(c);
    } else {
      var ms := EmptyAcknowledged(c);
    }
  }

  // ------------------------------------------------------------------ resuming

  lemma AskRest(c: Config, y: System, k: nat)
    requires 0 < k < |c.file|
    requires y == System(START.s, Receiver(true, RxWaitF, false, 0, 0, Some(c.file[..k]), k, None, None), [], [])
    ensures Run(c, y, [SNext(true), RTakes(true, true), STakes, SProcesses])
         == System(Sender(true, TxGNF, NoState, k, true, 0, [], false),
                   Receiver(true, RxWaitF, true, k, 0, Some(c.file[..k]), k, None, Some(MGet(k))), [], [])
  {
    var y1 := Apply(c, y, SNext(true));
    assert y1.fwd == [MFile(0)] && y1.fwd[1..] == [];
    var y2 := Apply(c, y1, RTakes(true, true));
    assert y2.back == [MGet(k)] && y2.back[1..] == [];
    var y3 := Apply(c, y2, STakes);
    assert y3.s.queue == [MGet(k)] && [MGet(k)][1..] == [];
    assert ProcessMessages(c, OnMessage(c, y3.s.(queue := []), MGet(k)), []) == OnMessage(c, y3.s.(queue := []), MGet(k));
    RunFour(c, y, SNext(true), RTakes(true, true), STakes, SProcesses);
  }

  lemma SendRest(c: Config, y: System, k: nat)
    requires 0 < k < |c.file| && c.atomic
    requires y == System(Sender(true, TxGNF, NoState, k, true, 0, [], false),
                         Receiver(true, RxWaitF, true, k, 0, Some(c.file[..k]), k, None, Some(MGet(k))), [], [])
    ensures var z := Run(c, y, [SNext(true), RTakes(true, true), SReads(|c.file|), RTakes(true, true)]);
      && z.s.alive && z.s.tx == TxGNF && z.s.state == IsSent && z.s.queue == [] && z.back == [MGot]
      && z.r.inbound == Some(c.file)
  {
    var y1 := Apply(c, y, SNext(true));
    assert y1.fwd == [MFile(k)] && y1.fwd[1..] == [];
    var y2 := Apply(c, y1, RTakes(true, true));
    assert y2.r.rx == RxReceD && y2.r.rxpos == k && y2.fwd == [] && y2.back == [];
    var y3 := Apply(c, y2, SReads(|c.file|));
    assert y3.fwd == [MData(c.file[k..])] && y3.fwd[1..] == [];
    assert c.file[..k] + c.file[k..] == c.file;
    RunFour(c, y, SNext(true), RTakes(true, true), SReads(|c.file|), RTakes(true, true));
  }

  /** k bytes in one session, both ends gone, and in the next session only the rest: M_GET for k, M_FILE at k, the bytes
      from k on; the file is then whole, and disposed of. */
  lemma Resumes(c: Config, k: nat) returns (ms: seq<Move>)
    requires 0 < k < |c.file| && c.atomic
    ensures var y := Run(c, START, ms); y.s.disposed && y.r.inbound == Some(c.file)
  {
    hide Run;
    var n := |c.file|;
    FirstBlock(c, k);
    var y1 := Run(c, START, FirstSteps(k));
    var cut := [SEnds, REnds(k)] + [NewSession];
    RunMore(c, y1, [SEnds, REnds(k)], [NewSession]);
    RunTwo(c, y1, SEnds, REnds(k));
    RunOne(c, Apply(c, Apply(c, y1, SEnds), REnds(k)), NewSession);
    var y2 := Run(c, y1, cut);
    AskRest(c, y2, k);
    var ask, send := [SNext(true), RTakes(true, true), STakes, SProcesses], [SNext(true), RTakes(true, true), SReads(n), RTakes(true, true)];
    var y3 := Run(c, y2, ask);
    SendRest(c, y3, k);
    var y4 := Run(c, y3, send);
    Acknowledged(c, y4);
    hide Apply;
    ms := FirstSteps(k) + (cut + (ask + (send + LastSteps())));
    RunMore(c, START, FirstSteps(k), cut + (ask + (send + LastSteps())));
    RunMore(c, y1, cut, ask + (send + LastSteps()));
    RunMore(c, y2, ask, send + LastSteps());
    RunMore(c, y3, send, LastSteps());
  }
}

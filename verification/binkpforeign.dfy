/** bopenfile goes by the name alone: what becomes of a file of which there already is a partial one, its own or another's. */
module BinkpForeign {
  import opened BinkpResume
  import opened BinkpSafety
  import opened Common

  /** Nothing sent yet, but something in tmp/ under the name of the file. */
  function Found(tmp: seq<Data>): System {
    START.(r := START.r.(tmp := Some(tmp), safe := |tmp|))
  }

  /** What reaches the inbound is the file, and what the sender disposes of the receiver has. */
  ghost predicate AlwaysRight(c: Config, tmp: seq<Data>) {
    forall ms: seq<Move> ::
      var y := Run(c, Found(tmp), ms);
      (y.r.inbound.Some? ==> y.r.inbound.value == c.file) && (y.s.disposed ==> Holds(c, y.r))
  }

  // ------------------------------------------------------------------ where it is right

  /** The whole file was there already: it is acknowledged as often as it is offered, and stays. */
  predicate Whole(c: Config, y: System) {
    && y.r.tmp == Some(c.file) && y.r.inbound == None && y.r.safe == |c.file|
    && (y.r.rx == RxWaitF || y.r.rx == RxEOB || y.r.rx == RxDone)
    && (forall k :: 0 <= k < |y.fwd| && y.fwd[k].MFile? ==> y.fwd[k].offset == 0)
    && (forall k :: 0 <= k < |y.back| ==> y.back[k] == MGot) && (forall k :: 0 <= k < |y.s.queue| ==> y.s.queue[k] == MGot)
    && y.s.offset == 0
  }

  lemma {:induction false} OnlyGot(c: Config, s: Sender, ms: seq<Reply>)
    requires forall k :: 0 <= k < |ms| ==> ms[k] == MGot
    ensures var t := ProcessMessages(c, s, ms); t.queue == s.queue && t.offset == s.offset
    decreases |ms|
  {
    if ms != [] {
      OnlyGot(c, OnMessage(c, s, ms[0]), ms[1..]);
    }
  }

  lemma WholeKeeps(c: Config, y: System, m: Move)
    requires Whole(c, y)
    ensures Whole(c, Apply(c, y, m))
  {
    hide Slice;
    match m
    case SProcesses => OnlyGot(c, y.s.(queue := []), y.s.queue);
    case _ =>
  }

  lemma {:induction false} RunWhole(c: Config, y: System, ms: seq<Move>)
    requires Whole(c, y)
    ensures Whole(c, Run(c, y, ms))
    decreases |ms|
  {
    hide Apply, Whole;
    if ms != [] {
      WholeKeeps(c, y, ms[0]);
      RunWhole(c, Apply(c, y, ms[0]), ms[1..]);
    }
  }

  /** The file is empty and what was there is not: nothing is sent of it and nothing acknowledged. */
  predicate Ignored(c: Config, tmp: seq<Data>, y: System) {
    && c.file == [] && tmp != []
    && y.r.tmp == Some(tmp) && y.r.inbound == None && y.r.safe == |tmp| && y.r.rx != RxClosing && y.r.rxpos == 0
    && (forall k :: 0 <= k < |y.fwd| ==> y.fwd[k] == MFile(0) || y.fwd[k] == MEob)
    && (forall k :: 0 <= k < |y.back| ==> y.back[k] == MSkip) && (forall k :: 0 <= k < |y.s.queue| ==> y.s.queue[k] == MSkip)
    && y.s.offset == 0 && !y.s.disposed
  }

  lemma {:induction false} OnlySkip(c: Config, s: Sender, ms: seq<Reply>)
    requires forall k :: 0 <= k < |ms| ==> ms[k] == MSkip
    ensures var t := ProcessMessages(c, s, ms); t.queue == s.queue && t.offset == s.offset && t.disposed == s.disposed
    decreases |ms|
  {
    if ms != [] {
      OnlySkip(c, OnMessage(c, s, ms[0]), ms[1..]);
    }
  }

  lemma IgnoredKeeps(c: Config, tmp: seq<Data>, y: System, m: Move)
    requires Ignored(c, tmp, y)
    ensures Ignored(c, tmp, Apply(c, y, m))
  {
    match m
    case SProcesses => OnlySkip(c, y.s.(queue := []), y.s.queue);
    case SReads(blksize) => assert Slice(c.file, y.s.txpos, blksize) == [];
    case _ =>
  }

  lemma {:induction false} RunIgnored(c: Config, tmp: seq<Data>, y: System, ms: seq<Move>)
    requires Ignored(c, tmp, y)
    ensures Ignored(c, tmp, Run(c, y, ms))
    decreases |ms|
  {
    hide Apply, Ignored;
    if ms != [] {
      IgnoredKeeps(c, tmp, y, ms[0]);
      RunIgnored(c, tmp, Apply(c, y, ms[0]), ms[1..]);
    }
  }

  predicate Fine(c: Config, tmp: seq<Data>) {
    c.file == [] || tmp == c.file || (c.atomic && tmp <= c.file)
  }

  lemma FineIsRight(c: Config, tmp: seq<Data>, ms: seq<Move>)
    requires Fine(c, tmp)
    ensures var y := Run(c, Found(tmp), ms);
      (y.r.inbound.Some? ==> y.r.inbound.value == c.file) && (y.s.disposed ==> Holds(c, y.r))
  {
    hide Run;
    if tmp == c.file {
      RunWhole(c, Found(tmp), ms);
    } else if c.file == [] {
      RunIgnored(c, tmp, Found(tmp), ms);
    } else {
      assert Inv(c, Found(tmp));
      RunKeeps(c, Found(tmp), ms);
    }
  }

  // ------------------------------------------------------------------ where it is not

  /** As long as the file: it is acknowledged for the file. */
  lemma SameLength(c: Config, tmp: seq<Data>) returns (ms: seq<Move>)
    requires |tmp| == |c.file| && tmp != c.file
    ensures var y := Run(c, Found(tmp), ms); y.s.disposed && !Holds(c, y.r)
  {
    var y1 := Apply(c, Found(tmp), SNext(true));
    assert y1.fwd == [MFile(0)] && y1.fwd[1..] == [];
    var y2 := Apply(c, y1, RTakes(true, true));
    assert y2.back == [MGot] && y2.back[1..] == [];
    var y3 := Apply(c, y2, STakes);
    assert y3.s.queue == [MGot] && [MGot][1..] == [];
    assert ProcessMessages(c, OnMessage(c, y3.s.(queue := []), MGot), []) == OnMessage(c, y3.s.(queue := []), MGot);
    var y4 := Apply(c, y3, SProcesses);
    ms := [SNext(true), RTakes(true, true), STakes, SProcesses];
    RunFour(c, Found(tmp), SNext(true), RTakes(true, true), STakes, SProcesses);
  }

  /** The receiver is ready for the file from position k on, and the sender reads from there. */
  predicate Ready(tmp: seq<Data>, k: nat, y: System) {
    && y.s.alive && y.s.tx == TxTryR && y.s.state == Sending && y.s.txpos == k && y.s.queue == [] && y.fwd == [] && y.back == []
    && y.r.alive && y.r.rx == RxReceD && y.r.rxfp && y.r.rxpos == k && y.r.tmp == Some(tmp) && y.r.safe == |tmp| && y.r.inbound == None
  }

  lemma Opens(c: Config, tmp: seq<Data>) returns (ms: seq<Move>)
    requires c.file != [] && (tmp == [] || |tmp| > |c.file|)
    ensures Ready(tmp, 0, Run(c, Found(tmp), ms))
  {
    ms := [SNext(true), RTakes(true, true)];
    var y1 := Apply(c, Found(tmp), SNext(true));
    assert y1.fwd == [MFile(0)] && y1.fwd[1..] == [];
    RunTwo(c, Found(tmp), SNext(true), RTakes(true, true));
  }

  lemma Asks(c: Config, tmp: seq<Data>)
    requires 0 < |tmp| < |c.file|
    ensures Run(c, Found(tmp), [SNext(true), RTakes(true, true), STakes, SProcesses])
         == System(Sender(true, TxGNF, NoState, |tmp|, true, 0, [], false),
                   Receiver(true, RxWaitF, true, |tmp|, 0, Some(tmp), |tmp|, None, Some(MGet(|tmp|))), [], [])
  {
    var m := MGet(|tmp|);
    var y1 := Apply(c, Found(tmp), SNext(true));
    assert y1.fwd == [MFile(0)] && y1.fwd[1..] == [];
    var y2 := Apply(c, y1, RTakes(true, true));
    assert y2.back == [m] && y2.back[1..] == [];
    var y3 := Apply(c, y2, STakes);
    assert y3.s.queue == [m] && [m][1..] == [];
    assert ProcessMessages(c, OnMessage(c, y3.s.(queue := []), m), []) == OnMessage(c, y3.s.(queue := []), m);
    RunFour(c, Found(tmp), SNext(true), RTakes(true, true), STakes, SProcesses);
  }

  /** Shorter than the file: it is resumed. */
  lemma Resumed(c: Config, tmp: seq<Data>) returns (ms: seq<Move>)
    requires 0 < |tmp| < |c.file|
    ensures Ready(tmp, |tmp|, Run(c, Found(tmp), ms))
  {
    var ask, again := [SNext(true), RTakes(true, true), STakes, SProcesses], [SNext(true), RTakes(true, true)];
    Asks(c, tmp);
    var y := Run(c, Found(tmp), ask);
    var y1 := Apply(c, y, SNext(true));
    assert y1.fwd == [MFile(|tmp|)] && y1.fwd[1..] == [];
    RunTwo(c, y, SNext(true), RTakes(true, true));
    RunMore(c, Found(tmp), ask, again);
    ms := ask + again;
  }

  /** The rest of the file comes and is appended to whatever there is. */
  lemma RestComes(c: Config, tmp: seq<Data>, k: nat, y: System)
    requires Ready(tmp, k, y) && k < |c.file|
    ensures var z := Run(c, y, [SReads(|c.file| + 1), RTakes(true, true)]);
      && z.s.alive && z.s.tx == TxGNF && z.s.state == IsSent && z.s.queue == [] && z.back == [MGot] && z.r.alive
      && (if c.atomic then z.r.inbound == Some(tmp + c.file[k..])
          else z.r.rx == RxClosing && z.r.tmp == Some(tmp + c.file[k..]) && z.r.safe == |tmp| && z.r.inbound == None)
  {
    var y1 := Apply(c, y, SReads(|c.file| + 1));
    assert Slice(c.file, k, |c.file| + 1) == c.file[k..];
    assert y1.fwd == [MData(c.file[k..])] && y1.fwd[1..] == [];
    RunTwo(c, y, SReads(|c.file| + 1), RTakes(true, true));
  }

  /** It is moved as it is. */
  lemma WrongMoved(c: Config, tmp: seq<Data>, k: nat, y: System) returns (ms: seq<Move>)
    requires Ready(tmp, k, y) && k < |c.file|
    ensures Run(c, y, ms).r.inbound == Some(tmp + c.file[k..])
  {
    RestComes(c, tmp, k, y);
    ms := [SReads(|c.file| + 1), RTakes(true, true)];
    if !c.atomic {
      var z := Run(c, y, ms);
      RunOne(c, z, RCloses(true));
      RunMore(c, y, ms, [RCloses(true)]);
      ms := ms + [RCloses(true)];
    }
  }

  /** Or lost after M_GOT, down to what was there before. */
  lemma RestLost(c: Config, tmp: seq<Data>, k: nat, y: System) returns (ms: seq<Move>)
    requires Ready(tmp, k, y) && k < |c.file| && !c.atomic
    ensures var z := Run(c, y, ms); z.s.disposed && z.r.tmp == Some(tmp) && z.r.inbound == None
  {
    RestComes(c, tmp, k, y);
    var rest := [SReads(|c.file| + 1), RTakes(true, true)];
    var z := Run(c, y, rest);
    var z1 := Apply(c, z, REnds(|tmp|));
    assert (tmp + c.file[k..])[..|tmp|] == tmp;
    RunOne(c, z, REnds(|tmp|));
    Acknowledged(c, z1);
    RunMore(c, z, [REnds(|tmp|)], LastSteps());
    RunMore(c, y, rest, [REnds(|tmp|)] + LastSteps());
    ms := rest + ([REnds(|tmp|)] + LastSteps());
  }

  lemma Wrong(c: Config, tmp: seq<Data>) returns (ms: seq<Move>)
    requires !Fine(c, tmp)
    ensures var y := Run(c, Found(tmp), ms);
      !((y.r.inbound.Some? ==> y.r.inbound.value == c.file) && (y.s.disposed ==> Holds(c, y.r)))
  {
    hide Run;
    var more;
    if |tmp| == |c.file| {
      ms := SameLength(c, tmp);
    } else if |tmp| > |c.file| {
      ms := Opens(c, tmp);
      more := WrongMoved(c, tmp, 0, Run(c, Found(tmp), ms));
      RunMore(c, Found(tmp), ms, more);
      assert |tmp + c.file[0..]| > |c.file|;
      ms := ms + more;
    } else {
      ms := ToRest(c, tmp);
      var y := Run(c, Found(tmp), ms);
      if c.atomic {
        more := WrongMoved(c, tmp, |tmp|, y);
        NotTheFile(c, tmp);
      } else {
        more := RestLost(c, tmp, |tmp|, y);
      }
      RunMore(c, Found(tmp), ms, more);
      ms := ms + more;
    }
  }

  lemma ToRest(c: Config, tmp: seq<Data>) returns (ms: seq<Move>)
    requires |tmp| < |c.file|
    ensures Ready(tmp, |tmp|, Run(c, Found(tmp), ms))
  {
    if tmp == [] {
      ms := Opens(c, tmp);
    } else {
      ms := Resumed(c, tmp);
    }
  }

  lemma NotTheFile(c: Config, tmp: seq<Data>)
    requires |tmp| < |c.file|
    ensures tmp + c.file[|tmp|..] == c.file ==> tmp <= c.file
  {
    assert (tmp + c.file[|tmp|..])[..|tmp|] == tmp;
  }

  /** With something found under its name, a file comes over right in every run exactly if what was found is all of it, or the
      first of it and the last handler is never cut short, or there is nothing to come over. */
  lemma {:induction false} RightIff(c: Config, tmp: seq<Data>)
    ensures AlwaysRight(c, tmp) <==> c.file == [] || tmp == c.file || (c.atomic && tmp <= c.file)
  {
    hide Run, Holds;
    if Fine(c, tmp) {
      forall ms: seq<Move>
        ensures var y := Run(c, Found(tmp), ms);
          (y.r.inbound.Some? ==> y.r.inbound.value == c.file) && (y.s.disposed ==> Holds(c, y.r))
      {
        FineIsRight(c, tmp, ms);
      }
    } else {
      var ms := Wrong(c, tmp);
    }
  }
}

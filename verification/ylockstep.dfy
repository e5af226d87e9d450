/** XMODEM and YMODEM as stop-and-wait: wctxpn, wctx and wcputsec against wcrxpn, wcrx and wcgetsec over a line that
    delivers, damages or loses each sector and each reply, but delivers nothing late. */
module YLockStep {
  import opened Common
  import opened Crc
  import opened YBlocks

  /** Item 0 is the sector with the name, the rest the sectors of the file; `left` is Bytesleft as procheader
      reads it from the name. */
  datatype Config = Config(items: seq<seq<Byte>>, left: int)

  datatype Rc = Running | OK | Failed

  /** The sender: sector k is being sent, or EOT if k is beyond the last. */
  datatype Sender = Sender(k: nat, attempts: nat, rc: Rc)

  /** wcrxpn before the name, wcrx, wcrxpn of the next file, or given up; `sync` if because of a sector number. */
  datatype Phase = Naming | Filing | Closed | Stopped(sync: bool)

  datatype Receiver = Receiver(phase: Phase, n: nat, received: nat, out: seq<Byte>, errors: nat)

  datatype System = System(s: Sender, r: Receiver)

  function Number(k: nat): nat {
    k % 256
  }

  /** A good sector arrives: the new state and whether it is acknowledged. */
  function TakeSector(c: Config, r: Receiver, num: nat, data: seq<Byte>): (Receiver, bool) {
    match r.phase
    case Naming =>
      if num == 0 then (Receiver(Filing, 0, 0, [], 0), true)
      else (r.(phase := Stopped(true)), false)
    case Filing =>
      if num == Number(r.n + 1) then
        var t := Trimmed(c.left, r.received, data);
        (r.(n := r.n + 1, received := r.received + |t|, out := r.out + t, errors := 0), true)
      else if num == Number(r.n) then (r.(errors := 0), true)
      else (r.(phase := Stopped(true)), false)
    case Closed => (r.(phase := Stopped(true)), false)
    case Stopped(_) => (r, false)
  }

  /** EOT arrives.  wcrxpn acknowledges it and asks again. */
  function TakeEot(r: Receiver): (Receiver, bool) {
    match r.phase
    case Naming | Closed => (r.(errors := 0), true)
    case Filing => (r.(phase := Closed, errors := 0), true)
    case Stopped(_) => (r, false)
  }

  /** Something unreadable or nothing at all: one of ten complaints. */
  function Complain(r: Receiver): Receiver {
    if r.phase.Stopped? then r
    else if r.errors + 1 >= RETRYMAX then r.(phase := Stopped(false))
    else r.(errors := r.errors + 1)
  }

  predicate AtEot(c: Config, s: Sender) {
    s.k >= |c.items|
  }

  /** The reply is heard as ACK. */
  function Acked(c: Config, s: Sender): Sender {
    if !AtEot(c, s) then Sender(s.k + 1, 0, Running)
    else if s.attempts + 1 == RETRYMAX then s.(attempts := RETRYMAX, rc := Failed)
    else s.(attempts := s.attempts + 1, rc := OK)
  }

  /** It is heard as something else or not at all. */
  function Unanswered(c: Config, s: Sender): Sender {
    var a := s.attempts + 1;
    s.(attempts := a, rc := if a > RETRYMAX || (AtEot(c, s) && a == RETRYMAX) then Failed else Running)
  }

  /** One exchange: the item arrives or not; if not, the receiver complains or not; the reply arrives or not.
      A complaint without an exchange, heard or not.  Either side gives up. */
  datatype Move = Exchange(there: bool, noticed: bool, back: bool) | Nudge(heard: bool) | SenderQuits | ReceiverQuits

  function Take(c: Config, y: System): (Receiver, bool) {
    if AtEot(c, y.s) then TakeEot(y.r) else TakeSector(c, y.r, Number(y.s.k), c.items[y.s.k])
  }

  function Apply(c: Config, y: System, m: Move): System {
    match m
    case Exchange(there, noticed, back) =>
      if y.s.rc != Running then y
      else if there then
        var (r, ack) := Take(c, y);
        System(if ack && back then Acked(c, y.s) else Unanswered(c, y.s), r)
      else System(Unanswered(c, y.s), if noticed then Complain(y.r) else y.r)
    case Nudge(heard) =>
      System(if heard && y.s.rc == Running then Unanswered(c, y.s) else y.s, Complain(y.r))
    case SenderQuits => if y.s.rc == Running then y.(s := y.s.(rc := Failed)) else y
    case ReceiverQuits => if y.r.phase.Stopped? then y else y.(r := y.r.(phase := Stopped(false)))
  }

  function Run(c: Config, y: System, ms: seq<Move>): System
    decreases |ms|
  {
    if ms == [] then y else Run(c, Apply(c, y, ms[0]), ms[1..])
  }

  const START := System(Sender(0, 0, Running), Receiver(Naming, 0, 0, [], 0))

  /** Every EOT is acknowledged while the receiver goes on, and closes a file exactly if one is coming in.  A sector is acknowledged exactly if it
      is the one due or the one before, and the name exactly if its number is 0; any other stops the receiver.  Nothing else is written. */
  lemma Answered(c: Config, r: Receiver, num: nat, data: seq<Byte>)
    requires !r.phase.Stopped? && num < 256
    ensures var (u, ack) := TakeEot(r); ack && u.phase == (if r.phase == Filing then Closed else r.phase) && u.out == r.out && u.n == r.n
    ensures var (u, ack) := TakeSector(c, r, num, data); var due := (r.n + 1) % 256;
      && (ack <==> (r.phase == Naming && num == 0) || (r.phase == Filing && (num == due || num == r.n % 256)))
      && (u.phase == if ack then Filing else Stopped(true))
      && (r.phase == Filing ==> u.n == (if num == due then r.n + 1 else r.n) && (num != due ==> u.out == r.out) && r.out <= u.out)
  {
    hide Trimmed;
  }

  // ------------------------------------------------------------------ safety

  /** What has been written are the first n sectors of the file, each once and in order. */
  ghost predicate Holds(c: Config, r: Receiver) {
    && r.n < |c.items|
    && r.out == Written(c.left, 0, c.items[1..r.n + 1])
    && r.received == |r.out|
  }

  ghost predicate Inv(c: Config, y: System) {
    && y.s.k <= |c.items|
    && y.r.phase != Stopped(true)
    && Holds(c, y.r)
    && (y.s.rc == Running ==> y.s.attempts <= RETRYMAX && (AtEot(c, y.s) ==> y.s.attempts < RETRYMAX))
    && (y.s.rc == OK ==> AtEot(c, y.s) && y.r.n + 1 == |c.items| && (y.r.phase == Closed || y.r.phase == Stopped(false)))
    && match y.r.phase
       case Naming => y.s.k == 0 && y.r.n == 0 && y.r.out == []
       case Filing => y.s.k == y.r.n || y.s.k == y.r.n + 1
       case Closed => AtEot(c, y.s) && y.r.n + 1 == |c.items|
       case Stopped(_) => true
  }

  lemma {:induction false} WrittenAppend(left: int, received: nat, bs: seq<seq<Byte>>, b: seq<Byte>)
    ensures var w := Written(left, received, bs);
      Written(left, received, bs + [b]) == w + Trimmed(left, received + |w|, b)
    decreases |bs|
  {
    hide Trimmed;
    if bs == [] {
      assert bs + [b] == [b] && [b][1..] == [];
      var t := Trimmed(left, received, b);
      assert t + [] == [] + t;
    } else {
      assert (bs + [b])[1..] == bs[1..] + [b];
      var t := Trimmed(left, received, bs[0]);
      WrittenAppend(left, received + |t|, bs[1..], b);
      var w := Written(left, received + |t|, bs[1..]);
      assert t + (w + Trimmed(left, received + |t| + |w|, b)) == t + w + Trimmed(left, received + |t| + |w|, b);
    }
  }

  /** One number cannot stand for both the next sector and the last. */
  lemma NumbersDiffer(n: nat)
    ensures Number(n) != Number(n + 1)
  {
  }

  lemma TakeKeeps(c: Config, y: System)
    requires c.items != [] && Inv(c, y) && y.s.rc == Running
    ensures var (r, ack) := Take(c, y);
      && Inv(c, System(y.s, r)) && (ack ==> Inv(c, System(Acked(c, y.s), r)))
  {
    hide Written, Trimmed, Number;
    var r := y.r;
    if !AtEot(c, y.s) && r.phase == Filing {
      NumbersDiffer(r.n);
      if y.s.k == r.n + 1 {
        WrittenAppend(c.left, 0, c.items[1..r.n + 1], c.items[y.s.k]);
        assert c.items[1..r.n + 1] + [c.items[y.s.k]] == c.items[1..y.s.k + 1];
      }
    } else if !AtEot(c, y.s) && r.phase == Naming {
      NumberZero();
      assert c.items[1..1] == [];
      Nothing(c.left);
    }
  }

  lemma NumberZero()
    ensures Number(0) == 0
  {
  }

  lemma Nothing(left: int)
    ensures Written(left, 0, []) == []
  {
  }

  lemma MoveKeeps(c: Config, y: System, m: Move)
    requires c.items != [] && Inv(c, y)
    ensures Inv(c, Apply(c, y, m))
  {
    hide Take;
    if m.Exchange? && m.there && y.s.rc == Running {
      TakeKeeps(c, y);
    }
  }

  lemma {:induction false} RunKeeps(c: Config, y: System, ms: seq<Move>)
    requires c.items != [] && Inv(c, y)
    ensures Inv(c, Run(c, y, ms))
    decreases |ms|
  {
    hide Apply;
    if ms != [] {
      MoveKeeps(c, y, ms[0]);
      RunKeeps(c, Apply(c, y, ms[0]), ms[1..]);
    }
  }

  /** In every run: the receiver's count is the sender's sector or the one before, no number is ever out of step, each
      sector is written once and in order, and both an accepted EOT and a sender that is satisfied mean that all of
      them have been. */
  lemma {:induction false} LockStep(c: Config, ms: seq<Move>)
    requires c.items != []
    ensures var y := Run(c, START, ms);
      && y.r.phase != Stopped(true)
      && (y.r.phase == Filing ==> y.s.k == y.r.n || y.s.k == y.r.n + 1)
      && y.r.n < |c.items| && y.r.out == Written(c.left, 0, c.items[1..y.r.n + 1])
      && (y.r.phase == Closed || y.s.rc == OK ==> y.r.out == Written(c.left, 0, c.items[1..]))
  {
    assert c.items[1..1] == [];
    RunKeeps(c, START, ms);
    assert c.items[1..|c.items|] == c.items[1..];
  }

  lemma {:induction false} FlattenAppend(a: seq<seq<Byte>>, b: seq<seq<Byte>>)
    ensures Flatten(a + b) == Flatten(a) + Flatten(b)
    decreases |a|
  {
    if a == [] {
      assert a + b == b;
    } else {
      assert (a + b)[1..] == a[1..] + b;
      FlattenAppend(a[1..], b);
      assert a[0] + (Flatten(a[1..]) + Flatten(b)) == a[0] + Flatten(a[1..]) + Flatten(b);
    }
  }

  /** So for a file sent with its size: what is on the other side is always a prefix of it, and the whole of it once
      EOT has been accepted or acknowledged. */
  lemma {:induction false} FileTransfer(f: seq<Byte>, name: seq<Byte>, blklen: nat, ms: seq<Move>)
    requires blklen == 128 || blklen == 1024
    ensures var y := Run(Config([name] + Blocks(f, |f|, 0, blklen), |f|), START, ms);
      && y.r.out <= f
      && (y.r.phase == Closed || y.s.rc == OK ==> y.r.out == f)
  {
    hide Run, Blocks, Written, Flatten;
    var c := Config([name] + Blocks(f, |f|, 0, blklen), |f|);
    LockStep(c, ms);
    WrittenOfFile(f, name, blklen, Run(c, START, ms).r.n);
  }

  lemma WrittenOfFile(f: seq<Byte>, name: seq<Byte>, blklen: nat, n: nat)
    requires (blklen == 128 || blklen == 1024) && n <= |Blocks(f, |f|, 0, blklen)|
    ensures var items := [name] + Blocks(f, |f|, 0, blklen);
      Written(|f|, 0, items[1..n + 1]) <= f && Written(|f|, 0, items[1..]) == f
  {
    hide Blocks, Written, Flatten;
    var bs := Blocks(f, |f|, 0, blklen);
    var items := [name] + bs;
    assert items[1..] == bs && items[1..n + 1] == bs[..n];
    TrimmingExact(f, blklen, |f|);
    PlanHolds(f, blklen);
    FlattenAppend(bs[..n], bs[n..]);
    assert bs[..n] + bs[n..] == bs;
    if f == [] {
      NoBlocks(f, 0, blklen);
    }
    PrefixWritten(f, bs[..n], bs[n..]);
  }

  /** The first blocks of a plan, trimmed, are a prefix of the file. */
  lemma PrefixWritten(f: seq<Byte>, a: seq<seq<Byte>>, b: seq<seq<Byte>>)
    requires Flatten(a) + Flatten(b) == f + Fill(Sectors(|f|) - |f|)
    requires f == [] ==> Flatten(a) == []
    ensures Written(|f|, 0, a) <= f
  {
    hide Flatten, Fill, Sectors, Written;
    if f == [] {
      NoLengthKeeps(0, a);
    } else {
      TrimmingCuts(|f|, 0, a);
      var w := Flatten(a);
      assert w <= f + Fill(Sectors(|f|) - |f|);
      assert w[..Min(|f|, |w|)] <= f;
    }
  }

  // ------------------------------------------------------------------ where it fails

  function Ones(n: nat): seq<Move>
    decreases n
  {
    if n == 0 then [] else [Exchange(true, false, true)] + Ones(n - 1)
  }

  /** Undisturbed, every transfer of fewer than any number of sectors comes to its end. */
  lemma {:induction false} Completes(c: Config, y: System)
    requires c.items != [] && Inv(c, y) && y.s.rc == Running && y.s.attempts == 0
    requires if y.r.phase == Naming then y.s.k == 0 else y.r.phase == Filing && y.s.k == y.r.n + 1
    ensures Run(c, y, Ones(|c.items| - y.s.k + 1)).s.rc == OK
    decreases |c.items| - y.s.k
  {
    var m := Exchange(true, false, true);
    var n := |c.items| - y.s.k;
    var z := Apply(c, y, m);
    assert Ones(n + 1)[0] == m && Ones(n + 1)[1..] == Ones(n);
    MoveKeeps(c, y, m);
    if n > 0 {
      assert Ones(n)[1..] == Ones(n - 1);
      Completes(c, z);
    } else {
      assert Ones(1)[1..] == [];
    }
  }

  // ------------------------------------------------------------------ a complete file, and a sender that failed

  /** The moves after which the receiver has closed its file and the sender has failed, from a state in which the sender still
      runs: it gives up, or its tenth EOT stays without an answer that counts, which includes one that is heard. */
  predicate FailsClosed(c: Config, y: System, m: Move) {
    match m
    case Exchange(there, noticed, back) =>
      && AtEot(c, y.s) && y.s.attempts + 1 == RETRYMAX
      && if there then y.r.phase == Filing || y.r.phase == Closed
         else y.r.phase == Closed && !(noticed && y.r.errors + 1 >= RETRYMAX)
    case Nudge(heard) => heard && y.s.attempts + 1 == RETRYMAX && y.r.phase == Closed && y.r.errors + 1 < RETRYMAX
    case SenderQuits => y.r.phase == Closed
    case ReceiverQuits => false
  }

  predicate ClosedFailed(y: System) {
    y.r.phase == Closed && y.s.rc == Failed
  }

  lemma FailsClosedIff(c: Config, y: System, m: Move)
    requires c.items != [] && Inv(c, y) && y.s.rc == Running
    ensures ClosedFailed(Apply(c, y, m)) <==> FailsClosed(c, y, m)
  {
  }

  /** The sender fails at step j, with the file closed. */
  ghost predicate FailedAt(c: Config, y: System, ms: seq<Move>, j: nat)
    requires j < |ms|
  {
    Run(c, y, ms[..j]).s.rc == Running && FailsClosed(c, Run(c, y, ms[..j]), ms[j])
  }

  lemma FailedLater(c: Config, y: System, ms: seq<Move>, j: nat)
    requires 0 < j < |ms|
    ensures FailedAt(c, y, ms, j) <==> FailedAt(c, Apply(c, y, ms[0]), ms[1..], j - 1)
  {
    hide Apply, FailsClosed;
    assert ms[..j][0] == ms[0] && ms[..j][1..] == ms[1..][..j - 1];
  }

  /** A sender that has stopped stays as it is, and no file is closed any more. */
  lemma {:induction false} Idle(c: Config, y: System, ms: seq<Move>)
    requires y.s.rc != Running
    ensures Run(c, y, ms).s == y.s && (Run(c, y, ms).r.phase == Closed ==> y.r.phase == Closed)
    decreases |ms|
  {
    if ms != [] {
      Idle(c, Apply(c, y, ms[0]), ms[1..]);
    }
  }

  lemma {:induction false} StepsIdle(c: Config, y: System, ms: seq<Move>, j: nat)
    requires y.s.rc != Running && j < |ms|
    ensures !FailedAt(c, y, ms, j)
  {
    Idle(c, y, ms[..j]);
  }

  lemma {:induction false} ClosedFailedFrom(c: Config, y: System, ms: seq<Move>)
    requires c.items != [] && Inv(c, y) && y.s.rc == Running
    ensures ClosedFailed(Run(c, y, ms)) <==> Run(c, y, ms).r.phase == Closed && exists j :: 0 <= j < |ms| && FailedAt(c, y, ms, j)
    decreases |ms|
  {
    hide Apply, FailsClosed, Inv;
    if ms != [] {
      var z, rest := Apply(c, y, ms[0]), ms[1..];
      assert ms[..0] == [] && Run(c, y, ms[..0]) == y;
      FailsClosedIff(c, y, ms[0]);
      MoveKeeps(c, y, ms[0]);
      forall j | 0 < j < |ms| ensures FailedAt(c, y, ms, j) <==> FailedAt(c, z, rest, j - 1) {
        FailedLater(c, y, ms, j);
      }
      if z.s.rc == Running {
        ClosedFailedFrom(c, z, rest);
        RunningOn(c, y, ms[0]);
        hide FailedAt;
        if j :| 0 <= j < |rest| && FailedAt(c, z, rest, j) {
          assert FailedAt(c, y, ms, j + 1);
        }
        if j :| 0 <= j < |ms| && FailedAt(c, y, ms, j) {
          assert j != 0 && FailedAt(c, z, rest, j - 1);
        }
      } else {
        Idle(c, z, rest);
        assert FailedAt(c, y, ms, 0) <==> FailsClosed(c, y, ms[0]);
        forall j | 0 < j < |ms| ensures !FailedAt(c, y, ms, j) {
          StepsIdle(c, z, rest, j - 1);
        }
      }
    }
  }

  lemma RunningOn(c: Config, y: System, m: Move)
    requires Apply(c, y, m).s.rc == Running
    ensures !ClosedFailed(Apply(c, y, m))
  {
  }

  /** In every run: the receiver has the whole file closed and the sender has failed exactly if the file stays closed and at
      some step the sender gave up, or spent its tenth EOT, with that file closed. */
  lemma {:induction false} ClosedFailedIff(c: Config, ms: seq<Move>)
    requires c.items != []
    ensures ClosedFailed(Run(c, START, ms)) <==> Run(c, START, ms).r.phase == Closed && exists j :: 0 <= j < |ms| && FailedAt(c, START, ms, j)
    ensures ClosedFailed(Run(c, START, ms)) ==> Run(c, START, ms).r.out == Written(c.left, 0, c.items[1..])
  {
    hide Run, FailedAt;
    assert c.items[1..1] == [];
    ClosedFailedFrom(c, START, ms);
    LockStep(c, ms);
  }

  lemma {:induction false} RunMore(c: Config, y: System, a: seq<Move>, b: seq<Move>)
    ensures Run(c, y, a + b) == Run(c, Run(c, y, a), b)
    decreases |a|
  {
    hide Apply;
    if a == [] {
      assert a + b == b;
    } else {
      assert (a + b)[1..] == a[1..] + b;
      RunMore(c, Apply(c, y, a[0]), a[1..], b);
    }
  }

  /** Undisturbed up to sector n, for every n. */
  lemma {:induction false} UpTo(c: Config, n: nat)
    requires n < |c.items|
    ensures var y := Run(c, START, Ones(n + 1));
      Inv(c, y) && y.s == Sender(n + 1, 0, Running) && y.r.phase == Filing && y.r.n == n && y.r.errors == 0
    decreases n
  {
    var m := Exchange(true, false, true);
    assert c.items[1..1] == [];
    RunKeeps(c, START, Ones(n + 1));
    if n == 0 {
      assert Ones(1)[1..] == [] && Ones(1)[0] == m;
      assert Run(c, Apply(c, START, m), []) == Apply(c, START, m);
    } else {
      UpTo(c, n - 1);
      OnesMore(n);
      RunMore(c, START, Ones(n), [m]);
      var y := Run(c, START, Ones(n));
      assert [m][1..] == [] && Run(c, Apply(c, y, m), []) == Apply(c, y, m);
    }
  }

  lemma {:induction false} OnesMore(n: nat)
    ensures Ones(n + 1) == Ones(n) + [Exchange(true, false, true)]
    decreases n
  {
    var m := Exchange(true, false, true);
    if n > 0 {
      OnesMore(n - 1);
      assert [m] + (Ones(n - 1) + [m]) == ([m] + Ones(n - 1)) + [m];
    }
  }

  /** EOT arrives every time and is acknowledged every time, but only the last acknowledgement is heard. */
  function Unheard(n: nat): seq<Move>
    decreases n
  {
    if n == 0 then [Exchange(true, false, true)] else [Exchange(true, false, false)] + Unheard(n - 1)
  }

  lemma {:induction false} TenthEot(c: Config, y: System, n: nat)
    requires y.s.rc == Running && AtEot(c, y.s) && (y.r.phase == Filing || y.r.phase == Closed) && n + y.s.attempts + 1 == RETRYMAX
    ensures ClosedFailed(Run(c, y, Unheard(n)))
    decreases n
  {
    if n == 0 {
      assert Unheard(0)[1..] == [];
      var m := Exchange(true, false, true);
      assert Run(c, Apply(c, y, m), []) == Apply(c, y, m);
    } else {
      assert Unheard(n)[1..] == Unheard(n - 1);
      TenthEot(c, Apply(c, y, Exchange(true, false, false)), n - 1);
    }
  }

  /** There are such runs for every file, without anyone giving up. */
  lemma {:induction false} LateAck(c: Config) returns (ms: seq<Move>)
    requires c.items != []
    ensures SenderQuits !in ms && ReceiverQuits !in ms
    ensures ClosedFailed(Run(c, START, ms))
  {
    hide Run;
    UpTo(c, |c.items| - 1);
    var y := Run(c, START, Ones(|c.items|));
    TenthEot(c, y, 9);
    RunMore(c, START, Ones(|c.items|), Unheard(9));
    ms := Ones(|c.items|) + Unheard(9);
    OnlyExchanges(|c.items|, 9);
  }

  lemma {:induction false} OnlyExchanges(n: nat, k: nat)
    ensures forall m :: m in Ones(n) || m in Unheard(k) ==> m.Exchange?
    decreases n + k
  {
    if n > 0 { OnlyExchanges(n - 1, k); }
    if k > 0 { OnlyExchanges(n, k - 1); }
  }

  // ------------------------------------------------------------------ the next file

  /** The receiver waits in wcrx for a file whose sender has given up in wctx.  After that ymsndfiles goes on to the next file; a
      failure before that, in wctxpn, ends the batch. */
  predicate LeftBehind(y: System) {
    y.r.phase == Filing && y.s.rc == Failed && y.s.k > 0
  }

  /** The sectors d of the next file come to that receiver, which keeps to the length of its own. */
  function NextFile(c: Config, y: System, d: seq<seq<Byte>>, ms: seq<Move>): System {
    Run(Config(d, c.left), System(Sender(0, 0, Running), y.r), ms)
  }

  /** Bytes of the next file can get into this one. */
  ghost predicate Mixes(c: Config, y: System, d: seq<seq<Byte>>) {
    exists ms: seq<Move> :: NextFile(c, y, d, ms).r.out != y.r.out
  }

  predicate Room(c: Config, r: Receiver) {
    c.left == 0 || c.left != r.received
  }

  predicate Mixable(c: Config, r: Receiver, d: seq<seq<Byte>>) {
    Room(c, r) && (r.n % 256 == 255 || (r.n % 256 == 0 && |d| > 1))
  }

  /** The receiver has taken nothing of the next file, and will not. */
  predicate Untouched(c: Config, r0: Receiver, d: seq<seq<Byte>>, y: System) {
    && y.r.out == r0.out && y.r.received == r0.received && y.r.phase != Naming
    && (Room(c, r0) ==> y.r.n == r0.n && (y.r.phase == Filing && y.s.rc == Running ==> y.s.k == 0 || (y.s.k == 1 && r0.n % 256 == 0)))
  }

  lemma UntouchedKept(c: Config, r0: Receiver, d: seq<seq<Byte>>, y: System, m: Move)
    requires d != [] && !Mixable(c, r0, d) && Untouched(c, r0, d, y)
    ensures Untouched(c, r0, d, Apply(Config(d, c.left), y, m))
  {
    var e := Config(d, c.left);
    if m.Exchange? && m.there && y.s.rc == Running && y.r.phase == Filing && !AtEot(e, y.s) && !Room(c, r0) {
      assert Trimmed(c.left, y.r.received, d[y.s.k]) == if |d[y.s.k]| == 0 then d[y.s.k] else [];
    }
  }

  lemma {:induction false} RunUntouched(c: Config, r0: Receiver, d: seq<seq<Byte>>, y: System, ms: seq<Move>)
    requires d != [] && !Mixable(c, r0, d) && Untouched(c, r0, d, y)
    ensures Untouched(c, r0, d, Run(Config(d, c.left), y, ms))
    decreases |ms|
  {
    hide Apply, Untouched, Mixable;
    if ms != [] {
      UntouchedKept(c, r0, d, y, ms[0]);
      RunUntouched(c, r0, d, Apply(Config(d, c.left), y, ms[0]), ms[1..]);
    }
  }

  lemma MixesThen(c: Config, r: Receiver, d: seq<seq<Byte>>)
    requires r.phase == Filing && d != [] && (forall b :: b in d ==> b != []) && Mixable(c, r, d)
    ensures var e, y := Config(d, c.left), System(Sender(0, 0, Running), r); var m := Exchange(true, false, true);
      (if r.n % 256 == 255 then Run(e, y, [m]) else Run(e, y, [m, m])).r.out != r.out
  {
    var e, y, m := Config(d, c.left), System(Sender(0, 0, Running), r), Exchange(true, false, true);
    var y1 := Apply(e, y, m);
    assert d[0] in d && [m][1..] == [] && [m, m][1..] == [m];
    assert Run(e, y1, []) == y1;
    if r.n % 256 != 255 {
      assert d[1] in d;
      var y2 := Apply(e, y1, m);
      assert y2.r.out == r.out + Trimmed(c.left, r.received, d[1]);
      assert Run(e, y2, []) == y2;
    }
  }

  /** For every run that leaves a receiver behind: bytes of the next file can get into the file it waits for exactly if it has
      not all that it was told to expect, and has counted 255 sectors modulo 256, or 0 and the next file is not empty. */
  lemma {:induction false} MixesIff(c: Config, ms: seq<Move>, d: seq<seq<Byte>>)
    requires c.items != [] && d != [] && (forall b :: b in d ==> b != []) && LeftBehind(Run(c, START, ms))
    ensures Mixes(c, Run(c, START, ms), d) <==> Mixable(c, Run(c, START, ms).r, d)
  {
    hide Run, Mixable;
    var y := Run(c, START, ms);
    var e, y0, m := Config(d, c.left), System(Sender(0, 0, Running), y.r), Exchange(true, false, true);
    if Mixable(c, y.r, d) {
      MixesThen(c, y.r, d);
      if y.r.n % 256 == 255 {
        assert NextFile(c, y, d, [m]).r.out != y.r.out;
      } else {
        assert NextFile(c, y, d, [m, m]).r.out != y.r.out;
      }
    } else {
      forall more: seq<Move> ensures NextFile(c, y, d, more).r.out == y.r.out {
        RunUntouched(c, y.r, d, y0, more);
      }
    }
  }

  /** A receiver can be left behind after any sector. */
  lemma {:induction false} LeavesBehind(c: Config, n: nat) returns (ms: seq<Move>)
    requires n < |c.items|
    ensures LeftBehind(Run(c, START, ms)) && Run(c, START, ms).r.n == n
  {
    UpTo(c, n);
    RunMore(c, START, Ones(n + 1), [SenderQuits]);
    var y := Run(c, START, Ones(n + 1));
    assert [SenderQuits][1..] == [] && Run(c, Apply(c, y, SenderQuits), []) == Apply(c, y, SenderQuits);
    ms := Ones(n + 1) + [SenderQuits];
  }

  // ------------------------------------------------------------------ without a name

  /** wcrx and wctx without the sector with the name: item 0 is not sent. */
  const UNNAMED := System(Sender(1, 0, Running), Receiver(Filing, 0, 0, [], 0))

  /** The same then holds of the sectors alone. */
  lemma {:induction false} WithoutName(c: Config, ms: seq<Move>)
    requires c.items != []
    ensures var y := Run(c, UNNAMED, ms);
      && y.r.phase != Stopped(true)
      && (y.r.phase == Filing ==> y.s.k == y.r.n || y.s.k == y.r.n + 1)
      && y.r.n < |c.items| && y.r.out == Written(c.left, 0, c.items[1..y.r.n + 1])
      && (y.r.phase == Closed || y.s.rc == OK ==> y.r.out == Written(c.left, 0, c.items[1..]))
  {
    assert c.items[1..1] == [];
    RunKeeps(c, UNNAMED, ms);
    assert c.items[1..|c.items|] == c.items[1..];
  }

  /** But ymrcvfiles fetches a name in every case, so that an XMODEM sender, which starts with sector 1, gets nothing across
      to it. */
  const XMODEM := System(Sender(1, 0, Running), Receiver(Naming, 0, 0, [], 0))

  predicate Nameless(c: Config, y: System) {
    && y.r.out == [] && (y.r.phase == Naming || y.r.phase.Stopped?)
    && (y.s.rc == Running && y.r.phase == Naming && |c.items| > 1 ==> y.s.k == 1)
  }

  lemma NamelessStep(c: Config, y: System, m: Move)
    requires Nameless(c, y) && |c.items| > 1
    ensures Nameless(c, Apply(c, y, m))
    ensures m.Exchange? && m.there && y.s.rc == Running && y.r.phase == Naming ==> Apply(c, y, m).r.phase == Stopped(true)
  {
  }

  /** Whatever is sent that way, nothing is written, no sector is acknowledged, and the first that arrives ends it. */
  lemma {:induction false} XmodemRefused(c: Config, ms: seq<Move>)
    requires |c.items| > 1
    ensures var y := Run(c, XMODEM, ms);
      && y.r.out == [] && (y.s.rc == Running && y.r.phase == Naming ==> y.s.k == 1)
      && forall m: Move :: m.Exchange? && m.there && y.s.rc == Running && y.r.phase == Naming ==> Apply(c, y, m).r.phase == Stopped(true)
  {
    hide Apply;
    XmodemFrom(c, XMODEM, ms);
    forall m: Move ensures m.Exchange? && m.there && Run(c, XMODEM, ms).s.rc == Running && Run(c, XMODEM, ms).r.phase == Naming ==> Apply(c, Run(c, XMODEM, ms), m).r.phase == Stopped(true) {
      NamelessStep(c, Run(c, XMODEM, ms), m);
    }
  }

  lemma {:induction false} XmodemFrom(c: Config, y: System, ms: seq<Move>)
    requires Nameless(c, y) && |c.items| > 1
    ensures Nameless(c, Run(c, y, ms))
    decreases |ms|
  {
    hide Apply, Nameless;
    if ms != [] {
      NamelessStep(c, y, ms[0]);
      XmodemFrom(c, Apply(c, y, ms[0]), ms[1..]);
    }
  }
}

/** An undisturbed ZMODEM transfer of any file comes to its end, whichever side goes when. */
module ZDelivery {
  import opened Common
  import opened ZSession
  import ZSafety

  /** What happens on a line that loses and damages nothing, with nobody out of patience. */
  predicate QuietMove(m: Move) {
    m == SRuns || m == SLooks(Quiet) || m == STakes || m == RTakes(true)
  }

  /** A stretch of such moves, in any order and however often, in which each side has a turn at everything. */
  predicate Round(ms: seq<Move>) {
    && (forall m :: m in ms ==> QuietMove(m))
    && SRuns in ms && SLooks(Quiet) in ms && STakes in ms && RTakes(true) in ms
  }

  function Concat(rounds: seq<seq<Move>>): seq<Move>
    decreases |rounds|
  {
    if rounds == [] then [] else Concat(rounds[..|rounds| - 1]) + rounds[|rounds| - 1]
  }

  // ------------------------------------------------------------------ what is on the line

  /** Where a receiver is that reads well-formed frames: before a header, in data, or with an answer due. */
  datatype At = AtHdr | InData | OwesAck | Accepted

  function Read1(a: At, pos: int, k: Token): Option<(At, int)> {
    match k
    case Hdr(t, p) =>
      if a != AtHdr || p != pos then None else if t == ZDATA then Some((InData, pos)) else if t == ZEOF then Some((Accepted, pos)) else None
    case Packet(data, end) =>
      if a != InData then None
      else
        (match end
         case ZCRCW => Some((OwesAck, pos + |data|))
         case ZCRCE => Some((AtHdr, pos + |data|))
         case ZCRCG => Some((InData, pos + |data|))
         case ZCRCQ => None)
    case Junk => None
  }

  function ReadAll(a: At, pos: int, w: seq<Token>): Option<(At, int)>
    decreases |w|
  {
    if w == [] then Some((a, pos)) else
    var r := Read1(a, pos, w[0]);
    if r == None then None else ReadAll(r.value.0, r.value.1, w[1..])
  }

  lemma {:induction false} ReadOneMore(a: At, pos: int, w: seq<Token>, k: Token)
    requires ReadAll(a, pos, w) != None
    ensures var r := ReadAll(a, pos, w).value; ReadAll(a, pos, w + [k]) == Read1(r.0, r.1, k)
    decreases |w|
  {
    hide Read1;
    if w == [] {
      assert (w + [k])[1..] == [];
    } else {
      assert (w + [k])[1..] == w[1..] + [k];
      var r := Read1(a, pos, w[0]).value;
      ReadOneMore(r.0, r.1, w[1..], k);
    }
  }

  // ------------------------------------------------------------------ clean states

  /** Before the first ZDATA: the offer is made, on its way, taken, and answered. */
  predicate Offering(c: Config, y: System) {
    && !y.s.eofseen && y.s.blklen > 0 && !y.r.accepted
    && if y.s.pc == SOffer then y.s.errors == 0 && y.r.pc == RWait && y.fwd == [] && y.back == []
       else
         && y.s.pc == SName
         && if y.fwd == [] then y.r.pc == RHdr && y.r.rxbytes == 0 && y.r.first == ZRINIT && y.back == [Hdr(ZRPOS, 0)]
            else
              && y.back == []
              && ((y.r.pc == RWait && y.fwd == [Hdr(ZFILE, 0), Packet(c.info, ZCRCW)])
                  || (y.r.pc == RName && y.r.first == ZRINIT && y.fwd == [Packet(c.info, ZCRCW)]))
  }

  /** Where the receiver will be when it has read all that is on the line. */
  predicate Follows(s: Sender, a: At) {
    match s.pc
    case SHead | SGlance => a == AtHdr && !s.eofseen
    case SEnd => a == AtHdr
    case SBlock => a == InData && !s.eofseen
    case SPoll => a == if s.eofseen then AtHdr else InData
    case SSync(k) => if k == AtAck then a == OwesAck && !s.eofseen else k == AtEof && a == Accepted
    case _ => false
  }

  predicate Started(c: Config, y: System) {
    && y.s.sending && y.s.blklen > 0 && y.s.junkcount == 0 && y.s.off == y.s.txpos == y.s.bytcnt <= |c.file| && y.s.lastsync < y.s.bytcnt
    && y.r.first == ZRINIT
  }

  predicate Streaming(c: Config, y: System) {
    && Started(c, y) && !y.r.accepted && (y.r.pc == RHdr || y.r.pc == RData) && y.back == []
    && var r := ReadAll(if y.r.pc == RHdr then AtHdr else InData, y.r.rxbytes, y.fwd);
       r != None && r.value.1 == y.s.txpos && Follows(y.s, r.value.0)
  }

  /** The answer to ZCRCW or ZEOF is on its way. */
  predicate Answered(c: Config, y: System) {
    && Started(c, y) && y.fwd == []
    && ((y.s.pc == SSync(AtAck) && !y.s.eofseen && !y.r.accepted && y.r.pc == RHdr && y.r.rxbytes == y.s.txpos && y.back == [Hdr(ZACK, y.s.txpos)])
        || (y.s.pc == SSync(AtEof) && y.back == [Hdr(ZRINIT, 0)]))
  }

  predicate Finished(y: System) {
    y.s.pc == SDone(OK)
  }

  predicate Clean(c: Config, y: System) {
    !c.refuse && c.tries > 0 && (Offering(c, y) || Streaming(c, y) || Answered(c, y) || Finished(y))
  }

  // ------------------------------------------------------------------ how much there is still to do

  function Rank(s: Sender): nat {
    match s.pc
    case SOffer => 19
    case SName => 14
    case SSync(k) => if k == AtEof then 1 else 13
    case SGlance => 12
    case SHead => 11
    case SPoll => if s.eofseen then 5 else 9
    case SBlock => 8
    case SEnd => 4
    case _ => 0
  }

  /** Bytes, places and tokens that a transfer still has before it. */
  function Work(c: Config, y: System): nat {
    20 * (if y.s.pc == SOffer || y.s.pc == SName || !(0 <= y.s.off <= |c.file|) then |c.file| else |c.file| - y.s.off)
    + Rank(y.s) + 2 * |y.fwd| + |y.back|
  }

  /** A move has done something towards the end. */
  predicate Nearer(c: Config, y: System, z: System) {
    Finished(z) || Work(c, z) < Work(c, y)
  }

  lemma OfferingMoves(c: Config, y: System, m: Move)
    requires Clean(c, y) && Offering(c, y) && QuietMove(m)
    ensures var z := Apply(c, y, m); Clean(c, z) && (z == y || Nearer(c, y, z))
  {
    var z := Apply(c, y, m);
    if m == RTakes(true) && y.fwd != [] {
      assert [Hdr(ZFILE, 0), Packet(c.info, ZCRCW)][1..] == [Packet(c.info, ZCRCW)] && [Packet(c.info, ZCRCW)][1..] == [];
    } else if m == STakes && y.back != [] {
      assert [Hdr(ZRPOS, 0)][1..] == [] && ReadAll(AtHdr, 0, []) == Some((AtHdr, 0));
    }
  }

  lemma SenderStreams(c: Config, y: System)
    requires Clean(c, y) && Streaming(c, y)
    ensures var z := Apply(c, y, SRuns); Clean(c, z) && (z == y || Nearer(c, y, z))
  {
    hide ReadAll, CrcWalk;
    var z := Apply(c, y, SRuns);
    if y.s.pc == SHead || y.s.pc == SBlock || y.s.pc == SEnd {
      ReadOneMore(if y.r.pc == RHdr then AtHdr else InData, y.r.rxbytes, y.fwd, z.fwd[|y.fwd|]);
      assert z.fwd == y.fwd + [z.fwd[|y.fwd|]];
    } else {
      assert y.fwd + [] == y.fwd;
    }
  }

  lemma SenderLooks(c: Config, y: System)
    requires Clean(c, y) && Streaming(c, y)
    ensures var z := Apply(c, y, SLooks(Quiet)); Clean(c, z) && (z == y || Nearer(c, y, z))
  {
    hide ReadAll, CrcWalk;
    assert y.fwd + [] == y.fwd;
  }

  lemma ReceiverStreams(c: Config, y: System)
    requires Clean(c, y) && Streaming(c, y)
    ensures var z := Apply(c, y, RTakes(true)); Clean(c, z) && (z == y || Nearer(c, y, z))
  {
    hide CrcWalk, SStep;
    if y.fwd != [] {
      var a := if y.r.pc == RHdr then AtHdr else InData;
      var r := Read1(a, y.r.rxbytes, y.fwd[0]).value;
      if r.0 == OwesAck || r.0 == Accepted { LastToken(r.0, r.1, y.fwd[1..]); }
    }
  }

  /** Nothing follows what is to be answered. */
  lemma LastToken(a: At, pos: int, w: seq<Token>)
    requires ReadAll(a, pos, w) != None && (a == OwesAck || a == Accepted)
    ensures w == []
  {
  }

  lemma AnsweredMoves(c: Config, y: System, m: Move)
    requires Clean(c, y) && Answered(c, y) && QuietMove(m)
    ensures var z := Apply(c, y, m); Clean(c, z) && (z == y || Nearer(c, y, z))
  {
    hide CrcWalk;
    assert ReadAll(AtHdr, y.s.txpos, []) == Some((AtHdr, y.s.txpos));
    if m == STakes { assert y.back[1..] == []; }
  }

  lemma MoveKeeps(c: Config, y: System, m: Move)
    requires Clean(c, y) && QuietMove(m)
    ensures var z := Apply(c, y, m); Clean(c, z) && (z == y || Nearer(c, y, z))
  {
    hide Offering, Streaming, Answered, Apply;
    if Finished(y) {
      Over(c, y, m);
    } else if Offering(c, y) {
      OfferingMoves(c, y, m);
    } else if Answered(c, y) {
      AnsweredMoves(c, y, m);
    } else {
      match m
      case SRuns => SenderStreams(c, y);
      case SLooks(_) => SenderLooks(c, y);
      case STakes => assert Apply(c, y, STakes) == y by { NoReply(c, y); }
      case _ => ReceiverStreams(c, y);
    }
  }

  lemma Over(c: Config, y: System, m: Move)
    requires Finished(y) && QuietMove(m)
    ensures Finished(Apply(c, y, m))
  {
  }

  lemma NoReply(c: Config, y: System)
    requires Streaming(c, y)
    ensures Apply(c, y, STakes) == y
  {
  }

  /** Until the end one of the four moves always does something. */
  lemma SomethingToDo(c: Config, y: System) returns (m: Move)
    requires Clean(c, y) && !Finished(y)
    ensures QuietMove(m) && Apply(c, y, m) != y
  {
    hide CrcWalk, ReadAll, RStep;
    m := match y.s.pc
         case SOffer | SHead | SBlock | SEnd => SRuns
         case SPoll | SGlance => SLooks(Quiet)
         case _ => if y.back != [] then STakes else RTakes(true);
    var z := Apply(c, y, m);
    if m == RTakes(true) {
      Waiting(c, y);
      assert |z.fwd| < |y.fwd|;
    } else if m == STakes {
      assert |z.back| < |y.back|;
    } else {
      assert z.s.pc != y.s.pc;
    }
  }

  /** A sender that waits has something on the line for the receiver, or for itself. */
  lemma Waiting(c: Config, y: System)
    requires Clean(c, y) && (y.s.pc == SName || y.s.pc.SSync?) && y.back == []
    ensures y.fwd != [] && (y.fwd[0].Hdr? ==> Hunting(y.r))
  {
  }

  // ------------------------------------------------------------------ every schedule

  lemma {:induction false} RunMoves(c: Config, y: System, ms: seq<Move>)
    requires Clean(c, y) && forall m :: m in ms ==> QuietMove(m)
    ensures var z := Run(c, y, ms);
      && Clean(c, z) && (z == y || Nearer(c, y, z))
      && forall m :: m in ms && Apply(c, y, m) != y ==> z != y || Finished(y)
    decreases |ms|
  {
    hide Apply, Clean, Finished, Work;
    if ms != [] {
      var most, last := ms[..|ms| - 1], ms[|ms| - 1];
      assert ms == most + [last] && last in ms;
      RunMoves(c, y, most);
      var x := Run(c, y, most);
      MoveKeeps(c, x, last);
      if Finished(x) { Over(c, x, last); }
    }
  }

  lemma RoundNearer(c: Config, y: System, ms: seq<Move>)
    requires Clean(c, y) && Round(ms)
    ensures Clean(c, Run(c, y, ms)) && Nearer(c, y, Run(c, y, ms))
  {
    hide Apply, Clean, Work, Run;
    RunMoves(c, y, ms);
    if !Finished(y) {
      var m := SomethingToDo(c, y);
    }
  }

  lemma {:induction false} RunMore(c: Config, y: System, a: seq<Move>, b: seq<Move>)
    ensures Run(c, y, a + b) == Run(c, Run(c, y, a), b)
    decreases |b|
  {
    hide Apply;
    if b == [] {
      assert a + b == a;
    } else {
      assert (a + b)[..|a + b| - 1] == a + b[..|b| - 1];
      RunMore(c, y, a, b[..|b| - 1]);
    }
  }

  lemma {:induction false} RoundsNearer(c: Config, y: System, rounds: seq<seq<Move>>)
    requires Clean(c, y) && forall ms :: ms in rounds ==> Round(ms)
    ensures var z := Run(c, y, Concat(rounds)); Clean(c, z) && (Finished(z) || Work(c, z) + |rounds| <= Work(c, y))
    decreases |rounds|
  {
    hide Apply, Clean, Round, Work, Run;
    if rounds == [] {
      assert Run(c, y, []) == y by { NoMoves(c, y); }
    } else {
      var most, last := rounds[..|rounds| - 1], rounds[|rounds| - 1];
      assert last in rounds && forall ms :: ms in most ==> ms in rounds;
      RoundsNearer(c, y, most);
      var x := Run(c, y, Concat(most));
      RunMore(c, y, Concat(most), last);
      RoundNearer(c, x, last);
      if Finished(x) { RoundOver(c, x, last); }
    }
  }

  lemma NoMoves(c: Config, y: System)
    ensures Run(c, y, []) == y
  {
  }

  lemma {:induction false} RoundOver(c: Config, y: System, ms: seq<Move>)
    requires Finished(y) && (Round(ms) || forall m :: m in ms ==> QuietMove(m))
    ensures Finished(Run(c, y, ms))
    decreases |ms|
  {
    hide Apply, Finished;
    if ms != [] {
      assert forall m :: m in ms[..|ms| - 1] ==> m in ms;
      RoundOver(c, y, ms[..|ms| - 1]);
      Over(c, Run(c, y, ms[..|ms| - 1]), ms[|ms| - 1]);
    }
  }

  /** On a line that loses and damages nothing, every file of every size gets across, whatever buffer the receiver has announced and
      whichever side goes when: after twenty rounds for each byte and twenty more, in each of which each side has had a turn at
      everything, the sender has returned OK and the receiver has the file under its name. */
  lemma {:induction false} Delivery(c: Config, y: System, rounds: seq<seq<Move>>)
    requires Init(c, y) && y.fwd == [] && y.back == [] && y.s.errors == 0 && !c.refuse && c.tries > 0
    requires (forall ms :: ms in rounds ==> Round(ms)) && |rounds| > 20 * |c.file| + 19
    ensures var z := Run(c, y, Concat(rounds));
      z.s.pc == SDone(OK) && z.r.accepted && z.r.out == c.file && z.r.name == Some(c.info)
  {
    hide Run, Round;
    assert Offering(c, y) && Work(c, y) == 20 * |c.file| + 19;
    hide Init, Work, Clean;
    RoundsNearer(c, y, rounds);
    ZSafety.Safety(c, y, Concat(rounds));
  }
}

/** tryz and rzfile of zmrecv.c as an object, and what they keep against any peer. */
module ZRecvFile {
  import opened Common
  import opened Crc
  import opened ZSession
  import opened ZMonitor
  import opened ZSafety

  // ------------------------------------------------------------------ against any peer

  /** Whatever comes, rxbytes is the length of what has been written. */
  predicate Counts(r: Receiver) {
    && (r.name != None ==> r.rxbytes == |r.out|)
    && (r.pc == RHdr || r.pc == RData || r.pc == RDup ==> r.name != None)
    && (r.first == ZRINIT || r.first == ZSKIP || r.first == ZFERR)
  }

  /** The positions that the replies of rzfile carry: where the data written so far end. */
  predicate Asks(r: Receiver, u: Receiver, k: Token) {
    k.Hdr? && (k.t == ZRPOS || (k.t == ZACK && r.pc == RData)) ==> k.pos == |u.out|
  }

  /** What was written is only ever added to, by the data of one good subpacket taken in a frame whose position matched,
      until a name is accepted and the file starts anew. */
  predicate Grows(r: Receiver, ev: REvent, u: Receiver) {
    || u.out == r.out
    || (r.pc == RName && u.out == [])
    || (r.pc == RData && ev.Good? && u.out == r.out + ev.data)
  }

  predicate StepOk(r: Receiver, ev: REvent, u: Receiver, out: seq<Token>) {
    && Counts(u) && Grows(r, ev, u) && (forall k :: k in out ==> Asks(r, u, k))
    && (u.pc == RData && r.pc != RData ==> ev.Header? && ev.t == ZDATA && ev.pos == |r.out|)
    && (u.accepted && !r.accepted ==> ev.Header? && ev.t == ZEOF && ev.pos == |u.out|)
  }

  lemma FileHeaderStep(c: Config, r: Receiver, t: Kind, pos: int, closes: bool)
    requires Counts(r) && r.pc == RHdr
    ensures var (u, out) := OnFileHeader(c, r, t, pos, closes); StepOk(r, Header(t, pos, closes), u, out)
  {
  }

  lemma TryHeaderStep(c: Config, r: Receiver, t: Kind, pos: int, closes: bool)
    requires Counts(r) && r.pc == RWait
    ensures var (u, out) := OnTryHeader(c, r, t); StepOk(r, Header(t, pos, closes), u, out)
  {
  }

  lemma PacketStep(c: Config, r: Receiver, data: seq<Byte>, end: End)
    requires Counts(r)
    ensures var (u, out) := RStep(c, r, Good(data, end)); StepOk(r, Good(data, end), u, out)
  {
  }

  /** What is written stays in step with rxbytes and grows only by good data under the right position; what is asked for
      or acknowledged is where it ends; ZEOF is accepted only there. */
  lemma {:induction false} ReceiverStep(c: Config, r: Receiver, ev: REvent)
    requires Counts(r)
    ensures var (u, out) := RStep(c, r, ev); StepOk(r, ev, u, out)
  {
    hide OnFileHeader, OnTryHeader, OnData, OnName1;
    if ev.Good? {
      PacketStep(c, r, ev.data, ev.end);
    } else if ev.Header? && r.pc == RHdr {
      FileHeaderStep(c, r, ev.t, ev.pos, ev.closes);
    } else if ev.Header? && r.pc == RWait {
      TryHeaderStep(c, r, ev.t, ev.pos, ev.closes);
    }
  }

  class FileReceiver {
    const c: Config
    var pc: RPc
    /** tryzhdrtype. */
    var first: Kind
    var tries: int
    var n: int
    var name: Option<seq<Byte>>
    var rxbytes: int
    /** What has been written to the open file. */
    var out: seq<Byte>
    var accepted: bool
    var sent: seq<Token>

    ghost function State(): Receiver
      reads this
    {
      Receiver(pc, first, tries, n, name, rxbytes, out, accepted)
    }

    /** zmrcvfiles, waiting in tryz. */
    constructor (c: Config)
      ensures this.c == c && State() == Receiver(RWait, ZRINIT, c.tries, 0, None, 0, [], false) && sent == []
    {
      this.c, pc, first, tries, n, name := c, RWait, ZRINIT, c.tries, 0, None;
      rxbytes, out, accepted, sent := 0, [], false, [];
    }

    method Send(k: Token)
      modifies this`sent
      ensures sent == old(sent) + [k]
    {
      sent := sent + [k];
    }

    /** The head of the loop in tryz. */
    method TryZ()
      modifies this
      ensures var (u, o) := ZSession.TryZ(old(State())); State() == u && sent == old(sent) + o
    {
      assert sent + [] == sent;
      if tries <= 0 {
        pc := RStop;
        return;
      }
      tries := tries - 1;
      Send(Hdr(first, 0));
      if first == ZSKIP { first := ZRINIT; }
      pc := RWait;
    }

    method StartTryZ()
      modifies this
      ensures var (u, o) := ZSession.StartTryZ(c, old(State())); State() == u && sent == old(sent) + o
    {
      hide ZSession.TryZ;
      tries := c.tries;
      TryZ();
    }

    method TryHeader(t: Kind)
      modifies this
      ensures var (u, o) := OnTryHeader(c, old(State()), t); State() == u && sent == old(sent) + o
    {
      hide ZSession.TryZ;
      assert sent + [] == sent;
      match t
      case ZFILE =>
        first := ZRINIT;
        pc := RName;
      case ZSINIT => pc := RAttn;
      case ZCOMMAND => pc := RCommand;
      case ZFREECNT => Send(Hdr(ZACK, c.free));
      case ZCOMPL =>
      case ZRINIT | ZFIN | TERROR | HANGUP | ZCAN => pc := RStop;
      case _ => TryZ();
    }

    /** The head of the loop in rzfile. */
    method Ask()
      modifies this`pc, this`sent
      ensures var (u, o) := ZSession.Ask(old(State())); State() == u && sent == old(sent) + o
    {
      Send(Hdr(ZRPOS, rxbytes));
      pc := RHdr;
    }

    /** A complaint that counts, with the Attn string before it or not. */
    method Complain(attn: bool)
      modifies this`pc, this`n, this`sent
      ensures var (u, o) := ZSession.Complain(old(State()), if attn then Attn(c) else []); State() == u && sent == old(sent) + o
    {
      assert sent + [] == sent;
      n := n - 1;
      if n < 0 {
        pc := RStop;
        return;
      }
      if attn && c.attn { Send(Junk); }
      Ask();
    }

    method FileHeader(t: Kind, pos: int, closes: bool)
      modifies this
      ensures var (u, o) := OnFileHeader(c, old(State()), t, pos, closes); State() == u && sent == old(sent) + o
    {
      hide ZSession.StartTryZ, ZSession.Complain;
      assert sent + [] == sent;
      match t
      case ZCAN | HANGUP => pc := RStop;
      case TERROR => Complain(true);
      case ZFILE => pc := RDup;
      case ZEOF =>
        if pos != rxbytes { return; }
        if !closes {
          first := ZFERR;
          pc := RStop;
          return;
        }
        accepted := true;
        StartTryZ();
      case ZSKIP => StartTryZ();
      case ZDATA =>
        if pos != rxbytes {
          Complain(true);
        } else {
          pc := RData;
        }
      case _ => Complain(false);
    }

    /** procheader on the name and details, and rzfile up to its first ZRPOS. */
    method NameBlock(data: seq<Byte>, end: End)
      modifies this
      ensures var (u, o) := OnName1(c, old(State()), data, end); State() == u && sent == old(sent) + o
    {
      hide ZSession.StartTryZ;
      if end != ZCRCW {
        Send(Hdr(ZNAK, 0));
        pc := RWait;
        return;
      }
      if c.refuse {
        first := ZFERR;
        StartTryZ();
        return;
      }
      name := Some(data);
      rxbytes := 0;
      out := [];
      accepted := false;
      n := 20;
      Ask();
    }

    /** putsec and what follows a good subpacket. */
    method PutSec(data: seq<Byte>, end: End)
      modifies this
      ensures var (u, o) := OnData(old(State()), data, end); State() == u && sent == old(sent) + o
    {
      assert sent + [] == sent;
      n := 20;
      out := out + data;
      rxbytes := rxbytes + |data|;
      if end == ZCRCW || end == ZCRCQ { Send(Hdr(ZACK, rxbytes)); }
      if end == ZCRCW || end == ZCRCE { pc := RHdr; }
    }

    method BadData(code: Kind)
      modifies this
      ensures var (u, o) := OnBadData(c, old(State()), code); State() == u && sent == old(sent) + o
    {
      hide ZSession.Complain;
      assert sent + [] == sent;
      match code
      case ZCAN | HANGUP => pc := RStop;
      case TERROR => Complain(true);
      case TIMEOUT => Complain(false);
      case _ => Ask();
    }

    method Step(ev: REvent)
      modifies this
      ensures var (u, o) := RStep(c, old(State()), ev); State() == u && sent == old(sent) + o
    {
      hide OnTryHeader, OnFileHeader, OnName1, OnData, OnBadData;
      assert sent + [] == sent;
      match ev
      case Header(t, pos, closes) =>
        match pc {
          case RWait => TryHeader(t);
          case RHdr => FileHeader(t, pos, closes);
          case _ =>
        }
      case Good(data, end) =>
        match pc {
          case RName => NameBlock(data, end);
          case RAttn =>
            Send(if end == ZCRCW then Hdr(ZACK, 1) else Hdr(ZNAK, 0));
            pc := RWait;
          case RCommand =>
            Send(if end == ZCRCW then Hdr(ZCOMPL, 0) else Hdr(ZNAK, 0));
            pc := if end == ZCRCW then RStop else RWait;
          case RData => PutSec(data, end);
          case RDup => Ask();
          case _ =>
        }
      case Bad(code) =>
        match pc {
          case RName | RAttn | RCommand =>
            Send(Hdr(ZNAK, 0));
            pc := RWait;
          case RData => BadData(code);
          case RDup => Ask();
          case _ =>
        }
    }

    /** rzfiles on everything that comes. */
    method RzFiles(evs: seq<REvent>)
      requires sent == [] && Counts(State())
      modifies this
      ensures (State(), sent) == RRun(c, old(State()), evs)
      ensures name != None ==> rxbytes == |out|
    {
      hide RStep;
      var i := 0;
      assert evs[..0] == [];
      while i < |evs|
        invariant 0 <= i <= |evs| && (State(), sent) == RRun(c, old(State()), evs[..i])
        invariant Counts(State())
      {
        ReceiverStep(c, State(), evs[i]);
        Step(evs[i]);
        assert evs[..i + 1][..i] == evs[..i];
        i := i + 1;
      }
      assert evs[..i] == evs;
    }
  }
}

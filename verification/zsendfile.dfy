/** zmsend.c as an object: its statics are fields, its functions methods, a goto an assignment to `pc`. */
module ZSendFile {
  import opened Common
  import opened Crc
  import opened ZSession
  import opened ZSafety
  import opened ZSender
  import opened ZMonitor

  lemma Advance(c: Config, s: Sender)
    ensures var (u, data) := ReadOn(c, s); data != [] ==> s.off < u.off <= |c.file|
  {
  }

  class FileSender {
    const c: Config
    var pc: SPc
    var errors: nat
    var sending: bool
    /** Position of the open file. */
    var off: nat
    var txpos: int
    var bytcnt: int
    var maxbytcnt: int
    var lrxpos: int
    var lastsync: int
    var beenhere: nat
    var blklen: nat
    var eofseen: bool
    var junkcount: nat
    var newcnt: int
    var txhdr: int
    var skipsize: int
    /** Everything put on the line. */
    var sent: seq<Token>

    ghost function State(): Sender
      reads this
    {
      Sender(pc, errors, sending, off, txpos, bytcnt, maxbytcnt, lrxpos, lastsync, beenhere, blklen, eofseen, junkcount, newcnt, txhdr, skipsize)
    }

    /** sendzfile with the file open and nothing sent of it. */
    constructor (c: Config, blklen: nat)
      requires blklen > 0
      ensures this.c == c && Fresh(State()) && errors == 0 && sent == []
    {
      this.c, this.blklen, sent := c, blklen, [];
      pc, errors, sending, off := SOffer, 0, false, 0;
      txpos, bytcnt, maxbytcnt, lrxpos, lastsync, beenhere := 0, -1, -1, 0, 0, 0;
      eofseen, junkcount, newcnt, txhdr, skipsize := false, 0, 0, 0, 0;
    }

    method Send(k: Token)
      modifies this`sent
      ensures sent == old(sent) + [k]
    {
      sent := sent + [k];
    }

    method ZFilBuf() returns (data: seq<Byte>)
      modifies this`off, this`eofseen
      ensures (State(), data) == ZSession.ZFilBuf(c, old(State()))
    {
      data := Slice(c.file, off, blklen);
      off := off + |data|;
      if |data| < blklen { eofseen := true; }
    }

    method ReadOn() returns (data: seq<Byte>)
      modifies this`off, this`eofseen, this`bytcnt, this`maxbytcnt
      ensures (State(), data) == ZSession.ReadOn(c, old(State()))
    {
      data := ZFilBuf();
      bytcnt := bytcnt + |data|;
      if bytcnt > maxbytcnt { maxbytcnt := bytcnt; }
    }

    /** A ZCRC request: a walk over the file that leaves its position, bytcnt and Eofseen behind. */
    method Walk(limit: int)
      modifies this`off, this`eofseen, this`bytcnt, this`maxbytcnt
      ensures State() == CrcWalk(c, old(State()), limit)
    {
      hide ZSession.ReadOn;
      assert State().bytcnt == bytcnt;
      Advance(c, State());
      var data := ReadOn();
      while data != [] && bytcnt < limit
        invariant CrcWalk(c, old(State()), limit) == if data != [] && bytcnt < limit then CrcWalk(c, State(), limit) else State()
        invariant off <= |c.file| || data == []
        decreases data != [], if off < |c.file| then |c.file| - off else 0
      {
        Advance(c, State());
        data := ReadOn();
      }
    }

    method Checksum(limit: int)
      modifies this
      ensures var (t, out) := CrcRequest(c, old(State()), limit); State() == t && sent == old(sent) + out
    {
      hide CrcWalk, FileCrc, Slice;
      off := 0;
      bytcnt := 0;
      Walk(limit);
      txhdr := FileCrc(Slice(c.file, 0, off));
      sent := sent + [Junk, Hdr(ZCRC, txhdr)];
    }

    /** fseek, and the counters that go with the position. */
    method Seek(pos: nat)
      modifies this`off, this`lrxpos, this`txpos, this`bytcnt
      ensures State() == old(State()).(off := pos, lrxpos := pos, txpos := pos, bytcnt := pos)
    {
      off := pos;
      bytcnt := pos;
      lrxpos := pos;
      txpos := pos;
    }

    method StartAt(pos: nat)
      modifies this
      ensures State() == ZSession.StartAt(old(State()), pos) && sent == old(sent)
    {
      Seek(pos);
      maxbytcnt := bytcnt;
      lastsync := maxbytcnt - 1;
      junkcount := 0;
      beenhere := 0;
      sending := true;
      pc := SHead;
    }

    /** The answers to ZFILE. */
    method AnswerToName(t: Kind, pos: int)
      modifies this
      ensures var (u, out) := OnName(c, old(State()), t, pos); State() == u && sent == old(sent) + out
    {
      hide CrcRequest, ZSession.StartAt;
      assert sent + [] == sent;
      match t
      case ZRINIT => pc := SEat;
      case ZRQINIT | ZCAN | TIMEOUT | ZABORT | ZFIN => pc := SDone(Failed);
      case ZCRC => Checksum(pos);
      case ZFERR => pc := SDone(Failed);
      case ZSKIP => pc := SDone(Skipped);
      case ZRPOS =>
        if pos < 0 {
          pc := SDone(Failed);
        } else {
          if pos > 0 { skipsize := pos; }
          StartAt(pos);
        }
      case _ => pc := SOffer;
    }

    method BlockEnd(n: nat) returns (e: End)
      modifies this`newcnt
      ensures var (k, room) := ZSession.BlockEnd(c, old(State()), n); e == k && State() == old(State()).(newcnt := room)
    {
      if eofseen { return ZCRCE; }
      if junkcount > 3 { return ZCRCW; }
      if bytcnt == lastsync { return ZCRCW; }
      if c.rxbuflen != 0 {
        newcnt := newcnt - n;
        if newcnt <= 0 { return ZCRCW; }
      }
      return ZCRCG;
    }

    method Count(n: nat)
      modifies this`txpos, this`bytcnt, this`maxbytcnt
      ensures State() == old(State()).(txpos := old(txpos) + n, bytcnt := old(txpos) + n, maxbytcnt := Max(old(maxbytcnt), old(txpos) + n))
    {
      txpos := txpos + n;
      bytcnt := txpos;
      if bytcnt > maxbytcnt { maxbytcnt := bytcnt; }
    }

    /** One turn of the sending loop up to its TCHECK. */
    method Block()
      modifies this
      ensures var (t, out) := SendBlock(c, old(State())); State() == t && sent == old(sent) + out
    {
      hide ZSession.ZFilBuf, ZSession.BlockEnd, Slice;
      var data := ZFilBuf();
      var e := BlockEnd(|data|);
      Send(Packet(data, e));
      Count(|data|);
      if e == ZCRCW {
        junkcount := 0;
        pc := SSync(AtAck);
      } else {
        pc := SPoll;
      }
    }

    method Reposition(pos: nat) returns (code: Kind)
      modifies this
      ensures var r := ZSession.Reposition(old(State()), pos); r == Return(State(), code) && sent == old(sent)
    {
      Seek(pos);
      eofseen := false;
      if lastsync == pos {
        beenhere := beenhere + 1;
        if beenhere > 12 { return TERROR; }
        if beenhere > 4 && blklen > 32 { blklen := blklen / 2; }
      } else {
        beenhere := 0;
      }
      lastsync := pos;
      return ZRPOS;
    }

    /** getinsync on one header: a code to return, or nothing while it waits on. */
    method GetInSync(flag: bool, t: Kind, pos: int) returns (code: Option<Kind>)
      modifies this
      ensures match ZSession.GetInSync(old(State()), flag, t, pos)
              case Return(u, k) => code == Some(k) && State() == u && sent == old(sent)
              case Stay(u, out) => code == None && State() == u && sent == old(sent) + out
    {
      hide ZSession.Reposition;
      match t
      case HANGUP => return Some(HANGUP);
      case ZCAN | ZABORT | ZFIN | TIMEOUT => return Some(TERROR);
      case ZRPOS =>
        if pos > bytcnt { return Some(ZRPOS); }
        if pos < 0 { return Some(TERROR); }
        var k := Reposition(pos);
        return Some(k);
      case ZACK =>
        lrxpos := pos;
        if flag || txpos == pos { return Some(ZACK); }
        sent := sent + [];
        return None;
      case ZRINIT => return Some(ZRINIT);
      case ZSKIP => return Some(ZSKIP);
      case _ =>
        Send(Hdr(ZNAK, txhdr));
        return None;
    }

    /** The label gotack. */
    method GotAck(code: Kind)
      modifies this`pc
      ensures State() == ZSession.GotAck(old(State()), code)
    {
      match code
      case ZRINIT | ZSKIP => pc := SDone(Skipped);
      case ZACK | ZRPOS => pc := SGlance;
      case _ => pc := SDone(Failed);
    }

    /** The label egotack. */
    method EGotAck(code: Kind)
      modifies this`pc
      ensures State() == AfterEof(old(State()), code)
    {
      match code
      case ZACK =>
      case ZRPOS => pc := SHead;
      case ZRINIT => pc := SDone(OK);
      case ZSKIP => pc := SDone(Skipped);
      case _ => pc := SDone(Failed);
    }

    /** A header for getinsync, and what its caller does with the code. */
    method Sync(k: Caller, t: Kind, pos: int)
      requires pc == SSync(k)
      modifies this
      ensures var (u, out) := OnSync(old(State()), k, t, pos); State() == u && sent == old(sent) + out
    {
      hide ZSession.GetInSync, ZSession.GotAck, AfterEof;
      assert sent + [] == sent;
      var code := GetInSync(k == AtGlance || k == AtPoll, t, pos);
      if code == None { return; }
      match k
      case AtAck | AtGlance => GotAck(code.value);
      case AtPoll =>
        if code.value == ZACK {
          pc := if eofseen then SEnd else SBlock;
        } else {
          Send(Packet([], ZCRCE));
          GotAck(code.value);
        }
      case AtEof => EGotAck(code.value);
    }

    /** A look at the line. */
    method LookAt(look: Look)
      modifies this
      ensures State() == OnLook(old(State()), look) && sent == old(sent)
    {
      match pc
      case SEat =>
        if look == Pad { pc := SName; } else if look != Noise { pc := SOffer; }
      case SPoll =>
        match look {
          case Lost => pc := SDone(Failed);
          case Pad => pc := SSync(AtPoll);
          case Noise =>
            junkcount := junkcount + 1;
            pc := if eofseen then SEnd else SBlock;
          case Quiet => pc := if eofseen then SEnd else SBlock;
        }
      case SGlance => pc := if look == Lost then SDone(Failed) else if look == Pad then SSync(AtGlance) else SHead;
      case _ =>
    }

    /** What is done without waiting. */
    method Proceed()
      modifies this
      ensures var (u, out) := SStep(c, old(State()), Go); State() == u && sent == old(sent) + out
    {
      hide SendBlock;
      assert sent + [] == sent;
      match pc
      case SOffer =>
        errors := errors + 1;
        if errors < 11 {
          sent := sent + [Hdr(ZFILE, 0), Packet(c.info, ZCRCW)];
          txhdr := 0;
          pc := SName;
        } else {
          pc := SDone(Failed);
        }
      case SHead =>
        newcnt := c.rxbuflen;
        txhdr := txpos;
        pc := SBlock;
        Send(Hdr(ZDATA, txpos));
      case SBlock => Block();
      case SEnd =>
        txhdr := txpos;
        pc := SSync(AtEof);
        Send(Hdr(ZEOF, txpos));
      case _ =>
    }

    method Step(ev: SEvent)
      modifies this
      ensures var (u, out) := SStep(c, old(State()), ev); State() == u && sent == old(sent) + out
    {
      hide OnName, OnSync, SendBlock, OfferFile;
      assert sent + [] == sent;
      match ev
      case Go => Proceed();
      case Seen(look) => LookAt(look);
      case Reply(t, pos) =>
        match pc
        case SName => AnswerToName(t, pos);
        case SSync(k) => Sync(k, t, pos);
        case _ =>
    }

    /** zsendfile against everything that happens on the line: what it sends is SRun's, so each data frame labelled p
        carries the file from p. */
    method ZSendFile(evs: seq<SEvent>)
      requires Fresh(State()) && sent == []
      modifies this
      ensures (State(), sent) == SRun(c, old(State()), evs)
      ensures Allows(Labels(c), Nowhere, sent) && (sending ==> off == txpos == bytcnt <= maxbytcnt)
    {
      hide SStep;
      var i := 0;
      assert evs[..0] == [];
      while i < |evs|
        invariant 0 <= i <= |evs| && (State(), sent) == SRun(c, old(State()), evs[..i])
      {
        Step(evs[i]);
        assert evs[..i + 1][..i] == evs[..i];
        i := i + 1;
      }
      assert evs[..i] == evs;
      AnyPeer(c, old(State()), evs);
    }
  }
}

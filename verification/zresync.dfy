/** What each side of a ZMODEM transfer does about errors, and exactly when it gives up. */
module ZResync {
  import opened Common
  import opened Crc
  import opened ZSession
  import opened ZMonitor
  import opened ZSafety
  import opened ZSender
  import opened ZRecvFile

  // ------------------------------------------------------------------ the sender

  /** Half, from the fifth repeat on, but not from 32 down. */
  function Shorter(blklen: nat, repeats: nat): nat {
    if repeats > 4 && blklen > 32 then blklen / 2 else blklen
  }

  /** A request for a position already passed fails the sender exactly if it is the thirteenth repeat of the last one.  Otherwise
      everything is at that position, Eofseen is clear, and the block length is halved from the fifth repeat on. */
  lemma PositionGranted(c: Config, s: Sender, p: nat)
    requires SenderOk(s) && s.sending && s.pc.SSync? && s.beenhere <= 12 && p <= s.bytcnt
    ensures var t := SStep(c, s, Reply(ZRPOS, p)).0; var repeats := if s.lastsync == p then s.beenhere + 1 else 0;
      && (t.pc == SDone(Failed) <==> repeats == 13)
      && (repeats < 13 ==>
            && t.off == t.txpos == t.bytcnt == p && !t.eofseen && t.sending
            && t.lastsync == p && t.beenhere == repeats && t.blklen == Shorter(s.blklen, repeats)
            && t.pc == if s.pc.k == AtEof then SHead else SGlance)
  {
  }

  /** On a quiet line the next header is then ZDATA for it, with the file's bytes from there behind it. */
  lemma NextAt(c: Config, s: Sender, p: nat)
    requires SenderOk(s) && s.sending && s.pc == SSync(AtAck) && s.beenhere <= 12 && p <= s.bytcnt && !(s.lastsync == p && s.beenhere == 12)
    ensures var (t, out) := SRun(c, s, [Reply(ZRPOS, p)] + ([Seen(Quiet)] + ([Go] + [Go])));
      |out| == 2 && out[0] == Hdr(ZDATA, p) && out[1].Packet? && out[1].data == Slice(c.file, p, t.blklen)
  {
    PositionGranted(c, s, p);
    var s1 := SStep(c, s, Reply(ZRPOS, p)).0;
    Granted(c, s, p);
    var s2 := SStep(c, s1, Seen(Quiet)).0;
    var s3 := SStep(c, s2, Go).0;
    Heads(c, s1);
    hide SStep, Slice;
    SRunFirst(c, s, Reply(ZRPOS, p), [Seen(Quiet)] + ([Go] + [Go]));
    SRunFirst(c, s1, Seen(Quiet), [Go] + [Go]);
    SRunFirst(c, s2, Go, [Go]);
    assert [Go] == [Go] + [];
    SRunFirst(c, s3, Go, []);
    RunNone(c, SStep(c, s3, Go).0);
    hide SRun;
  }

  lemma Granted(c: Config, s: Sender, p: nat)
    requires SenderOk(s) && s.pc == SSync(AtAck)
    ensures SStep(c, s, Reply(ZRPOS, p)).1 == []
  {
  }

  /** From there a header and a block. */
  lemma Heads(c: Config, s: Sender)
    requires s.pc == SGlance
    ensures var (s2, o2) := SStep(c, s, Seen(Quiet)); var (s3, o3) := SStep(c, s2, Go); var (s4, o4) := SStep(c, s3, Go);
      && o2 == [] && o3 == [Hdr(ZDATA, s.txpos)] && |o4| == 1 && o4[0].Packet? && o4[0].data == Slice(c.file, s.off, s.blklen) && s4.blklen == s.blklen
  {
    hide Slice;
  }

  /** The same request over and over, each time after a header and a block. */
  function Insisting(p: nat, times: nat): seq<SEvent>
    decreases times
  {
    if times == 0 then [] else Insisting(p, times - 1) + [Reply(ZRPOS, p), Seen(Quiet), Go, Go]
  }

  /** The block length after some repeats. */
  function Shortened(blklen: nat, repeats: nat): nat
    decreases repeats
  {
    if repeats == 0 then blklen else Shorter(Shortened(blklen, repeats - 1), repeats)
  }

  lemma {:induction false} SRunMore(c: Config, s: Sender, a: seq<SEvent>, b: seq<SEvent>)
    ensures var (t, out) := SRun(c, s, a); var (u, more) := SRun(c, t, b); SRun(c, s, a + b) == (u, out + more)
    decreases |b|
  {
    hide SStep;
    var (t, out) := SRun(c, s, a);
    if b == [] {
      assert a + b == a && out + [] == out;
    } else {
      var before := b[..|b| - 1];
      assert (a + b)[..|a + b| - 1] == a + before;
      SRunMore(c, s, a, before);
      var (u, more) := SRun(c, t, before);
      assert out + more + SStep(c, u, b[|b| - 1]).1 == out + (more + SStep(c, u, b[|b| - 1]).1);
    }
  }

  lemma OneCycle(c: Config, s: Sender, p: nat)
    requires SenderOk(s) && s.sending && s.pc == SSync(AtAck) && s.beenhere <= 12 && p <= s.bytcnt && s.junkcount == 0
    requires p + s.blklen <= |c.file| && !(s.lastsync == p && s.beenhere == 12)
    ensures var t := SRun(c, s, [Reply(ZRPOS, p), Seen(Quiet), Go, Go]).0; var repeats := if s.lastsync == p then s.beenhere + 1 else 0;
      && SenderOk(t) && t.sending && t.pc == SSync(AtAck) && t.junkcount == 0 && p <= t.bytcnt
      && t.lastsync == p && t.beenhere == repeats && t.blklen == Shorter(s.blklen, repeats)
  {
    PositionGranted(c, s, p);
    hide SRun, SStep, SenderOk;
    FourSteps(c, s, Reply(ZRPOS, p), Seen(Quiet), Go, Go);
    var s1 := SStep(c, s, Reply(ZRPOS, p)).0;
    var s2 := SStep(c, s1, Seen(Quiet)).0;
    var s3 := SStep(c, s2, Go).0;
    SenderKeeps(c, s, Reply(ZRPOS, p));
    SenderKeeps(c, s1, Seen(Quiet));
    SenderKeeps(c, s2, Go);
    SenderKeeps(c, s3, Go);
    Begins(c, s, p);
    Cycled(c, s1, p);
  }

  lemma FourSteps(c: Config, s: Sender, e1: SEvent, e2: SEvent, e3: SEvent, e4: SEvent)
    ensures SRun(c, s, [e1, e2, e3, e4]).0 == SStep(c, SStep(c, SStep(c, SStep(c, s, e1).0, e2).0, e3).0, e4).0
  {
    hide SStep;
    var s1 := SStep(c, s, e1).0;
    var s2 := SStep(c, s1, e2).0;
    var s3 := SStep(c, s2, e3).0;
    assert [e1, e2, e3, e4] == [e1] + [e2, e3, e4] && [e2, e3, e4] == [e2] + [e3, e4] && [e3, e4] == [e3] + [e4] && [e4] == [e4] + [];
    hide SRun;
    SRunFirst(c, s, e1, [e2, e3, e4]);
    SRunFirst(c, s1, e2, [e3, e4]);
    SRunFirst(c, s2, e3, [e4]);
    SRunFirst(c, s3, e4, []);
    RunNone(c, SStep(c, s3, e4).0);
  }

  lemma RunNone(c: Config, s: Sender)
    ensures SRun(c, s, []) == (s, [])
  {
  }

  lemma Begins(c: Config, s: Sender, p: nat)
    requires SenderOk(s) && s.sending && s.pc == SSync(AtAck) && s.beenhere <= 12 && p <= s.bytcnt && !(s.lastsync == p && s.beenhere == 12)
    ensures var t := SStep(c, s, Reply(ZRPOS, p)).0; t.junkcount == s.junkcount && t.blklen > 0 && t.pc == SGlance
  {
  }

  lemma Cycled(c: Config, s: Sender, p: nat)
    requires s.pc == SGlance && s.off == s.txpos == s.bytcnt == s.lastsync == p && !s.eofseen && s.sending && s.blklen > 0 && s.junkcount == 0
    requires p + s.blklen <= |c.file|
    ensures var t := SStep(c, SStep(c, SStep(c, s, Seen(Quiet)).0, Go).0, Go).0;
      && t.pc == SSync(AtAck) && t.sending && t.junkcount == 0 && p <= t.bytcnt && t.lastsync == p && t.beenhere == s.beenhere && t.blklen == s.blklen
  {
  }

  /** The same position is granted thirteen times, with the block length halved from the fifth repeat on, and not a fourteenth time. */
  lemma {:induction false} ThirteenGranted(c: Config, s: Sender, p: nat, times: nat)
    requires SenderOk(s) && s.sending && s.pc == SSync(AtAck) && s.junkcount == 0 && s.lastsync != p && s.beenhere <= 12
    requires p <= s.bytcnt && p + s.blklen <= |c.file| && 1 <= times <= 13
    ensures var t := SRun(c, s, Insisting(p, times)).0;
      && SenderOk(t) && t.sending && t.pc == SSync(AtAck) && t.junkcount == 0 && p <= t.bytcnt
      && t.lastsync == p && t.beenhere == times - 1 && t.blklen == Shortened(s.blklen, times - 1) <= s.blklen
      && (times == 13 ==> SStep(c, t, Reply(ZRPOS, p)).0.pc == SDone(Failed))
    decreases times
  {
    hide SStep, SRun, SenderOk;
    var cycle := [Reply(ZRPOS, p), Seen(Quiet), Go, Go];
    if times == 1 {
      assert Insisting(p, 1) == cycle;
      OneCycle(c, s, p);
    } else {
      ThirteenGranted(c, s, p, times - 1);
      SRunMore(c, s, Insisting(p, times - 1), cycle);
      OneCycle(c, SRun(c, s, Insisting(p, times - 1)).0, p);
    }
    PositionGranted(c, SRun(c, s, Insisting(p, times)).0, p);
  }

  /** The answers that make the sender give the file up: before it sends data, and while it waits. */
  predicate Hopeless(s: Sender, ev: SEvent) {
    match ev
    case Go => s.pc == SOffer && s.errors >= 10
    case Seen(look) => look == Lost && (s.pc == SPoll || s.pc == SGlance)
    case Reply(t, pos) =>
      (match s.pc
       case SName => t in {ZRQINIT, ZCAN, TIMEOUT, ZABORT, ZFIN, ZFERR} || (t == ZRPOS && pos < 0)
       case SSync(k) => t in {HANGUP, ZCAN, ZABORT, ZFIN, TIMEOUT} || (t == ZRPOS && (pos < 0 || (pos <= s.bytcnt && s.lastsync == pos && s.beenhere >= 12)))
       case _ => false)
  }

  /** The sender fails at exactly these. */
  lemma GivesUpIff(c: Config, s: Sender, ev: SEvent)
    requires SenderOk(s) && !s.pc.SDone?
    ensures SStep(c, s, ev).0.pc == SDone(Failed) <==> Hopeless(s, ev)
  {
    hide CrcWalk, FileCrc, Slice, OnSync, OnName;
    if s.pc.SSync? && ev.Reply? {
      SyncFails(s, s.pc.k, ev.t, ev.pos);
    } else if s.pc == SName && ev.Reply? {
      NameFails(c, s, ev.t, ev.pos);
    }
  }

  lemma SyncFails(s: Sender, k: Caller, t: Kind, pos: int)
    requires SenderOk(s) && s.pc == SSync(k)
    ensures OnSync(s, k, t, pos).0.pc == SDone(Failed) <==> Hopeless(s, Reply(t, pos))
  {
  }

  lemma NameFails(c: Config, s: Sender, t: Kind, pos: int)
    requires s.pc == SName
    ensures OnName(c, s, t, pos).0.pc == SDone(Failed) <==> Hopeless(s, Reply(t, pos))
  {
    hide CrcWalk, FileCrc, Slice;
  }

  /** And it ends without failing at exactly these: ZRINIT after ZEOF, and ZSKIP, or a ZRINIT in the middle of the file. */
  lemma EndsIff(c: Config, s: Sender, ev: SEvent)
    requires SenderOk(s) && !s.pc.SDone?
    ensures SStep(c, s, ev).0.pc == SDone(OK) <==> s.pc == SSync(AtEof) && ev.Reply? && ev.t == ZRINIT
    ensures SStep(c, s, ev).0.pc == SDone(Skipped) <==>
      ev.Reply? && ((s.pc == SName && ev.t == ZSKIP) || (s.pc.SSync? && (ev.t == ZSKIP || (ev.t == ZRINIT && s.pc != SSync(AtEof)))))
  {
    hide CrcWalk, FileCrc, Slice, OnSync, OnName;
    if s.pc.SSync? && ev.Reply? {
      SyncEnds(s, s.pc.k, ev.t, ev.pos);
    } else if s.pc == SName && ev.Reply? {
      NameEnds(c, s, ev.t, ev.pos);
    }
  }

  lemma SyncEnds(s: Sender, k: Caller, t: Kind, pos: int)
    requires s.pc == SSync(k)
    ensures OnSync(s, k, t, pos).0.pc == SDone(OK) <==> k == AtEof && t == ZRINIT
    ensures OnSync(s, k, t, pos).0.pc == SDone(Skipped) <==> t == ZSKIP || (t == ZRINIT && k != AtEof)
  {
  }

  lemma NameEnds(c: Config, s: Sender, t: Kind, pos: int)
    requires s.pc == SName
    ensures OnName(c, s, t, pos).0.pc != SDone(OK) && (OnName(c, s, t, pos).0.pc == SDone(Skipped) <==> t == ZSKIP)
  {
    hide CrcWalk, FileCrc, Slice;
  }

  /** An answer to the offer that is none brings it again, while offers last. */
  lemma OfferedAgain(c: Config, s: Sender, t: Kind, pos: int)
    requires s.pc == SName && s.errors < 10 && t !in {ZRINIT, ZRQINIT, ZCAN, TIMEOUT, ZABORT, ZFIN, ZCRC, ZFERR, ZSKIP, ZRPOS}
    ensures var (u, out) := SStep(c, SStep(c, s, Reply(t, pos)).0, Go);
      out == [Hdr(ZFILE, 0), Packet(c.info, ZCRCW)] && u.pc == SName && u.errors == s.errors + 1
  {
    hide CrcWalk, FileCrc, Slice;
  }

  /** The acknowledgement that is waited for is the one of all that was sent; while data are still going out any will do. */
  lemma AckHeeded(c: Config, s: Sender, k: Caller, pos: int)
    requires SenderOk(s) && s.pc == SSync(k)
    ensures var (t, out) := SStep(c, s, Reply(ZACK, pos));
      && out == [] && t.off == s.off && t.txpos == s.txpos && t.bytcnt == s.bytcnt && t.eofseen == s.eofseen
      && t.pc == match k
                 case AtAck => if pos == s.txpos then SGlance else s.pc
                 case AtGlance => SGlance
                 case AtPoll => if s.eofseen then SEnd else SBlock
                 case AtEof => s.pc
  {
  }

  /** The position in the last header sent. */
  function LastPos(out: seq<Token>, before: int): int
    decreases |out|
  {
    if out == [] then before
    else if out[|out| - 1].Hdr? then out[|out| - 1].pos
    else LastPos(out[..|out| - 1], before)
  }

  lemma {:induction false} LastPosMore(a: seq<Token>, b: seq<Token>, before: int)
    ensures LastPos(a + b, before) == LastPos(b, LastPos(a, before))
    decreases |b|
  {
    if b == [] {
      assert a + b == a;
    } else {
      assert (a + b)[..|a + b| - 1] == a + b[..|b| - 1];
      LastPosMore(a, b[..|b| - 1], before);
    }
  }

  /** Txhdr holds it, in every run, and so ZNAK, which is what else getinsync says, repeats it. */
  lemma {:induction false} HeaderKept(c: Config, s: Sender, evs: seq<SEvent>)
    ensures var (t, out) := SRun(c, s, evs); t.txhdr == LastPos(out, s.txhdr)
    decreases |evs|
  {
    if evs != [] {
      hide SStep, LastPos;
      var before, ev := evs[..|evs| - 1], evs[|evs| - 1];
      HeaderKept(c, s, before);
      var (t, out) := SRun(c, s, before);
      var (u, more) := SStep(c, t, ev);
      LastPosMore(out, more, s.txhdr);
      StepHeader(c, t, ev);
    }
  }

  lemma StepHeader(c: Config, s: Sender, ev: SEvent)
    ensures var (t, out) := SStep(c, s, ev); t.txhdr == LastPos(out, s.txhdr)
  {
    hide FileCrc, Slice, OnSync, OnName;
    if s.pc.SSync? && ev.Reply? {
      SyncHeader(s, s.pc.k, ev.t, ev.pos);
    } else if s.pc == SName && ev.Reply? {
      NameHeader(c, s, ev.t, ev.pos);
    } else if s.pc == SOffer && ev == Go {
      var out := [Hdr(ZFILE, 0), Packet(c.info, ZCRCW)];
      assert out[..1] == [Hdr(ZFILE, 0)];
    }
  }

  lemma SyncHeader(s: Sender, k: Caller, t: Kind, pos: int)
    ensures var (u, out) := OnSync(s, k, t, pos); u.txhdr == LastPos(out, s.txhdr)
  {
    assert [Packet([], ZCRCE)][..0] == [];
  }

  lemma NameHeader(c: Config, s: Sender, t: Kind, pos: int)
    ensures var (u, out) := OnName(c, s, t, pos); u.txhdr == LastPos(out, s.txhdr)
  {
    hide CrcWalk, FileCrc, Slice;
  }

  function Offers(out: seq<Token>): nat
    decreases |out|
  {
    if out == [] then 0 else Offers(out[..|out| - 1]) + if out[|out| - 1] == Hdr(ZFILE, 0) then 1 else 0
  }

  lemma {:induction false} OffersMore(a: seq<Token>, b: seq<Token>)
    ensures Offers(a + b) == Offers(a) + Offers(b)
    decreases |b|
  {
    if b == [] {
      assert a + b == a;
    } else {
      assert (a + b)[..|a + b| - 1] == a + b[..|b| - 1];
      OffersMore(a, b[..|b| - 1]);
    }
  }

  /** Every offer counts; each is the name and details of the file; and there is no eleventh. */
  lemma OfferStep(c: Config, s: Sender, ev: SEvent)
    requires s.errors <= 10 && !s.pc.SDone?
    ensures var (t, out) := SStep(c, s, ev);
      if s.pc == SOffer && ev == Go then
        if s.errors < 10 then out == [Hdr(ZFILE, 0), Packet(c.info, ZCRCW)] && t.errors == s.errors + 1 && t.pc == SName
        else t.pc == SDone(Failed) && t.errors == 11 && out == []
      else Offers(out) == 0 && t.errors == s.errors
  {
    hide CrcWalk, FileCrc, Slice, OnSync, OnName;
    if s.pc.SSync? && ev.Reply? {
      SyncOffers(s, s.pc.k, ev.t, ev.pos);
    } else if s.pc == SName && ev.Reply? {
      NameOffers(c, s, ev.t, ev.pos);
    }
  }

  lemma SyncOffers(s: Sender, k: Caller, t: Kind, pos: int)
    ensures Offers(OnSync(s, k, t, pos).1) == 0 && OnSync(s, k, t, pos).0.errors == s.errors
  {
  }

  lemma NameOffers(c: Config, s: Sender, t: Kind, pos: int)
    ensures Offers(OnName(c, s, t, pos).1) == 0 && OnName(c, s, t, pos).0.errors == s.errors
  {
    hide CrcWalk, FileCrc, Slice;
    NoOffers(OnName(c, s, t, pos).1);
  }

  lemma {:induction false} NoOffers(out: seq<Token>)
    requires Hdr(ZFILE, 0) !in out
    ensures Offers(out) == 0
    decreases |out|
  {
    if out != [] {
      assert out[|out| - 1] in out;
      NoOffers(out[..|out| - 1]);
    }
  }

  lemma OneOffer(c: Config)
    ensures Offers([Hdr(ZFILE, 0), Packet(c.info, ZCRCW)]) == 1
  {
    var out := [Hdr(ZFILE, 0), Packet(c.info, ZCRCW)];
    assert out[..1] == [Hdr(ZFILE, 0)];
    assert Offers(out[..1]) == 1;
  }

  lemma DoneStays(c: Config, s: Sender, ev: SEvent)
    requires s.pc.SDone?
    ensures SStep(c, s, ev) == (s, [])
  {
  }

  /** Over every run the file is offered as often as is counted, ten times at most. */
  lemma {:induction false} TenOffers(c: Config, s: Sender, evs: seq<SEvent>)
    requires s.pc == SOffer && s.errors == 0
    ensures var (t, out) := SRun(c, s, evs); if t.errors <= 10 then Offers(out) == t.errors else Offers(out) == 10 && t.pc == SDone(Failed)
    decreases |evs|
  {
    if evs != [] {
      hide SStep, Offers;
      var before, ev := evs[..|evs| - 1], evs[|evs| - 1];
      TenOffers(c, s, before);
      var (t, out) := SRun(c, s, before);
      var (u, more) := SStep(c, t, ev);
      OffersMore(out, more);
      NoOffers([]);
      OneOffer(c);
      if t.pc.SDone? { DoneStays(c, t, ev); } else { OfferStep(c, t, ev); }
    } else {
      NoOffers([]);
    }
  }

  /** What getinsync cannot use is answered with the last header's position, and nothing else changes. */
  lemma Unusable(c: Config, s: Sender, t: Kind, pos: int)
    requires s.pc.SSync? && t !in {HANGUP, ZCAN, ZABORT, ZFIN, TIMEOUT, ZRPOS, ZACK, ZRINIT, ZSKIP}
    ensures SStep(c, s, Reply(t, pos)) == (s, [Hdr(ZNAK, s.txhdr)])
  {
  }

  /** The walk over the file reads whole blocks up to the limit, or to the end of the file. */
  lemma {:induction false} WalkReads(c: Config, s: Sender, limit: int, k: nat) returns (j: nat)
    requires s.blklen > 0 && s.off == s.bytcnt == k * s.blklen && s.off <= |c.file|
    ensures var n := CrcWalk(c, s, limit).off;
      j > k && n == Min(j * s.blklen, |c.file|) && (n >= limit || n == |c.file|) && (j == k + 1 || (j - 1) * s.blklen < limit)
    decreases |c.file| - s.off
  {
    var (u, data) := ReadOn(c, s);
    assert (k + 1) * s.blklen == k * s.blklen + s.blklen;
    j := k + 1;
    if data != [] && u.bytcnt < limit && |data| == s.blklen {
      j := WalkReads(c, u, limit, k + 1);
      assert (k + 1) * s.blklen == u.off;
    } else if data != [] && u.bytcnt < limit {
      hide Slice;
      AtFileEnd(c, u, limit);
    }
  }

  lemma AtFileEnd(c: Config, s: Sender, limit: int)
    requires s.off == |c.file|
    ensures CrcWalk(c, s, limit).off == |c.file|
  {
  }

  /** The answer to ZCRC is the inverted CRC-32 of the first j blocks of the file, or of all of it if it has no more: at least one, and no
      more than it takes to reach the limit. */
  lemma ChecksumAnswer(c: Config, s: Sender, limit: int) returns (j: nat)
    requires s.pc == SName && s.blklen > 0
    ensures var n := Min(j * s.blklen, |c.file|);
      && j > 0 && (j == 1 || (j - 1) * s.blklen < limit) && (n >= limit || n == |c.file|)
      && var out := SStep(c, s, Reply(ZCRC, limit)).1;
         |out| == 2 && out[0] == Junk && out[1].Hdr? && out[1].t == ZCRC && Inverted(out[1].pos, Crc32(INIT32, c.file[..n]))
  {
    hide CrcWalk, Crc32, FileCrc, Inverted;
    var s0 := s.(off := 0, bytcnt := 0);
    j := WalkReads(c, s0, limit, 0);
    var n := CrcWalk(c, s0, limit).off;
    assert Slice(c.file, 0, n) == c.file[..n];
    FileCrcIs(c.file[..n]);
  }

  /** A number has the bits of another inverted. */
  predicate Inverted(n: int, x: bv32) {
    n == !x as int
  }

  lemma FileCrcIs(s: seq<Byte>)
    ensures Inverted(FileCrc(s), Crc32(INIT32, s))
  {
    hide Crc32;
  }

  // ------------------------------------------------------------------ the receiver

  /** What counts as an error in rzfile: a header that is none of its own or is at the wrong place, nothing at all, or a subpacket that
      does not pass or does not come. */
  predicate Error(r: Receiver, ev: REvent) {
    || (r.pc == RHdr && ev.Header? && ev.t !in {ZCAN, HANGUP, ZFILE, ZEOF, ZSKIP} && !(ev.t == ZDATA && ev.pos == r.rxbytes))
    || (r.pc == RData && ev.Bad? && ev.code in {TERROR, TIMEOUT})
  }

  /** Errors since the last good subpacket. */
  function Since(c: Config, r: Receiver, evs: seq<REvent>): nat
    decreases |evs|
  {
    if evs == [] then 0 else
    var before, ev := evs[..|evs| - 1], evs[|evs| - 1];
    var t := RRun(c, r, before).0;
    if t.pc == RData && ev.Good? then 0 else Since(c, r, before) + if Error(t, ev) then 1 else 0
  }

  /** Nothing that ends the file. */
  predicate Ordinary(ev: REvent) {
    match ev
    case Header(t, _, _) => t !in {ZCAN, HANGUP, ZEOF, ZSKIP}
    case Good(_, _) => true
    case Bad(code) => code !in {ZCAN, HANGUP}
  }

  predicate InFile(r: Receiver) {
    (r.pc == RHdr || r.pc == RData || r.pc == RDup) && r.name != None && !r.accepted && Counts(r)
  }

  /** The interrupt string goes in front of the request behind a frame at the wrong place and one that is damaged, not behind a silence or a header
      out of place. */
  predicate Interrupts(ev: REvent) {
    (ev.Header? && ev.t in {TERROR, ZDATA}) || (ev.Bad? && ev.code == TERROR)
  }

  /** One event in rzfile, told apart by whether it is an error. */
  lemma ErrorStep(c: Config, r: Receiver, ev: REvent)
    requires InFile(r) && Ordinary(ev)
    ensures var (u, out) := RStep(c, r, ev);
      if Error(r, ev) then
        if r.n <= 0 then u.pc == RStop && out == []
        else u == r.(pc := RHdr, n := r.n - 1) && out == (if c.attn && Interrupts(ev) then [Junk] else []) + [Hdr(ZRPOS, |r.out|)]
      else InFile(u) && u.n == if r.pc == RData && ev.Good? then 20 else r.n
    ensures Error(r, ev) ==> !ev.Good?
  {
  }

  lemma StoppedStays(c: Config, r: Receiver, ev: REvent)
    requires r.pc == RStop
    ensures RStep(c, r, ev) == (r, []) && !Error(r, ev)
  {
  }

  /** From the first ZRPOS on: over errors rzfile ends exactly at the twenty-first since the last good subpacket, and every one before
      that is answered with ZRPOS for where the file ends. */
  lemma {:induction false} TwentyOne(c: Config, r: Receiver, evs: seq<REvent>)
    requires InFile(r) && r.n == 20 && forall ev :: ev in evs ==> Ordinary(ev)
    ensures var (t, out) := RRun(c, r, evs); var k := Since(c, r, evs);
      && (t.pc == RStop <==> k == 21) && k <= 21
      && (k <= 20 ==> InFile(t) && t.n == 20 - k)
      && (evs != [] && k <= 20 && Error(RRun(c, r, evs[..|evs| - 1]).0, evs[|evs| - 1]) ==> out != [] && out[|out| - 1] == Hdr(ZRPOS, |t.out|))
    decreases |evs|
  {
    hide RStep, Error, Ordinary;
    if evs != [] {
      var before, ev := evs[..|evs| - 1], evs[|evs| - 1];
      assert ev in evs && forall e :: e in before ==> e in evs;
      TwentyOne(c, r, before);
      var (t, out) := RRun(c, r, before);
      if t.pc == RStop {
        StoppedStays(c, t, ev);
      } else {
        ErrorStep(c, t, ev);
      }
    }
  }

  /** What else ends the receiver: a cancelled or lost line, a file that cannot be closed, or no more patience in tryz. */
  predicate Final(c: Config, r: Receiver, ev: REvent) {
    match ev
    case Header(t, pos, closes) =>
      (match r.pc
       case RWait =>
         t in {ZRINIT, ZFIN, TERROR, HANGUP, ZCAN} || (t !in {ZFILE, ZSINIT, ZCOMMAND, ZFREECNT, ZCOMPL} && r.tries <= 0)
       case RHdr =>
         t in {ZCAN, HANGUP} || (t == ZEOF && pos == r.rxbytes && (!closes || c.tries <= 0)) || (t == ZSKIP && c.tries <= 0) || (Error(r, ev) && r.n <= 0)
       case _ => false)
    case Good(_, end) => (r.pc == RCommand && end == ZCRCW) || (r.pc == RName && end == ZCRCW && c.refuse && c.tries <= 0)
    case Bad(code) => r.pc == RData && (code in {ZCAN, HANGUP} || (Error(r, ev) && r.n <= 0))
  }

  lemma StopsIff(c: Config, r: Receiver, ev: REvent)
    requires r.pc != RStop
    ensures RStep(c, r, ev).0.pc == RStop <==> Final(c, r, ev)
  {
  }

  /** The file is accepted exactly at a ZEOF where it ends, if it can be closed; if it cannot, the next file is refused. */
  lemma AcceptsIff(c: Config, r: Receiver, ev: REvent)
    requires InFile(r)
    ensures var u := RStep(c, r, ev).0; var atEnd := r.pc == RHdr && ev.Header? && ev.t == ZEOF && ev.pos == |r.out|;
      && (u.accepted <==> atEnd && ev.closes)
      && (atEnd && !ev.closes ==> u == r.(pc := RStop, first := ZFERR))
  {
  }

  /** Data are taken exactly as a good subpacket behind a ZDATA for where the file ends; they are acknowledged exactly if their frame end asks for it, and
      more of the same frame are expected unless it ends there. */
  lemma TakesIff(c: Config, r: Receiver, ev: REvent)
    requires InFile(r)
    ensures var (u, out) := RStep(c, r, ev);
      && (r.pc == RData && ev.Good? ==>
            && u.out == r.out + ev.data && u.rxbytes == |u.out| && u.n == 20
            && out == (if ev.end == ZCRCW || ev.end == ZCRCQ then [Hdr(ZACK, |u.out|)] else [])
            && u.pc == if ev.end == ZCRCW || ev.end == ZCRCE then RHdr else RData)
      && (!(r.pc == RData && ev.Good?) ==> u.out == r.out)
      && (r.pc != RData && u.pc == RData <==> r.pc == RHdr && ev.Header? && ev.t == ZDATA && ev.pos == |r.out|)
  {
  }

  lemma RunsOne(c: Config, r: Receiver, ev: REvent)
    ensures RRun(c, r, [ev]) == RStep(c, r, ev)
  {
    hide RStep;
    assert [ev][..0] == [] && RRun(c, r, []) == (r, []);
    assert [] + RStep(c, r, ev).1 == RStep(c, r, ev).1;
  }

  /** A ZFILE that comes again is read past, whatever follows it, and answered with where the file ends; a ZEOF elsewhere is ignored. */
  lemma AgainAsked(c: Config, r: Receiver, pos: int, closes: bool, ev: REvent)
    requires InFile(r) && r.pc == RHdr && !ev.Header?
    ensures RRun(c, r, [Header(ZFILE, pos, closes), ev]) == (r, [Hdr(ZRPOS, |r.out|)])
    ensures pos != |r.out| ==> RStep(c, r, Header(ZEOF, pos, closes)) == (r, [])
  {
    var evs, one := [Header(ZFILE, pos, closes), ev], [Header(ZFILE, pos, closes)];
    assert evs[..|evs| - 1] == one && one[..|one| - 1] == [];
    assert RStep(c, r, one[0]) == (r.(pc := RDup), []);
    assert RStep(c, r.(pc := RDup), ev) == (r, [Hdr(ZRPOS, |r.out|)]);
    hide RStep;
    RunsOne(c, r, one[0]);
    assert evs[|evs| - 1] == ev;
    assert [] + [Hdr(ZRPOS, |r.out|)] == [Hdr(ZRPOS, |r.out|)];
  }

  /** What tryz answers: its own header again to anything it does not know, with one try less, and ZRINIT from then on if it was ZSKIP; its free
      space; an acknowledgement of ZSINIT, or of a command; and its own header is not sent again for ZCOMPL. */
  lemma TryzAnswers(c: Config, r: Receiver, ev: REvent)
    requires r.pc == RWait || r.pc == RName || r.pc == RAttn || r.pc == RCommand
    ensures var (u, out) := RStep(c, r, ev);
      && (r.pc == RWait && ev.Header? && r.tries > 0 && ev.t in {ZRQINIT, ZEOF, ZNAK, ZDATA, ZRPOS, ZACK, ZSKIP, TIMEOUT, ZABORT} ==>
            u == r.(tries := r.tries - 1, first := if r.first == ZSKIP then ZRINIT else r.first) && out == [Hdr(r.first, 0)])
      && (r.pc == RWait && ev.Header? && ev.t == ZFREECNT ==> u == r && out == [Hdr(ZACK, c.free)])
      && (r.pc == RWait && ev.Header? && ev.t == ZCOMPL ==> u == r && out == [])
      && (r.pc == RWait && ev.Header? && ev.t == ZFILE ==> u == r.(pc := RName, first := ZRINIT) && out == [])
      && (r.pc == RWait && ev.Header? && (ev.t == ZSINIT || ev.t == ZCOMMAND) ==> u == r.(pc := if ev.t == ZSINIT then RAttn else RCommand) && out == [])
      && (r.pc != RWait && (ev.Bad? || (ev.Good? && ev.end != ZCRCW)) ==> u.pc == RWait && out == [Hdr(ZNAK, 0)])
      && (r.pc == RAttn && ev.Good? && ev.end == ZCRCW ==> u.pc == RWait && out == [Hdr(ZACK, 1)])
      && (r.pc == RCommand && ev.Good? && ev.end == ZCRCW ==> out == [Hdr(ZCOMPL, 0)])
      && (r.pc == RName && ev.Good? && ev.end == ZCRCW && !c.refuse ==>
            u == r.(pc := RHdr, name := Some(ev.data), rxbytes := 0, out := [], n := 20, accepted := false) && out == [Hdr(ZRPOS, 0)])
      && (r.pc == RName && ev.Good? && ev.end == ZCRCW && c.refuse && c.tries > 0 ==>
            u.pc == RWait && u.name == r.name && out == [Hdr(ZFERR, 0)])
  {
  }

  /** Behind a file, kept, skipped or refused, tryz begins with all its tries. */
  lemma TryzBegins(c: Config, r: Receiver, ev: REvent)
    requires InFile(r) && c.tries > 0
    ensures var (u, out) := RStep(c, r, ev); u.pc == RWait ==> u.tries == c.tries - 1 && out == [Hdr(r.first, 0)] && u.out == r.out && u.name == r.name
  {
  }
}

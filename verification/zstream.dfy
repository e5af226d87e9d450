/** How the ZMODEM sender streams: when it stops to wait, and what it makes of replies that come meanwhile. */
module ZStream {
  import opened Common
  import opened Crc
  import opened ZSession
  import opened ZSafety
  import opened ZSender
  import opened ZResync

  // ------------------------------------------------------------------ the end of a block

  /** Data bytes sent since the last ZDATA. */
  function InFrame(out: seq<Token>): nat
    decreases |out|
  {
    if out == [] then 0 else
    match out[|out| - 1]
    case Hdr(t, _) => if t == ZDATA then 0 else InFrame(out[..|out| - 1])
    case Packet(data, _) => InFrame(out[..|out| - 1]) + |data|
    case Junk => InFrame(out[..|out| - 1])
  }

  lemma {:induction false} InFrameMore(out: seq<Token>, more: seq<Token>)
    ensures more == [] ==> InFrame(out + more) == InFrame(out)
    ensures |more| == 1 ==> InFrame(out + more) == match more[0]
                                                   case Hdr(t, _) => if t == ZDATA then 0 else InFrame(out)
                                                   case Packet(data, _) => InFrame(out) + |data|
                                                   case Junk => InFrame(out)
  {
    if more == [] {
      assert out + more == out;
    } else if |more| == 1 {
      assert (out + more)[..|out|] == out;
    }
  }

  /** Other bytes that the sender has come across between its blocks, since it last stopped to wait for an acknowledgement or was told where to
      start. */
  function NoiseHeard(c: Config, s: Sender, evs: seq<SEvent>): nat
    decreases |evs|
  {
    if evs == [] then 0 else
    var before, ev := evs[..|evs| - 1], evs[|evs| - 1];
    var t, u := SRun(c, s, before).0, SRun(c, s, evs).0;
    if t.pc == SPoll && ev == Seen(Noise) then NoiseHeard(c, s, before) + 1
    else if (t.pc == SBlock && u.pc == SSync(AtAck)) || (t.pc == SName && u.pc == SHead) then 0
    else NoiseHeard(c, s, before)
  }

  /** What the counters stand for. */
  ghost predicate Counts(c: Config, t: Sender, sent: nat, noise: nat) {
    && (t.sending ==> t.junkcount == noise)
    && (MidFrame(t) && !t.eofseen && c.rxbuflen > 0 ==> t.newcnt == c.rxbuflen - sent > 0)
    && (MidFrame(t) ==> t.sending)
  }

  /** What a step adds to the data of a frame, and to the noise. */
  function SentNow(out: seq<Token>, sent: nat): nat {
    if |out| != 1 then sent else match out[0] case Hdr(t, _) => (if t == ZDATA then 0 else sent) case Packet(data, _) => sent + |data| case Junk => sent
  }

  function NoiseNow(s: Sender, ev: SEvent, t: Sender, noise: nat): nat {
    if s.pc == SPoll && ev == Seen(Noise) then noise + 1
    else if (s.pc == SBlock && t.pc == SSync(AtAck)) || (s.pc == SName && t.pc == SHead) then 0 else noise
  }

  ghost predicate Kept(c: Config, s: Sender, ev: SEvent, t: Sender, out: seq<Token>, sent: nat, noise: nat) {
    Counts(c, t, SentNow(out, sent), NoiseNow(s, ev, t, noise)) && (MidFrame(t) ==> |out| <= 1)
  }

  /** One block: at the end of the file the frame ends; otherwise the sender waits exactly if it has come across more than three other bytes, or
      this is the position it was last sent back to, or the receiver's buffer is full. */
  lemma BlockCounts(c: Config, s: Sender, sent: nat, noise: nat)
    requires s.pc == SBlock && Counts(c, s, sent, noise)
    ensures var (t, out) := SStep(c, s, Go); var data := Slice(c.file, s.off, s.blklen);
      && |out| == 1 && out[0] == Packet(data, if s.eofseen || |data| < s.blklen then ZCRCE
                                              else if noise > 3 || s.bytcnt == s.lastsync || (c.rxbuflen > 0 && sent + |data| >= c.rxbuflen) then ZCRCW
                                              else ZCRCG)
      && Counts(c, t, sent + |data|, if t.pc == SSync(AtAck) then 0 else noise)
      && (t.pc == SSync(AtAck) <==> out[0].end == ZCRCW) && (t.pc == SPoll <==> out[0].end != ZCRCW)
      && (t.eofseen <==> out[0].end == ZCRCE)
  {
  }

  lemma GoCounts(c: Config, s: Sender, sent: nat, noise: nat)
    requires Counts(c, s, sent, noise) && (s.pc == SHead ==> s.sending)
    ensures var (t, out) := SStep(c, s, Go); Kept(c, s, Go, t, out, sent, noise)
  {
    hide Slice;
  }

  lemma LookCounts(c: Config, s: Sender, look: Look, sent: nat, noise: nat)
    requires Counts(c, s, sent, noise)
    ensures Kept(c, s, Seen(look), OnLook(s, look), [], sent, noise)
  {
  }

  lemma SyncCounts(c: Config, s: Sender, k: Caller, t: Kind, pos: int, sent: nat, noise: nat)
    requires s.pc == SSync(k) && Counts(c, s, sent, noise)
    ensures var (u, out) := OnSync(s, k, t, pos); Kept(c, s, Reply(t, pos), u, out, sent, noise)
  {
    var (u, out) := OnSync(s, k, t, pos);
    SyncSame(s, k, t, pos);
    if k == AtPoll { PollCounts(s, t, pos); }
    assert MidFrame(u) ==> |out| <= 1;
    assert NoiseNow(s, Reply(t, pos), u, noise) == noise;
    assert MidFrame(u) ==> SentNow(out, sent) == sent;
    assert Counts(c, u, SentNow(out, sent), noise);
    KeptSame(c, s, Reply(t, pos), u, out, sent, noise);
  }

  lemma KeptSame(c: Config, s: Sender, ev: SEvent, t: Sender, out: seq<Token>, sent: nat, noise: nat)
    requires Counts(c, t, SentNow(out, sent), noise) && NoiseNow(s, ev, t, noise) == noise && (MidFrame(t) ==> |out| <= 1)
    ensures Kept(c, s, ev, t, out, sent, noise)
  {
    hide Counts;
  }

  lemma SyncSame(s: Sender, k: Caller, t: Kind, pos: int)
    requires s.pc == SSync(k)
    ensures var u := OnSync(s, k, t, pos).0; u.junkcount == s.junkcount && u.sending == s.sending && (MidFrame(u) ==> k == AtPoll)
  {
  }

  lemma PollCounts(s: Sender, t: Kind, pos: int)
    requires s.pc == SSync(AtPoll)
    ensures var (u, out) := OnSync(s, AtPoll, t, pos);
      && |out| <= 1 && (MidFrame(u) ==> u.newcnt == s.newcnt && u.eofseen == s.eofseen && (out == [] || out[0] == Hdr(ZNAK, s.txhdr)))
  {
  }

  lemma NameCounts(c: Config, s: Sender, t: Kind, pos: int, sent: nat, noise: nat)
    requires s.pc == SName && !s.sending && Counts(c, s, sent, noise)
    ensures var (u, out) := OnName(c, s, t, pos); Kept(c, s, Reply(t, pos), u, out, sent, noise)
  {
    hide CrcWalk, FileCrc, Slice;
  }

  /** Every step keeps the counts. */
  lemma StepCounts(c: Config, s: Sender, ev: SEvent, sent: nat, noise: nat)
    requires Counts(c, s, sent, noise) && (s.pc == SHead ==> s.sending) && (s.pc == SName ==> !s.sending)
    ensures var (t, out) := SStep(c, s, ev); Kept(c, s, ev, t, out, sent, noise)
  {
    hide CrcWalk, FileCrc, Slice, OnSync, OnName, OnLook, SendBlock, SendHead, Counts, Kept;
    match ev
    case Go => GoCounts(c, s, sent, noise);
    case Seen(look) => LookCounts(c, s, look, sent, noise);
    case Reply(t, pos) =>
      if s.pc.SSync? {
        SyncCounts(c, s, s.pc.k, t, pos, sent, noise);
      } else if s.pc == SName {
        NameCounts(c, s, t, pos, sent, noise);
      } else {
        NothingKept(c, s, ev, sent, noise);
      }
  }

  lemma NothingKept(c: Config, s: Sender, ev: SEvent, sent: nat, noise: nat)
    requires Counts(c, s, sent, noise) && ev.Reply?
    ensures Kept(c, s, ev, s, [], sent, noise)
  {
  }

  lemma {:induction false} RunCounts(c: Config, s: Sender, evs: seq<SEvent>)
    requires s.pc == SOffer && !s.sending && s.blklen > 0
    ensures var (t, out) := SRun(c, s, evs); SenderOk(t) && Counts(c, t, InFrame(out), NoiseHeard(c, s, evs))
    decreases |evs|
  {
    if evs != [] {
      hide SStep, Counts, Kept, SenderOk, InFrame;
      var before, ev := evs[..|evs| - 1], evs[|evs| - 1];
      var (t, out) := SRun(c, s, before);
      var (u, more) := SStep(c, t, ev);
      RunCounts(c, s, before);
      SenderKeeps(c, t, ev);
      HeadSends(t);
      StepCounts(c, t, ev, InFrame(out), NoiseHeard(c, s, before));
      assert SRun(c, s, evs) == (u, out + more);
      CountsOn(c, t, ev, u, out, more, NoiseHeard(c, s, before));
    }
  }

  lemma HeadSends(s: Sender)
    requires SenderOk(s)
    ensures (s.pc == SHead ==> s.sending) && (s.pc == SName ==> !s.sending)
  {
  }

  lemma CountsOn(c: Config, s: Sender, ev: SEvent, t: Sender, out: seq<Token>, more: seq<Token>, noise: nat)
    requires Kept(c, s, ev, t, more, InFrame(out), noise)
    ensures Counts(c, t, InFrame(out + more), NoiseNow(s, ev, t, noise))
  {
    hide InFrame;
    InFrameMore(out, more);
  }

  /** In every run from the offer on, whatever is answered: each block is the file's next bytes; the frame ends with one that reaches the end of
      the file; the sender stops to wait exactly if it has come across more than three other bytes, or stands where it was last sent back to, or
      the frame fills the buffer the receiver announced; and so no frame exceeds that buffer by a whole block. */
  lemma {:induction false} Streams(c: Config, s: Sender, evs: seq<SEvent>)
    requires s.pc == SOffer && !s.sending && s.blklen > 0 && SRun(c, s, evs).0.pc == SBlock
    ensures var (t, out) := SRun(c, s, evs); var (u, more) := SStep(c, t, Go); var data := Slice(c.file, t.off, t.blklen); var sent := InFrame(out) + |data|;
      && |more| == 1 && more[0] == Packet(data, if t.eofseen || |data| < t.blklen then ZCRCE
                                               else if NoiseHeard(c, s, evs) > 3 || t.off == t.lastsync || (c.rxbuflen > 0 && sent >= c.rxbuflen) then ZCRCW
                                               else ZCRCG)
      && (u.pc == SSync(AtAck) <==> more[0].end == ZCRCW) && (u.pc != SSync(AtAck) ==> u.pc == SPoll)
      && (c.rxbuflen > 0 && !t.eofseen ==> sent < c.rxbuflen + |data|)
  {
    hide SStep, SRun;
    RunCounts(c, s, evs);
    var (t, out) := SRun(c, s, evs);
    BlockCounts(c, t, InFrame(out), NoiseHeard(c, s, evs));
    Fills(c, t, InFrame(out), NoiseHeard(c, s, evs));
  }

  lemma Fills(c: Config, s: Sender, sent: nat, noise: nat)
    requires Counts(c, s, sent, noise) && SenderOk(s) && s.pc == SBlock
    ensures s.off == s.bytcnt && (c.rxbuflen > 0 && !s.eofseen ==> sent < c.rxbuflen)
  {
  }

  // ------------------------------------------------------------------ replies

  lemma TwoSteps(c: Config, s: Sender, e1: SEvent, e2: SEvent)
    ensures var (t, o1) := SStep(c, s, e1); var (u, o2) := SStep(c, t, e2); SRun(c, s, [e1, e2]) == (u, o1 + o2)
  {
    hide SStep;
    var t := SStep(c, s, e1).0;
    assert [e1, e2] == [e1] + [e2] && [e2] == [e2] + [];
    SRunFirst(c, s, e1, [e2]);
    SRunFirst(c, t, e2, []);
    RunNone(c, SStep(c, t, e2).0);
    assert SStep(c, t, e2).1 + [] == SStep(c, t, e2).1;
  }

  lemma FourMore(c: Config, s: Sender, e1: SEvent, e2: SEvent, e3: SEvent, e4: SEvent)
    ensures var (t, o1) := SRun(c, s, [e1, e2]); var (u, o2) := SRun(c, t, [e3, e4]); SRun(c, s, [e1, e2, e3, e4]) == (u, o1 + o2)
  {
    hide SRun;
    assert [e1, e2, e3, e4] == [e1, e2] + [e3, e4];
    SRunMore(c, s, [e1, e2], [e3, e4]);
  }

  /** A position asked for in the middle of a frame: the frame is closed with an empty subpacket and the next begins there. */
  lemma NextAtPoll(c: Config, s: Sender, p: nat)
    requires SenderOk(s) && s.sending && s.pc == SPoll && s.beenhere <= 12 && p <= s.bytcnt && !(s.lastsync == p && s.beenhere == 12)
    ensures var (t, out) := SRun(c, s, [Seen(Pad), Reply(ZRPOS, p), Seen(Quiet), Go]);
      out == [Packet([], ZCRCE), Hdr(ZDATA, p)] && t.pc == SBlock && t.off == p
  {
    FourMore(c, s, Seen(Pad), Reply(ZRPOS, p), Seen(Quiet), Go);
    TwoSteps(c, s, Seen(Pad), Reply(ZRPOS, p));
    var s1 := SStep(c, s, Seen(Pad)).0;
    assert s1 == s.(pc := SSync(AtPoll));
    var (s2, out) := SStep(c, s1, Reply(ZRPOS, p));
    assert out == [Packet([], ZCRCE)] && s2.pc == SGlance && s2.off == s2.txpos == p;
    TwoSteps(c, s2, Seen(Quiet), Go);
    hide SRun;
  }

  /** An acknowledgement there changes nothing: the next block follows as if the line had been quiet, and other bytes are counted. */
  lemma PollGoesOn(c: Config, s: Sender, pos: int)
    requires s.pc == SPoll
    ensures var (t, out) := SRun(c, s, [Seen(Pad), Reply(ZACK, pos)]); var u := SStep(c, s, Seen(Quiet)).0;
      out == [] && t == u.(lrxpos := pos) && u == s.(pc := if s.eofseen then SEnd else SBlock)
    ensures SStep(c, s, Seen(Noise)) == (SStep(c, s, Seen(Quiet)).0.(junkcount := s.junkcount + 1), [])
    ensures SStep(c, s, Seen(Lost)).0.pc == SDone(Failed)
  {
    TwoSteps(c, s, Seen(Pad), Reply(ZACK, pos));
    hide SRun;
  }

  /** Before a frame begins, too, a reply is heeded: another position replaces the one that was granted. */
  lemma NextAtGlance(c: Config, s: Sender, p: nat)
    requires SenderOk(s) && s.sending && s.pc == SGlance && s.beenhere <= 12 && p <= s.bytcnt && !(s.lastsync == p && s.beenhere == 12)
    ensures var (t, out) := SRun(c, s, [Seen(Pad), Reply(ZRPOS, p), Seen(Quiet), Go]);
      out == [Hdr(ZDATA, p)] && t.pc == SBlock && t.off == p
    ensures SRun(c, s, [Seen(Quiet), Go]).1 == [Hdr(ZDATA, s.txpos)] && SRun(c, s, [Seen(Noise), Go]).1 == [Hdr(ZDATA, s.txpos)]
  {
    FourMore(c, s, Seen(Pad), Reply(ZRPOS, p), Seen(Quiet), Go);
    TwoSteps(c, s, Seen(Pad), Reply(ZRPOS, p));
    TwoSteps(c, s, Seen(Quiet), Go);
    TwoSteps(c, s, Seen(Noise), Go);
    var s1 := SStep(c, s, Seen(Pad)).0;
    assert s1 == s.(pc := SSync(AtGlance));
    var (s2, out) := SStep(c, s1, Reply(ZRPOS, p));
    assert out == [] && s2.pc == SGlance && s2.off == s2.txpos == p;
    TwoSteps(c, s2, Seen(Quiet), Go);
    hide SRun;
  }

  function Noises(n: nat): seq<SEvent>
    decreases n
  {
    if n == 0 then [] else Noises(n - 1) + [Seen(Noise)]
  }

  lemma RunLast(c: Config, s: Sender, evs: seq<SEvent>, ev: SEvent)
    ensures var (t, out) := SRun(c, s, evs); var (u, more) := SStep(c, t, ev); SRun(c, s, evs + [ev]) == (u, out + more)
  {
    hide SStep;
    assert (evs + [ev])[..|evs + [ev]| - 1] == evs;
  }

  lemma {:induction false} EatsNoise(c: Config, s: Sender, n: nat)
    requires s.pc == SEat
    ensures SRun(c, s, Noises(n)) == (s, [])
    decreases n
  {
    if n > 0 {
      EatsNoise(c, s, n - 1);
      RunLast(c, s, Noises(n - 1), Seen(Noise));
      assert SStep(c, s, Seen(Noise)) == (s, []);
      NoTokens([]);
    }
  }

  lemma NoTokens(out: seq<Token>)
    ensures out + [] == out
  {
  }

  /** ZRINIT instead of an answer to the offer: the rest of it is passed over, however long, up to the next header, and the sender goes on waiting;
      if nothing more comes it makes its offer again. */
  lemma PassesRinit(c: Config, s: Sender, pos: int, n: nat, look: Look)
    requires s.pc == SName && look != Noise
    ensures SRun(c, s, [Reply(ZRINIT, pos)] + (Noises(n) + [Seen(look)])) == (s.(pc := if look == Pad then SName else SOffer), [])
  {
    var s1 := s.(pc := SEat);
    assert SStep(c, s, Reply(ZRINIT, pos)) == (s1, []);
    SRunFirst(c, s, Reply(ZRINIT, pos), Noises(n) + [Seen(look)]);
    EatsNoise(c, s1, n);
    RunLast(c, s1, Noises(n), Seen(look));
    assert SStep(c, s1, Seen(look)) == (s.(pc := if look == Pad then SName else SOffer), []);
    NoTokens([]);
    hide SRun, SStep;
  }
}

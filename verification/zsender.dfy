/** The ZMODEM sender against a peer that may answer anything, and its source form as an object. */
module ZSender {
  import opened Common
  import opened Crc
  import opened ZSession
  import opened ZMonitor
  import opened ZSafety

  // ------------------------------------------------------------------ labels

  function LabelNext(w: Where, k: Token): Where {
    match k
    case Hdr(t, pos) => if t == ZDATA then At(pos) else Nowhere
    case Packet(data, end) => if w.At? && Continues(end) then At(w.pos + |data|) else Nowhere
    case Junk => Nowhere
  }

  predicate LabelOk(c: Config, w: Where, k: Token) {
    k.Packet? && w.At? ==> k.data == Slice(c.file, w.pos, |k.data|)
  }

  /** Data in a frame labelled p are the file's bytes from p on. */
  function Labels(c: Config): Monitor<Where> {
    Monitor((w, k) => LabelNext(w, k), (w, k) => LabelOk(c, w, k), (a, b) => a == b, (a, b) => a == b)
  }

  predicate InFrame(s: Sender, w: Where) {
    MidFrame(s) ==> w == Nowhere || w == At(s.txpos)
  }

  lemma BlockLabelled(c: Config, s: Sender, w: Where)
    requires SenderOk(s) && InFrame(s, w) && s.pc == SBlock && s.sending
    ensures var (t, out) := SendBlock(c, s);
      |out| == 1 && LabelOk(c, w, out[0]) && InFrame(t, LabelNext(w, out[0]))
  {
  }

  lemma SyncLabelled(c: Config, s: Sender, k: Caller, t: Kind, pos: int, w: Where)
    requires SenderOk(s) && InFrame(s, w) && s.pc == SSync(k) && s.sending
    ensures var (u, out) := OnSync(s, k, t, pos);
      |out| <= 1 && (if out == [] then InFrame(u, w) else LabelOk(c, w, out[0]) && InFrame(u, LabelNext(w, out[0])))
  {
  }

  lemma StepLabelled(c: Config, s: Sender, ev: SEvent, w: Where)
    requires SenderOk(s) && InFrame(s, w)
    ensures var (t, out) := SStep(c, s, ev);
      Allows(Labels(c), w, out) && InFrame(t, Memory(Labels(c), w, out))
  {
    hide SendBlock, OnSync, CrcWalk, FileCrc, Slice;
    var (t, out) := SStep(c, s, ev);
    if s.pc == SBlock && ev.Go? {
      BlockLabelled(c, s, w);
    } else if s.pc.SSync? && ev.Reply? {
      SyncLabelled(c, s, s.pc.k, ev.t, ev.pos, w);
    }
    if |out| == 1 {
      assert out == [out[0]];
      One(Labels(c), w, out[0]);
    } else if |out| == 2 {
      assert out == [out[0], out[1]];
      Pair(Labels(c), w, out[0], out[1]);
    }
  }

  /** Whatever a peer answers and whenever: the file offset, Txpos and bytcnt agree once data are sent, and every data
      frame labelled p carries the file's bytes from p. */
  lemma {:induction false} AnyPeer(c: Config, s: Sender, evs: seq<SEvent>)
    requires Fresh(s)
    ensures var (t, out) := SRun(c, s, evs);
      && (t.sending ==> t.off == t.txpos == t.bytcnt <= t.maxbytcnt)
      && Allows(Labels(c), Nowhere, out)
    ensures var (t, out) := SRun(c, s, evs); SenderOk(t) && InFrame(t, Memory(Labels(c), Nowhere, out))
    decreases |evs|
  {
    hide SStep;
    if evs != [] {
      var before, ev := evs[..|evs| - 1], evs[|evs| - 1];
      AnyPeer(c, s, before);
      var (t, out) := SRun(c, s, before);
      SenderKeeps(c, t, ev);
      StepLabelled(c, t, ev, Memory(Labels(c), Nowhere, out));
      Split(Labels(c), Nowhere, out, SStep(c, t, ev).1);
    }
  }

  // ------------------------------------------------------------------ the position of ZEOF

  /** No reply can make the sender announce the end of the file before it. */
  ghost predicate Honest(c: Config, s: Sender) {
    forall evs: seq<SEvent>, k :: k in SRun(c, s, evs).1 && k.Hdr? && k.t == ZEOF ==> k.pos >= |c.file|
  }

  /** Eofseen only at the end, or one block before it with that block still to come. */
  predicate EofInSight(c: Config, s: Sender) {
    s.sending && (s.eofseen ==> s.txpos >= |c.file| || ((s.pc == SHead || s.pc == SBlock) && s.txpos + s.blklen >= |c.file|))
  }

  lemma SyncEof(s: Sender, k: Caller, t: Kind, pos: int)
    ensures var u := GetInSync(s, k == AtGlance || k == AtPoll, t, pos).s;
      u.sending == s.sending && u.pc == s.pc && (u.eofseen ==> s.eofseen && u.txpos == s.txpos)
    ensures var r := GetInSync(s, k == AtGlance || k == AtPoll, t, pos); r.Stay? ==> forall k :: k in r.out && k.Hdr? ==> k.t == ZNAK
  {
  }

  lemma BlockEof(c: Config, s: Sender)
    requires SenderOk(s) && EofInSight(c, s) && s.pc == SBlock
    ensures var t := SendBlock(c, s).0; |SendBlock(c, s).1| == 1 && SendBlock(c, s).1[0].Packet? && EofInSight(c, t)
  {
  }

  lemma StepHonest(c: Config, s: Sender, ev: SEvent)
    requires SenderOk(s) && EofInSight(c, s)
    ensures var (t, out) := SStep(c, s, ev);
      EofInSight(c, t) && forall k :: k in out && k.Hdr? && k.t == ZEOF ==> k.pos >= |c.file|
  {
    hide GetInSync, SendBlock, Slice;
    if s.pc.SSync? && ev.Reply? {
      SyncEof(s, s.pc.k, ev.t, ev.pos);
    } else if s.pc == SBlock && ev.Go? {
      BlockEof(c, s);
    }
  }

  lemma {:induction false} RunHonest(c: Config, s: Sender, evs: seq<SEvent>)
    requires SenderOk(s) && EofInSight(c, s)
    ensures var (t, out) := SRun(c, s, evs);
      SenderOk(t) && EofInSight(c, t) && forall k :: k in out && k.Hdr? && k.t == ZEOF ==> k.pos >= |c.file|
    decreases |evs|
  {
    hide SStep;
    if evs != [] {
      var before, ev := evs[..|evs| - 1], evs[|evs| - 1];
      RunHonest(c, s, before);
      var (t, out) := SRun(c, s, before);
      SenderKeeps(c, t, ev);
      StepHonest(c, t, ev);
    }
  }

  lemma {:induction false} SRunFirst(c: Config, s: Sender, ev: SEvent, evs: seq<SEvent>)
    ensures var (t, out) := SStep(c, s, ev); var (u, more) := SRun(c, t, evs);
      SRun(c, s, [ev] + evs) == (u, out + more)
    decreases |evs|
  {
    hide SStep;
    var all := [ev] + evs;
    var (t, out) := SStep(c, s, ev);
    if evs == [] {
      assert all[..|all| - 1] == [] && all[|all| - 1] == ev;
      assert [] + out == out + [];
      assert SRun(c, s, []) == (s, []) && SRun(c, t, []) == (t, []);
    } else {
      var before, last := evs[..|evs| - 1], evs[|evs| - 1];
      SRunFirst(c, s, ev, before);
      assert all[..|all| - 1] == [ev] + before && all[|all| - 1] == last;
      var (u, more) := SRun(c, t, before);
      assert out + more + SStep(c, u, last).1 == out + (more + SStep(c, u, last).1);
    }
  }

  /** A block, a quiet line and ZEOF, from a header with Eofseen left set. */
  lemma StaleEnd(c: Config, s: Sender)
    requires SenderOk(s) && s.pc == SHead && s.sending && s.eofseen
    ensures var data := Slice(c.file, s.txpos, s.blklen); var t := SRun(c, s, [Go] + ([Go] + ([Seen(Quiet)] + [Go])));
      && t.1 == [Hdr(ZDATA, s.txpos), Packet(data, ZCRCE), Hdr(ZEOF, s.txpos + |data|)]
      && t.0.pc == SSync(AtEof) && t.0.sending
  {
    var s1, s2, s3 := SStep(c, s, Go).0, SStep(c, SStep(c, s, Go).0, Go).0, SStep(c, SStep(c, SStep(c, s, Go).0, Go).0, Seen(Quiet)).0;
    SRunFirst(c, s, Go, [Go] + ([Seen(Quiet)] + [Go]));
    SRunFirst(c, s1, Go, [Seen(Quiet)] + [Go]);
    SRunFirst(c, s2, Seen(Quiet), [Go]);
    assert [Go] == [Go] + [];
    SRunFirst(c, s3, Go, []);
  }

  /** The file end is announced where it is, whatever is answered, exactly if zsendfdata starts with Eofseen clear
      or with at most a block to go. */
  lemma HonestIff(c: Config, s: Sender)
    requires SenderOk(s) && s.pc == SHead && s.sending
    ensures Honest(c, s) <==> !s.eofseen || s.txpos + s.blklen >= |c.file|
  {
    hide SRun;
    if !s.eofseen || s.txpos + s.blklen >= |c.file| {
      forall evs: seq<SEvent>, k | k in SRun(c, s, evs).1 && k.Hdr? && k.t == ZEOF ensures k.pos >= |c.file| {
        RunHonest(c, s, evs);
      }
    } else {
      StaleEnd(c, s);
      var evs := [Go] + ([Go] + ([Seen(Quiet)] + [Go]));
      var k := Hdr(ZEOF, s.txpos + s.blklen);
      assert SRun(c, s, evs).1[2] == k;
    }
  }

  /** The last whole block of the file ends here. */
  function Whole(c: Config, blklen: nat): nat
    requires blklen > 0
  {
    |c.file| / blklen * blklen
  }

  lemma {:induction false} WalkEof(c: Config, s: Sender, limit: int, k: nat)
    requires s.blklen > 0 && s.off == s.bytcnt == k * s.blklen && s.off <= Whole(c, s.blklen)
    ensures CrcWalk(c, s, limit).eofseen <==> s.eofseen || s.off == Whole(c, s.blklen) || limit > Whole(c, s.blklen)
    decreases if s.off < |c.file| then |c.file| - s.off else 0
  {
    var b, q := s.blklen, Whole(c, s.blklen);
    assert q <= |c.file| < q + b by { Division(|c.file|, b); }
    var (u, data) := ReadOn(c, s);
    Steps(k, |c.file| / b, b);
    hide Whole, Slice;
    if s.off < q {
      assert |data| == b && u.off == u.bytcnt == (k + 1) * b;
      if u.bytcnt < limit {
        WalkEof(c, u, limit, k + 1);
      }
    } else {
      assert |data| < b;
      if data != [] && u.bytcnt < limit {
        WalkStays(c, u, limit);
      }
    }
  }

  lemma Division(n: nat, b: nat)
    requires b > 0
    ensures n / b * b <= n < n / b * b + b
  {
  }

  lemma Steps(k: nat, q: nat, b: nat)
    ensures (k + 1) * b == k * b + b && (k * b < q * b ==> (k + 1) * b <= q * b)
  {
    if k < q {
      assert (q - k - 1) * b >= 0;
    } else {
      assert (k - q) * b >= 0;
    }
  }

  lemma {:induction false} WalkStays(c: Config, s: Sender, limit: int)
    requires s.eofseen
    ensures CrcWalk(c, s, limit).eofseen
    decreases if s.off < |c.file| then |c.file| - s.off else 0
  {
    var (u, data) := ReadOn(c, s);
    if data != [] && u.bytcnt < limit {
      WalkStays(c, u, limit);
    }
  }

  /** A checksum request before the first ZRPOS, which leaves Eofseen as the walk over the file left it: the end is
      announced where it is exactly if the request stayed within whole blocks or the file has at most a block from p. */
  lemma ChecksumThenStart(c: Config, s: Sender, limit: int, p: nat)
    requires SenderOk(s) && s.pc == SName && !s.sending && !s.eofseen
    ensures var t := OnName(c, OnName(c, s, ZCRC, limit).0, ZRPOS, p).0;
      Honest(c, t) <==> (0 < Whole(c, s.blklen) && limit <= Whole(c, s.blklen)) || p + s.blklen >= |c.file|
  {
    hide Whole, CrcWalk, Honest;
    var s0 := s.(off := 0, bytcnt := 0);
    WalkEof(c, s0, limit, 0);
    var t := OnName(c, OnName(c, s, ZCRC, limit).0, ZRPOS, p).0;
    HonestIff(c, t);
  }

  /** So a file can be cut short unnoticed: after a request for the checksum of all of it, the sender sends one block,
      announces the end, and a receiver as in rzfile accepts; the sender then returns OK. */
  lemma CutShort(c: Config, s: Sender, r: Receiver)
    requires SenderOk(s) && s.pc == SHead && s.sending && s.eofseen && s.txpos == 0 && s.blklen < |c.file|
    requires r.pc == RHdr && r.rxbytes == 0 && r.out == [] && !r.accepted && c.tries > 0
    ensures var (t, out) := SRun(c, s, [Go] + ([Go] + ([Seen(Quiet)] + [Go])));
      && |out| == 3 && out[0].Hdr? && out[1].Packet? && out[2].Hdr?
      && (var r1 := RStep(c, r, Header(out[0].t, out[0].pos, true)).0;
          var r2 := RStep(c, r1, Good(out[1].data, out[1].end)).0;
          var r3 := RStep(c, r2, Header(out[2].t, out[2].pos, true)).0;
          r3.accepted && r3.out == c.file[..s.blklen] && r3.out != c.file)
      && SStep(c, t, Reply(ZRINIT, 0)).0.pc == SDone(OK)
  {
    StaleEnd(c, s);
    hide SRun;
    var data := Slice(c.file, 0, s.blklen);
    assert data == c.file[..s.blklen];
    assert [] + data == data;
  }

  // ------------------------------------------------------------------ repositioning

  /** getinsync moves the file to the position asked for. */
  predicate Granted(s: Sender, ev: SEvent) {
    s.pc.SSync? && ev.Reply? && ev.t == ZRPOS && 0 <= ev.pos <= s.bytcnt && (s.lastsync == ev.pos ==> s.beenhere < 12)
  }

  /** The positions granted in a run. */
  function Grants(c: Config, s: Sender, evs: seq<SEvent>): seq<int>
    decreases |evs|
  {
    if evs == [] then [] else
    var before := evs[..|evs| - 1];
    Grants(c, s, before) + if Granted(SRun(c, s, before).0, evs[|evs| - 1]) then [evs[|evs| - 1].pos] else []
  }

  /** How a step changes Lastsync and Beenhereb4. */
  predicate Counted(s: Sender, granted: bool, pos: int, t: Sender) {
    if granted then t.lastsync == pos && t.beenhere == if s.lastsync == pos then s.beenhere + 1 else 0
    else t.lastsync == s.lastsync
  }

  lemma SyncCounted(s: Sender, k: Caller, t: Kind, pos: int)
    requires SenderOk(s) && s.sending && s.pc == SSync(k) && s.beenhere <= 12
    ensures var g := Granted(s, Reply(t, pos)); var r := GetInSync(s, k == AtGlance || k == AtPoll, t, pos);
      && r.s.sending && r.s.pc == s.pc && Counted(s, g, pos, r.s)
      && (g || r.s.beenhere == s.beenhere || (r.Return? && r.code == TERROR))
  {
  }

  lemma GrantStep(c: Config, s: Sender, ev: SEvent)
    requires SenderOk(s) && s.sending && (s.beenhere <= 12 || s.pc.SDone?)
    ensures var t := SStep(c, s, ev).0;
      && t.sending && Counted(s, Granted(s, ev), if ev.Reply? then ev.pos else 0, t)
      && (Granted(s, ev) || t.beenhere == s.beenhere || t.pc.SDone?)
      && (s.pc.SDone? ==> t == s)
  {
    hide GetInSync, Slice;
    if s.pc.SSync? && ev.Reply? {
      SyncCounted(s, s.pc.k, ev.t, ev.pos);
    }
  }

  /** At most thirteen requests in a row for the same position are granted. */
  lemma {:induction false} ThirteenInARow(c: Config, s: Sender, evs: seq<SEvent>, p: int)
    requires SenderOk(s) && s.sending && s.beenhere <= 12
    requires forall q :: q in Grants(c, s, evs) ==> q == p
    ensures |Grants(c, s, evs)| <= 13
    ensures var t := SRun(c, s, evs).0;
      && SenderOk(t) && t.sending && (t.beenhere <= 12 || t.pc.SDone?)
      && (!t.pc.SDone? ==> |Grants(c, s, evs)| <= if t.lastsync == p then t.beenhere + 1 else 0)
    decreases |evs|
  {
    hide SStep;
    if evs != [] {
      var before, ev := evs[..|evs| - 1], evs[|evs| - 1];
      assert forall q :: q in Grants(c, s, before) ==> q in Grants(c, s, evs);
      ThirteenInARow(c, s, before, p);
      var t := SRun(c, s, before).0;
      if Granted(t, ev) {
        assert ev.pos in Grants(c, s, evs);
      }
      SenderKeeps(c, t, ev);
      GrantStep(c, t, ev);
    }
  }

  predicate Rising(ps: seq<int>, lo: int, hi: int) {
    (forall i :: 0 <= i < |ps| ==> lo <= ps[i] <= hi) && (forall i, j :: 0 <= i <= j < |ps| ==> ps[i] <= ps[j])
  }

  lemma {:induction false} RisingGrants(c: Config, s: Sender, evs: seq<SEvent>, p: int, n: int)
    requires SenderOk(s) && s.sending && s.lastsync == p - 1 && s.beenhere == 0
    requires Rising(Grants(c, s, evs), p, n)
    ensures var t := SRun(c, s, evs).0; var g := Grants(c, s, evs);
      && SenderOk(t) && t.sending && (t.beenhere <= 12 || t.pc.SDone?)
      && (if g == [] then t.lastsync == p - 1 else t.lastsync == g[|g| - 1] && |g| <= 13 * (t.lastsync - p) + 13)
      && (g != [] && !t.pc.SDone? ==> |g| <= 13 * (t.lastsync - p) + t.beenhere + 1)
    decreases |evs|
  {
    hide SStep;
    if evs != [] {
      var before, ev := evs[..|evs| - 1], evs[|evs| - 1];
      var g, h := Grants(c, s, evs), Grants(c, s, before);
      assert forall i :: 0 <= i < |h| ==> h[i] == g[i];
      RisingGrants(c, s, before, p, n);
      var t := SRun(c, s, before).0;
      if Granted(t, ev) {
        assert g[|g| - 1] == ev.pos;
      }
      SenderKeeps(c, t, ev);
      GrantStep(c, t, ev);
    }
  }

  /** A receiver whose positions never go back gets at most thirteen repositionings for each of the N + 1 positions. */
  lemma Resyncs(c: Config, s: Sender, p: nat, evs: seq<SEvent>)
    requires SenderOk(s) && s.pc == SName && p <= |c.file|
    requires Rising(Grants(c, StartAt(s, p), evs), p, |c.file|)
    ensures |Grants(c, StartAt(s, p), evs)| <= 13 * (|c.file| - p + 1)
  {
    RisingGrants(c, StartAt(s, p), evs, p, |c.file|);
  }

  lemma BlklenStep(c: Config, s: Sender, ev: SEvent)
    ensures var t := SStep(c, s, ev).0;
      t.blklen <= s.blklen && (s.blklen >= 16 ==> t.blklen >= 16) && (s.blklen <= 32 ==> t.blklen == s.blklen)
  {
    hide CrcWalk, FileCrc, Slice, GetInSync;
    if s.pc.SSync? && ev.Reply? {
      SyncBlklen(s, s.pc.k, ev.t, ev.pos);
    }
  }

  lemma SyncBlklen(s: Sender, k: Caller, t: Kind, pos: int)
    ensures var u := GetInSync(s, k == AtGlance || k == AtPoll, t, pos).s;
      u.blklen <= s.blklen && (s.blklen >= 16 ==> u.blklen >= 16) && (s.blklen <= 32 ==> u.blklen == s.blklen)
  {
  }

  /** The block length only shrinks, never below 16, and not at all from 32 on. */
  lemma {:induction false} BlklenFloor(c: Config, s: Sender, evs: seq<SEvent>)
    ensures var t := SRun(c, s, evs).0;
      t.blklen <= s.blklen && (s.blklen >= 16 ==> t.blklen >= 16) && (s.blklen <= 32 ==> t.blklen == s.blklen)
    decreases |evs|
  {
    hide SStep;
    if evs != [] {
      BlklenFloor(c, s, evs[..|evs| - 1]);
      BlklenStep(c, SRun(c, s, evs[..|evs| - 1]).0, evs[|evs| - 1]);
    }
  }
}

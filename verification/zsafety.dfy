/** What holds in every run of a ZMODEM transfer over lossy channels. */
module ZSafety {
  import opened Common
  import opened Crc
  import opened ZSession
  import opened ZMonitor

  // ------------------------------------------------------------------ the way forward

  /** Where in a frame a reader is: in none, at the subpacket after ZFILE, at a file position after ZDATA. */
  datatype Where = Nowhere | AtName | At(pos: int)

  /** `Stale` until the first ZFILE; afterwards also whether a ZEOF has come. */
  datatype Forth = Stale | Open(ended: bool, at: Where)

  predicate Continues(end: End) {
    end == ZCRCG || end == ZCRCQ
  }

  function ForthNext(s: Forth, k: Token): Forth {
    if s.Stale? then (if k.Hdr? && k.t == ZFILE then Open(false, AtName) else Stale) else
    match k
    case Hdr(t, pos) => Open(s.ended || t == ZEOF, if t == ZFILE then AtName else if t == ZDATA then At(pos) else Nowhere)
    case Packet(data, end) => Open(s.ended, if s.at.At? && Continues(end) then At(s.at.pos + |data|) else Nowhere)
    case Junk => Open(s.ended, Nowhere)
  }

  /** Data under a position is the file from there; ZEOF carries the size; no ZFILE follows a ZEOF. */
  predicate ForthOk(c: Config, s: Forth, k: Token) {
    s.Stale? ||
    match k
    case Hdr(t, pos) => (t == ZFILE && !s.ended) || t == ZDATA || (t == ZEOF && pos == |c.file|) || t == ZNAK
    case Packet(data, end) =>
      (match s.at
       case Nowhere => true
       case AtName => data == c.info && end == ZCRCW
       case At(pos) => data == Slice(c.file, pos, |data|))
    case Junk => true
  }

  predicate ForthBelow(a: Forth, b: Forth) {
    a == b || a.Stale? || (b.Open? && (a.ended ==> b.ended) && (a.at == b.at || a.at == Nowhere))
  }

  predicate ForthFaint(a: Forth, b: Forth) {
    a.Stale? || (b.Open? && (a.ended ==> b.ended))
  }

  function Forward(c: Config): Monitor<Forth> {
    Monitor((s, k) => ForthNext(s, k), (s, k) => ForthOk(c, s, k), (a, b) => ForthBelow(a, b), (a, b) => ForthFaint(a, b))
  }

  lemma ForwardSteady(c: Config)
    ensures Steady(Forward(c)) && JunkIsLeast(Forward(c))
  {
    hide Slice;
  }

  lemma ForwardFades(c: Config)
    ensures Ordered(Forward(c)) && Fades(Forward(c))
  {
    hide Slice;
  }

  lemma ForwardRobust(c: Config)
    ensures Robust(Forward(c))
  {
    hide Ordered, Steady, JunkIsLeast, Fades;
    ForwardSteady(c);
    ForwardFades(c);
  }

  // ------------------------------------------------------------------ the way back

  /** Before the first ZRPOS, from there, and after a reply that is neither ZRPOS nor ZACK. */
  datatype Back = Early | Asking | Late

  function BackNext(s: Back, k: Token): Back {
    if !k.Hdr? || s == Late then s
    else if k.t == ZRPOS then Asking
    else if s == Early || k.t == ZACK then s
    else Late
  }

  predicate BackOk(c: Config, s: Back, k: Token) {
    k.Hdr? ==> k.t != ZCRC && (k.t == ZRPOS ==> s != Late && 0 <= k.pos <= |c.file|)
  }

  predicate BackBelow(a: Back, b: Back) {
    a == b || a == Early || b == Late
  }

  function Backward(c: Config): Monitor<Back> {
    Monitor((s, k) => BackNext(s, k), (s, k) => BackOk(c, s, k), (a, b) => BackBelow(a, b), (a, b) => BackBelow(a, b))
  }

  lemma BackwardRobust(c: Config)
    ensures Robust(Backward(c)) && forall a, b :: Backward(c).faint(a, b) ==> Backward(c).below(a, b)
  {
  }

  // ------------------------------------------------------------------ the invariant

  predicate Naming(s: Sender) {
    s.pc == SOffer || s.pc == SName || s.pc == SEat || s.pc == SDone(Failed) || s.pc == SDone(Skipped)
  }

  /** Once sending, the file offset is Txpos and bytcnt, and no more than maxbytcnt. */
  predicate SenderOk(s: Sender) {
    && s.blklen > 0
    && (if s.sending then
          && s.pc != SOffer && s.pc != SName && s.pc != SEat && (s.pc == SEnd ==> s.eofseen)
          && s.off == s.txpos == s.bytcnt <= s.maxbytcnt
        else Naming(s))
  }

  predicate MidFrame(s: Sender) {
    s.pc == SBlock || s.pc == SPoll || s.pc == SSync(AtPoll)
  }

  /** For a sender whose every request so far was within the file and none was for a checksum. */
  predicate InFile(c: Config, s: Sender) {
    if s.sending then s.txpos <= |c.file| && (s.eofseen ==> s.txpos == |c.file|) else !s.eofseen
  }

  /** The memory at the end of the way forward fits what the sender will send next. */
  predicate ForthEnd(s: Sender, e: Forth) {
    e.Stale? || (if s.sending then MidFrame(s) ==> e.at == Nowhere || e.at == At(s.txpos) else !e.ended)
  }

  predicate ReceiverOk(c: Config, r: Receiver) {
    && (r.first == ZRINIT || r.first == ZSKIP || r.first == ZFERR)
    && r.out <= c.file
    && match r.name
       case None => r.out == [] && !r.accepted && r.pc != RHdr && r.pc != RData && r.pc != RDup
       case Some(name) =>
         && name == c.info && r.rxbytes == |r.out|
         && (if r.accepted then r.out == c.file && (r.pc == RWait || r.pc == RStop)
             else r.pc == RHdr || r.pc == RData || r.pc == RDup || r.pc == RStop)
  }

  /** What the receiver remembers of the way forward. */
  function Heard(r: Receiver): Forth {
    if r.accepted then Open(true, Nowhere) else
    match r.pc
    case RName | RDup => Open(false, AtName)
    case RHdr => Open(false, Nowhere)
    case RData => Open(false, At(r.rxbytes))
    case _ => Stale
  }

  /** zsendfdata has returned OK, or ZSKIP, which it makes of a ZRINIT in the middle of the file as well. */
  predicate Goes(s: Sender) {
    s.pc == SDone(OK) || (s.pc == SDone(Skipped) && s.sending)
  }

  function Asked(s: Sender): Back {
    if Goes(s) then Late else if s.sending then Asking else Early
  }

  predicate BackEnd(r: Receiver, e: Back) {
    (r.name == None ==> e == Early) && (!r.accepted ==> e != Late)
  }

  ghost predicate Inv(c: Config, y: System) {
    && SenderOk(y.s) && InFile(c, y.s) && ReceiverOk(c, y.r)
    && (y.r.name == None ==> !y.s.sending) && (Goes(y.s) ==> y.r.accepted)
    && Allows(Forward(c), Heard(y.r), y.fwd) && ForthEnd(y.s, Memory(Forward(c), Heard(y.r), y.fwd))
    && Allows(Backward(c), Asked(y.s), y.back) && BackEnd(y.r, Memory(Backward(c), Asked(y.s), y.back))
  }

  // ------------------------------------------------------------------ the sender's steps

  lemma NameKeeps(c: Config, s: Sender, t: Kind, pos: int)
    requires SenderOk(s) && s.pc == SName
    ensures SenderOk(OnName(c, s, t, pos).0)
  {
    hide CrcWalk, FileCrc, Slice;
  }

  lemma BlockKeeps(c: Config, s: Sender)
    requires SenderOk(s) && s.pc == SBlock
    ensures SenderOk(SendBlock(c, s).0)
  {
    hide Slice;
  }

  lemma SyncKeeps(s: Sender, k: Caller, t: Kind, pos: int)
    requires SenderOk(s) && s.pc == SSync(k) && s.sending
    ensures var r := GetInSync(s, k == AtGlance || k == AtPoll, t, pos);
      SenderOk(r.s) && r.s.pc == s.pc && r.s.sending
  {
  }

  /** offset == Txpos == bytcnt <= maxbytcnt in every step, whatever replies arrive. */
  lemma {:induction false} SenderKeeps(c: Config, s: Sender, ev: SEvent)
    requires SenderOk(s)
    ensures SenderOk(SStep(c, s, ev).0)
  {
    hide SendBlock, OnName, GetInSync;
    match ev
    case Go => if s.pc == SBlock { BlockKeeps(c, s); }
    case Seen(look) =>
    case Reply(t, pos) =>
      if s.pc == SName { NameKeeps(c, s, t, pos); }
      if s.pc.SSync? { SyncKeeps(s, s.pc.k, t, pos); }
  }

  predicate Tame(c: Config, ev: SEvent) {
    ev.Reply? ==> ev.t != ZCRC && (ev.t == ZRPOS ==> 0 <= ev.pos <= |c.file|)
  }

  lemma SenderInFile(c: Config, s: Sender, ev: SEvent)
    requires SenderOk(s) && InFile(c, s) && Tame(c, ev)
    ensures InFile(c, SStep(c, s, ev).0)
  {
    hide CrcRequest;
  }

  lemma BlockAdds(c: Config, s: Sender, e: Forth)
    requires SenderOk(s) && InFile(c, s) && ForthEnd(s, e) && s.pc == SBlock && s.sending
    ensures var (t, out) := SendBlock(c, s);
      |out| == 1 && ForthOk(c, e, out[0]) && ForthEnd(t, ForthNext(e, out[0]))
  {
  }

  lemma SyncFacts(s: Sender, k: Caller, t: Kind, pos: int)
    ensures var r := GetInSync(s, k == AtGlance || k == AtPoll, t, pos);
      && r.s.pc == s.pc && r.s.sending == s.sending
      && (r.Stay? ==> r.s.txpos == s.txpos && (r.out == [] || r.out == [Hdr(ZNAK, s.txhdr)]))
      && (r.Return? && r.code == ZACK ==> r.s.txpos == s.txpos)
  {
  }

  lemma SyncAdds(c: Config, s: Sender, k: Caller, t: Kind, pos: int, e: Forth)
    requires SenderOk(s) && ForthEnd(s, e) && s.pc == SSync(k) && s.sending
    ensures var (u, out) := OnSync(s, k, t, pos);
      |out| <= 1 && (if out == [] then ForthEnd(u, e) else ForthOk(c, e, out[0]) && ForthEnd(u, ForthNext(e, out[0])))
  {
    hide GetInSync;
    SyncFacts(s, k, t, pos);
  }

  lemma OfferAdds(c: Config, s: Sender, e: Forth)
    requires SenderOk(s) && ForthEnd(s, e) && s.pc == SOffer && !s.sending
    ensures var (u, out) := OfferFile(c, s);
      if out == [] then ForthEnd(u, e)
      else
        && |out| == 2 && ForthOk(c, e, out[0]) && ForthOk(c, ForthNext(e, out[0]), out[1])
        && ForthEnd(u, ForthNext(ForthNext(e, out[0]), out[1]))
  {
  }

  lemma One<S>(m: Monitor<S>, e: S, k: Token)
    ensures Memory(m, e, [k]) == m.next(e, k) && (Allows(m, e, [k]) <==> m.ok(e, k))
  {
    assert [k][1..] == [];
  }

  lemma Pair<S>(m: Monitor<S>, e: S, k: Token, l: Token)
    ensures Memory(m, e, [k, l]) == m.next(m.next(e, k), l) && (Allows(m, e, [k, l]) <==> m.ok(e, k) && m.ok(m.next(e, k), l))
  {
    assert [k, l] == [k] + [l];
    Split(m, e, [k], [l]);
    One(m, e, k);
    One(m, m.next(e, k), l);
  }

  /** What the sender adds is fit to follow what it sent before. */
  lemma SenderAdds(c: Config, s: Sender, ev: SEvent, e: Forth)
    requires SenderOk(s) && InFile(c, s) && Tame(c, ev) && ForthEnd(s, e)
    ensures var (t, out) := SStep(c, s, ev);
      Allows(Forward(c), e, out) && ForthEnd(t, Memory(Forward(c), e, out))
  {
    hide SendBlock, OnSync, OfferFile, CrcRequest, Slice;
    var (t, out) := SStep(c, s, ev);
    match ev
    case Seen(look) =>
    case Reply(k, pos) =>
      if s.pc.SSync? {
        SyncAdds(c, s, s.pc.k, k, pos, e);
      }
    case Go =>
      if s.pc == SBlock {
        BlockAdds(c, s, e);
      } else if s.pc == SOffer {
        OfferAdds(c, s, e);
      }
    if |out| == 1 {
      assert out == [out[0]];
      One(Forward(c), e, out[0]);
    } else if |out| == 2 {
      assert out == [out[0], out[1]];
      Pair(Forward(c), e, out[0], out[1]);
    }
  }

  // ------------------------------------------------------------------ the receiver's steps

  /** What the receiver may be told when it remembers e. */
  predicate Fits(c: Config, e: Forth, ev: REvent) {
    match ev
    case Header(t, pos, closes) => NoHeader(t) || ForthOk(c, e, Hdr(t, pos))
    case Good(data, end) => ForthOk(c, e, Packet(data, end))
    case Bad(code) => true
  }

  function Told(e: Forth, ev: REvent): Forth {
    match ev
    case Header(t, pos, closes) => if NoHeader(t) then e else ForthNext(e, Hdr(t, pos))
    case Good(data, end) => ForthNext(e, Packet(data, end))
    case Bad(code) => ForthNext(e, Junk)
  }

  /** What a step must do to the receiver when e is remembered at the end of the way back. */
  predicate Keeps(c: Config, r: Receiver, u: Receiver) {
    ReceiverOk(c, u) && (r.accepted ==> u.accepted) && (r.name != None ==> u.name != None)
  }

  lemma FileHeaderKeeps(c: Config, r: Receiver, t: Kind, pos: int, closes: bool)
    requires ReceiverOk(c, r) && r.pc == RHdr && Fits(c, Heard(r), Header(t, pos, closes))
    ensures Keeps(c, r, OnFileHeader(c, r, t, pos, closes).0)
  {
    hide Slice;
  }

  lemma DataKeeps(c: Config, r: Receiver, data: seq<Byte>, end: End)
    requires ReceiverOk(c, r) && r.pc == RData && Fits(c, Heard(r), Good(data, end))
    ensures Keeps(c, r, OnData(r, data, end).0)
  {
  }

  lemma ReceiverKeeps(c: Config, r: Receiver, ev: REvent)
    requires ReceiverOk(c, r) && Fits(c, Heard(r), ev)
    ensures Keeps(c, r, RStep(c, r, ev).0)
  {
    hide OnFileHeader, OnData, Slice;
    if r.pc == RHdr && ev.Header? {
      FileHeaderKeeps(c, r, ev.t, ev.pos, ev.closes);
    } else if r.pc == RData && ev.Good? {
      DataKeeps(c, r, ev.data, ev.end);
    }
  }

  /** The receiver remembers no more than what came. */
  lemma ReceiverHears(c: Config, r: Receiver, ev: REvent)
    requires ReceiverOk(c, r) && Fits(c, Heard(r), ev)
    requires ev.Header? <==> Hunting(r)
    ensures ForthBelow(Heard(RStep(c, r, ev).0), Told(Heard(r), ev))
  {
  }

  predicate Follows(c: Config, e: Back, u: Receiver, out: seq<Token>) {
    && |out| <= 2
    && (|out| == 0 ==> BackEnd(u, e))
    && (|out| == 1 ==> BackOk(c, e, out[0]) && BackEnd(u, BackNext(e, out[0])))
    && (|out| == 2 ==> BackOk(c, e, out[0]) && BackOk(c, BackNext(e, out[0]), out[1]) && BackEnd(u, BackNext(BackNext(e, out[0]), out[1])))
  }

  lemma FileHeaderSends(c: Config, r: Receiver, t: Kind, pos: int, closes: bool, e: Back)
    requires ReceiverOk(c, r) && r.pc == RHdr && Fits(c, Heard(r), Header(t, pos, closes)) && BackEnd(r, e)
    ensures var (u, out) := OnFileHeader(c, r, t, pos, closes); Follows(c, e, u, out)
  {
    hide Slice;
  }

  lemma TryHeaderSends(c: Config, r: Receiver, t: Kind, e: Back)
    requires ReceiverOk(c, r) && r.pc == RWait && BackEnd(r, e)
    ensures var (u, out) := OnTryHeader(c, r, t); Follows(c, e, u, out)
  {
    hide Slice;
  }

  lemma ReceiverSends(c: Config, r: Receiver, ev: REvent, e: Back)
    requires ReceiverOk(c, r) && Fits(c, Heard(r), ev) && BackEnd(r, e)
    ensures var (u, out) := RStep(c, r, ev); Follows(c, e, u, out)
  {
    hide OnFileHeader, OnTryHeader, Slice;
    if r.pc == RHdr && ev.Header? {
      FileHeaderSends(c, r, ev.t, ev.pos, ev.closes, e);
    } else if r.pc == RWait && ev.Header? {
      TryHeaderSends(c, r, ev.t, e);
    }
  }

  lemma ReceiverAdds(c: Config, r: Receiver, ev: REvent, e: Back)
    requires ReceiverOk(c, r) && Fits(c, Heard(r), ev) && BackEnd(r, e)
    ensures var (u, out) := RStep(c, r, ev);
      Allows(Backward(c), e, out) && BackEnd(u, Memory(Backward(c), e, out))
  {
    var (u, out) := RStep(c, r, ev);
    ReceiverSends(c, r, ev, e);
    hide RStep;
    if |out| == 1 {
      assert out == [out[0]];
      One(Backward(c), e, out[0]);
    } else if |out| == 2 {
      assert out == [out[0], out[1]];
      Pair(Backward(c), e, out[0], out[1]);
    }
  }

  // ------------------------------------------------------------------ the moves

  /** What a reply does to what the sender remembers of the way back. */
  lemma AskedNext(c: Config, s: Sender, ev: SEvent)
    requires SenderOk(s)
    ensures var u := SStep(c, s, ev).0;
      && (ev.Reply? && (s.pc == SName || s.pc.SSync?) ==>
            && BackBelow(Asked(u), BackNext(Asked(s), Hdr(ev.t, ev.pos)))
            && (u.sending && !s.sending ==> ev.t == ZRPOS)
            && (Goes(u) ==> (ev.t == ZRINIT || ev.t == ZSKIP) && s.sending))
      && ((ev.Reply? && !NoHeader(ev.t)) || (Asked(u) == Asked(s) && u.sending == s.sending))
  {
    hide CrcWalk, FileCrc, Slice;
  }

  lemma SenderMoveKeeps(c: Config, y: System, ev: SEvent)
    requires Inv(c, y) && (ev.Reply? ==> NoHeader(ev.t))
    ensures Inv(c, SenderMoves(c, y, ev, y.back))
  {
    hide SStep, Asked, ForthEnd, SenderOk, InFile, ReceiverOk, Heard;
    var m, h := Forward(c), Heard(y.r);
    var (s, out) := SStep(c, y.s, ev);
    SenderKeeps(c, y.s, ev);
    SenderInFile(c, y.s, ev);
    SenderAdds(c, y.s, ev, Memory(m, h, y.fwd));
    AskedNext(c, y.s, ev);
    LateMeansOk(y.s, s);
    Split(m, h, y.fwd, out);
  }

  lemma LateMeansOk(s: Sender, u: Sender)
    ensures Asked(u) == Asked(s) ==> (Goes(u) <==> Goes(s))
  {
  }

  lemma SenderTakesKeeps(c: Config, y: System)
    requires Inv(c, y) && y.back != [] && y.back[0].Hdr? && (y.s.pc == SName || y.s.pc.SSync?)
    ensures Inv(c, SenderMoves(c, y, Reply(y.back[0].t, y.back[0].pos), y.back[1..]))
  {
    hide SStep, ForthEnd, SenderOk, InFile, ReceiverOk, Heard;
    var k := y.back[0];
    var ev := Reply(k.t, k.pos);
    var m, h := Forward(c), Heard(y.r);
    var n := Backward(c);
    var (s, out) := SStep(c, y.s, ev);
    var next := BackNext(Asked(y.s), k);
    BackwardRobust(c);
    assert n.ok(Asked(y.s), k) && n.next(Asked(y.s), k) == next;
    var e := Memory(n, next, y.back[1..]);
    AskedNext(c, y.s, ev);
    Weaken(n, Asked(s), next, y.back[1..]);
    Fading(n, next, next, y.back[1..]);
    SenderKeeps(c, y.s, ev);
    SenderInFile(c, y.s, ev);
    SenderAdds(c, y.s, ev, Memory(m, h, y.fwd));
    Split(m, h, y.fwd, out);
  }

  lemma ReceiverMoveKeeps(c: Config, y: System, ev: REvent, fwd: seq<Token>)
    requires Inv(c, y) && Fits(c, Heard(y.r), ev) && (ev.Header? <==> Hunting(y.r))
    requires Allows(Forward(c), Told(Heard(y.r), ev), fwd) && ForthEnd(y.s, Memory(Forward(c), Told(Heard(y.r), ev), fwd))
    ensures Inv(c, ReceiverMoves(c, y, ev, fwd))
  {
    hide RStep, SenderOk, InFile, ReceiverOk, Heard, Told, Fits;
    var m, n := Forward(c), Backward(c);
    var (r, out) := RStep(c, y.r, ev);
    ReceiverKeeps(c, y.r, ev);
    ReceiverHears(c, y.r, ev);
    ReceiverAdds(c, y.r, ev, Memory(n, Asked(y.s), y.back));
    Split(n, Asked(y.s), y.back, out);
    ForwardRobust(c);
    Weaken(m, Heard(r), Told(Heard(y.r), ev), fwd);
  }

  lemma ReceiverTakesKeeps(c: Config, y: System, closes: bool)
    requires Inv(c, y) && y.fwd != []
    ensures Inv(c, Taking(c, y, closes))
  {
    hide RStep, SenderOk, InFile, ReceiverOk;
    match y.fwd[0]
    case Hdr(t, pos) =>
      if Hunting(y.r) {
        ForwardRobust(c);
        Weaken(Forward(c), Told(Heard(y.r), Header(t, pos, closes)), ForthNext(Heard(y.r), y.fwd[0]), y.fwd[1..]);
        ReceiverMoveKeeps(c, y, Header(t, pos, closes), y.fwd[1..]);
      }
    case Packet(data, end) =>
      if !Hunting(y.r) {
        ReceiverMoveKeeps(c, y, Good(data, end), y.fwd[1..]);
      }
    case Junk =>
      if !Hunting(y.r) {
        ReceiverMoveKeeps(c, y, Bad(TERROR), y.fwd[1..]);
      }
  }

  lemma ForthLower(s: Sender, a: Forth, b: Forth)
    requires ForthBelow(a, b) && ForthEnd(s, b)
    ensures ForthEnd(s, a)
  {
  }

  lemma GetsTold(c: Config, r: Receiver, code: Kind)
    requires NoHeader(code)
    ensures var ev := if Hunting(r) then Header(code, 0, false) else Bad(code);
      Fits(c, Heard(r), ev) && ForthBelow(Told(Heard(r), ev), Heard(r))
  {
  }

  lemma ReceiverGetsKeeps(c: Config, y: System, code: Kind)
    requires Inv(c, y) && NoHeader(code)
    ensures Inv(c, Apply(c, y, RGets(code)))
  {
    hide RStep, SenderOk, InFile, ReceiverOk, Asked, BackEnd, ForthEnd, Told, Fits, Heard, Robust, ForthBelow;
    ForwardRobust(c);
    assert Steady(Forward(c)) by { ForwardSteady(c); }
    var ev := if Hunting(y.r) then Header(code, 0, false) else Bad(code);
    GetsTold(c, y.r, code);
    Weaken(Forward(c), Told(Heard(y.r), ev), Heard(y.r), y.fwd);
    ForthLower(y.s, Memory(Forward(c), Told(Heard(y.r), ev), y.fwd), Memory(Forward(c), Heard(y.r), y.fwd));
    ReceiverMoveKeeps(c, y, ev, y.fwd);
  }

  lemma DamageMoveKeeps(c: Config, y: System, forward: bool, i: nat, j: nat)
    requires Inv(c, y)
    ensures Inv(c, Apply(c, y, Damage(forward, i, j)))
  {
    hide SenderOk, InFile, ReceiverOk, Heard, Asked, Damaged, Robust, ForthEnd;
    if forward {
      ForwardRobust(c);
      DamageKeeps(Forward(c), Heard(y.r), y.fwd, i, j);
      ForthLower(y.s, Memory(Forward(c), Heard(y.r), Damaged(y.fwd, i, j)), Memory(Forward(c), Heard(y.r), y.fwd));
    } else {
      BackwardRobust(c);
      DamageKeeps(Backward(c), Asked(y.s), y.back, i, j);
    }
  }

  lemma LossMoveKeeps(c: Config, y: System, forward: bool, i: nat, j: nat)
    requires Inv(c, y)
    ensures Inv(c, Apply(c, y, Loss(forward, i, j)))
  {
    hide SenderOk, InFile, ReceiverOk, Heard, Asked, Lost1, Robust, ForthEnd;
    if forward {
      ForwardRobust(c);
      LossKeeps(Forward(c), Heard(y.r), y.fwd, i, j, false);
      ForthLower(y.s, Memory(Forward(c), Heard(y.r), Lost1(y.fwd, i, j, false)), Memory(Forward(c), Heard(y.r), y.fwd));
    } else {
      BackwardRobust(c);
      LossKeeps(Backward(c), Asked(y.s), y.back, i, j, true);
    }
  }

  /** Every move keeps the invariant. */
  lemma MoveKeeps(c: Config, y: System, m: Move)
    requires Inv(c, y)
    ensures Inv(c, Apply(c, y, m))
  {
    hide SStep, RStep, Taking, Inv;
    match m
    case SRuns => SenderMoveKeeps(c, y, Go);
    case SLooks(look) => SenderMoveKeeps(c, y, Seen(look));
    case STakes =>
      if y.back != [] {
        if y.back[0].Hdr? && (y.s.pc == SName || y.s.pc.SSync?) {
          SenderTakesKeeps(c, y);
        } else if y.back[0].Junk? {
          JunkPasses(c, y);
        }
      }
    case SGets(code) => if NoHeader(code) { SenderMoveKeeps(c, y, Reply(code, 0)); }
    case RTakes(closes) => if y.fwd != [] { ReceiverTakesKeeps(c, y, closes); }
    case RGets(code) => if NoHeader(code) { ReceiverGetsKeeps(c, y, code); }
    case Damage(forward, i, j) => DamageMoveKeeps(c, y, forward, i, j);
    case Loss(forward, i, j) => LossMoveKeeps(c, y, forward, i, j);
  }

  lemma JunkPasses(c: Config, y: System)
    requires Inv(c, y) && y.back != [] && y.back[0].Junk?
    ensures Inv(c, y.(back := y.back[1..]))
  {
  }

  lemma {:induction false} StaleAllows(c: Config, w: seq<Token>)
    requires forall k :: k in w && k.Hdr? ==> k.t != ZFILE
    ensures Allows(Forward(c), Stale, w) && Memory(Forward(c), Stale, w) == Stale
    decreases |w|
  {
    if w != [] {
      StaleAllows(c, w[1..]);
    }
  }

  lemma {:induction false} EarlyAllows(c: Config, w: seq<Token>)
    requires forall k :: k in w && k.Hdr? ==> k.t != ZRPOS && k.t != ZCRC
    ensures Allows(Backward(c), Early, w) && Memory(Backward(c), Early, w) == Early
    decreases |w|
  {
    if w != [] {
      EarlyAllows(c, w[1..]);
    }
  }

  lemma {:induction false} RunKeeps(c: Config, y: System, ms: seq<Move>)
    requires Init(c, y)
    ensures Inv(c, Run(c, y, ms))
    decreases |ms|
  {
    hide Apply;
    if ms == [] {
      StaleAllows(c, y.fwd);
      EarlyAllows(c, y.back);
    } else {
      RunKeeps(c, y, ms[..|ms| - 1]);
      hide Inv;
      MoveKeeps(c, Run(c, y, ms[..|ms| - 1]), ms[|ms| - 1]);
    }
  }

  /** In every run, whatever is damaged or lost: what has been received is a prefix of the file; once ZEOF has been
      accepted it is the file, under the name that was offered; and a sender that has returned OK, or ZSKIP after it had begun
      to send data, did so after that. */
  lemma {:induction false} Safety(c: Config, y: System, ms: seq<Move>)
    requires Init(c, y)
    ensures var z := Run(c, y, ms);
      && z.r.out <= c.file
      && (z.r.name != None ==> z.r.name == Some(c.info) && z.r.rxbytes == |z.r.out|)
      && (z.r.accepted ==> z.r.out == c.file && z.r.name == Some(c.info))
      && (Goes(z.s) ==> z.r.accepted)
  {
    RunKeeps(c, y, ms);
  }

  // ------------------------------------------------------------------ several files

  lemma {:induction false} NoOffers(c: Config, at: Where, w: seq<Token>)
    requires Allows(Forward(c), Open(true, at), w)
    ensures forall k :: k in w && k.Hdr? ==> k.t != ZFILE
    decreases |w|
  {
    if w != [] {
      NoOffers(c, ForthNext(Open(true, at), w[0]).at, w[1..]);
      assert w == [w[0]] + w[1..];
    }
  }

  lemma {:induction false} NoRequests(c: Config, w: seq<Token>)
    requires Allows(Backward(c), Late, w)
    ensures forall k :: k in w && k.Hdr? ==> k.t != ZRPOS && k.t != ZCRC
    decreases |w|
  {
    if w != [] {
      NoRequests(c, w[1..]);
      assert w == [w[0]] + w[1..];
    }
  }

  /** A sender about to offer its next file to a receiver that has put the last one away. */
  function NextFile(z: System, s: Sender): System {
    System(s, z.r.(name := None, out := [], accepted := false), z.fwd, z.back)
  }

  predicate Fresh(s: Sender) {
    s.pc == SOffer && !s.sending && !s.eofseen && s.blklen > 0
  }

  /** What is left on the line when zsendfdata returns OK or ZSKIP cannot be taken for part of the next file. */
  lemma {:induction false} Handover(c: Config, y: System, ms: seq<Move>, next: Config, s: Sender)
    requires Init(c, y) && Fresh(s)
    requires Goes(Run(c, y, ms).s) && Run(c, y, ms).r.pc == RWait
    ensures Init(next, NextFile(Run(c, y, ms), s))
  {
    RunKeeps(c, y, ms);
    var z := Run(c, y, ms);
    NoOffers(c, Nowhere, z.fwd);
    NoRequests(c, z.back);
  }

  /** One file of a batch: what is sent, the sender about to offer it, and the moves until it is done with. */
  datatype Item = Item(c: Config, s: Sender, ms: seq<Move>)

  /** How each file of a batch ended. */
  function Ends(y: System, items: seq<Item>): (r: seq<System>)
    ensures |r| == |items|
    decreases |items|
  {
    if items == [] then [] else
    var z := Run(items[0].c, y, items[0].ms);
    [z] + if |items| == 1 then [] else Ends(NextFile(z, items[1].s), items[1..])
  }

  /** A batch over one line, each file offered once zsendfdata has returned OK or ZSKIP for the one before: each of these was
      received whole under its own name, and of the last file a prefix. */
  lemma {:induction false} Batch(y: System, items: seq<Item>)
    requires items != [] && Init(items[0].c, y) && (forall k :: k in items ==> Fresh(k.s))
    requires forall i :: 0 <= i < |items| - 1 ==> Goes(Ends(y, items)[i].s) && Ends(y, items)[i].r.pc == RWait
    ensures forall i :: 0 <= i < |items| ==>
      var z := Ends(y, items)[i];
      z.r.out <= items[i].c.file && (Goes(z.s) ==> z.r.out == items[i].c.file && z.r.name == Some(items[i].c.info))
    decreases |items|
  {
    hide Init, Run, Fresh;
    Safety(items[0].c, y, items[0].ms);
    if |items| > 1 {
      var z := Run(items[0].c, y, items[0].ms);
      assert Ends(y, items)[0] == z;
      Handover(items[0].c, y, items[0].ms, items[1].c, items[1].s);
      var rest := NextFile(z, items[1].s);
      assert forall i :: 0 <= i < |items| - 1 ==> Ends(rest, items[1..])[i] == Ends(y, items)[i + 1];
      Batch(rest, items[1..]);
      forall i | 1 <= i < |items|
        ensures var z := Ends(y, items)[i];
          z.r.out <= items[i].c.file && (Goes(z.s) ==> z.r.out == items[i].c.file && z.r.name == Some(items[i].c.info))
      {
        assert Ends(rest, items[1..])[i - 1] == Ends(y, items)[i];
      }
    }
  }

  // ------------------------------------------------------------------ skipping

  /** The receiver has not said ZSKIP, as procheader never makes it do. */
  predicate Unskipped(y: System) {
    y.r.first != ZSKIP && forall k :: k in y.back && k.Hdr? ==> k.t != ZSKIP
  }

  predicate Plain(u: Receiver, out: seq<Token>) {
    u.first != ZSKIP && forall k :: k in out && k.Hdr? ==> k.t != ZSKIP
  }

  lemma FileHeaderPlain(c: Config, r: Receiver, t: Kind, pos: int, closes: bool)
    requires r.first != ZSKIP
    ensures Plain(OnFileHeader(c, r, t, pos, closes).0, OnFileHeader(c, r, t, pos, closes).1)
  {
  }

  lemma TryHeaderPlain(c: Config, r: Receiver, t: Kind)
    requires r.first != ZSKIP
    ensures Plain(OnTryHeader(c, r, t).0, OnTryHeader(c, r, t).1)
  {
  }

  lemma SaysNoSkip(c: Config, r: Receiver, ev: REvent)
    requires r.first != ZSKIP
    ensures Plain(RStep(c, r, ev).0, RStep(c, r, ev).1)
  {
    hide OnFileHeader, OnTryHeader;
    if ev.Header? {
      FileHeaderPlain(c, r, ev.t, ev.pos, ev.closes);
      TryHeaderPlain(c, r, ev.t);
    }
  }

  lemma SkipsOnlyOnSkip(c: Config, s: Sender, ev: SEvent)
    requires SenderOk(s) && s.pc != SDone(Skipped) && (ev.Reply? ==> ev.t != ZSKIP)
    ensures SStep(c, s, ev).0.pc == SDone(Skipped) ==> s.sending && SStep(c, s, ev).0.sending
  {
    hide CrcWalk, FileCrc, Slice;
  }

  predicate SkipsLate(s: Sender) {
    s.pc == SDone(Skipped) ==> s.sending
  }

  lemma SenderSkipsLate(c: Config, y: System, ev: SEvent, back: seq<Token>)
    requires SenderOk(y.s) && SkipsLate(y.s) && (ev.Reply? ==> ev.t != ZSKIP)
    ensures SkipsLate(SenderMoves(c, y, ev, back).s)
  {
    hide SendBlock, OnName, OnSync, CrcWalk, Slice;
    if y.s.pc != SDone(Skipped) {
      SkipsOnlyOnSkip(c, y.s, ev);
    }
  }

  lemma MoveUnskipped(c: Config, y: System, m: Move)
    requires SenderOk(y.s) && Unskipped(y) && SkipsLate(y.s)
    ensures Unskipped(Apply(c, y, m)) && SkipsLate(Apply(c, y, m).s)
  {
    hide SStep, RStep, SkipsLate;
    match m
    case SRuns => SenderSkipsLate(c, y, Go, y.back);
    case SLooks(look) => SenderSkipsLate(c, y, Seen(look), y.back);
    case STakes =>
      if y.back != [] && y.back[0].Hdr? && (y.s.pc == SName || y.s.pc.SSync?) {
        SenderSkipsLate(c, y, Reply(y.back[0].t, y.back[0].pos), y.back[1..]);
      }
    case SGets(code) => if NoHeader(code) { SenderSkipsLate(c, y, Reply(code, 0), y.back); }
    case RTakes(closes) =>
      if y.fwd != [] {
        match y.fwd[0] {
          case Hdr(t, pos) => SaysNoSkip(c, y.r, Header(t, pos, closes));
          case Packet(data, end) => SaysNoSkip(c, y.r, Good(data, end));
          case Junk => SaysNoSkip(c, y.r, Bad(TERROR));
        }
      }
    case RGets(code) => SaysNoSkip(c, y.r, if Hunting(y.r) then Header(code, 0, false) else Bad(code));
    case Damage(forward, i, j) =>
    case Loss(forward, i, j) =>
  }

  lemma {:induction false} RunUnskipped(c: Config, y: System, ms: seq<Move>)
    requires Init(c, y) && Unskipped(y)
    ensures Unskipped(Run(c, y, ms)) && SkipsLate(Run(c, y, ms).s)
    decreases |ms|
  {
    hide Apply, Unskipped;
    if ms != [] {
      RunUnskipped(c, y, ms[..|ms| - 1]);
      RunKeeps(c, y, ms[..|ms| - 1]);
      MoveUnskipped(c, Run(c, y, ms[..|ms| - 1]), ms[|ms| - 1]);
    }
  }

  /** Against this receiver, then, a file that sendzfile reports as skipped by the remote has been received whole, so that every
      file after which a batch goes on has. */
  lemma {:induction false} SkippedIsWhole(c: Config, y: System, ms: seq<Move>)
    requires Init(c, y) && Unskipped(y)
    ensures var z := Run(c, y, ms);
      && Unskipped(z)
      && (z.s.pc == SDone(Skipped) || z.s.pc == SDone(OK) ==> Goes(z.s) && z.r.out == c.file && z.r.name == Some(c.info))
  {
    hide Run, Init, Unskipped;
    Safety(c, y, ms);
    RunUnskipped(c, y, ms);
  }
}

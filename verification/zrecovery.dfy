/** A ZMODEM transfer with damage on the line comes to its end all the same. */
module ZRecovery {
  import opened Common
  import opened ZSession
  import Quietly = ZDelivery
  import ZSafety

  // ------------------------------------------------------------------ schedules

  /** What either side may do next, and damage. */
  datatype Turn = Sends | Glances | Looks | Takes | Reads | Times | Hits(forward: bool, i: nat, j: nat)

  function MoveOf(t: Turn): Move {
    match t
    case Sends => SRuns
    case Glances => SLooks(Quiet)
    case Looks => SLooks(Pad)
    case Takes => STakes
    case Reads => RTakes(true)
    case Times => RGets(TIMEOUT)
    case Hits(forward, i, j) => Damage(forward, i, j)
  }

  /** Nothing on the line, and a sender that waits. */
  predicate Silent(y: System) {
    y.fwd == [] && y.back == [] && y.s.pc.SSync?
  }

  /** The receiver has all bytes and an end of file ahead that the sender has gone back on since. */
  predicate Settling(c: Config, y: System) {
    && y.r.pc == RHdr && y.r.rxbytes == |c.file|
    && Hdr(ZEOF, |c.file|) in (if y.s.pc == SSync(AtEof) && y.fwd != [] then y.fwd[..|y.fwd| - 1] else y.fwd)
  }

  /** The receiver can still complain, and the sender still grant the same position again. */
  predicate Spare(c: Config, y: System) {
    y.s.sending && !y.r.accepted && y.r.n > 0 && y.s.beenhere < 12 && !Settling(c, y)
  }

  /** The sender sees a reply only if there is one; the receiver is out of patience only in silence; damage strikes while
      there is patience to spare. */
  predicate May(c: Config, y: System, t: Turn) {
    match t
    case Looks => y.back != []
    case Times => Silent(y)
    case Hits(_, _, _) => Spare(c, y)
    case _ => true
  }

  function Play(c: Config, y: System, t: Turn): System {
    if May(c, y, t) then Apply(c, y, MoveOf(t)) else y
  }

  function Plays(c: Config, y: System, ts: seq<Turn>): System
    decreases |ts|
  {
    if ts == [] then y else Plays(c, Play(c, y, ts[0]), ts[1..])
  }

  // ------------------------------------------------------------------ what a receiver makes of the line

  datatype At = AtHdr | InData | OwesAck | Accepted

  /** All is read, or data are broken off where something damaged comes, perhaps with an end of file right behind; or neither. */
  datatype Out = Ends(a: At, pos: int) | Breaks(pos: int, taken: bool) | Unfit

  function ReadAll(a: At, pos: int, w: seq<Token>): Out
    decreases |w|
  {
    if w == [] then Ends(a, pos) else
    var rest := w[1..];
    match (a, w[0])
    case (AtHdr, Hdr(t, p)) =>
      if t == ZDATA then (if p == pos then ReadAll(InData, pos, rest) else Unfit)
      else if t == ZEOF then (if p != pos then ReadAll(AtHdr, pos, rest) else if rest == [] then Ends(Accepted, pos) else Unfit)
      else Unfit
    case (AtHdr, _) => ReadAll(AtHdr, pos, rest)
    case (InData, Packet(data, end)) =>
      (match end
       case ZCRCG => ReadAll(InData, pos + |data|, rest)
       case ZCRCE => ReadAll(AtHdr, pos + |data|, rest)
       case ZCRCW => if rest == [] then Ends(OwesAck, pos + |data|) else Unfit
       case ZCRCQ => Unfit)
    case (InData, Junk) =>
      var o := ReadAll(AtHdr, pos, rest);
      if o == Ends(AtHdr, pos) then Breaks(pos, false) else if o == Ends(Accepted, pos) then Breaks(pos, true) else Unfit
    case _ => Unfit
  }

  /** The same with one more token at the end. */
  function OneMore(o: Out, k: Token): Out {
    match o
    case Ends(a, pos) =>
      (match (a, k)
       case (AtHdr, Hdr(t, p)) =>
         if t == ZDATA then (if p == pos then Ends(InData, pos) else Unfit)
         else if t == ZEOF then (if p != pos then o else Ends(Accepted, pos))
         else Unfit
       case (AtHdr, _) => o
       case (InData, Packet(data, end)) =>
         (match end
          case ZCRCG => Ends(InData, pos + |data|)
          case ZCRCE => Ends(AtHdr, pos + |data|)
          case ZCRCW => Ends(OwesAck, pos + |data|)
          case ZCRCQ => Unfit)
       case (InData, Junk) => Breaks(pos, false)
       case _ => Unfit)
    case Breaks(pos, taken) =>
      if taken then Unfit
      else
        (match k
         case Hdr(t, p) => if t == ZEOF then Breaks(pos, p == pos) else Unfit
         case _ => o)
    case Unfit => Unfit
  }

  lemma {:induction false} ReadOneMore(a: At, pos: int, w: seq<Token>, k: Token)
    ensures ReadAll(a, pos, w) != Unfit && OneMore(ReadAll(a, pos, w), k) != Unfit ==> ReadAll(a, pos, w + [k]) == OneMore(ReadAll(a, pos, w), k)
    decreases |w|
  {
    if w == [] {
      assert (w + [k])[1..] == [] && (w + [k])[0] == k;
    } else {
      assert (w + [k])[1..] == w[1..] + [k] && (w + [k])[0] == w[0];
      var rest := w[1..];
      match (a, w[0])
      case (AtHdr, Hdr(t, p)) => ReadOneMore(if t == ZDATA then InData else AtHdr, pos, rest, k);
      case (AtHdr, _) => ReadOneMore(AtHdr, pos, rest, k);
      case (InData, Packet(data, end)) => ReadOneMore(if end == ZCRCG then InData else AtHdr, pos + |data|, rest, k);
      case (InData, Junk) => ReadOneMore(AtHdr, pos, rest, k);
      case _ =>
    }
  }

  /** How many frames of data begin. */
  function Datas(w: seq<Token>): nat
    decreases |w|
  {
    if w == [] then 0 else (if w[0].Hdr? && w[0].t == ZDATA then 1 else 0) + Datas(w[1..])
  }

  lemma {:induction false} DatasMore(v: seq<Token>, w: seq<Token>)
    ensures Datas(v + w) == Datas(v) + Datas(w)
    decreases |v|
  {
    if v == [] {
      assert v + w == w;
    } else {
      assert (v + w)[1..] == v[1..] + w;
      DatasMore(v[1..], w);
    }
  }

  /** Headers of the file's data and of its end. */
  predicate Frames(c: Config, w: seq<Token>) {
    forall k :: k in w && k.Hdr? ==> k.t == ZDATA || k == Hdr(ZEOF, |c.file|)
  }

  /** Without a frame of data a hunt passes everything, up to an end of file that is where it is. */
  predicate Passing(o: Out, pos: int) {
    o == Ends(AtHdr, pos) || o == Ends(Accepted, pos)
  }

  /** An end of file only as the last token. */
  predicate EndLast(w: seq<Token>) {
    forall k :: 0 <= k < |w| - 1 ==> !(w[k].Hdr? && w[k].t == ZEOF)
  }

  predicate EofAtEnd(w: seq<Token>) {
    w != [] && w[|w| - 1].Hdr? && w[|w| - 1].t == ZEOF
  }

  lemma {:induction false} Passes(c: Config, pos: int, w: seq<Token>)
    requires Datas(w) == 0 && Frames(c, w) && (pos == |c.file| ==> EndLast(w))
    ensures Passing(ReadAll(AtHdr, pos, w), pos)
    ensures ReadAll(AtHdr, pos, w) == Ends(Accepted, pos) ==> EofAtEnd(w) && pos == |c.file|
    decreases |w|
  {
    if w != [] {
      assert w[0] in w;
      Passes(c, pos, w[1..]);
    }
  }

  function PosOf(o: Out): int {
    match o
    case Ends(_, pos) => pos
    case Breaks(pos, _) => pos
    case Unfit => 0
  }

  /** Reading goes forward. */
  lemma {:induction false} Forward(a: At, pos: int, w: seq<Token>)
    requires ReadAll(a, pos, w) != Unfit
    ensures pos <= PosOf(ReadAll(a, pos, w))
    decreases |w|
  {
    if w != [] {
      match (a, w[0])
      case (AtHdr, Hdr(t, p)) => Forward(if t == ZDATA then InData else AtHdr, pos, w[1..]);
      case (AtHdr, _) => Forward(AtHdr, pos, w[1..]);
      case (InData, Packet(data, end)) => if end != ZCRCW { Forward(if end == ZCRCG then InData else AtHdr, pos + |data|, w[1..]); }
      case _ =>
    }
  }

  /** From the end of the file on, the end of file can only be the last thing on the line. */
  lemma {:induction false} AtTheEnd(c: Config, a: At, w: seq<Token>)
    requires Frames(c, w) && ReadAll(a, |c.file|, w) != Unfit && PosOf(ReadAll(a, |c.file|, w)) <= |c.file|
    ensures EndLast(w)
    decreases |w|
  {
    var n := |c.file|;
    if w != [] {
      assert w[0] in w;
      match (a, w[0])
      case (AtHdr, Hdr(t, p)) => if t == ZDATA || w[1..] != [] { AtTheEnd(c, if t == ZDATA then InData else AtHdr, w[1..]); }
      case (AtHdr, _) => AtTheEnd(c, AtHdr, w[1..]);
      case (InData, Packet(data, end)) =>
        if end != ZCRCW {
          var b := if end == ZCRCG then InData else AtHdr;
          Forward(b, n + |data|, w[1..]);
          assert data == [];
          AtTheEnd(c, b, w[1..]);
        }
      case (InData, Junk) => AtTheEnd(c, AtHdr, w[1..]);
      case _ =>
    }
  }

  // ------------------------------------------------------------------ damage

  /** What damage makes of a reading: nothing, or it ends or breaks off no later. */
  predicate Harmed(c: Config, o: Out, u: Out, w: seq<Token>) {
    || u == o
    || (u.Ends? && (u.a == AtHdr || (u.a == Accepted && u.pos == |c.file| && EofAtEnd(w))) && u.pos <= PosOf(o))
    || (u.Breaks? && u.pos <= PosOf(o) && (u.taken ==> u.pos == |c.file| && EofAtEnd(w)))
  }

  /** What a hunt passes may as well not be there. */
  lemma {:induction false} Skips(c: Config, pos: int, d: seq<Token>, b: seq<Token>)
    requires Datas(d) == 0 && Frames(c, d) && ReadAll(AtHdr, pos, d + b) != Unfit
    ensures ReadAll(AtHdr, pos, b) == ReadAll(AtHdr, pos, d + b) || (b == [] && ReadAll(AtHdr, pos, d + b) == Ends(Accepted, pos))
    decreases |d|
  {
    if d == [] {
      assert d + b == b;
    } else {
      assert d[0] in d && (d + b)[0] == d[0] && (d + b)[1..] == d[1..] + b;
      if !(d[0].Hdr? && d[0].pos == pos) { Skips(c, pos, d[1..], b); }
    }
  }

  lemma JunkFirst(c: Config, a: At, pos: int, d: seq<Token>, b: seq<Token>)
    requires (a == AtHdr || a == InData) && Frames(c, d + b) && Datas(d + b) + (if a == InData then 1 else 0) <= 1 && d != []
    requires ReadAll(a, pos, d + b) != Unfit && PosOf(ReadAll(a, pos, d + b)) <= |c.file|
    ensures var u := ReadAll(a, pos, [Junk] + b);
      u != Unfit && Harmed(c, ReadAll(a, pos, d + b), u, [Junk] + b)
  {
    var w := [Junk] + b;
    assert w[1..] == b;
    DatasMore(d, b);
    Forward(a, pos, d + b);
    forall k | k in d || k in b ensures k in d + b {
    }
    if a == AtHdr && Datas(d) == 0 {
      Skips(c, pos, d, b);
    } else {
      if pos == |c.file| {
        AtTheEnd(c, a, d + b);
        forall k | 0 <= k < |b| - 1 ensures !(b[k].Hdr? && b[k].t == ZEOF) {
          assert b[k] == (d + b)[|d| + k];
        }
      }
      Passes(c, pos, b);
    }
  }

  /** Where a reader is behind a token that it does not end at. */
  function Then(a: At, pos: int, k: Token): (At, int) {
    match (a, k)
    case (AtHdr, Hdr(t, _)) => (if t == ZDATA then InData else AtHdr, pos)
    case (InData, Packet(data, end)) => (if end == ZCRCG then InData else AtHdr, pos + |data|)
    case _ => (AtHdr, pos)
  }

  /** The same first token, and a reading of the rest that was harmed. */
  lemma HeadHarmed(c: Config, a: At, pos: int, w: seq<Token>, v: seq<Token>)
    requires (a == AtHdr || a == InData) && |w| > 1 && |v| > 1 && v[0] == w[0] && ReadAll(a, pos, w) != Unfit
    requires var (b, q) := Then(a, pos, w[0]);
      ReadAll(b, q, v[1..]) != Unfit && Harmed(c, ReadAll(b, q, w[1..]), ReadAll(b, q, v[1..]), v[1..])
    requires a == InData ==> Datas(v[1..]) == 0
    ensures ReadAll(a, pos, v) != Unfit && Harmed(c, ReadAll(a, pos, w), ReadAll(a, pos, v), v)
  {
    SameEnd(v, v[1..]);
    hide EofAtEnd, Datas;
    if a == InData && w[0].Junk? {
      Hunts(pos, v[1..]);
    }
  }

  lemma {:induction false} DamagedReading(c: Config, a: At, pos: int, w: seq<Token>, i: nat, j: nat)
    requires (a == AtHdr || a == InData) && Frames(c, w) && Datas(w) + (if a == InData then 1 else 0) <= 1 && i < j <= |w|
    requires ReadAll(a, pos, w) != Unfit && PosOf(ReadAll(a, pos, w)) <= |c.file|
    ensures var v := w[..i] + [Junk] + w[j..]; var u := ReadAll(a, pos, v);
      u != Unfit && Harmed(c, ReadAll(a, pos, w), u, v) && Frames(c, v) && Datas(v) <= Datas(w)
    decreases |w|
  {
    hide EofAtEnd, Harmed;
    var v := w[..i] + [Junk] + w[j..];
    if i == 0 {
      assert w == w[..j] + w[j..] && v == [Junk] + w[j..] && v[1..] == w[j..];
      JunkFirst(c, a, pos, w[..j], w[j..]);
      DatasMore(w[..j], w[j..]);
    } else {
      var rest := w[1..];
      var lost := rest[..i - 1] + [Junk] + rest[j - 1..];
      assert v[0] == w[0] && v[1..] == lost && w[0] in w && v == [w[0]] + lost;
      var (b, q) := Then(a, pos, w[0]);
      ThenReads(c, a, pos, w);
      DamagedReading(c, b, q, rest, i - 1, j - 1);
      HeadHarmed(c, a, pos, w, v);
    }
  }

  lemma ThenReads(c: Config, a: At, pos: int, w: seq<Token>)
    requires (a == AtHdr || a == InData) && |w| > 1 && ReadAll(a, pos, w) != Unfit && Datas(w) + (if a == InData then 1 else 0) <= 1
    ensures var (b, q) := Then(a, pos, w[0]); var o := ReadAll(b, q, w[1..]);
      o != Unfit && PosOf(o) == PosOf(ReadAll(a, pos, w)) && Datas(w[1..]) + (if b == InData then 1 else 0) <= 1
  {
  }

  lemma {:induction false} Hunts(pos: int, w: seq<Token>)
    requires Datas(w) == 0 && ReadAll(AtHdr, pos, w) != Unfit
    ensures Passing(ReadAll(AtHdr, pos, w), pos)
    decreases |w|
  {
    if w != [] {
      Hunts(pos, w[1..]);
    }
  }

  lemma SameEnd(v: seq<Token>, rest: seq<Token>)
    requires v != [] && v[1..] == rest && rest != []
    ensures EofAtEnd(v) == EofAtEnd(rest)
  {
  }

  // ------------------------------------------------------------------ where a transfer is

  /** The sender's counters agree, and Eofseen is set only at the end. */
  predicate Counters(c: Config, s: Sender) {
    s.sending && s.blklen > 0 && s.junkcount == 0 && s.off == s.txpos == s.bytcnt <= |c.file| && (s.eofseen ==> s.txpos == |c.file|)
  }

  function Where(r: Receiver): At {
    if r.pc == RHdr then AtHdr else InData
  }

  function Ahead(y: System): Out {
    ReadAll(Where(y.r), y.r.rxbytes, y.fwd)
  }

  /** Both sides are at it, there is at most one frame of data about, and an end of file is what the sender last sent or behind it. */
  predicate Live(c: Config, y: System) {
    && Counters(c, y.s) && c.tries > 0
    && !y.r.accepted && (y.r.pc == RHdr || y.r.pc == RData) && y.r.first == ZRINIT
    && Frames(c, y.fwd) && Datas(y.fwd) + (if y.r.pc == RData then 1 else 0) <= 1
    && 0 <= y.r.rxbytes && Ahead(y) != Unfit && PosOf(Ahead(y)) <= y.s.txpos
    && (EofAtEnd(y.fwd) ==> y.s.pc == SSync(AtEof) || (y.s.pc == SHead && y.s.txpos < |c.file|))
  }

  /** The place the sender takes the receiver to be at when it has read all. */
  predicate Follows(s: Sender, a: At) {
    match s.pc
    case SHead | SGlance => a == AtHdr && !s.eofseen
    case SEnd => a == AtHdr && s.eofseen
    case SBlock => a == InData && !s.eofseen
    case SPoll => a == if s.eofseen then AtHdr else InData
    case SSync(k) => if k == AtAck then a == OwesAck && !s.eofseen else k == AtEof && a == Accepted && s.eofseen
    case _ => false
  }

  /** In step. */
  predicate InStep(c: Config, y: System) {
    && Live(c, y) && y.back == []
    && Ahead(y).Ends? && Ahead(y).pos == y.s.txpos && Follows(y.s, Ahead(y).a)
    && (y.s.pc == SHead || y.s.pc == SGlance ==> y.r.pc == RHdr && Datas(y.fwd) == 0)
  }

  predicate OnlyJunk(w: seq<Token>) {
    forall k :: k in w ==> k == Junk
  }

  /** Junk, and then one token. */
  predicate Lastly(w: seq<Token>, k: Token) {
    w != [] && w[|w| - 1] == k && OnlyJunk(w[..|w| - 1])
  }

  /** In step, with the answer to ZCRCW on its way. */
  predicate Acked(c: Config, y: System) {
    && Live(c, y) && y.s.pc == SSync(AtAck) && !y.s.eofseen && y.fwd == [] && y.r.pc == RHdr && y.r.rxbytes == y.s.txpos
    && Lastly(y.back, Hdr(ZACK, y.s.txpos))
  }

  /** The sender goes on with its frame, or waits, as if nothing had happened. */
  predicate Unaware(s: Sender) {
    match s.pc
    case SBlock => !s.eofseen
    case SEnd => s.eofseen
    case SPoll => true
    case SSync(k) => k == AtPoll || (k == AtAck && !s.eofseen) || (k == AtEof && s.eofseen)
    case _ => false
  }

  predicate Ending(o: Out) {
    (o.Ends? && o.a == Accepted) || (o.Breaks? && o.taken)
  }

  /** Out of step, with no complaint on its way. */
  predicate Astray(c: Config, y: System) {
    && Live(c, y) && Unaware(y.s) && y.r.n > 0 && y.s.beenhere < 12 && OnlyJunk(y.back)
    && (Ahead(y).Ends? ==> Ahead(y).a == AtHdr || Ahead(y).a == Accepted)
    && (Ending(Ahead(y)) ==> y.s.pc == SSync(AtEof))
  }

  /** Out of step, with a complaint on its way. */
  predicate Asked(c: Config, y: System) {
    && Live(c, y) && Unaware(y.s) && y.s.beenhere < 12 && y.r.pc == RHdr && Datas(y.fwd) == 0
    && Lastly(y.back, Hdr(ZRPOS, y.r.rxbytes))
    && Passing(Ahead(y), y.r.rxbytes) && (Ending(Ahead(y)) ==> y.s.pc == SSync(AtEof))
  }

  /** The first header is the end of file. */
  predicate EndsSoon(c: Config, w: seq<Token>)
    decreases |w|
  {
    w != [] && (if w[0].Hdr? then w[0] == Hdr(ZEOF, |c.file|) else EndsSoon(c, w[1..]))
  }

  /** The receiver has every byte and the end of file ahead, and the sender sends both again. */
  predicate Ripe(c: Config, y: System) {
    && Counters(c, y.s) && c.tries > 0 && y.s.txpos == |c.file| && y.back == []
    && !y.r.accepted && y.r.pc == RHdr && y.r.first == ZRINIT && y.r.rxbytes == |c.file|
    && Frames(c, y.fwd) && EndsSoon(c, y.fwd)
    && match y.s.pc
       case SHead | SBlock => !y.s.eofseen
       case SPoll | SEnd => y.s.eofseen
       case SSync(k) => k == AtEof && y.s.eofseen
       case _ => false
  }

  /** Before the receiver has accepted the file. */
  predicate Underway(c: Config, y: System) {
    InStep(c, y) || Acked(c, y) || Astray(c, y) || Asked(c, y) || Ripe(c, y)
  }

  /** What comes before the receiver's last word: junk, and perhaps a complaint that the sender would still grant. */
  predicate Early(c: Config, s: Sender, w: seq<Token>) {
    && (forall k :: k in w ==> k == Junk || (k == Hdr(ZRPOS, |c.file|) && s.beenhere < 12))
    && (forall i, j :: 0 <= i < j < |w| ==> w[i] == Junk || w[j] == Junk)
  }

  /** The receiver has accepted the file, and the m-th token on the way back says so. */
  predicate Taken(c: Config, y: System, m: nat) {
    && Counters(c, y.s) && y.s.txpos == |c.file| && y.r.accepted && (y.r.pc == RWait || y.r.pc == RStop) && Frames(c, y.fwd)
    && m < |y.back| && y.back[m] == Hdr(ZRINIT, 0) && Early(c, y.s, y.back[..m])
    && match y.s.pc
       case SHead | SBlock | SPoll | SEnd | SGlance => true
       case SSync(k) => k == AtEof || k == AtPoll || k == AtGlance
       case _ => false
  }

  /** And the sender has heard it, or takes it to have been skipped. */
  predicate Over(c: Config, y: System) {
    ZSafety.Goes(y.s) && y.r.accepted && (y.r.pc == RWait || y.r.pc == RStop) && Frames(c, y.fwd)
  }

  // ------------------------------------------------------------------ how much there is to do

  function Rank(s: Sender): nat {
    match s.pc
    case SOffer => 19
    case SName => 14
    case SSync(k) => if k == AtEof then 1 else if k == AtAck then 13 else 2
    case SGlance => 12
    case SHead => 11
    case SPoll => if s.eofseen then 5 else 9
    case SBlock => 8
    case SEnd => 4
    case _ => 0
  }

  /** Bytes, places and tokens. */
  function Work(c: Config, y: System): nat {
    20 * (if !y.s.sending || !(0 <= y.s.off <= |c.file|) then |c.file| else |c.file| - y.s.off) + Rank(y.s) + 2 * |y.fwd| + |y.back|
  }

  /** What it takes to send the file again. */
  function Again(c: Config): nat {
    20 * |c.file| + 60
  }

  function Level(c: Config, y: System): nat {
    if InStep(c, y) || Acked(c, y) || Ripe(c, y) then 0 else if Asked(c, y) then 1 else 2
  }

  function Left(c: Config, y: System): nat {
    Level(c, y) * Again(c) + Work(c, y)
  }

  // ------------------------------------------------------------------ in step

  /** What another token adds to the reading of the line. */
  lemma Appends(c: Config, y: System, k: Token)
    requires Ahead(y) != Unfit && Frames(c, y.fwd) && (k.Hdr? ==> k.t == ZDATA || k == Hdr(ZEOF, |c.file|))
    ensures OneMore(Ahead(y), k) != Unfit ==> ReadAll(Where(y.r), y.r.rxbytes, y.fwd + [k]) == OneMore(Ahead(y), k)
    ensures Frames(c, y.fwd + [k]) && Datas(y.fwd + [k]) == Datas(y.fwd) + (if k.Hdr? && k.t == ZDATA then 1 else 0)
    ensures EofAtEnd(y.fwd + [k]) <==> k.Hdr? && k.t == ZEOF
  {
    ReadOneMore(Where(y.r), y.r.rxbytes, y.fwd, k);
    DatasMore(y.fwd, [k]);
    assert [k][1..] == [];
  }

  lemma SenderInStep(c: Config, y: System)
    requires InStep(c, y)
    ensures var z := Apply(c, y, SRuns); InStep(c, z) && (z == y || Work(c, z) < Work(c, y))
  {
    hide ReadAll, CrcWalk, Datas;
    var z := Apply(c, y, SRuns);
    if y.s.pc == SHead || y.s.pc == SBlock || y.s.pc == SEnd {
      Appends(c, y, z.fwd[|y.fwd|]);
      assert z.fwd == y.fwd + [z.fwd[|y.fwd|]];
    } else {
      assert y.fwd + [] == y.fwd;
    }
  }

  lemma GlancesInStep(c: Config, y: System)
    requires InStep(c, y)
    ensures var z := Apply(c, y, SLooks(Quiet)); InStep(c, z) && (z == y || Work(c, z) < Work(c, y))
  {
    hide ReadAll, CrcWalk, Datas, Frames, EofAtEnd;
    assert y.fwd + [] == y.fwd;
  }

  lemma {:induction false} DatasTail(w: seq<Token>)
    requires w != []
    ensures Datas(w) == (if w[0].Hdr? && w[0].t == ZDATA then 1 else 0) + Datas(w[1..])
  {
  }

  /** What a token taken off the line leaves. */
  lemma RestFrames(c: Config, w: seq<Token>)
    requires w != [] && Frames(c, w)
    ensures Frames(c, w[1..]) && (w[0].Hdr? ==> w[0].t == ZDATA || w[0] == Hdr(ZEOF, |c.file|)) && (EofAtEnd(w[1..]) ==> EofAtEnd(w))
  {
    assert w[0] in w;
  }

  lemma ReadsInStep(c: Config, y: System)
    requires InStep(c, y)
    ensures var z := Apply(c, y, RTakes(true));
      (InStep(c, z) || Acked(c, z) || Taken(c, z, 0)) && (z == y || Work(c, z) < Work(c, y) || z.r.accepted)
  {
    if y.fwd != [] {
      DatasTail(y.fwd);
      RestFrames(c, y.fwd);
      ReadHead(y);
      hide Datas, ReadAll, SStep, EofAtEnd, Frames, Taken;
      if y.r.pc == RHdr {
        HuntsInStep(c, y);
      } else {
        DataInStep(c, y);
      }
    }
  }

  lemma HuntsInStep(c: Config, y: System)
    requires InStep(c, y) && y.fwd != [] && y.r.pc == RHdr
    ensures var z := Apply(c, y, RTakes(true)); (InStep(c, z) && Work(c, z) < Work(c, y)) || (z.r.accepted && Taken(c, z, 0))
  {
    hide Datas, ReadAll, SStep, EofAtEnd, Frames, OnData, OnBadData;
    DatasTail(y.fwd);
    RestFrames(c, y.fwd);
    ReadHead(y);
    assert Apply(c, y, RTakes(true)).fwd == y.fwd[1..];
    assert Ending(Ahead(y)) ==> y.s.pc == SSync(AtEof);
  }

  lemma DataInStep(c: Config, y: System)
    requires InStep(c, y) && y.fwd != [] && y.r.pc == RData
    ensures var z := Apply(c, y, RTakes(true)); (InStep(c, z) || Acked(c, z)) && Work(c, z) < Work(c, y)
  {
    hide Datas, ReadAll, SStep, EofAtEnd, Frames, RStep, Apply;
    DatasTail(y.fwd);
    RestFrames(c, y.fwd);
    ReadHead(y);
    DataTaken(c, y);
    if y.fwd[0].end == ZCRCW {
      hide InStep;
      assert InStep(c, y) && Live(c, y) && y.s.pc == SSync(AtAck) && !y.s.eofseen by { LastInStep(c, y); }
      assert ReadAll(AtHdr, y.s.txpos, []) == Ends(AtHdr, y.s.txpos) by { NothingRead(y.s.txpos); }
      Nothing();
    } else {
      hide Acked;
      assert y.back + [] == y.back;
    }
  }

  lemma NothingRead(pos: int)
    ensures ReadAll(AtHdr, pos, []) == Ends(AtHdr, pos)
  {
  }

  lemma LastInStep(c: Config, y: System)
    requires InStep(c, y) && Ahead(y).Ends? && Ahead(y).a == OwesAck
    ensures Live(c, y) && y.s.pc == SSync(AtAck) && !y.s.eofseen && Ahead(y).pos == y.s.txpos && y.back == []
  {
  }

  /** A good subpacket moves the receiver on, and its last one in a frame is answered. */
  lemma DataTaken(c: Config, y: System)
    requires y.r.pc == RData && y.fwd != [] && y.fwd[0].Packet? && y.fwd[0].end != ZCRCQ
    ensures var k := y.fwd[0]; var q := y.r.rxbytes + |k.data|;
      Apply(c, y, RTakes(true)) ==
      y.(r := y.r.(pc := if k.end == ZCRCG then RData else RHdr, n := 20, rxbytes := q, out := y.r.out + k.data),
         fwd := y.fwd[1..], back := y.back + if k.end == ZCRCW then [Hdr(ZACK, q)] else [])
  {
  }

  /** The first token of a line that can be read. */
  lemma ReadHead(y: System)
    requires y.fwd != [] && Ahead(y) != Unfit && (y.r.pc == RHdr || y.r.pc == RData)
    ensures match (Where(y.r), y.fwd[0])
      case (AtHdr, Hdr(t, p)) =>
        if t == ZDATA then p == y.r.rxbytes && Ahead(y) == ReadAll(InData, p, y.fwd[1..])
        else t == ZEOF && if p != y.r.rxbytes then Ahead(y) == ReadAll(AtHdr, y.r.rxbytes, y.fwd[1..]) else y.fwd[1..] == [] && Ahead(y) == Ends(Accepted, p)
      case (AtHdr, _) => Ahead(y) == ReadAll(AtHdr, y.r.rxbytes, y.fwd[1..])
      case (InData, Packet(data, end)) =>
        (match end
         case ZCRCG => Ahead(y) == ReadAll(InData, y.r.rxbytes + |data|, y.fwd[1..])
         case ZCRCE => Ahead(y) == ReadAll(AtHdr, y.r.rxbytes + |data|, y.fwd[1..])
         case ZCRCW => y.fwd[1..] == [] && Ahead(y) == Ends(OwesAck, y.r.rxbytes + |data|)
         case ZCRCQ => false)
      case (InData, Junk) =>
        var o := ReadAll(AtHdr, y.r.rxbytes, y.fwd[1..]);
        (o == Ends(AtHdr, y.r.rxbytes) && Ahead(y) == Breaks(y.r.rxbytes, false)) || (o == Ends(Accepted, y.r.rxbytes) && Ahead(y) == Breaks(y.r.rxbytes, true))
      case _ => false
  {
  }

  // ------------------------------------------------------------------ an acknowledgement on its way

  lemma JunkTaken(w: seq<Token>, k: Token)
    requires Lastly(w, k)
    ensures w != [] && if |w| == 1 then w[0] == k && w[1..] == [] else w[0] == Junk && Lastly(w[1..], k)
  {
    if |w| > 1 {
      assert w[..|w| - 1][0] == w[0] && w[0] in w[..|w| - 1];
      var v := w[1..][..|w| - 2];
      assert v == w[..|w| - 1][1..];
      forall i | 0 <= i < |v| ensures v[i] == Junk {
        assert w[..|w| - 1][i + 1] in w[..|w| - 1];
      }
    }
  }

  lemma MovesAcked(c: Config, y: System, t: Turn)
    requires Acked(c, y) && !t.Hits?
    ensures var z := Play(c, y, t); (InStep(c, z) || Acked(c, z)) && (z == y || Work(c, z) < Work(c, y))
  {
    hide RStep, CrcWalk, Datas, EofAtEnd, ReadAll, Lastly;
    assert y.fwd + [] == y.fwd;
    JunkTaken(y.back, Hdr(ZACK, y.s.txpos));
    NothingRead(y.s.txpos);
    Nothing();
  }

  lemma Nothing()
    ensures Datas([]) == 0 && !EofAtEnd([])
  {
  }

  // ------------------------------------------------------------------ out of step

  lemma SenderAstray(c: Config, y: System)
    requires Astray(c, y)
    ensures var z := Apply(c, y, SRuns); Astray(c, z) && (z == y || Work(c, z) < Work(c, y))
  {
    hide ReadAll, CrcWalk, Datas, OnlyJunk;
    var z := Apply(c, y, SRuns);
    if y.s.pc == SBlock || y.s.pc == SEnd {
      Appends(c, y, z.fwd[|y.fwd|]);
      assert z.fwd == y.fwd + [z.fwd[|y.fwd|]];
    } else {
      assert y.fwd + [] == y.fwd;
    }
  }

  lemma LooksAstray(c: Config, y: System, look: Look)
    requires Astray(c, y) && (look == Quiet || look == Pad)
    ensures var z := Apply(c, y, SLooks(look)); Astray(c, z) && (z == y || Work(c, z) < Work(c, y))
  {
    hide ReadAll, CrcWalk, Datas, OnlyJunk, Frames, EofAtEnd;
    assert y.fwd + [] == y.fwd;
  }

  lemma TakesAstray(c: Config, y: System)
    requires Astray(c, y)
    ensures var z := Apply(c, y, STakes); Astray(c, z) && (z == y || Work(c, z) < Work(c, y))
  {
    hide ReadAll, CrcWalk, Datas, Frames, EofAtEnd;
    if y.back != [] {
      assert y.back[0] in y.back && forall k :: k in y.back[1..] ==> k in y.back;
    }
  }

  /** A complaint, with or without an Attn string before it. */
  lemma Complains(c: Config, y: System, ev: REvent)
    requires (y.r.pc == RHdr || y.r.pc == RData) && y.r.n > 0 && OnlyJunk(y.back)
    requires if y.r.pc == RHdr then ev == Header(TIMEOUT, 0, false) else ev == Bad(TIMEOUT) || ev == Bad(TERROR)
    ensures var (r, out) := RStep(c, y.r, ev);
      r == y.r.(pc := RHdr, n := y.r.n - 1) && 1 <= |out| <= 2 && Lastly(y.back + out, Hdr(ZRPOS, y.r.rxbytes))
  {
    var (r, out) := RStep(c, y.r, ev);
    ComplaintSent(c, y.r, ev);
    hide RStep;
    var w := y.back + out;
    assert w[..|w| - 1] == y.back + out[..|out| - 1];
  }

  lemma ComplaintSent(c: Config, r: Receiver, ev: REvent)
    requires (r.pc == RHdr || r.pc == RData) && r.n > 0
    requires if r.pc == RHdr then ev == Header(TIMEOUT, 0, false) else ev == Bad(TIMEOUT) || ev == Bad(TERROR)
    ensures var (u, out) := RStep(c, r, ev);
      u == r.(pc := RHdr, n := r.n - 1) && (out == [Hdr(ZRPOS, r.rxbytes)] || out == [Junk, Hdr(ZRPOS, r.rxbytes)])
  {
  }

  lemma ReadsAstray(c: Config, y: System)
    requires Astray(c, y)
    ensures var z := Apply(c, y, RTakes(true));
      || (Astray(c, z) && (z == y || Work(c, z) < Work(c, y)))
      || (Asked(c, z) && Work(c, z) <= Work(c, y) + 2)
      || (z.r.accepted && Taken(c, z, |y.back|))
  {
    if y.fwd != [] {
      if y.r.pc == RHdr {
        HuntsAstray(c, y);
      } else if y.fwd[0].Junk? {
        JunkAstray(c, y);
      } else {
        DataAstray(c, y);
      }
    }
  }

  lemma HuntsAstray(c: Config, y: System)
    requires Astray(c, y) && y.fwd != [] && y.r.pc == RHdr
    ensures var z := Apply(c, y, RTakes(true)); (Astray(c, z) && Work(c, z) < Work(c, y)) || (z.r.accepted && Taken(c, z, |y.back|))
  {
    DatasTail(y.fwd);
    RestFrames(c, y.fwd);
    ReadHead(y);
    hide Datas, ReadAll, SStep, EofAtEnd, Frames, OnlyJunk, OnData, OnBadData, Early;
    var z := Apply(c, y, RTakes(true));
    assert z.fwd == y.fwd[1..];
    if z.r.accepted {
      assert (y.back + [Hdr(ZRINIT, 0)])[..|y.back|] == y.back;
      JunkEarly(c, y.s, y.back);
    } else {
      assert y.back + [] == y.back;
    }
  }

  lemma DataAstray(c: Config, y: System)
    requires Astray(c, y) && y.fwd != [] && y.r.pc == RData && !y.fwd[0].Junk?
    ensures var z := Apply(c, y, RTakes(true)); Astray(c, z) && Work(c, z) < Work(c, y)
  {
    hide Datas, ReadAll, SStep, EofAtEnd, Frames, OnlyJunk, RStep, Apply;
    DatasTail(y.fwd);
    RestFrames(c, y.fwd);
    ReadHead(y);
    DataTaken(c, y);
    assert y.back + [] == y.back;
  }

  lemma JunkEarly(c: Config, s: Sender, w: seq<Token>)
    requires OnlyJunk(w)
    ensures Early(c, s, w)
  {
    forall i | 0 <= i < |w| ensures w[i] == Junk {
      assert w[i] in w;
    }
  }

  lemma JunkAstray(c: Config, y: System)
    requires Astray(c, y) && y.r.pc == RData && y.fwd != [] && y.fwd[0].Junk?
    ensures var z := Apply(c, y, RTakes(true)); Asked(c, z) && Work(c, z) <= Work(c, y) + 2
  {
    DatasTail(y.fwd);
    RestFrames(c, y.fwd);
    ReadHead(y);
    Complains(c, y, Bad(TERROR));
    hide RStep, Lastly, EofAtEnd, Frames, Datas, ReadAll;
  }

  lemma TimesAstray(c: Config, y: System)
    requires Astray(c, y) && Silent(y)
    ensures var z := Apply(c, y, RGets(TIMEOUT)); Asked(c, z) && Work(c, z) <= Work(c, y) + 2
  {
    Complains(c, y, if y.r.pc == RHdr then Header(TIMEOUT, 0, false) else Bad(TIMEOUT));
    assert ReadAll(AtHdr, y.r.rxbytes, []) == Ends(AtHdr, y.r.rxbytes);
    hide RStep, Lastly, SStep, ReadAll, Frames, EofAtEnd, OnlyJunk, Datas;
  }

  // ------------------------------------------------------------------ a complaint on its way

  lemma SenderAsked(c: Config, y: System)
    requires Asked(c, y)
    ensures var z := Apply(c, y, SRuns); Asked(c, z) && (z == y || Work(c, z) < Work(c, y))
  {
    hide ReadAll, CrcWalk, Datas, Lastly;
    var z := Apply(c, y, SRuns);
    if y.s.pc == SBlock || y.s.pc == SEnd {
      Appends(c, y, z.fwd[|y.fwd|]);
      assert z.fwd == y.fwd + [z.fwd[|y.fwd|]];
    } else {
      assert y.fwd + [] == y.fwd;
    }
  }

  lemma LooksAsked(c: Config, y: System, look: Look)
    requires Asked(c, y) && (look == Quiet || look == Pad)
    ensures var z := Apply(c, y, SLooks(look)); Asked(c, z) && (z == y || Work(c, z) < Work(c, y))
  {
    hide ReadAll, CrcWalk, Datas, Lastly, Frames, EofAtEnd;
    assert y.fwd + [] == y.fwd;
  }

  lemma ReadsAsked(c: Config, y: System)
    requires Asked(c, y)
    ensures var z := Apply(c, y, RTakes(true));
      || (Asked(c, z) && (z == y || Work(c, z) < Work(c, y)))
      || (z.r.accepted && Taken(c, z, |y.back|))
  {
    hide SStep, EofAtEnd, Frames;
    if y.fwd != [] {
      DatasTail(y.fwd);
      RestFrames(c, y.fwd);
      ReadHead(y);
      var z := Apply(c, y, RTakes(true));
      assert z.fwd == y.fwd[1..];
      assert y.back + [] == y.back;
      hide Datas, ReadAll;
      if z.r.accepted {
        assert (y.back + [Hdr(ZRINIT, 0)])[..|y.back|] == y.back;
        LastlyEarly(c, y);
      }
    }
  }

  lemma LastlyEarly(c: Config, y: System)
    requires Lastly(y.back, Hdr(ZRPOS, |c.file|)) && y.s.beenhere < 12
    ensures Early(c, y.s, y.back)
  {
    var n := |y.back| - 1;
    forall k | 0 <= k < n ensures y.back[k] == Junk {
      assert y.back[..n][k] == y.back[k] && y.back[..n][k] in y.back[..n];
    }
  }

  /** The sender goes back to where the receiver is. */
  lemma TakesAsked(c: Config, y: System)
    requires Asked(c, y)
    ensures var z := Apply(c, y, STakes);
      || (Asked(c, z) && (z == y || Work(c, z) < Work(c, y)))
      || ((InStep(c, z) || Ripe(c, z)) && Work(c, z) <= Work(c, y) + 20 * |c.file| + 20)
  {
    hide CrcWalk, Datas, ReadAll, Frames, EofAtEnd, RStep;
    JunkTaken(y.back, Hdr(ZRPOS, y.r.rxbytes));
    if |y.back| == 1 && y.s.pc.SSync? {
      if Ahead(y) == Ends(Accepted, y.r.rxbytes) {
        GoesBackRipe(c, y);
      } else {
        GoesBack(c, y);
      }
    }
  }

  lemma Granted(s: Sender, k: Caller, pos: int)
    requires s.sending && s.pc == SSync(k) && (k == AtAck || k == AtPoll || k == AtEof) && 0 <= pos <= s.bytcnt && s.beenhere < 12
    ensures var (u, out) := OnSync(s, k, ZRPOS, pos);
      && u.sending && u.off == u.txpos == u.bytcnt == pos && !u.eofseen && u.junkcount == s.junkcount && (s.blklen > 0 ==> u.blklen > 0)
      && u.pc == (if k == AtEof then SHead else SGlance) && out == (if k == AtPoll then [Packet([], ZCRCE)] else [])
  {
  }

  lemma GoesBack(c: Config, y: System)
    requires Asked(c, y) && y.s.pc.SSync? && y.back == [Hdr(ZRPOS, y.r.rxbytes)] && Ahead(y) == Ends(AtHdr, y.r.rxbytes)
    ensures var z := Apply(c, y, STakes); InStep(c, z) && Work(c, z) <= Work(c, y) + 20 * |c.file| + 20
  {
    hide CrcWalk, Datas, ReadAll, Frames, EofAtEnd, RStep;
    Granted(y.s, y.s.pc.k, y.r.rxbytes);
    hide OnSync;
    assert y.fwd + [] == y.fwd;
    NotAtEnd(c, y);
    if y.s.pc == SSync(AtPoll) {
      Appends(c, y, Packet([], ZCRCE));
    }
  }

  /** An end of file still on the line is behind what the receiver has. */
  lemma NotAtEnd(c: Config, y: System)
    requires Asked(c, y) && Ahead(y) == Ends(AtHdr, y.r.rxbytes)
    ensures EofAtEnd(y.fwd) ==> y.r.rxbytes < |c.file|
  {
    if EofAtEnd(y.fwd) && y.r.rxbytes == |c.file| {
      Stops(c, y.fwd);
    }
  }

  lemma {:induction false} Stops(c: Config, w: seq<Token>)
    requires EofAtEnd(w) && Frames(c, w) && Datas(w) == 0
    ensures ReadAll(AtHdr, |c.file|, w) != Ends(AtHdr, |c.file|)
    decreases |w|
  {
    assert w[0] in w;
    if |w| > 1 {
      assert Frames(c, w[1..]) by { RestFrames(c, w); }
      SameEnd(w, w[1..]);
      Stops(c, w[1..]);
    }
  }

  lemma GoesBackRipe(c: Config, y: System)
    requires Asked(c, y) && y.s.pc.SSync? && y.back == [Hdr(ZRPOS, y.r.rxbytes)] && Ahead(y) == Ends(Accepted, y.r.rxbytes)
    ensures var z := Apply(c, y, STakes); Ripe(c, z) && Work(c, z) <= Work(c, y) + 20 * |c.file| + 20
  {
    hide CrcWalk, Datas, ReadAll, Frames, EofAtEnd, RStep;
    Granted(y.s, y.s.pc.k, y.r.rxbytes);
    hide OnSync;
    assert y.fwd + [] == y.fwd;
    Coming(c, y.r.rxbytes, y.fwd);
  }

  lemma {:induction false} Coming(c: Config, pos: int, w: seq<Token>)
    requires Datas(w) == 0 && Frames(c, w) && ReadAll(AtHdr, pos, w) == Ends(Accepted, pos)
    ensures pos == |c.file| && EofAtEnd(w) && (pos == |c.file| ==> EndsSoon(c, w))
    decreases |w|
  {
    if w != [] {
      assert w[0] in w;
      if w[1..] != [] { Coming(c, pos, w[1..]); }
    }
  }

  // ------------------------------------------------------------------ the end, sent twice

  lemma {:induction false} StillSoon(c: Config, w: seq<Token>, k: Token)
    requires EndsSoon(c, w)
    ensures EndsSoon(c, w + [k])
    decreases |w|
  {
    if !w[0].Hdr? {
      assert (w + [k])[1..] == w[1..] + [k];
      StillSoon(c, w[1..], k);
    }
  }

  lemma SenderRipe(c: Config, y: System, t: Turn)
    requires Ripe(c, y) && (t.Sends? || t.Glances? || t.Looks? || t.Takes?)
    ensures var z := Play(c, y, t); Ripe(c, z) && (z == y || Work(c, z) < Work(c, y))
  {
    hide CrcWalk, EndsSoon, RStep;
    assert y.fwd + [] == y.fwd;
    var z := Play(c, y, t);
    if |z.fwd| > |y.fwd| {
      StillSoon(c, y.fwd, z.fwd[|y.fwd|]);
      assert z.fwd == y.fwd + [z.fwd[|y.fwd|]];
    }
  }

  lemma ReadsRipe(c: Config, y: System)
    requires Ripe(c, y)
    ensures var z := Apply(c, y, RTakes(true)); (Ripe(c, z) && Work(c, z) < Work(c, y)) || (z.r.accepted && Taken(c, z, 0))
  {
    hide SStep, Frames;
    RestFrames(c, y.fwd);
    hide EofAtEnd;
  }

  // ------------------------------------------------------------------ damage

  lemma DamagedLive(c: Config, y: System, i: nat, j: nat)
    requires Live(c, y) && i < j <= |y.fwd|
    ensures var z := y.(fwd := Damaged(y.fwd, i, j)); Live(c, z) && Harmed(c, Ahead(y), Ahead(z), z.fwd) && Datas(z.fwd) <= Datas(y.fwd)
    ensures EofAtEnd(Damaged(y.fwd, i, j)) ==> EofAtEnd(y.fwd)
  {
    hide ReadAll, Datas, Frames;
    DamagedReading(c, Where(y.r), y.r.rxbytes, y.fwd, i, j);
    assert Damaged(y.fwd, i, j) == y.fwd[..i] + [Junk] + y.fwd[j..];
  }

  lemma HitsForward(c: Config, y: System, i: nat, j: nat)
    requires Spare(c, y) && (InStep(c, y) || Acked(c, y) || Astray(c, y) || Asked(c, y)) && i < j <= |y.fwd|
    ensures var z := y.(fwd := Damaged(y.fwd, i, j)); InStep(c, z) || Astray(c, z) || Asked(c, z)
  {
    hide ReadAll, Datas, Frames, EofAtEnd, Lastly;
    DamagedLive(c, y, i, j);
    var z := y.(fwd := Damaged(y.fwd, i, j));
    if Asked(c, y) {
      DamagedHunt(c, y, z);
    } else if InStep(c, y) && (y.s.pc == SHead || y.s.pc == SGlance) && Ahead(z) != Ahead(y) {
      DamagedHunt(c, y, z);
    }
  }

  /** A hunt that passed everything still does. */
  lemma DamagedHunt(c: Config, y: System, z: System)
    requires Live(c, y) && Live(c, z) && z.r == y.r && z.s == y.s && y.r.pc == RHdr && Datas(y.fwd) == 0 && Datas(z.fwd) <= Datas(y.fwd)
    requires Harmed(c, Ahead(y), Ahead(z), z.fwd) && (EofAtEnd(z.fwd) ==> EofAtEnd(y.fwd))
    ensures Passing(Ahead(y), y.r.rxbytes) && Passing(Ahead(z), y.r.rxbytes)
    ensures Ahead(z) == Ends(Accepted, y.r.rxbytes) ==> y.r.rxbytes == |c.file| && EofAtEnd(y.fwd)
  {
    Hunts(y.r.rxbytes, y.fwd);
    Hunts(y.r.rxbytes, z.fwd);
    hide EofAtEnd, Frames;
    if Ahead(z) == Ends(Accepted, y.r.rxbytes) {
      Coming(c, y.r.rxbytes, z.fwd);
    }
  }

  /** Of junk and one last token, damage leaves that or only junk. */
  lemma DamagedReply(w: seq<Token>, k: Token, i: nat, j: nat)
    requires (OnlyJunk(w) || Lastly(w, k)) && i < j <= |w|
    ensures OnlyJunk(Damaged(w, i, j)) || Lastly(Damaged(w, i, j), k)
    ensures OnlyJunk(w) ==> OnlyJunk(Damaged(w, i, j))
  {
    var v := Damaged(w, i, j);
    var n := |w| - 1;
    forall m | 0 <= m < n ensures w[m] == Junk {
      assert w[m] in w && w[..n][m] in w[..n];
    }
    if OnlyJunk(w) { assert w[n] in w; }
    if OnlyJunk(w) || j == |w| {
      forall m | 0 <= m < |v| ensures v[m] == Junk {
        if m > i { assert v[m] == w[m - i - 1 + j]; }
      }
    } else {
      var u := v[..|v| - 1];
      forall m | 0 <= m < |u| ensures u[m] == Junk {
        if m > i { assert u[m] == w[m - i - 1 + j]; }
      }
    }
  }

  lemma HitsBack(c: Config, y: System, i: nat, j: nat)
    requires Spare(c, y) && (InStep(c, y) || Acked(c, y) || Astray(c, y) || Asked(c, y)) && i < j <= |y.back|
    ensures var z := y.(back := Damaged(y.back, i, j)); Acked(c, z) || Astray(c, z) || Asked(c, z)
  {
    var k := if Acked(c, y) then Hdr(ZACK, y.s.txpos) else Hdr(ZRPOS, y.r.rxbytes);
    DamagedReply(y.back, k, i, j);
    if Acked(c, y) { assert Ahead(y) == Ends(AtHdr, y.s.txpos); }
    hide ReadAll, Datas, Frames, EofAtEnd, Lastly, OnlyJunk, Damaged;
  }

  /** With damage to fear, an end that is sent twice is no more than an end. */
  lemma RipeInStep(c: Config, y: System)
    requires Ripe(c, y) && !Settling(c, y)
    ensures InStep(c, y)
  {
    EndIn(c, y.fwd);
    if y.s.pc == SSync(AtEof) {
      EndsHere(c, y.fwd);
    }
  }

  lemma {:induction false} EndIn(c: Config, w: seq<Token>)
    requires EndsSoon(c, w)
    ensures Hdr(ZEOF, |c.file|) in w
    decreases |w|
  {
    if !w[0].Hdr? { EndIn(c, w[1..]); }
  }

  lemma {:induction false} EndsHere(c: Config, w: seq<Token>)
    requires EndsSoon(c, w) && Hdr(ZEOF, |c.file|) !in w[..|w| - 1]
    ensures ReadAll(AtHdr, |c.file|, w) == Ends(Accepted, |c.file|) && Datas(w) == 0
    decreases |w|
  {
    var most := w[..|w| - 1];
    assert |w| > 1 ==> most[0] == w[0] && most[0] in most;
    if w[0].Hdr? {
      assert w[1..] == [];
    } else {
      var v := w[1..][..|w| - 2];
      assert v == most[1..];
      assert forall k :: k in v ==> k in most;
      EndsHere(c, w[1..]);
    }
  }

  // ------------------------------------------------------------------ every turn

  /** Nothing that happens before the receiver has accepted the file leads away from that. */
  lemma UnderwayKept(c: Config, y: System, t: Turn)
    requires Underway(c, y)
    ensures var z := Play(c, y, t); Underway(c, z) || (z.r.accepted && exists m: nat :: m <= |y.back| && Taken(c, z, m))
    ensures var z := Play(c, y, t); !t.Hits? && !z.r.accepted ==> z == y || Left(c, z) < Left(c, y)
  {
    hide InStep, Acked, Astray, Asked, Ripe, Work, Apply, Spare, Taken;
    if t.Hits? {
      if Spare(c, y) { HitsKept(c, y, t); }
    } else if InStep(c, y) {
      StepInStep(c, y, t);
    } else if Acked(c, y) {
      MovesAcked(c, y, t);
    } else if Ripe(c, y) {
      StepRipe(c, y, t);
    } else if Asked(c, y) {
      StepAsked(c, y, t);
    } else {
      StepAstray(c, y, t);
    }
  }

  lemma HitsKept(c: Config, y: System, t: Turn)
    requires Underway(c, y) && t.Hits? && Spare(c, y)
    ensures Underway(c, Play(c, y, t))
  {
    if Ripe(c, y) { RipeInStep(c, y); }
    hide InStep, Acked, Astray, Asked, Ripe;
    if t.forward {
      if t.i < t.j <= |y.fwd| { HitsForward(c, y, t.i, t.j); }
      assert Play(c, y, t) == y.(fwd := Damaged(y.fwd, t.i, t.j));
    } else {
      if t.i < t.j <= |y.back| { HitsBack(c, y, t.i, t.j); }
      assert Play(c, y, t) == y.(back := Damaged(y.back, t.i, t.j));
    }
  }

  lemma StepInStep(c: Config, y: System, t: Turn)
    requires InStep(c, y) && !t.Hits?
    ensures var z := Play(c, y, t); InStep(c, z) || Acked(c, z) || (z.r.accepted && Taken(c, z, 0))
    ensures var z := Play(c, y, t); z == y || Work(c, z) < Work(c, y) || z.r.accepted
  {
    match t
    case Sends => SenderInStep(c, y);
    case Glances => GlancesInStep(c, y);
    case Reads => ReadsInStep(c, y);
    case Takes =>
    case Looks =>
    case Times => assert !Silent(y) by { NotSilent(c, y); }
  }

  lemma NotSilent(c: Config, y: System)
    requires InStep(c, y)
    ensures !Silent(y)
  {
  }

  lemma StepRipe(c: Config, y: System, t: Turn)
    requires Ripe(c, y) && !t.Hits?
    ensures var z := Play(c, y, t); Ripe(c, z) || (z.r.accepted && Taken(c, z, 0))
    ensures var z := Play(c, y, t); z == y || Work(c, z) < Work(c, y) || z.r.accepted
  {
    match t
    case Reads => ReadsRipe(c, y);
    case Times => assert y.fwd != [];
    case _ => SenderRipe(c, y, t);
  }

  lemma StepAsked(c: Config, y: System, t: Turn)
    requires Asked(c, y) && !t.Hits?
    ensures var z := Play(c, y, t); Asked(c, z) || InStep(c, z) || Ripe(c, z) || (z.r.accepted && Taken(c, z, |y.back|))
    ensures var z := Play(c, y, t);
      z == y || z.r.accepted || (Asked(c, z) && Work(c, z) < Work(c, y)) || ((InStep(c, z) || Ripe(c, z)) && Work(c, z) <= Work(c, y) + 20 * |c.file| + 20)
  {
    match t
    case Sends => SenderAsked(c, y);
    case Glances => LooksAsked(c, y, Quiet);
    case Looks => LooksAsked(c, y, Pad);
    case Takes => TakesAsked(c, y);
    case Reads => ReadsAsked(c, y);
    case Times =>
  }

  lemma StepAstray(c: Config, y: System, t: Turn)
    requires Astray(c, y) && !t.Hits?
    ensures var z := Play(c, y, t); Astray(c, z) || Asked(c, z) || (z.r.accepted && Taken(c, z, |y.back|))
    ensures var z := Play(c, y, t);
      z == y || z.r.accepted || (Astray(c, z) && Work(c, z) < Work(c, y)) || (Asked(c, z) && Work(c, z) <= Work(c, y) + 2)
  {
    match t
    case Sends => SenderAstray(c, y);
    case Glances => LooksAstray(c, y, Quiet);
    case Looks => LooksAstray(c, y, Pad);
    case Takes => TakesAstray(c, y);
    case Reads => ReadsAstray(c, y);
    case Times => if Silent(y) { TimesAstray(c, y); }
  }

  // ------------------------------------------------------------------ after the receiver has accepted

  /** What comes before the first ZRINIT. */
  function Lead(w: seq<Token>): (m: nat)
    ensures m <= |w|
    decreases |w|
  {
    if w == [] || w[0] == Hdr(ZRINIT, 0) then 0 else 1 + Lead(w[1..])
  }

  lemma {:induction false} LeadIs(w: seq<Token>, m: nat)
    requires m < |w| && w[m] == Hdr(ZRINIT, 0) && forall i :: 0 <= i < m ==> w[i] != Hdr(ZRINIT, 0)
    ensures Lead(w) == m
    decreases |w|
  {
    if m > 0 { LeadIs(w[1..], m - 1); }
  }

  lemma TakenLead(c: Config, y: System, m: nat)
    requires Taken(c, y, m)
    ensures Lead(y.back) == m
  {
    forall i | 0 <= i < m ensures y.back[i] != Hdr(ZRINIT, 0) {
      assert y.back[..m][i] in y.back[..m];
    }
    LeadIs(y.back, m);
  }

  /** Only the sender has still something to do. */
  function Rest(c: Config, s: Sender, w: seq<Token>): (n: nat)
    ensures n > 0
  {
    1 + Rank(s) + |w| + if Hdr(ZRPOS, |c.file|) in w then 20 else 0
  }

  lemma SenderTaken(c: Config, y: System, m: nat, t: Turn)
    requires Taken(c, y, m) && (t.Sends? || t.Glances? || t.Looks?)
    ensures var z := Play(c, y, t); Taken(c, z, m) && z.back == y.back && (z.s == y.s || Rest(c, z.s, z.back[..m]) < Rest(c, y.s, y.back[..m]))
  {
    hide CrcWalk, RStep, Early;
    var z := Play(c, y, t);
    assert y.fwd + [] == y.fwd;
    SameEarly(c, y.s, z.s, y.back[..m]);
    if t.Sends? && |z.fwd| > |y.fwd| {
      assert z.fwd == y.fwd + [z.fwd[|y.fwd|]];
    }
  }

  lemma SameEarly(c: Config, s: Sender, u: Sender, w: seq<Token>)
    requires Early(c, s, w) && u.beenhere == s.beenhere
    ensures Early(c, u, w)
  {
  }

  lemma EarlyRest(c: Config, s: Sender, w: seq<Token>)
    requires Early(c, s, w) && w != []
    ensures Early(c, s, w[1..]) && (w[0] != Junk ==> w[0] == Hdr(ZRPOS, |c.file|) && s.beenhere < 12 && Hdr(ZRPOS, |c.file|) !in w[1..] && OnlyJunk(w[1..]))
  {
    var v := w[1..];
    assert forall i :: 0 <= i < |v| ==> v[i] == w[i + 1] && v[i] in w;
    assert w[0] in w;
    if w[0] != Junk {
      forall i | 0 <= i < |v| ensures v[i] == Junk {
        assert w[0] == Junk || w[i + 1] == Junk;
      }
    }
  }

  /** The sender takes what comes before the ZRINIT, and at last that. */
  lemma TakesTaken(c: Config, y: System, m: nat)
    requires Taken(c, y, m)
    ensures var z := Apply(c, y, STakes);
      || Over(c, z)
      || (m > 0 && Taken(c, z, m - 1) && Rest(c, z.s, z.back[..m - 1]) < Rest(c, y.s, y.back[..m]))
      || (z == y && !y.s.pc.SSync?)
  {
    hide CrcWalk, RStep, Early, OnlyJunk;
    if m > 0 {
      var w := y.back[..m];
      EarlyRest(c, y.s, w);
      assert y.back[1..][..m - 1] == w[1..] && y.back[0] == w[0];
      if y.s.pc.SSync? && w[0] != Junk {
        GrantsTaken(c, y, m);
      } else {
        assert Hdr(ZRPOS, |c.file|) in w[1..] ==> Hdr(ZRPOS, |c.file|) in w;
      }
    } else if y.s.pc.SSync? {
      assert y.fwd + [] == y.fwd;
      assert forall k :: k in y.fwd + [Packet([], ZCRCE)] ==> k in y.fwd || k == Packet([], ZCRCE);
    }
  }

  lemma GrantsTaken(c: Config, y: System, m: nat)
    requires Taken(c, y, m) && m > 0 && y.s.pc.SSync? && y.back[0] == Hdr(ZRPOS, |c.file|) && y.s.beenhere < 12
    requires OnlyJunk(y.back[1..][..m - 1]) && Hdr(ZRPOS, |c.file|) !in y.back[1..][..m - 1]
    ensures var z := Apply(c, y, STakes); Taken(c, z, m - 1) && Rest(c, z.s, z.back[..m - 1]) < Rest(c, y.s, y.back[..m])
  {
    var z := Apply(c, y, STakes);
    JunkEarly(c, z.s, y.back[1..][..m - 1]);
    GrantedTaken(y.s, y.s.pc.k, |c.file|);
    assert y.back[..m][0] == y.back[0] && y.back[0] in y.back[..m];
    hide OnSync, Early, CrcWalk, RStep, OnlyJunk;
    assert y.fwd + [] == y.fwd;
  }

  lemma GrantedTaken(s: Sender, k: Caller, pos: int)
    requires s.sending && s.pc == SSync(k) && (k == AtGlance || k == AtPoll || k == AtEof) && 0 <= pos <= s.bytcnt && s.beenhere < 12
    ensures var (u, out) := OnSync(s, k, ZRPOS, pos);
      && u.sending && u.off == u.txpos == u.bytcnt == pos && !u.eofseen && u.junkcount == s.junkcount && (s.blklen > 0 ==> u.blklen > 0)
      && u.pc == (if k == AtEof then SHead else SGlance) && out == (if k == AtPoll then [Packet([], ZCRCE)] else [])
  {
  }

  /** The receiver only adds to what it has said. */
  lemma ReceiverTaken(c: Config, y: System, m: nat, t: Turn)
    requires Taken(c, y, m) && (t.Reads? || t.Times? || t.Hits?)
    ensures var z := Play(c, y, t); Taken(c, z, m) && z.s == y.s && z.back[..m] == y.back[..m]
  {
    hide SStep, Early;
    if t.Reads? && y.fwd != [] {
      RestFrames(c, y.fwd);
      var z := Play(c, y, t);
      AfterAll(c, y.r, y.fwd[0]);
      assert |z.back| >= |y.back| && z.back[..|y.back|] == y.back;
      assert z.back[..m] == z.back[..|y.back|][..m];
    }
  }

  lemma AfterAll(c: Config, r: Receiver, k: Token)
    requires r.accepted && (r.pc == RWait || r.pc == RStop) && (k.Hdr? ==> k.t == ZDATA || k.t == ZEOF)
    ensures k.Hdr? ==> var u := RStep(c, r, Header(k.t, k.pos, true)).0; u.accepted && (u.pc == RWait || u.pc == RStop)
  {
  }

  lemma OverStays(c: Config, y: System, t: Turn)
    requires Over(c, y)
    ensures Over(c, Play(c, y, t))
  {
    hide CrcWalk;
    assert y.fwd + [] == y.fwd;
    if t.Reads? && y.fwd != [] {
      RestFrames(c, y.fwd);
      AfterAll(c, y.r, y.fwd[0]);
    }
  }

  // ------------------------------------------------------------------ the offer

  predicate Offering(c: Config, y: System) {
    !c.refuse && c.tries > 0 && Quietly.Offering(c, y) && !y.s.sending
  }

  lemma OfferingKept(c: Config, y: System, t: Turn)
    requires Offering(c, y)
    ensures var z := Play(c, y, t); (Offering(c, z) || InStep(c, z)) && (z == y || Work(c, z) < Work(c, y))
  {
    if y.s.pc == SOffer {
      OfferMade(c, y, t);
    } else if t.Takes? {
      if y.back != [] { OfferTaken(c, y); }
    } else {
      OfferReads(c, y, t);
    }
  }

  lemma OfferMade(c: Config, y: System, t: Turn)
    requires Offering(c, y) && y.s.pc == SOffer
    ensures var z := Play(c, y, t); Offering(c, z) && (z == y || Work(c, z) < Work(c, y))
  {
    hide CrcWalk, InStep, RStep;
    assert y.fwd + [] == y.fwd;
  }

  lemma OfferReads(c: Config, y: System, t: Turn)
    requires Offering(c, y) && y.s.pc == SName && !t.Takes?
    ensures var z := Play(c, y, t); Offering(c, z) && (z == y || Work(c, z) < Work(c, y))
  {
    hide CrcWalk, InStep, OnName, OnSync;
    assert y.fwd + [] == y.fwd;
    assert [Hdr(ZFILE, 0), Packet(c.info, ZCRCW)][1..] == [Packet(c.info, ZCRCW)] && [Packet(c.info, ZCRCW)][1..] == [];
  }

  lemma OfferTaken(c: Config, y: System)
    requires Offering(c, y) && y.s.pc == SName && y.back != []
    ensures var z := Apply(c, y, STakes); InStep(c, z) && Work(c, z) < Work(c, y)
  {
    hide CrcWalk, Datas, EofAtEnd, RStep;
    assert y.fwd + [] == y.fwd;
    assert [Hdr(ZRPOS, 0)][1..] == [] && ReadAll(AtHdr, 0, []) == Ends(AtHdr, 0);
    Nothing();
  }

  // ------------------------------------------------------------------ every schedule

  /** A transfer that can still be brought to its end. */
  predicate Sound(c: Config, y: System) {
    Offering(c, y) || Underway(c, y) || Taken(c, y, Lead(y.back)) || Over(c, y)
  }

  function Total(c: Config, y: System): nat {
    if Over(c, y) then 0
    else if y.r.accepted then Rest(c, y.s, y.back[..Lead(y.back)])
    else if Offering(c, y) then 100 + Work(c, y)
    else 100 + Left(c, y)
  }

  /** A turn that does something. */
  function Due(y: System): Turn {
    match y.s.pc
    case SOffer | SHead | SBlock | SEnd => Sends
    case SPoll | SGlance => Glances
    case _ => if y.r.accepted || y.back != [] then Takes else if y.fwd != [] then Reads else Times
  }

  lemma FreshTaken(c: Config, y: System, z: System, m: nat)
    requires Taken(c, z, m) && m <= |y.back| && !y.r.accepted
    ensures Taken(c, z, Lead(z.back)) && (Over(c, z) || Total(c, z) < 100 + Work(c, y))
  {
    TakenLead(c, z, m);
    hide Early, Frames;
  }

  lemma Different(c: Config, y: System)
    requires Offering(c, y) || Underway(c, y)
    ensures !y.r.accepted && !Over(c, y)
  {
    hide Datas, ReadAll, Frames, EofAtEnd, Lastly, OnlyJunk, EndsSoon;
  }

  lemma BeforeKept(c: Config, y: System, t: Turn)
    requires Offering(c, y) || Underway(c, y)
    ensures var z := Play(c, y, t); Sound(c, z) && (!t.Hits? ==> z == y || Total(c, z) < Total(c, y))
  {
    hide Offering, Underway, Over, Taken, Work, Apply, Spare, Left, InStep;
    Different(c, y);
    var z := Play(c, y, t);
    if Offering(c, y) {
      OfferingKept(c, y, t);
      assert InStep(c, z) ==> Underway(c, z) && Left(c, z) == Work(c, z) by { LeftInStep(c, z); }
    } else {
      UnderwayKept(c, y, t);
      LeftWork(c, y);
      if z.r.accepted && !Underway(c, z) {
        var m: nat :| m <= |y.back| && Taken(c, z, m);
        FreshTaken(c, y, z, m);
      }
      OnlyOne(c, z);
    }
    if Offering(c, z) || Underway(c, z) { Different(c, z); }
  }

  lemma LeftInStep(c: Config, y: System)
    ensures InStep(c, y) ==> Underway(c, y) && Left(c, y) == Work(c, y)
  {
  }

  lemma LeftWork(c: Config, y: System)
    ensures Work(c, y) <= Left(c, y)
  {
  }

  lemma OnlyOne(c: Config, y: System)
    ensures Offering(c, y) ==> !Underway(c, y)
  {
  }

  lemma TakenKept(c: Config, y: System, t: Turn)
    requires Taken(c, y, Lead(y.back)) && !Over(c, y)
    ensures var z := Play(c, y, t); Sound(c, z) && Total(c, z) <= Total(c, y) && (Total(c, z) == Total(c, y) ==> z.s == y.s && z.r.accepted)
  {
    hide Over, Frames, Early, Apply, Spare, Rest, Offering, Underway;
    var m, z := Lead(y.back), Play(c, y, t);
    if t.Takes? {
      TakesTaken(c, y, m);
      TotalOver(c, z);
      if !Over(c, z) && z != y { TakenLead(c, z, m - 1); }
    } else if t.Sends? || t.Glances? || t.Looks? {
      SenderTaken(c, y, m, t);
    } else {
      ReceiverTaken(c, y, m, t);
      TakenLead(c, z, m);
    }
  }

  lemma SoundKept(c: Config, y: System, t: Turn)
    requires Sound(c, y)
    ensures var z := Play(c, y, t);
      Sound(c, z) && (!t.Hits? ==> Total(c, z) <= Total(c, y) && (Total(c, z) == Total(c, y) ==> Due(z) == Due(y) || Over(c, y)))
  {
    hide Over, Offering, Underway, Taken, Apply, Total, Spare;
    if Over(c, y) {
      OverStays(c, y, t);
      assert Total(c, Play(c, y, t)) == 0 by { TotalOver(c, Play(c, y, t)); }
    } else if Offering(c, y) || Underway(c, y) {
      BeforeKept(c, y, t);
    } else {
      assert y.r.accepted by { TakenAccepted(c, y, Lead(y.back)); }
      TakenKept(c, y, t);
    }
  }

  lemma TotalOver(c: Config, y: System)
    ensures Over(c, y) ==> Total(c, y) == 0
  {
  }

  lemma TakenAccepted(c: Config, y: System, m: nat)
    requires Taken(c, y, m)
    ensures y.r.accepted
  {
  }

  lemma DueBefore(c: Config, y: System)
    requires Offering(c, y) || Underway(c, y)
    ensures !Due(y).Hits? && Play(c, y, Due(y)) != y
  {
    hide Datas, Frames, EofAtEnd, EndsSoon, SStep, RStep, Lastly, OnlyJunk;
    match Due(y)
    case Sends | Glances =>
      assert y.s.pc == SOffer ==> y.s.errors == 0;
      MovesOn(c, y.s);
    case Takes => DueTakes(c, y);
    case Reads => DueReads(c, y);
    case Times => DueTimes(c, y);
    case Hits(_, _, _) =>
  }

  lemma MovesOn(c: Config, s: Sender)
    ensures s.pc == SHead || s.pc == SBlock || s.pc == SEnd || (s.pc == SOffer && s.errors == 0) ==> SStep(c, s, Go).0.pc != s.pc
    ensures s.pc == SPoll || s.pc == SGlance ==> SStep(c, s, Seen(Quiet)).0.pc != s.pc
  {
  }

  lemma DueTakes(c: Config, y: System)
    requires (Offering(c, y) || Underway(c, y)) && Due(y) == Takes
    ensures |Apply(c, y, STakes).back| < |y.back|
  {
    hide Datas, Frames, EofAtEnd, EndsSoon, SStep, RStep, ReadAll;
    assert y.back[0] in y.back;
    var n := |y.back| - 1;
    assert n > 0 ==> y.back[..n][0] == y.back[0] && y.back[..n][0] in y.back[..n];
  }

  lemma DueReads(c: Config, y: System)
    requires (Offering(c, y) || Underway(c, y)) && Due(y) == Reads
    ensures |Apply(c, y, RTakes(true)).fwd| < |y.fwd|
  {
    if Live(c, y) { ReadHead(y); }
    hide Datas, Frames, EofAtEnd, EndsSoon, SStep, RStep, ReadAll, Lastly, OnlyJunk;
  }

  lemma DueTimes(c: Config, y: System)
    requires (Offering(c, y) || Underway(c, y)) && Due(y) == Times
    ensures Silent(y) && Apply(c, y, RGets(TIMEOUT)).r.n != y.r.n
  {
    hide Datas, Frames, EofAtEnd, SStep, Lastly, OnlyJunk;
  }

  lemma DueTaken(c: Config, y: System)
    requires Taken(c, y, Lead(y.back)) && !Over(c, y)
    ensures !Due(y).Hits? && Total(c, Play(c, y, Due(y))) < Total(c, y)
  {
    var m, z := Lead(y.back), Play(c, y, Due(y));
    TakenKept(c, y, Due(y));
    TakenLead(c, y, m);
    if Due(y).Takes? {
      TakesTaken(c, y, m);
      TotalOver(c, z);
      if !Over(c, z) { TakenLead(c, z, m - 1); }
      hide Over, Frames, Early, Apply, Rest;
    } else {
      hide Frames, Early, CrcWalk, OnSync, RStep, Slice, Total;
      assert z.s.pc != y.s.pc;
    }
  }

  lemma DueWorks(c: Config, y: System)
    requires Sound(c, y) && !Over(c, y)
    ensures !Due(y).Hits? && Total(c, Play(c, y, Due(y))) < Total(c, y)
  {
    hide Over, Offering, Underway, Taken, Apply, Total, Play;
    if Offering(c, y) || Underway(c, y) {
      DueBefore(c, y);
      BeforeKept(c, y, Due(y));
    } else {
      DueTaken(c, y);
    }
  }

  /** A stretch without damage in which each side has a turn at everything, in any order and however often. */
  predicate Round(ts: seq<Turn>) {
    && (forall t :: t in ts ==> !t.Hits?)
    && Sends in ts && Glances in ts && Takes in ts && Reads in ts && Times in ts
  }

  lemma {:induction false} Quietens(c: Config, y: System, ts: seq<Turn>)
    requires Sound(c, y) && forall t :: t in ts ==> !t.Hits?
    ensures var z := Plays(c, y, ts); Sound(c, z) && Total(c, z) <= Total(c, y) && (Due(y) in ts ==> Total(c, z) < Total(c, y) || Over(c, y))
    decreases |ts|
  {
    hide Sound, Over, Total, Play, Due;
    if ts != [] {
      var x := Play(c, y, ts[0]);
      assert ts[0] in ts;
      SoundKept(c, y, ts[0]);
      Quietens(c, x, ts[1..]);
      if Due(y) in ts && !Over(c, y) && Total(c, x) == Total(c, y) {
        DueWorks(c, y);
        assert Due(x) in ts[1..];
        TotalOver(c, x);
        StillToDo(c, y);
      }
    }
  }

  lemma StillToDo(c: Config, y: System)
    requires Sound(c, y) && !Over(c, y)
    ensures Total(c, y) > 0
  {
    DueWorks(c, y);
  }

  function Concat(rounds: seq<seq<Turn>>): seq<Turn>
    decreases |rounds|
  {
    if rounds == [] then [] else rounds[0] + Concat(rounds[1..])
  }

  lemma {:induction false} PlaysMore(c: Config, y: System, a: seq<Turn>, b: seq<Turn>)
    ensures Plays(c, y, a + b) == Plays(c, Plays(c, y, a), b)
    decreases |a|
  {
    hide Play;
    if a == [] {
      assert a + b == b;
    } else {
      assert (a + b)[1..] == a[1..] + b;
      PlaysMore(c, Play(c, y, a[0]), a[1..], b);
    }
  }

  lemma {:induction false} Finishes(c: Config, y: System, rounds: seq<seq<Turn>>)
    requires Sound(c, y) && (forall ts :: ts in rounds ==> Round(ts)) && |rounds| >= Total(c, y)
    ensures Over(c, Plays(c, y, Concat(rounds)))
    decreases |rounds|
  {
    hide Sound, Over, Total, Plays, Due;
    if rounds == [] {
      if !Over(c, y) { StillToDo(c, y); }
      assert Plays(c, y, []) == y by { NoTurns(c, y); }
    } else {
      var ts := rounds[0];
      assert ts in rounds && forall us :: us in rounds[1..] ==> us in rounds;
      assert Due(y) in ts by { DueOne(c, y); }
      Quietens(c, y, ts);
      PlaysMore(c, y, ts, Concat(rounds[1..]));
      if Over(c, y) {
        RoundsOver(c, y, ts + Concat(rounds[1..]));
      } else {
        Finishes(c, Plays(c, y, ts), rounds[1..]);
      }
    }
  }

  lemma NoTurns(c: Config, y: System)
    ensures Plays(c, y, []) == y
  {
  }

  lemma DueOne(c: Config, y: System)
    ensures Due(y) == Sends || Due(y) == Glances || Due(y) == Takes || Due(y) == Reads || Due(y) == Times
  {
  }

  lemma {:induction false} RoundsOver(c: Config, y: System, ts: seq<Turn>)
    requires Over(c, y)
    ensures Over(c, Plays(c, y, ts))
    decreases |ts|
  {
    hide Over, Play;
    if ts != [] {
      OverStays(c, y, ts[0]);
      RoundsOver(c, Play(c, y, ts[0]), ts[1..]);
    }
  }

  // ------------------------------------------------------------------ the theorems

  lemma {:induction false} PlaysSound(c: Config, y: System, ts: seq<Turn>)
    requires Sound(c, y) && ZSafety.Inv(c, y)
    ensures var z := Plays(c, y, ts); Sound(c, z) && ZSafety.Inv(c, z)
    decreases |ts|
  {
    hide Sound, Total, May, Apply, ZSafety.Inv;
    if ts != [] {
      SoundKept(c, y, ts[0]);
      ZSafety.MoveKeeps(c, y, MoveOf(ts[0]));
      PlaysSound(c, Play(c, y, ts[0]), ts[1..]);
    }
  }

  lemma Starts(c: Config, y: System)
    requires Init(c, y) && y.fwd == [] && y.back == [] && y.s.errors == 0 && !c.refuse && c.tries > 0
    ensures Sound(c, y) && ZSafety.Inv(c, y)
  {
    ZSafety.RunKeeps(c, y, []);
    assert Run(c, y, []) == y;
    hide ZSafety.Inv, Underway, Taken, Over;
  }

  /** As long as damage strikes while the receiver would still complain and the sender still grant, however often and wherever on the
      line, whichever side goes when: neither side gives up before the file is across. */
  lemma {:induction false} Endures(c: Config, y: System, ts: seq<Turn>)
    requires Init(c, y) && y.fwd == [] && y.back == [] && y.s.errors == 0 && !c.refuse && c.tries > 0
    ensures var z := Plays(c, y, ts); z.s.pc != SDone(Failed) && (z.r.pc == RStop || z.s.pc.SDone? ==> z.r.accepted && z.r.out == c.file)
  {
    Starts(c, y);
    PlaysSound(c, y, ts);
    var z := Plays(c, y, ts);
    NotFailed(c, z);
    hide Plays, Sound, Init;
  }

  lemma NotFailed(c: Config, y: System)
    requires Sound(c, y)
    ensures y.s.pc != SDone(Failed) && (y.r.pc == RStop || y.s.pc.SDone? ==> y.r.accepted)
  {
    hide Datas, ReadAll, Frames, EofAtEnd, Lastly, OnlyJunk, EndsSoon, Early;
  }

  lemma Enough(c: Config, y: System)
    ensures Total(c, y) <= 300 + 60 * |c.file| + 2 * |y.fwd| + |y.back|
  {
    hide InStep, Acked, Ripe, Asked, Over, Offering;
  }

  /** And once the line is quiet, every schedule that keeps giving each side its turn ends, within sixty rounds for each byte and some
      for what is still on the line, with the whole file accepted under its name and a sender that has returned OK, or ZSKIP after it sent the end again. */
  lemma {:induction false} Recovers(c: Config, y: System, ts: seq<Turn>, rounds: seq<seq<Turn>>)
    requires Init(c, y) && y.fwd == [] && y.back == [] && y.s.errors == 0 && !c.refuse && c.tries > 0
    requires (forall r :: r in rounds ==> Round(r)) && var x := Plays(c, y, ts); |rounds| >= 300 + 60 * |c.file| + 2 * |x.fwd| + |x.back|
    ensures var z := Plays(c, y, ts + Concat(rounds));
      ZSafety.Goes(z.s) && z.r.accepted && z.r.out == c.file && z.r.name == Some(c.info)
  {
    Starts(c, y);
    PlaysSound(c, y, ts + Concat(rounds));
    PlaysMore(c, y, ts, Concat(rounds));
    PlaysSound(c, y, ts);
    Enough(c, Plays(c, y, ts));
    hide Plays, Sound, Init, Total;
    Finishes(c, Plays(c, y, ts), rounds);
  }
}

/** One file of a ZMODEM transfer: zsendfile, zsendfdata and getinsync on one side, tryz and rzfile on the
    other, each as a step function between the places where it waits for the line. */
module ZSession {
  import opened Common
  import opened Crc

  /** What zgethdr returns: the header types, and the codes that are not headers. */
  datatype Kind =
    | ZRQINIT | ZRINIT | ZSINIT | ZACK | ZFILE | ZSKIP | ZNAK | ZABORT | ZFIN | ZRPOS | ZDATA | ZEOF | ZFERR
    | ZCRC | ZCOMPL | ZCAN | ZFREECNT | ZCOMMAND | TIMEOUT | TERROR | HANGUP | Other

  datatype End = ZCRCE | ZCRCG | ZCRCQ | ZCRCW

  /** What travels: a header, a data subpacket, or bytes that are neither. */
  datatype Token = Hdr(t: Kind, pos: int) | Packet(data: seq<Byte>, end: End) | Junk

  /** The sender's file, the name and details it offers it under, the receiver's announced buffer (Rxbuflen), and
      what else does not change: attempts per tryz, whether procheader refuses, an Attn string, getfree. */
  datatype Config = Config(file: seq<Byte>, info: seq<Byte>, rxbuflen: nat, tries: nat, refuse: bool, attn: bool, free: int)

  // ------------------------------------------------------------------ sender

  /** Where getinsync was called: at waitack, at the two TCHECKs, or after ZEOF. */
  datatype Caller = AtAck | AtGlance | AtPoll | AtEof

  datatype Rc = OK | Skipped | Failed

  /** Where the sender is: about to offer the file, waiting for the answer, eating a ZRINIT; about to send ZDATA,
      a block, ZEOF; at the TCHECK after a block or before ZDATA; in getinsync. */
  datatype SPc = SOffer | SName | SEat | SHead | SBlock | SEnd | SPoll | SGlance | SSync(k: Caller) | SDone(rc: Rc)

  datatype Sender = Sender(pc: SPc, errors: nat, sending: bool, off: nat, txpos: int, bytcnt: int, maxbytcnt: int, lrxpos: int,
                           lastsync: int, beenhere: nat, blklen: nat, eofseen: bool, junkcount: nat, newcnt: int, txhdr: int, skipsize: int)

  /** What TCHECK and GETCHAR find: nothing, a negative code, ZPAD or CAN, or another character. */
  datatype Look = Quiet | Lost | Pad | Noise

  datatype SEvent = Go | Seen(look: Look) | Reply(t: Kind, pos: int)

  function ZFilBuf(c: Config, s: Sender): (Sender, seq<Byte>) {
    var data := Slice(c.file, s.off, s.blklen);
    (s.(off := s.off + |data|, eofseen := s.eofseen || |data| < s.blklen), data)
  }

  /** One turn of the reading loop of a ZCRC request. */
  function ReadOn(c: Config, s: Sender): (Sender, seq<Byte>) {
    var (t, data) := ZFilBuf(c, s);
    (t.(bytcnt := t.bytcnt + |data|, maxbytcnt := Max(t.maxbytcnt, t.bytcnt + |data|)), data)
  }

  /** That loop. */
  function CrcWalk(c: Config, s: Sender, limit: int): (r: Sender)
    ensures r.pc == s.pc && r.sending == s.sending && r.blklen == s.blklen && r.errors == s.errors
    decreases if s.off < |c.file| then |c.file| - s.off else 0
  {
    var (u, data) := ReadOn(c, s);
    if data != [] && u.bytcnt < limit then CrcWalk(c, u, limit) else u
  }

  function FileCrc(s: seq<Byte>): int {
    !Crc32(INIT32, s) as int
  }

  /** A ZCRC request in zsendfile.  The bytes it takes the start from are cleared by zgethdr, so it is always 0. */
  function CrcRequest(c: Config, s: Sender, limit: int): (Sender, seq<Token>) {
    var t := CrcWalk(c, s.(off := 0, bytcnt := 0), limit);
    var crc := FileCrc(Slice(c.file, 0, t.off));
    (t.(txhdr := crc), [Junk, Hdr(ZCRC, crc)])
  }

  /** ZRPOS in zsendfile: everything is set to the position, Lastsync to just before it. */
  function StartAt(s: Sender, pos: int): Sender
    requires pos >= 0
  {
    s.(pc := SHead, sending := true, off := pos, txpos := pos, bytcnt := pos, maxbytcnt := pos, lrxpos := pos,
       lastsync := pos - 1, beenhere := 0, junkcount := 0)
  }

  function OfferFile(c: Config, s: Sender): (Sender, seq<Token>) {
    var errors := s.errors + 1;
    if errors < 11 then (s.(pc := SName, errors := errors, txhdr := 0), [Hdr(ZFILE, 0), Packet(c.info, ZCRCW)])
    else (s.(pc := SDone(Failed), errors := errors), [])
  }

  /** The answers to ZFILE. */
  function OnName(c: Config, s: Sender, t: Kind, pos: int): (Sender, seq<Token>) {
    match t
    case ZRINIT => (s.(pc := SEat), [])
    case ZRQINIT | ZCAN | TIMEOUT | ZABORT | ZFIN => (s.(pc := SDone(Failed)), [])
    case ZCRC => CrcRequest(c, s, pos)
    case ZFERR => (s.(pc := SDone(Failed)), [])
    case ZSKIP => (s.(pc := SDone(Skipped)), [])
    case ZRPOS => if pos < 0 then (s.(pc := SDone(Failed)), []) else (StartAt(if pos > 0 then s.(skipsize := pos) else s, pos), [])
    case _ => (s.(pc := SOffer), [])
  }

  function SendHead(c: Config, s: Sender): (Sender, seq<Token>) {
    (s.(pc := SBlock, newcnt := c.rxbuflen, txhdr := s.txpos), [Hdr(ZDATA, s.txpos)])
  }

  /** How a block of n bytes ends, and the room then left in the receiver's buffer. */
  function BlockEnd(c: Config, t: Sender, n: nat): (End, int) {
    if t.eofseen then (ZCRCE, t.newcnt)
    else if t.junkcount > 3 || t.bytcnt == t.lastsync then (ZCRCW, t.newcnt)
    else if c.rxbuflen != 0 then (if t.newcnt - n <= 0 then ZCRCW else ZCRCG, t.newcnt - n)
    else (ZCRCG, t.newcnt)
  }

  /** One turn of the sending loop up to its TCHECK. */
  function SendBlock(c: Config, s: Sender): (Sender, seq<Token>) {
    var (t, data) := ZFilBuf(c, s);
    var (e, newcnt) := BlockEnd(c, t, |data|);
    var txpos := t.txpos + |data|;
    var u := t.(newcnt := newcnt, txpos := txpos, bytcnt := txpos, maxbytcnt := Max(t.maxbytcnt, txpos));
    (if e == ZCRCW then u.(pc := SSync(AtAck), junkcount := 0) else u.(pc := SPoll), [Packet(data, e)])
  }

  /** The end of a turn of the sending loop. */
  function Onward(s: Sender): Sender {
    s.(pc := if s.eofseen then SEnd else SBlock)
  }

  function SendEof(s: Sender): (Sender, seq<Token>) {
    (s.(pc := SSync(AtEof), txhdr := s.txpos), [Hdr(ZEOF, s.txpos)])
  }

  /** What getinsync does with one header: it returns a code, or sends something and waits on. */
  datatype Sync = Return(s: Sender, code: Kind) | Stay(s: Sender, out: seq<Token>)

  function Reposition(s: Sender, pos: nat): Sync {
    var u := s.(eofseen := false, off := pos, bytcnt := pos, lrxpos := pos, txpos := pos);
    if s.lastsync != pos then Return(u.(beenhere := 0, lastsync := pos), ZRPOS)
    else
      var v := u.(beenhere := s.beenhere + 1);
      if v.beenhere > 12 then Return(v, TERROR)
      else Return(if v.beenhere > 4 && v.blklen > 32 then v.(blklen := v.blklen / 2) else v, ZRPOS)
  }

  function GetInSync(s: Sender, flag: bool, t: Kind, pos: int): Sync {
    match t
    case HANGUP => Return(s, HANGUP)
    case ZCAN | ZABORT | ZFIN | TIMEOUT => Return(s, TERROR)
    case ZRPOS =>
      if pos > s.bytcnt then Return(s, ZRPOS)
      else if pos < 0 then Return(s, TERROR)
      else Reposition(s, pos)
    case ZACK =>
      var u := s.(lrxpos := pos);
      if flag || u.txpos == pos then Return(u, ZACK) else Stay(u, [])
    case ZRINIT => Return(s, ZRINIT)
    case ZSKIP => Return(s, ZSKIP)
    case _ => Stay(s, [Hdr(ZNAK, s.txhdr)])
  }

  /** The label gotack. */
  function GotAck(s: Sender, code: Kind): Sender {
    match code
    case ZRINIT | ZSKIP => s.(pc := SDone(Skipped))
    case ZACK | ZRPOS => s.(pc := SGlance)
    case _ => s.(pc := SDone(Failed))
  }

  /** The label egotack. */
  function AfterEof(s: Sender, code: Kind): Sender {
    match code
    case ZACK => s
    case ZRPOS => s.(pc := SHead)
    case ZRINIT => s.(pc := SDone(OK))
    case ZSKIP => s.(pc := SDone(Skipped))
    case _ => s.(pc := SDone(Failed))
  }

  function AfterSync(s: Sender, k: Caller, code: Kind): (Sender, seq<Token>) {
    match k
    case AtAck | AtGlance => (GotAck(s, code), [])
    case AtPoll => if code == ZACK then (Onward(s), []) else (GotAck(s, code), [Packet([], ZCRCE)])
    case AtEof => (AfterEof(s, code), [])
  }

  function OnSync(s: Sender, k: Caller, t: Kind, pos: int): (Sender, seq<Token>) {
    match GetInSync(s, k == AtGlance || k == AtPoll, t, pos)
    case Stay(u, out) => (u, out)
    case Return(u, code) => AfterSync(u, k, code)
  }

  function OnLook(s: Sender, look: Look): Sender {
    match s.pc
    case SEat =>
      (match look case Pad => s.(pc := SName) case Noise => s case _ => s.(pc := SOffer))
    case SPoll =>
      (match look case Quiet => Onward(s) case Lost => s.(pc := SDone(Failed)) case Pad => s.(pc := SSync(AtPoll))
       case Noise => Onward(s.(junkcount := s.junkcount + 1)))
    case SGlance =>
      (match look case Lost => s.(pc := SDone(Failed)) case Pad => s.(pc := SSync(AtGlance)) case _ => s.(pc := SHead))
    case _ => s
  }

  /** One step of the sender; an event it is not waiting for changes nothing. */
  function SStep(c: Config, s: Sender, ev: SEvent): (Sender, seq<Token>) {
    match ev
    case Go =>
      (match s.pc
       case SOffer => OfferFile(c, s)
       case SHead => SendHead(c, s)
       case SBlock => SendBlock(c, s)
       case SEnd => SendEof(s)
       case _ => (s, []))
    case Seen(look) => (OnLook(s, look), [])
    case Reply(t, pos) =>
      (match s.pc
       case SName => OnName(c, s, t, pos)
       case SSync(k) => OnSync(s, k, t, pos)
       case _ => (s, []))
  }

  /** Many steps: the state they lead to and everything sent on the way. */
  function SRun(c: Config, s: Sender, evs: seq<SEvent>): (Sender, seq<Token>)
    decreases |evs|
  {
    if evs == [] then (s, []) else
    var (t, out) := SRun(c, s, evs[..|evs| - 1]);
    var (u, more) := SStep(c, t, evs[|evs| - 1]);
    (u, out + more)
  }

  // ------------------------------------------------------------------ receiver

  /** Where the receiver is: waiting for a header in tryz, reading what follows ZFILE, ZSINIT or ZCOMMAND there;
      waiting for a header in rzfile, reading data, reading what follows a repeated ZFILE. */
  datatype RPc = RWait | RName | RAttn | RCommand | RHdr | RData | RDup | RStop

  /** `first` is tryzhdrtype, `tries` and `n` the counters of tryz and rzfile. */
  datatype Receiver = Receiver(pc: RPc, first: Kind, tries: int, n: int, name: Option<seq<Byte>>, rxbytes: int, out: seq<Byte>, accepted: bool)

  /** A header or code from zgethdr, and whether closing the file would succeed; a good subpacket; another code from zrdata. */
  datatype REvent = Header(t: Kind, pos: int, closes: bool) | Good(data: seq<Byte>, end: End) | Bad(code: Kind)

  /** The head of the loop in tryz. */
  function TryZ(r: Receiver): (Receiver, seq<Token>) {
    if r.tries <= 0 then (r.(pc := RStop), [])
    else (r.(pc := RWait, tries := r.tries - 1, first := if r.first == ZSKIP then ZRINIT else r.first), [Hdr(r.first, 0)])
  }

  function StartTryZ(c: Config, r: Receiver): (Receiver, seq<Token>) {
    TryZ(r.(tries := c.tries))
  }

  function OnTryHeader(c: Config, r: Receiver, t: Kind): (Receiver, seq<Token>) {
    match t
    case ZFILE => (r.(pc := RName, first := ZRINIT), [])
    case ZSINIT => (r.(pc := RAttn), [])
    case ZCOMMAND => (r.(pc := RCommand), [])
    case ZFREECNT => (r, [Hdr(ZACK, c.free)])
    case ZCOMPL => (r, [])
    case ZRINIT | ZFIN | TERROR | HANGUP | ZCAN => (r.(pc := RStop), [])
    case _ => TryZ(r)
  }

  function Attn(c: Config): seq<Token> {
    if c.attn then [Junk] else []
  }

  /** The head of the loop in rzfile. */
  function Ask(r: Receiver): (Receiver, seq<Token>) {
    (r.(pc := RHdr), [Hdr(ZRPOS, r.rxbytes)])
  }

  /** A complaint that counts: give up after twenty, or ask again. */
  function Complain(r: Receiver, before: seq<Token>): (Receiver, seq<Token>) {
    if r.n - 1 < 0 then (r.(pc := RStop, n := r.n - 1), [])
    else
      var (u, out) := Ask(r.(n := r.n - 1));
      (u, before + out)
  }

  function OnFileHeader(c: Config, r: Receiver, t: Kind, pos: int, closes: bool): (Receiver, seq<Token>) {
    match t
    case ZCAN | HANGUP => (r.(pc := RStop), [])
    case TERROR => Complain(r, Attn(c))
    case ZFILE => (r.(pc := RDup), [])
    case ZEOF =>
      if pos != r.rxbytes then (r, [])
      else if !closes then (r.(pc := RStop, first := ZFERR), [])
      else StartTryZ(c, r.(accepted := true))
    case ZSKIP => StartTryZ(c, r)
    case ZDATA => if pos != r.rxbytes then Complain(r, Attn(c)) else (r.(pc := RData), [])
    case _ => Complain(r, [])
  }

  /** ZFILE was followed by a good subpacket in tryz. */
  function OnName1(c: Config, r: Receiver, data: seq<Byte>, end: End): (Receiver, seq<Token>) {
    if end != ZCRCW then (r.(pc := RWait), [Hdr(ZNAK, 0)])
    else if c.refuse then StartTryZ(c, r.(first := ZFERR))
    else Ask(r.(name := Some(data), rxbytes := 0, out := [], n := 20, accepted := false))
  }

  function OnData(r: Receiver, data: seq<Byte>, end: End): (Receiver, seq<Token>) {
    var u := r.(n := 20, out := r.out + data, rxbytes := r.rxbytes + |data|);
    match end
    case ZCRCW => (u.(pc := RHdr), [Hdr(ZACK, u.rxbytes)])
    case ZCRCQ => (u, [Hdr(ZACK, u.rxbytes)])
    case ZCRCG => (u, [])
    case ZCRCE => (u.(pc := RHdr), [])
  }

  function OnBadData(c: Config, r: Receiver, code: Kind): (Receiver, seq<Token>) {
    match code
    case ZCAN | HANGUP => (r.(pc := RStop), [])
    case TERROR => Complain(r, Attn(c))
    case TIMEOUT => Complain(r, [])
    case _ => Ask(r)
  }

  function RStep(c: Config, r: Receiver, ev: REvent): (Receiver, seq<Token>) {
    match ev
    case Header(t, pos, closes) =>
      (match r.pc
       case RWait => OnTryHeader(c, r, t)
       case RHdr => OnFileHeader(c, r, t, pos, closes)
       case _ => (r, []))
    case Good(data, end) =>
      (match r.pc
       case RName => OnName1(c, r, data, end)
       case RAttn => (r.(pc := RWait), [if end == ZCRCW then Hdr(ZACK, 1) else Hdr(ZNAK, 0)])
       case RCommand => if end == ZCRCW then (r.(pc := RStop), [Hdr(ZCOMPL, 0)]) else (r.(pc := RWait), [Hdr(ZNAK, 0)])
       case RData => OnData(r, data, end)
       case RDup => Ask(r)
       case _ => (r, []))
    case Bad(code) =>
      (match r.pc
       case RName | RAttn | RCommand => (r.(pc := RWait), [Hdr(ZNAK, 0)])
       case RData => OnBadData(c, r, code)
       case RDup => Ask(r)
       case _ => (r, []))
  }

  /** Many steps: the state they lead to and everything sent on the way. */
  function RRun(c: Config, r: Receiver, evs: seq<REvent>): (Receiver, seq<Token>)
    decreases |evs|
  {
    if evs == [] then (r, []) else
    var (t, out) := RRun(c, r, evs[..|evs| - 1]);
    var (u, more) := RStep(c, t, evs[|evs| - 1]);
    (u, out + more)
  }

  // ------------------------------------------------------------------ both, with two channels

  datatype System = System(s: Sender, r: Receiver, fwd: seq<Token>, back: seq<Token>)

  /** One move of the system: the sender runs, looks at the line, takes a reply off it or gets a code that is no header;
      the receiver takes what is next or gets such a code; part of a channel is damaged or lost. */
  datatype Move =
    | SRuns | SLooks(look: Look) | STakes | SGets(code: Kind)
    | RTakes(closes: bool) | RGets(code: Kind)
    | Damage(forward: bool, i: nat, j: nat)
    | Loss(forward: bool, i: nat, j: nat)

  predicate NoHeader(k: Kind) {
    k == TIMEOUT || k == TERROR || k == HANGUP || k == ZCAN
  }

  function SenderMoves(c: Config, y: System, ev: SEvent, back: seq<Token>): System {
    var (s, out) := SStep(c, y.s, ev);
    y.(s := s, fwd := y.fwd + out, back := back)
  }

  function ReceiverMoves(c: Config, y: System, ev: REvent, fwd: seq<Token>): System {
    var (r, out) := RStep(c, y.r, ev);
    y.(r := r, back := y.back + out, fwd := fwd)
  }

  predicate Hunting(r: Receiver) {
    r.pc == RWait || r.pc == RHdr
  }

  /** What the receiver makes of the next token: a hunt for a header passes over anything else, a reader of data
      finds a subpacket or an error. */
  function Taking(c: Config, y: System, closes: bool): System
    requires y.fwd != []
  {
    match y.fwd[0]
    case Hdr(t, pos) => if Hunting(y.r) then ReceiverMoves(c, y, Header(t, pos, closes), y.fwd[1..]) else y
    case Packet(data, end) =>
      if Hunting(y.r) then y.(fwd := y.fwd[1..]) else ReceiverMoves(c, y, Good(data, end), y.fwd[1..])
    case Junk =>
      if Hunting(y.r) then y.(fwd := y.fwd[1..]) else ReceiverMoves(c, y, Bad(TERROR), y.fwd[1..])
  }

  /** Tokens i to j become one stretch of junk. */
  function Damaged(w: seq<Token>, i: nat, j: nat): seq<Token> {
    if i < j <= |w| then w[..i] + [Junk] + w[j..] else w
  }

  /** Tokens i to j vanish.  On the way forward only up to the next header: zrdata checks no positions, so a subpacket
      gone from the middle of a frame without a trace is beyond the protocol. */
  function Lost1(w: seq<Token>, i: nat, j: nat, anywhere: bool): seq<Token> {
    if i < j <= |w| && (anywhere || (j < |w| && w[j].Hdr?)) then w[..i] + w[j..] else w
  }

  function Apply(c: Config, y: System, m: Move): System {
    match m
    case SRuns => SenderMoves(c, y, Go, y.back)
    case SLooks(look) => SenderMoves(c, y, Seen(look), y.back)
    case STakes =>
      if y.back == [] then y
      else if y.back[0].Hdr? && (y.s.pc == SName || y.s.pc.SSync?) then SenderMoves(c, y, Reply(y.back[0].t, y.back[0].pos), y.back[1..])
      else if y.back[0].Junk? then y.(back := y.back[1..])
      else y
    case SGets(code) => if NoHeader(code) then SenderMoves(c, y, Reply(code, 0), y.back) else y
    case RTakes(closes) => if y.fwd == [] then y else Taking(c, y, closes)
    case RGets(code) =>
      if !NoHeader(code) then y
      else ReceiverMoves(c, y, if Hunting(y.r) then Header(code, 0, false) else Bad(code), y.fwd)
    case Damage(forward, i, j) =>
      if forward then y.(fwd := Damaged(y.fwd, i, j)) else y.(back := Damaged(y.back, i, j))
    case Loss(forward, i, j) =>
      if forward then y.(fwd := Lost1(y.fwd, i, j, false)) else y.(back := Lost1(y.back, i, j, true))
  }

  /** A whole run. */
  function Run(c: Config, y: System, ms: seq<Move>): System
    decreases |ms|
  {
    if ms == [] then y else Apply(c, Run(c, y, ms[..|ms| - 1]), ms[|ms| - 1])
  }

  /** A sender that is about to offer the file, a receiver that waits for one; nothing on the way forward
      offers a file and nothing on the way back asks for one
      or for a checksum.  Anything else may still be on the line. */
  ghost predicate Init(c: Config, y: System) {
    && y.s.pc == SOffer && !y.s.sending && !y.s.eofseen && y.s.blklen > 0
    && y.r.pc == RWait && y.r.name == None && y.r.out == [] && !y.r.accepted
    && (y.r.first == ZRINIT || y.r.first == ZSKIP || y.r.first == ZFERR)
    && (forall k :: k in y.fwd && k.Hdr? ==> k.t != ZFILE)
    && (forall k :: k in y.back && k.Hdr? ==> k.t != ZRPOS && k.t != ZCRC)
  }
}

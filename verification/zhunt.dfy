/** What zgethdr passes over before it finds a header, and what ends its hunt. */
module ZHunt {
  import opened Crc
  import opened ZEscape
  import opened ZFrame

  /** What the hunt can come across: flow control, a timeout, a byte that begins no header, a CAN before such a byte, CAN and 'k' before
      one, stars before a byte that is not ZDLE, stars and ZDLE before a byte that names no header, or before a CAN and such a byte. */
  datatype Piece =
    | Inserted(c: Code) | Silence | Noise(c: Code) | LoneCan(c: Code) | CanK(c: Code) | FalseStart(first: Code, stars: nat, c: Code) | FalseName(first: Code, stars: nat, c: Code)
    | FalseCan(first: Code, stars: nat, c: Code)

  predicate Plain(c: Code) {
    0x20 <= c & 0x7F && !Negative(c)
  }

  predicate Star(c: Code) {
    c == ZPAD || c == ZPAD | 0x80
  }

  predicate PieceOk(p: Piece) {
    match p
    case Inserted(c) => c == XON || c == 0x91
    case Silence => true
    case Noise(c) => c !in {XON, 0x91, HANGUP, TIMEOUT, CAN} && !Star(c)
    case LoneCan(c) => c !in {TIMEOUT, HANGUP, CAN, ZCRCW}
    case CanK(c) => c !in {TIMEOUT, HANGUP}
    case FalseStart(first, _, c) => Star(first) && Plain(c) && c & 0x7F != ZPAD
    case FalseName(first, _, c) => Star(first) && Plain(c) && c & 0x7F !in {ZBIN, ZHEX, ZBIN32}
    case FalseCan(first, _, c) => Star(first) && c !in {TIMEOUT, HANGUP, CAN, ZCRCW}
  }

  function Stars(n: nat): Line
    decreases n
  {
    if n == 0 then [] else [ZPAD] + Stars(n - 1)
  }

  function Written(p: Piece): Line {
    match p
    case Inserted(c) => [c]
    case Silence => [TIMEOUT]
    case Noise(c) => [c]
    case LoneCan(c) => [CAN] + [c]
    case CanK(c) => [CAN] + ([ZCRCW] + [c])
    case FalseStart(first, stars, c) => [first] + (Stars(stars) + [c])
    case FalseName(first, stars, c) => [first] + (Stars(stars) + ([ZDLE] + [c]))
    case FalseCan(first, stars, c) => [first] + (Stars(stars) + ([ZDLE] + ([CAN] + [c])))
  }

  /** Each but the first two is one of the garbage allowance. */
  function Cost(p: Piece): nat {
    if p.Inserted? || p.Silence? then 0 else 1
  }

  function AllWritten(ps: seq<Piece>): Line
    decreases |ps|
  {
    if ps == [] then [] else Written(ps[0]) + AllWritten(ps[1..])
  }

  function Garbled(ps: seq<Piece>): nat
    decreases |ps|
  {
    if ps == [] then 0 else Cost(ps[0]) + Garbled(ps[1..])
  }

  predicate AllOk(ps: seq<Piece>) {
    forall p :: p in ps ==> PieceOk(p)
  }

  lemma Next(c: Code, w: Line)
    ensures Get([c] + w) == c && Rest([c] + w) == w
  {
  }

  /** What becomes of the hunt behind one piece of garbage. */
  function After(ctl: bool, n: nat, w: Line): Header {
    if n <= 1 then Header(0xFFFC, 0, [], w) else Again(ctl, n - 1, 5, w)
  }

  lemma {:induction false} PastStars(ctl: bool, n: nat, stars: nat, w: Line)
    ensures Splat(ctl, n, Stars(stars) + w) == Splat(ctl, n, w)
    decreases stars
  {
    if stars == 0 {
      assert Stars(0) + w == w;
    } else {
      hide ReadPlain;
      assert Stars(stars) + w == [ZPAD] + (Stars(stars - 1) + w);
      ReadText(ctl, ZPAD, Stars(stars - 1) + w);
      PastStars(ctl, n, stars - 1, w);
    }
  }

  lemma PlainRead(ctl: bool, c: Code, w: Line)
    requires Plain(c)
    ensures ReadPlain(ctl, [c] + w) == (c & 0x7F, w) && 0x20 <= c & 0x7F <= 0x7F
  {
    assert ([c] + w)[1..] == w;
    LowSeven(c);
  }

  lemma LowSeven(c: Code)
    requires 0x20 <= c & 0x7F
    ensures c & 0x7F <= 0x7F && (c & 0x7F) & 0x60 != 0
  {
  }

  lemma PastPiece(ctl: bool, n: nat, p: Piece, w: Line)
    requires PieceOk(p)
    ensures Again(ctl, n, 5, Written(p) + w) == if Cost(p) == 0 then Again(ctl, n, 5, w) else After(ctl, n, w)
  {
    hide ReadPlain, Star;
    match p
    case Inserted(c) => assert ([c] + w)[1..] == w;
    case Silence => assert ([TIMEOUT] + w)[1..] == w;
    case Noise(c) => PastNoise(ctl, n, c, w);
    case LoneCan(c) => PastCan(ctl, n, c, w);
    case CanK(c) => PastCanK(ctl, n, c, w);
    case FalseStart(first, stars, c) => PastStart(ctl, n, first, stars, c, w);
    case FalseName(first, stars, c) => PastName(ctl, n, first, stars, c, w);
    case FalseCan(first, stars, c) => PastFalseCan(ctl, n, first, stars, c, w);
  }

  lemma PastNoise(ctl: bool, n: nat, c: Code, w: Line)
    requires PieceOk(Noise(c))
    ensures Again(ctl, n, 5, [c] + w) == After(ctl, n, w)
  {
    assert ([c] + w)[1..] == w;
  }

  lemma PastCan(ctl: bool, n: nat, c: Code, w: Line)
    requires PieceOk(LoneCan(c))
    ensures Again(ctl, n, 5, [CAN] + [c] + w) == After(ctl, n, w)
  {
    assert [CAN] + [c] + w == [CAN] + ([c] + w);
    Next(CAN, [c] + w);
    Next(c, w);
    assert Garbage(ctl, n, w) == After(ctl, n, w);
    assert GotCan(ctl, n, 5, [c] + w) == Garbage(ctl, n, w);
  }

  lemma PastCanK(ctl: bool, n: nat, c: Code, w: Line)
    requires PieceOk(CanK(c))
    ensures Again(ctl, n, 5, [CAN] + ([ZCRCW] + [c]) + w) == After(ctl, n, w)
  {
    assert [CAN] + ([ZCRCW] + [c]) + w == [CAN] + ([ZCRCW] + ([c] + w));
    Next(CAN, [ZCRCW] + ([c] + w));
    Next(ZCRCW, [c] + w);
    Next(c, w);
    assert Garbage(ctl, n, w) == After(ctl, n, w);
    assert GotCan(ctl, n, 5, [ZCRCW] + ([c] + w)) == Garbage(ctl, n, w);
  }

  lemma PastStart(ctl: bool, n: nat, first: Code, stars: nat, c: Code, w: Line)
    requires PieceOk(FalseStart(first, stars, c))
    ensures Again(ctl, n, 5, [first] + (Stars(stars) + [c]) + w) == After(ctl, n, w)
  {
    hide ReadPlain;
    assert ([first] + (Stars(stars) + [c]) + w)[1..] == Stars(stars) + ([c] + w);
    PastStars(ctl, n, stars, [c] + w);
    PlainRead(ctl, c, w);
  }

  lemma PastName(ctl: bool, n: nat, first: Code, stars: nat, c: Code, w: Line)
    requires PieceOk(FalseName(first, stars, c))
    ensures Again(ctl, n, 5, [first] + (Stars(stars) + ([ZDLE] + [c])) + w) == After(ctl, n, w)
  {
    hide ReadPlain;
    assert ([first] + (Stars(stars) + ([ZDLE] + [c])) + w)[1..] == Stars(stars) + ([ZDLE] + ([c] + w));
    PastStars(ctl, n, stars, [ZDLE] + ([c] + w));
    ReadText(ctl, ZDLE, [c] + w);
    PlainRead(ctl, c, w);
    assert Garbage(ctl, n, w) == After(ctl, n, w);
    assert Indicator(ctl, n, [c] + w) == Garbage(ctl, n, w);
  }

  lemma PastFalseCan(ctl: bool, n: nat, first: Code, stars: nat, c: Code, w: Line)
    requires PieceOk(FalseCan(first, stars, c))
    ensures Again(ctl, n, 5, [first] + (Stars(stars) + ([ZDLE] + ([CAN] + [c]))) + w) == After(ctl, n, w)
  {
    hide ReadPlain;
    assert ([first] + (Stars(stars) + ([ZDLE] + ([CAN] + [c]))) + w)[1..] == Stars(stars) + ([ZDLE] + ([CAN] + ([c] + w)));
    PastStars(ctl, n, stars, [ZDLE] + ([CAN] + ([c] + w)));
    ReadText(ctl, ZDLE, [CAN] + ([c] + w));
    ReadText(ctl, CAN, [c] + w);
    Next(c, w);
    assert Garbage(ctl, n, w) == After(ctl, n, w);
    assert GotCan(ctl, n, 5, [c] + w) == Garbage(ctl, n, w);
    assert Indicator(ctl, n, [CAN] + ([c] + w)) == GotCan(ctl, n, 5, [c] + w);
  }

  /** Any garbage in front is passed over as long as it does not use up the allowance. */
  lemma {:induction false} PastGarbage(ctl: bool, n: nat, ps: seq<Piece>, w: Line)
    requires AllOk(ps) && Garbled(ps) < n
    ensures Again(ctl, n, 5, AllWritten(ps) + w) == Again(ctl, n - Garbled(ps), 5, w)
    decreases |ps|
  {
    hide Again, Written, PieceOk, Cost;
    if ps == [] {
      assert AllWritten(ps) + w == w;
    } else {
      assert ps[0] in ps;
      assert AllWritten(ps) + w == Written(ps[0]) + (AllWritten(ps[1..]) + w);
      PastPiece(ctl, n, ps[0], AllWritten(ps[1..]) + w);
      CostIs(ps[0]);
      PastGarbage(ctl, n - Cost(ps[0]), ps[1..], w);
    }
  }

  lemma CostIs(p: Piece)
    ensures Cost(p) <= 1
  {
  }

  /** A binary header of either width is found behind any garbage of fewer than 1400 pieces plus the speed of the line, and not behind
      more. */
  lemma FindsBin(e: Escapes, ctl: bool, wide: bool, baud: nat, ps: seq<Piece>, last: Byte, t: Byte, h: seq<Byte>, tail: Line)
    requires (ctl ==> e.ctl) && |h| == 4 && AllOk(ps) && Garbled(ps) < 1400 + baud
    ensures GetHdr(ctl, baud, AllWritten(ps) + (EncBinHdr(e, wide, last, t, h) + tail)) == Header(t, if wide then ZBIN32 else ZBIN, h, tail)
  {
    hide Enc, ReadBinHdr, Check, Again, AllWritten, Garbled;
    var n := ZRWINDOW + baud;
    PastGarbage(ctl, n, ps, EncBinHdr(e, wide, last, t, h) + tail);
    var body := Enc(e, last, [t] + h + Check(wide, [t] + h)) + tail;
    assert EncBinHdr(e, wide, last, t, h) + tail == [ZPAD] + ([ZDLE] + ([if wide then ZBIN32 else ZBIN] + body));
    HuntBin(ctl, wide, n - Garbled(ps), body);
    ReadBinHdrEnc(e, ctl, wide, last, t, h, tail);
  }

  /** So is a hex header. */
  lemma FindsHex(ctl: bool, baud: nat, ps: seq<Piece>, t: Byte, h: seq<Byte>, tail: Line)
    requires t < 0x80 && |h| == 4 && AllOk(ps) && Garbled(ps) < 1400 + baud
    ensures GetHdr(ctl, baud, AllWritten(ps) + (EncHexHdr(t, h) + tail)) == Header(t, ZHEX, h, Uncork(t) + tail)
  {
    hide EncHexHdr, Again, AllWritten, Garbled;
    PastGarbage(ctl, ZRWINDOW + baud, ps, EncHexHdr(t, h) + tail);
    HexThere(ctl, ZRWINDOW + baud - Garbled(ps), t, h, tail);
  }

  lemma HexThere(ctl: bool, n: nat, t: Byte, h: seq<Byte>, tail: Line)
    requires t < 0x80 && |h| == 4
    ensures Again(ctl, n, 5, EncHexHdr(t, h) + tail) == Header(t, ZHEX, h, Uncork(t) + tail)
  {
    hide EncHex, ReadHexHdr, Check, Again;
    var m := [t & 0x7F] + h;
    assert t & 0x7F == t;
    var body := EncHex(m + Check(false, m)) + ([0x0D] + ([0x8A] + (Uncork(t) + tail)));
    assert EncHexHdr(t, h) + tail == [ZPAD] + ([ZPAD] + ([ZDLE] + ([ZHEX] + body)));
    HuntHex(ctl, n, body);
    ReadHexHdrEnc(ctl, m, Uncork(t) + tail);
    assert m[1..] == h;
  }

  /** One piece more than that, and the hunt ends there, whatever comes next. */
  lemma TooMuch(ctl: bool, baud: nat, ps: seq<Piece>, p: Piece, w: Line)
    requires AllOk(ps) && PieceOk(p) && Garbled(ps) == 1400 + baud - 1 && Cost(p) == 1
    ensures GetHdr(ctl, baud, AllWritten(ps) + (Written(p) + w)) == Header(0xFFFC, 0, [], w)
  {
    hide Again, Written, PieceOk;
    var n := ZRWINDOW + baud;
    PastGarbage(ctl, n, ps, Written(p) + w);
    PastPiece(ctl, n - Garbled(ps), p, w);
  }

  // ------------------------------------------------------------------ cancelling

  /** CANs on the way to five: two together, or one and a silence. */
  function Cans(together: bool): Line {
    if together then [CAN] + [CAN] else [CAN] + [TIMEOUT]
  }

  function CanCount(us: seq<bool>): nat
    decreases |us|
  {
    if us == [] then 0 else (if us[0] then 2 else 1) + CanCount(us[1..])
  }

  function AllCans(us: seq<bool>): Line
    decreases |us|
  {
    if us == [] then [] else Cans(us[0]) + AllCans(us[1..])
  }

  lemma {:induction false} PastCans(ctl: bool, n: nat, cans: int, us: seq<bool>, w: Line)
    requires CanCount(us) < cans
    ensures Again(ctl, n, cans, AllCans(us) + w) == Again(ctl, n, cans - CanCount(us), w)
    decreases |us|
  {
    if us == [] {
      assert AllCans(us) + w == w;
    } else {
      hide Again, Cans;
      var v := AllCans(us[1..]) + w;
      assert AllCans(us) + w == Cans(us[0]) + v;
      PastTwo(ctl, n, cans, us[0], v);
      PastCans(ctl, n, cans - (if us[0] then 2 else 1), us[1..], w);
    }
  }

  lemma PastTwo(ctl: bool, n: nat, cans: int, together: bool, v: Line)
    requires cans > if together then 2 else 1
    ensures Again(ctl, n, cans, Cans(together) + v) == Again(ctl, n, cans - (if together then 2 else 1), v)
  {
    var x := if together then CAN else TIMEOUT;
    assert Cans(together) + v == [CAN] + ([x] + v);
    Next(CAN, [x] + v);
    Next(x, v);
    assert Again(ctl, n, cans, [CAN] + ([x] + v)) == GotCan(ctl, n, cans, [x] + v);
  }

  /** Five CANs, wherever they come in the hunt, end it with ZCAN. */
  lemma FiveCans(ctl: bool, baud: nat, ps: seq<Piece>, us: seq<bool>, w: Line)
    requires AllOk(ps) && Garbled(ps) < 1400 + baud && 3 <= CanCount(us) <= 4
    ensures var last := if CanCount(us) == 4 then [CAN] else [CAN] + [CAN];
      GetHdr(ctl, baud, AllWritten(ps) + (AllCans(us) + (last + w))) == Header(16, 0, [], w)
  {
    hide Garbled, AllWritten, AllCans, Again;
    var n, last := ZRWINDOW + baud - Garbled(ps), if CanCount(us) == 4 then [CAN] else [CAN] + [CAN];
    PastGarbage(ctl, ZRWINDOW + baud, ps, AllCans(us) + (last + w));
    PastCans(ctl, n, 5, us, last + w);
    FifthCan(ctl, n, w);
    if CanCount(us) == 3 { assert last + w == [CAN] + ([CAN] + w); }
  }

  /** Fewer do not: the byte behind them is taken as if they had not been there. */
  lemma FourCans(ctl: bool, baud: nat, ps: seq<Piece>, us: seq<bool>, c: Code, w: Line)
    requires AllOk(ps) && Garbled(ps) < 1400 + baud && CanCount(us) <= 4 && (PieceOk(Noise(c)) || Star(c))
    ensures GetHdr(ctl, baud, AllWritten(ps) + (AllCans(us) + ([c] + w))) == GetHdr(ctl, baud, AllWritten(ps) + ([c] + w))
  {
    hide Garbled, AllWritten, AllCans, Again, Star;
    var n := ZRWINDOW + baud - Garbled(ps);
    PastGarbage(ctl, ZRWINDOW + baud, ps, AllCans(us) + ([c] + w));
    PastGarbage(ctl, ZRWINDOW + baud, ps, [c] + w);
    PastCans(ctl, n, 5, us, [c] + w);
    NoiseAnyhow(ctl, n, 5 - CanCount(us), c, w);
  }

  lemma NoiseAnyhow(ctl: bool, n: nat, cans: int, c: Code, w: Line)
    requires PieceOk(Noise(c)) || Star(c)
    ensures Again(ctl, n, cans, [c] + w) == Again(ctl, n, 5, [c] + w)
  {
  }

  lemma FifthCan(ctl: bool, n: nat, w: Line)
    ensures Again(ctl, n, 1, [CAN] + w) == Header(16, 0, [], w)
    ensures Again(ctl, n, 2, [CAN] + ([CAN] + w)) == Header(16, 0, [], w)
  {
    assert ([CAN] + w)[1..] == w && ([CAN] + ([CAN] + w))[1..] == [CAN] + w;
  }

  // ------------------------------------------------------------------ the end of the line

  /** A line that ends, or falls silent, once a header has begun: the hunt returns that; before one has begun a silence starts it over and
      only the end of the line ends it. */
  lemma BreaksOff(ctl: bool, baud: nat, ps: seq<Piece>, first: Code, stars: nat, named: bool, c: Code, w: Line)
    requires AllOk(ps) && Garbled(ps) < 1400 + baud && Star(first) && (c == TIMEOUT || c == HANGUP)
    ensures var begun := [first] + (Stars(stars) + (if named then [ZDLE] else [])); var r := GetHdr(ctl, baud, AllWritten(ps) + (begun + ([c] + w)));
      r.code == c && r.rest == w
    ensures GetHdr(ctl, baud, AllWritten(ps)).code == HANGUP
  {
    hide Again, AllWritten, Garbled, Star, Stars;
    var n, begun := ZRWINDOW + baud, [first] + (Stars(stars) + (if named then [ZDLE] else []));
    PastGarbage(ctl, n, ps, begun + ([c] + w));
    PastGarbage(ctl, n, ps, []);
    assert AllWritten(ps) + [] == AllWritten(ps);
    EndsAfter(ctl, n - Garbled(ps), first, stars, named, c, w);
    EndsNow(ctl, n - Garbled(ps));
  }

  lemma EndsNow(ctl: bool, n: nat)
    ensures Again(ctl, n, 5, []).code == HANGUP
  {
  }

  /** Behind a CAN a hang-up is returned, too; behind CAN and 'k' a timeout is an error, and a hang-up is not told from the 'k'. */
  lemma CanEnds(ctl: bool, baud: nat, ps: seq<Piece>, w: Line)
    requires AllOk(ps) && Garbled(ps) < 1400 + baud
    ensures GetHdr(ctl, baud, AllWritten(ps) + ([CAN] + ([HANGUP] + w))) == Header(HANGUP, 0, [], w)
    ensures GetHdr(ctl, baud, AllWritten(ps) + ([CAN] + ([ZCRCW] + ([TIMEOUT] + w)))) == Header(TERROR, 0, [], w)
    ensures GetHdr(ctl, baud, AllWritten(ps) + ([CAN] + ([ZCRCW] + ([HANGUP] + w)))) == Header(ZCRCW, 0, [], w)
  {
    hide Again, AllWritten, Garbled;
    var n := ZRWINDOW + baud;
    PastGarbage(ctl, n, ps, [CAN] + ([HANGUP] + w));
    PastGarbage(ctl, n, ps, [CAN] + ([ZCRCW] + ([TIMEOUT] + w)));
    PastGarbage(ctl, n, ps, [CAN] + ([ZCRCW] + ([HANGUP] + w)));
    CanThen(ctl, n - Garbled(ps), HANGUP, w);
    CanKThen(ctl, n - Garbled(ps), TIMEOUT, w);
    CanKThen(ctl, n - Garbled(ps), HANGUP, w);
  }

  lemma CanThen(ctl: bool, n: nat, c: Code, w: Line)
    requires c == HANGUP
    ensures Again(ctl, n, 5, [CAN] + ([c] + w)) == Header(c, 0, [], w)
  {
    Next(CAN, [c] + w);
    Next(c, w);
    assert GotCan(ctl, n, 5, [c] + w) == Header(c, 0, [], w);
  }

  lemma CanKThen(ctl: bool, n: nat, c: Code, w: Line)
    requires c == HANGUP || c == TIMEOUT
    ensures Again(ctl, n, 5, [CAN] + ([ZCRCW] + ([c] + w))) == Header(if c == TIMEOUT then TERROR else ZCRCW, 0, [], w)
  {
    Next(CAN, [ZCRCW] + ([c] + w));
    Next(ZCRCW, [c] + w);
    Next(c, w);
    assert GotCan(ctl, n, 5, [ZCRCW] + ([c] + w)) == Header(if c == TIMEOUT then TERROR else ZCRCW, 0, [], w);
  }

  lemma EndsAfter(ctl: bool, n: nat, first: Code, stars: nat, named: bool, c: Code, w: Line)
    requires Star(first) && (c == TIMEOUT || c == HANGUP)
    ensures var begun := [first] + (Stars(stars) + (if named then [ZDLE] else [])); var r := Again(ctl, n, 5, begun + ([c] + w));
      r.code == c && r.rest == w
  {
    hide ReadPlain;
    var u := (if named then [ZDLE] else []) + ([c] + w);
    assert ([first] + (Stars(stars) + (if named then [ZDLE] else [])) + ([c] + w))[1..] == Stars(stars) + u;
    PastStars(ctl, n, stars, u);
    EndRead(ctl, c, w);
    if named {
      assert u == [ZDLE] + ([c] + w);
      ReadText(ctl, ZDLE, [c] + w);
    } else {
      assert u == [c] + w;
    }
  }

  lemma EndRead(ctl: bool, c: Code, w: Line)
    requires c == TIMEOUT || c == HANGUP
    ensures ReadPlain(ctl, [c] + w) == (c, w)
  {
    assert ([c] + w)[1..] == w;
  }
}

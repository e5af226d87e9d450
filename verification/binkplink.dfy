/** Two BinkP nodes and the bytes between them, from the negotiation of PLZ on: what one parses is what the other sent. */
module BinkpLink {
  import opened Common
  import opened BinkpFrame
  import Names
  import Opts = BinkpOpts

  // ------------------------------------------------------------------ the nodes

  function Text(data: seq<Octet>): string
    decreases |data|
  {
    if data == [] || data[0] == 0 then [] else [data[0] as char] + Text(data[1..])
  }

  /** An M_NUL in which parse_m_nul finds the option PLZ. */
  predicate SaysPlz(f: Frame) {
    f.cmd && f.data != [] && f.data[0] == 0 && "OPT " <= Text(f.data[1..]) && "PLZ" in Names.Tokens(Text(f.data[1..]))
  }

  /** The option states, the block size, the parser, the frames taken from it; every frame sent, as it went out, which is
      history only; `failed` if a frame was refused or could not be unpacked. */
  datatype Side = Side(opts: Opts.Node, blk: nat, parser: Parser, got: seq<Frame>, sent: seq<Item>, failed: bool)

  /** The bytes under way from a to b and from b to a. */
  datatype Link = Link(a: Side, b: Side, ab: seq<Octet>, ba: seq<Octet>)

  /** binkp_send_comp_opts with its M_NUL; PLZ turned off; a frame of the transmitter; one byte polled, and the frame taken
      if it is complete. */
  datatype Move = Tells(f: Frame) | Refuses | Sends(f: Frame) | Hears

  predicate Fits(i: Item) {
    |i.body| < if i.packed then PLZ_BLOCK else 0x8000
  }

  function Out(i: Item): seq<Octet> {
    if Fits(i) then Wire(i) else []
  }

  function Put(z: Zip, l: Link, f: Frame): Link {
    var s := SendFrame(z, l.a.opts.we == Opts.Active, false, f, l.a.blk);
    if s.refused || !Fits(s.item) then l.(a := l.a.(failed := true))
    else l.(a := l.a.(blk := s.cmpblksize, sent := l.a.sent + [s.item]), ab := l.ab + Out(s.item))
  }

  predicate OptionFrame(f: Frame) {
    SaysPlz(f) && |f.data| <= 1025
  }

  function TellPlz(z: Zip, l: Link, f: Frame): Link {
    var (n, out) := Opts.Tell(l.a.opts);
    var t := if out == [] then l else Put(z, l, f);
    t.(a := t.a.(opts := n))
  }

  function TakeFrame(s: Side, f: Frame): Side {
    s.(parser := IDLE, got := s.got + [f], opts := if SaysPlz(f) then Opts.Hear(s.opts, Opts.Opt) else s.opts)
  }

  function HearByte(z: Zip, s: Side, c: Octet): Side {
    var (q, o) := Byte(z, s.parser, Arrival(c, s.opts.they == Opts.Active));
    match o
    case Nothing => s.(parser := q)
    case Done(f) => TakeFrame(s, f)
    case ZipError => s.(failed := true)
  }

  /** A move of a. */
  function MoveA(z: Zip, l: Link, m: Move): Link {
    match m
    case Tells(f) => if OptionFrame(f) then TellPlz(z, l, f) else l
    case Refuses => l.(a := l.a.(opts := Opts.Refuse(l.a.opts)))
    case Sends(f) => if !SaysPlz(f) && Offered(f, l.a.blk) then Put(z, l, f) else l
    case Hears => if l.ba == [] then l else l.(a := HearByte(z, l.a, l.ba[0]), ba := l.ba[1..])
  }

  function Swap(l: Link): Link {
    Link(l.b, l.a, l.ba, l.ab)
  }

  function Apply(z: Zip, l: Link, byA: bool, m: Move): Link {
    if byA then MoveA(z, l, m) else Swap(MoveA(z, Swap(l), m))
  }

  function Run(z: Zip, l: Link, ms: seq<(bool, Move)>): Link
    decreases |ms|
  {
    if ms == [] then l else Apply(z, Run(z, l, ms[..|ms| - 1]), ms[|ms| - 1].0, ms[|ms| - 1].1)
  }

  predicate Fresh(s: Side) {
    Opts.Fresh(s.opts) && s.blk == SND_BLKSIZE && s.parser == IDLE && s.got == [] && s.sent == [] && !s.failed
  }

  /** The frame that a move of a is to send. */
  function Order(l: Link, m: Move): seq<Frame> {
    match m
    case Tells(f) => if OptionFrame(f) && Opts.Tell(l.a.opts).1 != [] then [f] else []
    case Sends(f) => if !SaysPlz(f) && Offered(f, l.a.blk) then [f] else []
    case _ => []
  }

  /** All that a, or b, is to send in a run. */
  function Orders(z: Zip, l: Link, ms: seq<(bool, Move)>, ofA: bool): seq<Frame>
    decreases |ms|
  {
    if ms == [] then [] else
    var q := Run(z, l, ms[..|ms| - 1]);
    var (byA, m) := ms[|ms| - 1];
    Orders(z, l, ms[..|ms| - 1], ofA) + if byA != ofA then [] else Order(if byA then q else Swap(q), m)
  }

  // ------------------------------------------------------------------ the invariant

  function Token(i: Item): Opts.Token {
    if SaysPlz(i.f) then Opts.Opt else if i.packed then Opts.Packed else Opts.Plain
  }

  function Pending(sent: seq<Item>, g: nat): seq<Opts.Token> {
    if g <= |sent| then seq(|sent| - g, k requires 0 <= k < |sent| - g => Token(sent[g + k])) else []
  }

  /** The negotiation as its own model sees it: a frame stays under way until all of it has been read. */
  function Abstract(l: Link): Opts.Pair {
    Opts.Pair(l.a.opts, l.b.opts, Pending(l.a.sent, |l.b.got|), Pending(l.b.sent, |l.a.got|))
  }

  function Wires(items: seq<Item>): seq<Octet>
    decreases |items|
  {
    if items == [] then [] else Out(items[0]) + Wires(items[1..])
  }

  /** The parser has read as many bytes of an item as it has counted. */
  predicate Within(i: Item, p: Parser)
    requires |i.body| < PLZ_BLOCK
  {
    var h := Header(i.f.cmd, i.packed, |i.body|);
    && p.rxlen < |Out(i)|
    && p == if p.rxlen == 0 then IDLE else if p.rxlen == 1 then Parser(1, h / 256 * 256, 0, []) else Parser(p.rxlen, h, |i.body|, i.body[..p.rxlen - 2])
  }

  ghost predicate Sound(z: Zip, sent: seq<Item>) {
    forall i :: 0 <= i < |sent| ==> ItemOk(z, sent[i])
  }

  /** What r has parsed is the first of what was sent, and the line holds the rest of it, byte for byte. */
  ghost predicate LineOk(z: Zip, sent: seq<Item>, r: Side, w: seq<Octet>) {
    var g := |r.got|;
    && Sound(z, sent) && g <= |sent| && !r.failed
    && (forall i :: 0 <= i < g ==> r.got[i] == sent[i].f)
    && (if g == |sent| then r.parser == IDLE && w == []
        else Within(sent[g], r.parser) && w == Rest(sent, g, r.parser.rxlen))
  }

  ghost predicate Inv(z: Zip, l: Link) {
    && Opts.Inv(Abstract(l))
    && SND_BLKSIZE <= l.a.blk < PLZ_BLOCK && SND_BLKSIZE <= l.b.blk < PLZ_BLOCK
    && LineOk(z, l.b.sent, l.a, l.ba) && LineOk(z, l.a.sent, l.b, l.ab)
  }

  // ------------------------------------------------------------------ one byte

  lemma FirstHeaderByte(z: Zip, i: Item, plz: bool)
    requires |i.body| < PLZ_BLOCK
    ensures var (q, o) := Byte(z, IDLE, Arrival(Out(i)[0], plz)); o == Nothing && q.rxlen == 1 && Within(i, q)
  {
    BitSet(i);
  }

  lemma SecondHeaderByte(z: Zip, i: Item, p: Parser, plz: bool)
    requires ItemOk(z, i) && Within(i, p) && p.rxlen == 1 && (i.packed ==> plz)
    ensures var (q, o) := Byte(z, p, Arrival(Out(i)[1], plz));
      if i.body == [] then o == Done(i.f) else o == Nothing && q.rxlen == 2 && Within(i, q)
  {
    BitSet(i);
    assert i.body[..0] == [];
  }

  /** Each byte of an item brings the parser on, and the last one gives the frame. */
  lemma NextByte(z: Zip, i: Item, p: Parser, plz: bool)
    requires ItemOk(z, i) && Inverse(z) && Within(i, p) && (i.packed ==> plz)
    ensures var (q, o) := Byte(z, p, Arrival(Out(i)[p.rxlen], plz));
      if p.rxlen + 1 == |Out(i)| then o == Done(i.f) else o == Nothing && q.rxlen == p.rxlen + 1 && Within(i, q)
  {
    hide Byte, Inverse;
    if p.rxlen == 0 {
      FirstHeaderByte(z, i, plz);
    } else if p.rxlen == 1 {
      SecondHeaderByte(z, i, p, plz);
    } else {
      var k := p.rxlen - 2;
      assert Out(i)[p.rxlen] == i.body[k];
      BodyByte(z, i, Arrival(i.body[k], plz), k);
    }
  }

  // ------------------------------------------------------------------ the line

  lemma {:induction false} WiresMore(items: seq<Item>, i: Item)
    ensures Wires(items + [i]) == Wires(items) + Out(i)
    decreases |items|
  {
    hide Out;
    if items == [] {
      assert items + [i] == [i] && [i][1..] == [];
      assert Wires([i]) == Out(i) + Wires([]);
    } else {
      assert (items + [i])[1..] == items[1..] + [i];
      WiresMore(items[1..], i);
      assert Out(items[0]) + (Wires(items[1..]) + Out(i)) == Out(items[0]) + Wires(items[1..]) + Out(i);
    }
  }

  /** What is on the line when k bytes of item g have been read. */
  function Rest(sent: seq<Item>, g: nat, k: nat): seq<Octet> {
    if g < |sent| && k <= |Out(sent[g])| then Out(sent[g])[k..] + Wires(sent[g + 1..]) else []
  }

  lemma RestMore(sent: seq<Item>, g: nat, k: nat, i: Item)
    requires g < |sent| && k <= |Out(sent[g])|
    ensures Rest(sent + [i], g, k) == Rest(sent, g, k) + Out(i)
  {
    hide Out, Wires;
    var more := sent + [i];
    assert more[g + 1..] == sent[g + 1..] + [i];
    WiresMore(sent[g + 1..], i);
    var a := Out(sent[g])[k..];
    assert a + Wires(sent[g + 1..]) + Out(i) == a + (Wires(sent[g + 1..]) + Out(i));
  }

  lemma RestNew(sent: seq<Item>, i: Item)
    ensures Rest(sent + [i], |sent|, 0) == Out(i)
  {
    var more := sent + [i];
    assert more[|sent| + 1..] == [] && Out(i)[0..] + Wires([]) == Out(i);
  }

  lemma RestOn(sent: seq<Item>, g: nat, k: nat)
    requires g < |sent| && k < |Out(sent[g])|
    ensures var w := Rest(sent, g, k); w != [] && w[0] == Out(sent[g])[k] && w[1..] == Rest(sent, g, k + 1)
  {
    hide Out, Wires;
    var o, more := Out(sent[g]), Wires(sent[g + 1..]);
    assert Rest(sent, g, k) == [o[k]] + (o[k + 1..] + more);
  }

  lemma RestOver(sent: seq<Item>, g: nat)
    requires g < |sent|
    ensures Rest(sent, g, |Out(sent[g])|) == Rest(sent, g + 1, 0)
  {
    assert Out(sent[g])[|Out(sent[g])|..] == [];
    if g + 1 < |sent| {
      assert sent[g + 1..][0] == sent[g + 1] && sent[g + 1..][1..] == sent[g + 2..];
      assert Out(sent[g + 1])[0..] == Out(sent[g + 1]);
    }
  }

  /** A whole item is put on the line. */
  lemma LineLonger(z: Zip, sent: seq<Item>, r: Side, w: seq<Octet>, i: Item)
    requires LineOk(z, sent, r, w) && ItemOk(z, i)
    ensures LineOk(z, sent + [i], r, w + Out(i))
  {
    hide Out, Wires, ItemOk, Within, Rest;
    var g := |r.got|;
    if g == |sent| {
      RestNew(sent, i);
      AtStart(z, i);
      assert w + Out(i) == Out(i);
    } else {
      PackedIsData(z, sent[g]);
      InOut(sent[g], r.parser);
      RestMore(sent, g, r.parser.rxlen, i);
    }
  }

  lemma AtStart(z: Zip, i: Item)
    requires ItemOk(z, i)
    ensures Within(i, IDLE)
  {
  }

  lemma InOut(i: Item, p: Parser)
    requires |i.body| < PLZ_BLOCK && Within(i, p)
    ensures p.rxlen < |Out(i)|
  {
  }

  lemma PendingMore(sent: seq<Item>, g: nat, i: Item)
    requires g <= |sent|
    ensures Pending(sent + [i], g) == Pending(sent, g) + [Token(i)]
  {
  }

  lemma PendingLess(sent: seq<Item>, g: nat)
    requires g < |sent|
    ensures Pending(sent, g) != [] && Pending(sent, g)[0] == Token(sent[g]) && Pending(sent, g)[1..] == Pending(sent, g + 1)
  {
  }

  /** What is next on the line. */
  lemma LineHead(z: Zip, sent: seq<Item>, r: Side, w: seq<Octet>)
    requires LineOk(z, sent, r, w)
    ensures |r.got| <= |sent| && (w != [] <==> |r.got| < |sent|)
    ensures w != [] ==> ItemOk(z, sent[|r.got|]) && Within(sent[|r.got|], r.parser)
    ensures w != [] ==> r.parser.rxlen < |Out(sent[|r.got|])| && w[0] == Out(sent[|r.got|])[r.parser.rxlen]
  {
    hide Out, Rest, Within;
    if |r.got| < |sent| {
      InOut(sent[|r.got|], r.parser);
      RestOn(sent, |r.got|, r.parser.rxlen);
    }
  }

  lemma LineWaits(z: Zip, sent: seq<Item>, r: Side, w: seq<Octet>, q: Parser)
    requires LineOk(z, sent, r, w) && |r.got| < |sent| && w != []
    requires |sent[|r.got|].body| < PLZ_BLOCK && Within(sent[|r.got|], q) && q.rxlen == r.parser.rxlen + 1
    ensures LineOk(z, sent, r.(parser := q), w[1..])
  {
    hide Out, Rest, Within, ItemOk;
    InOut(sent[|r.got|], q);
    RestOn(sent, |r.got|, r.parser.rxlen);
  }

  lemma LineTaken(z: Zip, sent: seq<Item>, r: Side, w: seq<Octet>)
    requires LineOk(z, sent, r, w) && |r.got| < |sent| && w != [] && r.parser.rxlen + 1 == |Out(sent[|r.got|])|
    ensures LineOk(z, sent, TakeFrame(r, sent[|r.got|].f), w[1..])
  {
    hide Out, Rest, Within, ItemOk, SaysPlz;
    var g := |r.got|;
    RestOn(sent, g, r.parser.rxlen);
    RestOver(sent, g);
    if g + 1 < |sent| {
      AtStart(z, sent[g + 1]);
    } else {
      NothingLeft(sent);
    }
  }

  lemma NothingLeft(sent: seq<Item>)
    ensures Rest(sent, |sent|, 0) == []
  {
  }

  /** Only the parser, the frames and `failed` matter to it. */
  lemma LineSame(z: Zip, sent: seq<Item>, r: Side, t: Side, w: seq<Octet>)
    requires LineOk(z, sent, r, w) && t.parser == r.parser && t.got == r.got && t.failed == r.failed
    ensures LineOk(z, sent, t, w)
  {
  }

  // ------------------------------------------------------------------ the moves

  lemma HeadUnderstood(l: Link)
    requires Opts.Inv(Abstract(l)) && |l.a.got| < |l.b.sent|
    ensures !l.b.sent[|l.a.got|].f.cmd && l.b.sent[|l.a.got|].packed ==> l.a.opts.they == Opts.Active
  {
    PendingLess(l.b.sent, |l.a.got|);
  }

  lemma HearKeeps(z: Zip, l: Link)
    requires Inverse(z) && Inv(z, l) && l.ba != []
    ensures Inv(z, MoveA(z, l, Hears))
  {
    hide Within, Out, Byte, Inverse, ItemOk, SaysPlz, Opts.Inv, LineOk, Pending, TakeFrame;
    var g, a := |l.a.got|, l.a;
    LineHead(z, l.b.sent, a, l.ba);
    var i := l.b.sent[g];
    HeadUnderstood(l);
    PackedIsData(z, i);
    NextByte(z, i, a.parser, a.opts.they == Opts.Active);
    var (q, o) := Byte(z, a.parser, Arrival(l.ba[0], a.opts.they == Opts.Active));
    if a.parser.rxlen + 1 == |Out(i)| {
      LineTaken(z, l.b.sent, a, l.ba);
      TakenKeeps(l, i);
    } else {
      LineWaits(z, l.b.sent, a, l.ba, q);
    }
    LineSame(z, l.a.sent, l.b, l.b, l.ab);
  }

  /** A frame that is taken is one that the negotiation hears. */
  lemma TakenKeeps(l: Link, i: Item)
    requires Opts.Inv(Abstract(l)) && |l.a.got| < |l.b.sent| && i == l.b.sent[|l.a.got|]
    ensures var t := TakeFrame(l.a, i.f);
      && Opts.Inv(Abstract(l.(a := t))) && t.blk == l.a.blk && t.sent == l.a.sent
  {
    hide Opts.Inv, SaysPlz, Opts.Hear;
    PendingLess(l.b.sent, |l.a.got|);
    Opts.MoveKeeps(Abstract(l), Opts.Hears);
    OnlyOptions(l.a.opts, i);
    assert Abstract(l.(a := TakeFrame(l.a, i.f))) == Opts.MoveA(Abstract(l), Opts.Hears);
  }

  lemma OnlyOptions(n: Opts.Node, i: Item)
    ensures Opts.Hear(n, Token(i)) == if SaysPlz(i.f) then Opts.Hear(n, Opts.Opt) else n
  {
  }

  lemma PackedIsData(z: Zip, i: Item)
    requires ItemOk(z, i)
    ensures i.packed ==> !i.f.cmd && !SaysPlz(i.f)
    ensures |i.body| < PLZ_BLOCK
  {
  }

  /** The frame is accepted, whole, in a form the other side can read once it is its turn. */
  lemma PutItem(z: Zip, l: Link, f: Frame)
    requires Inverse(z) && SND_BLKSIZE <= l.a.blk < PLZ_BLOCK && Offered(f, l.a.blk)
    ensures var s := SendFrame(z, l.a.opts.we == Opts.Active, false, f, l.a.blk);
      && !s.refused && Fits(s.item) && ItemOk(z, s.item) && s.item.f == f && (s.item.packed ==> l.a.opts.we == Opts.Active)
      && SND_BLKSIZE <= s.cmpblksize < PLZ_BLOCK
  {
    var o := BinkpFrame.Order.Order(l.a.opts.we == Opts.Active, false, f);
    SentOne(z, o, l.a.blk);
  }

  lemma SentOne(z: Zip, o: BinkpFrame.Order, blk: nat)
    requires Inverse(z) && SND_BLKSIZE <= blk < PLZ_BLOCK && Offered(o.f, blk)
    ensures var s := SendFrame(z, o.active, o.stream, o.f, blk);
      && !s.refused && ItemOk(z, s.item) && s.item.f == o.f && (s.item.packed ==> o.active)
      && SND_BLKSIZE <= s.cmpblksize < PLZ_BLOCK
  {
    var orders := [o];
    assert orders[1..] == [];
    assert AllOffered(z, orders, blk);
    NeverRefused(z, orders, blk);
    assert SendAll(z, orders, blk)[0] == SendFrame(z, o.active, o.stream, o.f, blk);
  }

  lemma PutKeeps(z: Zip, l: Link, f: Frame)
    requires Inverse(z) && Inv(z, l) && Offered(f, l.a.blk)
    ensures var t := Put(z, l, f);
      && t.b == l.b && t.ba == l.ba && t.a.opts == l.a.opts && t.a.parser == l.a.parser && t.a.got == l.a.got && t.a.failed == l.a.failed
      && SND_BLKSIZE <= t.a.blk < PLZ_BLOCK && LineOk(z, t.a.sent, t.b, t.ab)
      && |t.a.sent| == |l.a.sent| + 1 && t.a.sent[..|l.a.sent|] == l.a.sent && t.a.sent[|l.a.sent|].f == f
      && (t.a.sent[|l.a.sent|].packed ==> l.a.opts.we == Opts.Active && !f.cmd)
      && Pending(t.a.sent, |l.b.got|) == Pending(l.a.sent, |l.b.got|) + [Token(t.a.sent[|l.a.sent|])]
  {
    hide SendFrame, Out, Inverse, LineOk, Offered, SaysPlz, Opts.Inv, Token;
    PutItem(z, l, f);
    var s := SendFrame(z, l.a.opts.we == Opts.Active, false, f, l.a.blk);
    LineLonger(z, l.a.sent, l.b, l.ab, s.item);
    Reached(z, l.a.sent, l.b, l.ab);
    PendingMore(l.a.sent, |l.b.got|, s.item);
  }

  lemma Reached(z: Zip, sent: seq<Item>, r: Side, w: seq<Octet>)
    requires LineOk(z, sent, r, w)
    ensures |r.got| <= |sent|
  {
  }

  lemma SendsKeeps(z: Zip, l: Link, f: Frame)
    requires Inverse(z) && Inv(z, l) && !SaysPlz(f) && Offered(f, l.a.blk)
    ensures Inv(z, Put(z, l, f))
  {
    hide Put, LineOk, SaysPlz, Pending, Opts.Inv;
    PutKeeps(z, l, f);
    var t := Put(z, l, f);
    var i := t.a.sent[|l.a.sent|];
    Opts.MoveKeeps(Abstract(l), Opts.Sends(i.packed));
    assert Abstract(t) == Opts.MoveA(Abstract(l), Opts.Sends(i.packed));
    LineSame(z, l.b.sent, l.a, t.a, l.ba);
  }

  lemma TellsKeeps(z: Zip, l: Link, f: Frame)
    requires Inverse(z) && Inv(z, l) && OptionFrame(f)
    ensures Inv(z, TellPlz(z, l, f))
  {
    hide Put, LineOk, SaysPlz, Pending, Opts.Inv;
    var (n, out) := Opts.Tell(l.a.opts);
    Opts.MoveKeeps(Abstract(l), Opts.Tells);
    var t := TellPlz(z, l, f);
    if out == [] {
      LineSame(z, l.b.sent, l.a, t.a, l.ba);
      assert Pending(l.a.sent, |l.b.got|) + [] == Pending(l.a.sent, |l.b.got|);
    } else {
      CommandOffered(f, l.a.blk);
      PutKeeps(z, l, f);
      LineSame(z, l.b.sent, l.a, t.a, l.ba);
      assert out == [Opts.Opt];
    }
    assert Abstract(t) == Opts.MoveA(Abstract(l), Opts.Tells);
  }

  lemma CommandOffered(f: Frame, blk: nat)
    requires OptionFrame(f)
    ensures Offered(f, blk)
  {
  }

  lemma MoveKeeps(z: Zip, l: Link, m: Move)
    requires Inverse(z) && Inv(z, l)
    ensures Inv(z, MoveA(z, l, m))
  {
    hide Put, TellPlz, HearByte, LineOk, SaysPlz, Pending, Opts.Inv, Inverse, Offered, OptionFrame;
    match m
    case Tells(f) => if OptionFrame(f) { TellsKeeps(z, l, f); }
    case Refuses =>
      var t := MoveA(z, l, m);
      Opts.MoveKeeps(Abstract(l), Opts.Refuses);
      assert Abstract(t) == Opts.MoveA(Abstract(l), Opts.Refuses);
      LineSame(z, l.b.sent, l.a, t.a, l.ba);
    case Sends(f) => if !SaysPlz(f) && Offered(f, l.a.blk) { SendsKeeps(z, l, f); }
    case Hears => if l.ba != [] { HearKeeps(z, l); }
  }

  lemma SwapKeeps(z: Zip, l: Link)
    requires Inv(z, l)
    ensures Inv(z, Swap(l))
  {
    hide LineOk, Pending;
    assert Abstract(Swap(l)) == Opts.Swap(Abstract(l));
  }

  lemma ApplyKeeps(z: Zip, l: Link, byA: bool, m: Move)
    requires Inverse(z) && Inv(z, l)
    ensures Inv(z, Apply(z, l, byA, m))
  {
    hide MoveA, Inv;
    if byA {
      MoveKeeps(z, l, m);
    } else {
      SwapKeeps(z, l);
      MoveKeeps(z, Swap(l), m);
      SwapKeeps(z, MoveA(z, Swap(l), m));
    }
  }

  // ------------------------------------------------------------------ what was ordered

  function Frames1(items: seq<Item>): seq<Frame> {
    seq(|items|, k requires 0 <= k < |items| => items[k].f)
  }

  lemma PutOrders(z: Zip, l: Link, f: Frame)
    requires Inverse(z) && Inv(z, l) && Offered(f, l.a.blk)
    ensures Frames1(Put(z, l, f).a.sent) == Frames1(l.a.sent) + [f] && Put(z, l, f).b.sent == l.b.sent
  {
    hide Inv, Put, Offered, LineOk, Pending, Token;
    PutKeeps(z, l, f);
    var t, n := Put(z, l, f).a.sent, |l.a.sent|;
    assert t == l.a.sent + [t[n]];
  }

  /** Each move sends just the frame it is to send. */
  lemma MoveOrders(z: Zip, l: Link, m: Move)
    requires Inverse(z) && Inv(z, l)
    ensures var t := MoveA(z, l, m);
      Frames1(t.a.sent) == Frames1(l.a.sent) + Order(l, m) && t.b.sent == l.b.sent
  {
    hide Inv, Put, SaysPlz, HearByte, Offered, OptionFrame, Opts.Tell, Inverse, Frames1;
    assert Frames1(l.a.sent) + [] == Frames1(l.a.sent);
    match m
    case Tells(f) =>
      if OptionFrame(f) && Opts.Tell(l.a.opts).1 != [] {
        CommandOffered(f, l.a.blk);
        PutOrders(z, l, f);
      }
    case Refuses =>
    case Sends(f) =>
      if !SaysPlz(f) && Offered(f, l.a.blk) {
        PutOrders(z, l, f);
      }
    case Hears => HearsNothing(z, l);
  }

  lemma HearsNothing(z: Zip, l: Link)
    ensures MoveA(z, l, Hears).a.sent == l.a.sent && MoveA(z, l, Hears).b == l.b
  {
  }

  lemma {:induction false} RunKeeps(z: Zip, l: Link, ms: seq<(bool, Move)>)
    requires Inverse(z) && Inv(z, l) && l.a.sent == [] && l.b.sent == []
    ensures var q := Run(z, l, ms);
      Inv(z, q) && Frames1(q.a.sent) == Orders(z, l, ms, true) && Frames1(q.b.sent) == Orders(z, l, ms, false)
    decreases |ms|
  {
    hide Inv, MoveA, Order, Inverse;
    if ms != [] {
      var before := ms[..|ms| - 1];
      var (byA, m) := ms[|ms| - 1];
      RunKeeps(z, l, before);
      var q := Run(z, l, before);
      ApplyKeeps(z, q, byA, m);
      if byA {
        MoveOrders(z, q, m);
      } else {
        SwapKeeps(z, q);
        MoveOrders(z, Swap(q), m);
      }
    }
  }

  /** In every run, from before the negotiation on, and however the bytes are polled: no frame is refused and none is beyond
      unpacking; the frames each node has parsed are the first of those the other was to send, whole and in order; and they
      are all of them once nothing is under way. */
  lemma {:induction false} FramesArrive(z: Zip, l: Link, ms: seq<(bool, Move)>)
    requires Inverse(z) && Fresh(l.a) && Fresh(l.b) && l.ab == [] && l.ba == []
    ensures var q := Run(z, l, ms);
      && !q.a.failed && !q.b.failed
      && q.a.got <= Orders(z, l, ms, false) && q.b.got <= Orders(z, l, ms, true)
      && (q.ba == [] ==> q.a.got == Orders(z, l, ms, false)) && (q.ab == [] ==> q.b.got == Orders(z, l, ms, true))
  {
    hide Run, Orders, Inverse;
    StartOk(z, l);
    RunKeeps(z, l, ms);
    var q := Run(z, l, ms);
    GotFirst(z, q.b.sent, q.a, q.ba);
    GotFirst(z, q.a.sent, q.b, q.ab);
  }

  lemma StartOk(z: Zip, l: Link)
    requires Fresh(l.a) && Fresh(l.b) && l.ab == [] && l.ba == []
    ensures Inv(z, l)
  {
    assert Pending([], 0) == [];
  }

  lemma GotFirst(z: Zip, sent: seq<Item>, r: Side, w: seq<Octet>)
    requires LineOk(z, sent, r, w)
    ensures r.got <= Frames1(sent) && !r.failed && (w == [] ==> r.got == Frames1(sent))
  {
    hide Out, Within, ItemOk;
    LineHead(z, sent, r, w);
  }
}

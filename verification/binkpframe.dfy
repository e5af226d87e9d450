/** BinkP frames: binkp_send_frame, the byte-at-a-time parser binkp_poll_frame, and the negotiation of PLZ. */
module BinkpFrame {
  import opened Common

  type Octet = c: int | 0 <= c < 256

  datatype Frame = Frame(cmd: bool, data: seq<Octet>)

  const PLZ_BLOCK: nat := 0x4000
  const SND_BLKSIZE: nat := 4096

  /** zlib's compress2 and uncompress, each of which may fail. */
  datatype Zip = Zip(pack: seq<Octet> -> Option<seq<Octet>>, unpack: seq<Octet> -> Option<seq<Octet>>)

  /** What was packed unpacks again, and nothing packs into nothing or into more than the space allowed. */
  ghost predicate Inverse(z: Zip) {
    forall s: seq<Octet> :: z.pack(s).Some? && |s| < PLZ_BLOCK ==>
      0 < |z.pack(s).value| < PLZ_BLOCK && z.unpack(z.pack(s).value) == Some(s)
  }

  // ------------------------------------------------------------------ sending

  /** A frame as it goes out: packed or as it is. */
  datatype Item = Item(f: Frame, packed: bool, body: seq<Octet>)

  function Header(cmd: bool, packed: bool, n: nat): nat {
    (if cmd then 0x8000 else 0) + (if packed then PLZ_BLOCK else 0) + n
  }

  function Wire(i: Item): seq<Octet>
    requires |i.body| < if i.packed then PLZ_BLOCK else 0x8000
  {
    var h := Header(i.f.cmd, i.packed, |i.body|);
    [h / 256, h % 256] + i.body
  }

  /** The body of an item is its data, packed or not, and below the PLZ bit. */
  predicate ItemOk(z: Zip, i: Item) {
    && |i.body| < PLZ_BLOCK
    && (if i.packed then !i.f.cmd && i.body != [] && |i.f.data| < PLZ_BLOCK && z.pack(i.f.data) == Some(i.body) else i.body == i.f.data)
  }

  function Clamp(n: nat): nat {
    if n < SND_BLKSIZE then SND_BLKSIZE else if n > PLZ_BLOCK - 1 then PLZ_BLOCK - 1 else n
  }

  datatype Sent = Sent(refused: bool, item: Item, cmpblksize: nat)

  /** binkp_send_frame; `plz` is PLZwe active and the current file not a compressed stream. */
  function SendFrame(z: Zip, active: bool, stream: bool, f: Frame, cmpblksize: nat): Sent {
    var plain := Item(f, false, f.data);
    var n := |f.data|;
    if n >= PLZ_BLOCK && active then Sent(true, plain, cmpblksize)
    else if active && n > 20 && !f.cmd && !stream then
      match z.pack(f.data)
      case Some(p) =>
        if 0 < |p| < n then Sent(false, Item(f, true, p), Clamp(n * 4 / |p| * 512)) else Sent(false, plain, SND_BLKSIZE)
      case None => Sent(false, plain, SND_BLKSIZE)
    else Sent(false, plain, if f.cmd then cmpblksize else SND_BLKSIZE)
  }

  /** What the transmitter sends: commands of its 1024-byte buffer, blocks of a file of at most cmpblksize. */
  predicate Offered(f: Frame, cmpblksize: nat) {
    if f.cmd then |f.data| <= 1025 else |f.data| <= cmpblksize
  }

  /** A run of the transmitter: whether each frame may be packed, and which it is. */
  datatype Order = Order(active: bool, stream: bool, f: Frame)

  function SendAll(z: Zip, orders: seq<Order>, cmpblksize: nat): seq<Sent>
    decreases |orders|
  {
    if orders == [] then [] else
    var s := SendFrame(z, orders[0].active, orders[0].stream, orders[0].f, cmpblksize);
    [s] + SendAll(z, orders[1..], s.cmpblksize)
  }

  ghost predicate AllOffered(z: Zip, orders: seq<Order>, cmpblksize: nat)
    decreases |orders|
  {
    orders == [] ||
    (var o := orders[0];
     Offered(o.f, cmpblksize) && AllOffered(z, orders[1..], SendFrame(z, o.active, o.stream, o.f, cmpblksize).cmpblksize))
  }

  /** The block size stays between 4096 and 16383, so that no block is ever refused and none reaches the PLZ bit;
      a packed one is sent only while PLZ is active. */
  lemma {:induction false} NeverRefused(z: Zip, orders: seq<Order>, cmpblksize: nat)
    requires Inverse(z) && SND_BLKSIZE <= cmpblksize < PLZ_BLOCK && AllOffered(z, orders, cmpblksize)
    ensures var sent := SendAll(z, orders, cmpblksize);
      |sent| == |orders| && forall i :: 0 <= i < |orders| ==>
        && !sent[i].refused && SND_BLKSIZE <= sent[i].cmpblksize < PLZ_BLOCK
        && ItemOk(z, sent[i].item) && sent[i].item.f == orders[i].f && (sent[i].item.packed ==> orders[i].active)
    decreases |orders|
  {
    if orders != [] {
      var s := SendFrame(z, orders[0].active, orders[0].stream, orders[0].f, cmpblksize);
      NeverRefused(z, orders[1..], s.cmpblksize);
    }
  }

  /** A frame is packed exactly if PLZ is active, it is data of more than 20 bytes outside a compressed stream, and packing makes it
      smaller; and refused exactly if it is too long for PLZ.  A command leaves the block size alone.  Behind a packed block it is such
      that a block of that size, packed as well as this one, comes to at most 2048 bytes and with 512 more would not, but not below 4096
      nor beyond the PLZ bit; behind any other block it is 4096. */
  lemma PacksIff(z: Zip, active: bool, stream: bool, f: Frame, cmpblksize: nat)
    ensures var s, n, p := SendFrame(z, active, stream, f, cmpblksize), |f.data|, z.pack(f.data);
      && (s.refused <==> active && n >= PLZ_BLOCK)
      && (!s.refused ==>
            && s.item.f == f
            && (s.item.packed <==> active && !f.cmd && !stream && n > 20 && p.Some? && 0 < |p.value| < n)
            && s.item.body == (if s.item.packed then p.value else f.data)
            && (if f.cmd then s.cmpblksize == cmpblksize
                else if !s.item.packed then s.cmpblksize == SND_BLKSIZE
                else Ratio(n, |p.value|, s.cmpblksize)))
  {
    if active && |f.data| < PLZ_BLOCK && |f.data| > 20 && !f.cmd && !stream && z.pack(f.data).Some? {
      var k := |z.pack(f.data).value|;
      if 0 < k < |f.data| { RatioIs(|f.data|, k, |f.data| * 4 / k); }
    }
  }

  /** The block size that a block of n bytes packed into k leads to. */
  predicate Ratio(n: nat, k: nat, size: nat) {
    if 2048 * n < 4608 * k then size == 4096
    else if 2048 * n >= 16384 * k then size == 16383
    else size % 512 == 0 && size * k <= 2048 * n < (size + 512) * k
  }

  lemma RatioIs(n: nat, k: nat, q: nat)
    requires 0 < k && q == n * 4 / k
    ensures Ratio(n, k, Clamp(q * 512))
  {
    var m := q * k;
    assert m <= 4 * n < m + k;
    Times(q, k, 8);
    Times(q, k, 31);
    RatioOf(n, k, q, m);
  }

  lemma Times(q: nat, k: nat, j: nat)
    ensures if q <= j then q * k <= j * k else (j + 1) * k <= q * k
  {
    if q <= j {
      assert (j - q) * k >= 0;
    } else {
      assert (q - j - 1) * k >= 0;
    }
  }

  lemma RatioOf(n: nat, k: nat, q: nat, m: nat)
    requires 0 < k && m <= 4 * n < m + k && m == q * k
    requires (if q <= 8 then m <= 8 * k else 9 * k <= m) && (if q <= 31 then m <= 31 * k else 32 * k <= m)
    ensures Ratio(n, k, Clamp(q * 512))
  {
    if 9 <= q <= 31 {
      assert q * 512 * k == 512 * m && (q * 512 + 512) * k == 512 * m + 512 * k;
    }
  }

  // ------------------------------------------------------------------ parsing

  /** A byte, and whether PLZ frames were understood when it came (PLZthey active, no compressed stream). */
  datatype Arrival = Arrival(c: Octet, plz: bool)

  /** rxlen, header, cmd, blklen and what is in rxbuf. */
  datatype Parser = Parser(rxlen: nat, header: nat, blklen: nat, buf: seq<Octet>)

  const IDLE := Parser(0, 0, 0, [])

  datatype Outcome = Nothing | Done(f: Frame) | ZipError

  predicate PlzBit(header: nat) {
    header / PLZ_BLOCK % 2 == 1
  }

  function Complete(z: Zip, plz: bool, p: Parser): Outcome {
    if plz && PlzBit(p.header) && p.blklen > 0 then
      match z.unpack(p.buf)
      case Some(d) => Done(Frame(p.header >= 0x8000, d))
      case None => ZipError
    else Done(Frame(p.header >= 0x8000, p.buf))
  }

  /** One byte in binkp_poll_frame. */
  function Byte(z: Zip, p: Parser, a: Arrival): (Parser, Outcome) {
    var q := if p.rxlen == 0 then p.(header := a.c * 256)
             else if p.rxlen == 1 then
               var h := p.header + a.c;
               p.(header := h, blklen := if a.plz then h % PLZ_BLOCK else h % 0x8000)
             else p.(buf := p.buf + [a.c]);
    if q.rxlen == q.blklen + 1 then (q, Complete(z, a.plz, q)) else (q.(rxlen := q.rxlen + 1), Nothing)
  }

  /** Everything that arrives, each frame taken as it is complete; an unpacking error ends it. */
  function Feed(z: Zip, p: Parser, w: seq<Arrival>): (seq<Frame>, Option<Parser>)
    decreases |w|
  {
    if w == [] then ([], Some(p)) else
    var (q, o) := Byte(z, p, w[0]);
    match o
    case Nothing => Feed(z, q, w[1..])
    case Done(f) =>
      var (fs, r) := Feed(z, IDLE, w[1..]);
      ([f] + fs, r)
    case ZipError => ([], None)
  }

  /** How the bytes are cut into polls makes no difference. */
  lemma {:induction false} FeedSplit(z: Zip, p: Parser, a: seq<Arrival>, b: seq<Arrival>)
    ensures var (fs, q) := Feed(z, p, a);
      Feed(z, p, a + b) == match q
                           case None => (fs, None)
                           case Some(r) => (fs + Feed(z, r, b).0, Feed(z, r, b).1)
    decreases |a|
  {
    hide Byte;
    if a == [] {
      assert a + b == b;
      assert [] + Feed(z, p, b).0 == Feed(z, p, b).0;
    } else {
      assert (a + b)[1..] == a[1..] + b;
      var (q, o) := Byte(z, p, a[0]);
      match o
      case Nothing => FeedSplit(z, q, a[1..], b);
      case Done(f) =>
        FeedSplit(z, IDLE, a[1..], b);
        var (fs, r) := Feed(z, IDLE, a[1..]);
        if r.Some? {
          assert [f] + (fs + Feed(z, r.value, b).0) == [f] + fs + Feed(z, r.value, b).0;
        }
      case ZipError =>
    }
  }

  function Bytes(w: seq<Arrival>): seq<Octet> {
    seq(|w|, i requires 0 <= i < |w| => w[i].c)
  }

  /** A packed item is read only while PLZ is understood; when that starts does not matter to the others. */
  predicate Understood(i: Item, w: seq<Arrival>) {
    i.packed ==> forall a :: a in w ==> a.plz
  }

  /** The byte at k of the body. */
  lemma BodyByte(z: Zip, i: Item, a: Arrival, k: nat)
    requires ItemOk(z, i) && Inverse(z) && (i.packed ==> a.plz) && k < |i.body| && a.c == i.body[k]
    ensures var h := Header(i.f.cmd, i.packed, |i.body|);
      var (q, o) := Byte(z, Parser(k + 2, h, |i.body|, i.body[..k]), a);
      if k + 1 == |i.body| then o == Done(i.f) else o == Nothing && q == Parser(k + 3, h, |i.body|, i.body[..k + 1])
  {
    BitSet(i);
    assert i.body[..k] + [i.body[k]] == i.body[..k + 1];
    assert i.body[..|i.body|] == i.body;
  }

  lemma {:induction false} FeedBody(z: Zip, i: Item, w: seq<Arrival>, k: nat)
    requires ItemOk(z, i) && Inverse(z) && Understood(i, w) && k < |i.body| && Bytes(w) == i.body[k..]
    ensures var p := Parser(k + 2, Header(i.f.cmd, i.packed, |i.body|), |i.body|, i.body[..k]);
      Feed(z, p, w) == ([i.f], Some(IDLE))
    decreases |w|
  {
    hide Byte, Inverse, ItemOk, Header;
    assert |w| == |Bytes(w)| == |i.body| - k && w[0].c == Bytes(w)[0] == i.body[k];
    assert w[0] in w;
    BodyByte(z, i, w[0], k);
    if k + 1 == |i.body| {
      assert w[1..] == [];
      FeedEmpty(z);
      assert [i.f] + [] == [i.f];
    } else {
      forall j | 0 <= j < |w[1..]| ensures Bytes(w[1..])[j] == i.body[k + 1..][j] {
        assert Bytes(w)[j + 1] == w[j + 1].c;
      }
      assert Bytes(w[1..]) == i.body[k + 1..];
      FeedBody(z, i, w[1..], k + 1);
    }
  }

  lemma BitSet(i: Item)
    requires |i.body| < PLZ_BLOCK
    ensures var h := Header(i.f.cmd, i.packed, |i.body|);
      PlzBit(h) == i.packed && (h >= 0x8000 <==> i.f.cmd) && h / 256 * 256 + h % 256 == h && h < 0x10000
      && h % PLZ_BLOCK == |i.body| && (!i.packed ==> h % 0x8000 == |i.body|)
  {
  }

  /** The two bytes of the header. */
  lemma FeedHeader(z: Zip, i: Item, a: Arrival, b: Arrival)
    requires |i.body| < PLZ_BLOCK && (i.packed ==> a.plz && b.plz && i.body != [])
    requires var h := Header(i.f.cmd, i.packed, |i.body|); a.c == h / 256 && b.c == h % 256
    ensures var h := Header(i.f.cmd, i.packed, |i.body|); var (p, o) := Byte(z, IDLE, a);
      && o == Nothing
      && Byte(z, p, b) == if i.body == [] then (Parser(1, h, 0, []), Done(Frame(i.f.cmd, [])))
                          else (Parser(2, h, |i.body|, []), Nothing)
  {
    BitSet(i);
  }

  lemma FeedTwo(z: Zip, w: seq<Arrival>)
    requires |w| >= 2
    ensures var (p, o) := Byte(z, IDLE, w[0]); var (q, o2) := Byte(z, p, w[1]);
      && (o == Nothing && o2 == Nothing ==> Feed(z, IDLE, w) == Feed(z, q, w[2..]))
      && (o == Nothing && o2.Done? && |w| == 2 ==> Feed(z, IDLE, w) == ([o2.f], Some(IDLE)))
  {
    hide Byte;
    var (p, o) := Byte(z, IDLE, w[0]);
    assert w[1..][0] == w[1] && w[1..][1..] == w[2..];
    if o == Nothing {
      assert Feed(z, IDLE, w) == Feed(z, p, w[1..]);
      var (q, o2) := Byte(z, p, w[1]);
      if o2.Done? && |w| == 2 {
        assert Feed(z, IDLE, w[2..]) == ([], Some(IDLE));
        assert [o2.f] + [] == [o2.f];
      }
    }
  }

  /** One item, whenever PLZ becomes active. */
  lemma FeedItem(z: Zip, i: Item, w: seq<Arrival>)
    requires ItemOk(z, i) && Inverse(z) && Understood(i, w) && Bytes(w) == Wire(i)
    ensures Feed(z, IDLE, w) == ([i.f], Some(IDLE))
  {
    hide Feed, Byte, Inverse;
    assert Bytes(w)[0] == w[0].c && Bytes(w)[1] == w[1].c;
    assert w[0] in w && w[1] in w;
    FeedHeader(z, i, w[0], w[1]);
    FeedTwo(z, w);
    if i.body != [] {
      var rest := w[2..];
      forall j | 0 <= j < |rest| ensures Bytes(rest)[j] == i.body[j] {
        assert Bytes(w)[j + 2] == w[j + 2].c;
      }
      assert Bytes(rest) == i.body[0..] && i.body[..0] == [];
      FeedBody(z, i, rest, 0);
    }
  }

  /** Many items: each gets its own bytes. */
  ghost predicate Carries(z: Zip, items: seq<Item>, w: seq<Arrival>)
    decreases |items|
  {
    if items == [] then w == [] else
    && ItemOk(z, items[0])
    && |Wire(items[0])| <= |w|
    && Bytes(w[..|Wire(items[0])|]) == Wire(items[0])
    && Understood(items[0], w[..|Wire(items[0])|])
    && Carries(z, items[1..], w[|Wire(items[0])|..])
  }

  function Frames(items: seq<Item>): seq<Frame>
    decreases |items|
  {
    if items == [] then [] else [items[0].f] + Frames(items[1..])
  }

  lemma FeedEmpty(z: Zip)
    ensures Feed(z, IDLE, []) == ([], Some(IDLE))
  {
  }

  /** Whatever was sent is recovered, frame by frame, whatever was packed of it and whenever PLZ became active before
      the first packed byte. */
  lemma {:induction false} FramesRecovered(z: Zip, items: seq<Item>, w: seq<Arrival>)
    requires Inverse(z) && Carries(z, items, w)
    ensures Feed(z, IDLE, w) == (Frames(items), Some(IDLE))
    decreases |items|
  {
    hide Understood, Feed, Inverse;
    FeedEmpty(z);
    if items != [] {
      var n := |Wire(items[0])|;
      FeedItem(z, items[0], w[..n]);
      FramesRecovered(z, items[1..], w[n..]);
      FeedSplit(z, IDLE, w[..n], w[n..]);
      assert w[..n] + w[n..] == w;
    }
  }

  // ------------------------------------------------------------------ frames of other peers

  lemma BodyStep(z: Zip, h: nat, b: seq<Octet>, a: Arrival, k: nat)
    requires k < |b| && a.c == b[k]
    ensures var (q, o) := Byte(z, Parser(k + 2, h, |b|, b[..k]), a);
      if k + 1 == |b| then o == Complete(z, a.plz, Parser(k + 2, h, |b|, b)) else o == Nothing && q == Parser(k + 3, h, |b|, b[..k + 1])
  {
    hide Complete;
    assert b[..k] + [b[k]] == b[..k + 1];
    assert b[..|b|] == b;
  }

  /** The rest of a body, whatever comes of it. */
  lemma {:induction false} BodyRead(z: Zip, plz: bool, h: nat, b: seq<Octet>, w: seq<Arrival>, k: nat)
    requires (forall a :: a in w ==> a.plz == plz) && k < |b| && Bytes(w) == b[k..]
    ensures Feed(z, Parser(k + 2, h, |b|, b[..k]), w) == match Complete(z, plz, Parser(|b| + 1, h, |b|, b))
                                                         case Done(f) => ([f], Some(IDLE))
                                                         case _ => ([], None)
    decreases |w|
  {
    hide Byte, Complete;
    assert |w| == |Bytes(w)| == |b| - k && w[0].c == Bytes(w)[0] == b[k];
    assert w[0] in w;
    BodyStep(z, h, b, w[0], k);
    CompleteIs(z, plz, Parser(|b| + 1, h, |b|, b));
    if k + 1 == |b| {
      assert w[1..] == [];
      FeedEmpty(z);
      match Complete(z, plz, Parser(|b| + 1, h, |b|, b))
      case Done(f) => assert [f] + [] == [f];
      case _ =>
    } else {
      forall j | 0 <= j < |w[1..]| ensures Bytes(w[1..])[j] == b[k + 1..][j] {
        assert Bytes(w)[j + 1] == w[j + 1].c;
      }
      assert Bytes(w[1..]) == b[k + 1..];
      BodyRead(z, plz, h, b, w[1..], k + 1);
    }
  }

  lemma CompleteIs(z: Zip, plz: bool, p: Parser)
    ensures !Complete(z, plz, p).Nothing?
  {
  }

  /** Whole frames from peers that do as they like: while PLZ is not understood the length has fifteen bits; while it is, fourteen, and what is marked
      as packed gives what it unpacks to, or ends the session if it does not unpack. */
  lemma AnyFrame(z: Zip, plz: bool, cmd: bool, packed: bool, b: seq<Octet>, w: seq<Arrival>)
    requires (forall a :: a in w ==> a.plz == plz) && 0 < |b| < (if plz then PLZ_BLOCK else 0x8000) && (packed ==> plz)
    requires var h := Header(cmd, packed, |b|); Bytes(w) == [h / 256, h % 256] + b
    ensures Feed(z, IDLE, w) == (if !packed then ([Frame(cmd, b)], Some(IDLE))
                                 else if z.unpack(b).Some? then ([Frame(cmd, z.unpack(b).value)], Some(IDLE)) else ([], None))
  {
    var h := Header(cmd, packed, |b|);
    assert Bytes(w)[0] == w[0].c && Bytes(w)[1] == w[1].c && w[0] in w && w[1] in w;
    HeaderRead(z, plz, cmd, packed, |b|, w[0], w[1]);
    hide Feed, Byte;
    FeedTwo(z, w);
    var rest := w[2..];
    forall j | 0 <= j < |rest| ensures Bytes(rest)[j] == b[j] {
      assert Bytes(w)[j + 2] == w[j + 2].c;
    }
    assert Bytes(rest) == b[0..] && b[..0] == [];
    BodyRead(z, plz, h, b, rest, 0);
  }

  lemma HeaderRead(z: Zip, plz: bool, cmd: bool, packed: bool, n: nat, a: Arrival, b: Arrival)
    requires a.plz == b.plz == plz && 0 < n < (if plz then PLZ_BLOCK else 0x8000) && (packed ==> plz)
    requires var h := Header(cmd, packed, n); a.c == h / 256 && b.c == h % 256
    ensures var h := Header(cmd, packed, n); var (p, o) := Byte(z, IDLE, a);
      o == Nothing && Byte(z, p, b) == (Parser(2, h, n, []), Nothing) && (h >= 0x8000 <==> cmd) && (plz ==> PlzBit(h) == packed)
  {
    HeaderBits(plz, cmd, packed, n);
    hide Header, PlzBit;
  }

  lemma HeaderBits(plz: bool, cmd: bool, packed: bool, n: nat)
    requires 0 < n < (if plz then PLZ_BLOCK else 0x8000) && (packed ==> plz)
    ensures var h := Header(cmd, packed, n);
      && h / 256 * 256 + h % 256 == h && (h >= 0x8000 <==> cmd) && (plz ==> PlzBit(h) == packed) && n == if plz then h % PLZ_BLOCK else h % 0x8000
  {
  }

  // ------------------------------------------------------------------ from sender to receiver

  function Items(sent: seq<Sent>): (r: seq<Item>)
    ensures |r| == |sent|
    decreases |sent|
  {
    if sent == [] then [] else [sent[0].item] + Items(sent[1..])
  }

  /** Everything the items are on the wire. */
  ghost predicate OnWire(items: seq<Item>, w: seq<Octet>)
    decreases |items|
  {
    if items == [] then w == []
    else
      && |items[0].body| < PLZ_BLOCK
      && Wire(items[0]) <= w && OnWire(items[1..], w[|Wire(items[0])|..])
  }

  /** Each packed item arrives while PLZ is understood. */
  ghost predicate Armed(items: seq<Item>, w: seq<Arrival>)
    decreases |items|
  {
    items == [] ||
    (var n := |items[0].body| + 2;
     n <= |w| && Understood(items[0], w[..n]) && Armed(items[1..], w[n..]))
  }

  lemma {:induction false} CarriesOf(z: Zip, items: seq<Item>, w: seq<Arrival>)
    requires (forall i :: i in items ==> ItemOk(z, i)) && OnWire(items, Bytes(w)) && Armed(items, w)
    ensures Carries(z, items, w)
    decreases |items|
  {
    hide ItemOk, Understood;
    if items != [] {
      var n := |Wire(items[0])|;
      assert items[0] in items;
      assert Bytes(w)[..n] == Bytes(w[..n]) && Bytes(w)[n..] == Bytes(w[n..]);
      CarriesOf(z, items[1..], w[n..]);
    }
  }

  function Wanted(orders: seq<Order>): seq<Frame>
    decreases |orders|
  {
    if orders == [] then [] else [orders[0].f] + Wanted(orders[1..])
  }

  lemma {:induction false} FramesWanted(orders: seq<Order>, sent: seq<Sent>)
    requires |sent| == |orders| && forall i :: 0 <= i < |orders| ==> sent[i].item.f == orders[i].f
    ensures Frames(Items(sent)) == Wanted(orders)
    decreases |orders|
  {
    if orders != [] {
      FramesWanted(orders[1..], sent[1..]);
    }
  }

  lemma {:induction false} ItemsAt(sent: seq<Sent>)
    ensures forall i :: 0 <= i < |sent| ==> Items(sent)[i] == sent[i].item
    decreases |sent|
  {
    if sent != [] {
      ItemsAt(sent[1..]);
    }
  }

  /** Commands and blocks of a file as the transmitter makes them, with PLZ on and off as it may be, arrive as they were. */
  lemma {:induction false} AllRecovered(z: Zip, orders: seq<Order>, w: seq<Arrival>)
    requires Inverse(z) && AllOffered(z, orders, SND_BLKSIZE)
    requires var items := Items(SendAll(z, orders, SND_BLKSIZE)); OnWire(items, Bytes(w)) && Armed(items, w)
    ensures Feed(z, IDLE, w) == (Wanted(orders), Some(IDLE))
  {
    hide Feed, Armed, OnWire, AllOffered, Inverse, ItemOk;
    var sent := SendAll(z, orders, SND_BLKSIZE);
    NeverRefused(z, orders, SND_BLKSIZE);
    ItemsAt(sent);
    forall i | i in Items(sent) ensures ItemOk(z, i) {
      var k :| 0 <= k < |sent| && Items(sent)[k] == i;
    }
    CarriesOf(z, Items(sent), w);
    FramesRecovered(z, Items(sent), w);
    FramesWanted(orders, sent);
  }
}

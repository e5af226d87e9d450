/** binkp_poll_frame over its receive buffer. */
module BinkpPoll {
  import opened BinkpFrame
  import opened Common

  const MAX_BLKSIZE: nat := 0x7FFF

  /** The sending half of the session record. */
  class FrameSender {
    const z: Zip
    /** PLZwe active, and the current file a GZ or BZ2 stream. */
    var active: bool
    var stream: bool
    var cmpblksize: nat
    var messages: nat
    var localEob: bool
    var out: seq<Octet>

    constructor (z: Zip)
      ensures this.z == z && !active && !stream && cmpblksize == SND_BLKSIZE && messages == 0 && !localEob && out == []
    {
      this.z, active, stream, cmpblksize := z, false, false, SND_BLKSIZE;
      messages, localEob, out := 0, false, [];
    }

    method Put(cmd: bool, packed: bool, body: seq<Octet>)
      requires |body| < if packed then PLZ_BLOCK else 0x8000
      modifies this`out
      ensures forall data: seq<Octet> :: out == old(out) + Wire(Item(Frame(cmd, data), packed, body))
    {
      var header := (if cmd then 0x8000 else 0) + (if packed then PLZ_BLOCK else 0) + |body|;
      out := out + [header / 256];
      out := out + [header % 256];
      out := out + body;
    }

    /** binkp_send_frame. */
    method SendFrame(f: Frame) returns (rc: nat)
      requires |f.data| < 0x8000 && (f.cmd ==> f.data != []) && Packs(z)
      modifies this`cmpblksize, this`messages, this`localEob, this`out
      ensures var s := BinkpFrame.SendFrame(z, active, stream, f, old(cmpblksize));
        && cmpblksize == s.cmpblksize && rc == (if s.refused then 1 else 0)
        && (s.refused ==> out == old(out) && messages == old(messages) && localEob == old(localEob))
        && (!s.refused ==>
              && out == old(out) + Wire(s.item)
              && messages == old(messages) + (if f.cmd then 1 else 0)
              && (localEob <==> old(localEob) || (f.cmd && f.data[0] == MM_EOB)))
    {
      var n := |f.data|;
      if n >= PLZ_BLOCK && active { return 1; }
      if f.cmd {
        messages := messages + 1;
        if f.data[0] == MM_EOB { localEob := true; }
      }
      if active && n > 20 && !f.cmd && !stream {
        var zbuf := z.pack(f.data);
        if zbuf.Some? && 0 < |zbuf.value| < n {
          cmpblksize := n * 4 / |zbuf.value| * 512;
          if cmpblksize < SND_BLKSIZE { cmpblksize := SND_BLKSIZE; }
          if cmpblksize > PLZ_BLOCK - 1 { cmpblksize := PLZ_BLOCK - 1; }
          Put(false, true, zbuf.value);
          return 0;
        }
        Put(f.cmd, false, f.data);
        cmpblksize := SND_BLKSIZE;
      } else {
        Put(f.cmd, false, f.data);
        if !f.cmd { cmpblksize := SND_BLKSIZE; }
      }
      return 0;
    }
  }

  const MM_EOB: Octet := 5

  /** compress2 is given room for a block without the PLZ bit. */
  ghost predicate Packs(z: Zip) {
    forall s: seq<Octet> :: z.pack(s).Some? ==> |z.pack(s).value| < PLZ_BLOCK
  }

  /** uncompress is given room for a block without the PLZ bit. */
  ghost predicate Bounded(z: Zip) {
    forall s: seq<Octet> :: z.unpack(s).Some? ==> |z.unpack(s).value| < PLZ_BLOCK
  }

  class FrameReceiver {
    const z: Zip
    const rxbuf: array<Octet>
    var rxlen: nat
    var header: nat
    var cmd: bool
    var blklen: nat
    var gotFrame: bool
    var messages: nat
    var remoteEob: bool

    ghost predicate Valid()
      reads this, rxbuf
    {
      && rxbuf.Length == MAX_BLKSIZE + 3
      && (gotFrame || (rxlen == 0 || (rxlen == 1 && header < 0x10000 && header % 256 == 0)
                       || (2 <= rxlen <= blklen + 1 && blklen <= MAX_BLKSIZE && cmd == (header >= 0x8000))))
      && (gotFrame ==> 1 <= rxlen <= MAX_BLKSIZE + 1)
    }

    /** The state between polls, once any frame has been taken. */
    ghost function State(): Parser
      requires Valid()
      reads this, rxbuf
    {
      if gotFrame || rxlen == 0 then IDLE
      else if rxlen == 1 then Parser(1, header, 0, [])
      else Parser(rxlen, header, blklen, rxbuf[..rxlen - 2])
    }

    constructor (z: Zip)
      ensures Valid() && this.z == z && !gotFrame && State() == IDLE && fresh(rxbuf) && messages == 0 && !remoteEob
    {
      this.z := z;
      rxbuf := new Octet[MAX_BLKSIZE + 3](_ => 0);
      rxlen, header, cmd, blklen, gotFrame := 0, 0, false, 0, false;
      messages, remoteEob := 0, false;
    }

    /** A complete frame: unpacked if it has to be. */
    method Finish(plz: bool) returns (rc: int)
      requires rxbuf.Length == MAX_BLKSIZE + 3 && rxlen == blklen + 1 && blklen <= MAX_BLKSIZE && cmd == (header >= 0x8000)
      requires Bounded(z)
      modifies this`gotFrame, this`rxlen, this`blklen, rxbuf
      ensures Valid() && gotFrame && (rc == 1 || rc == 3)
      ensures match Complete(z, plz, Parser(old(rxlen), old(header), old(blklen), old(rxbuf[..blklen])))
              case Done(f) => rc == 1 && f == Frame(cmd, rxbuf[..rxlen - 1])
              case ZipError => rc == 3
              case Nothing => false
    {
      gotFrame := true;
      ghost var raw := rxbuf[..blklen];
      assert rxbuf[..rxlen - 1] == raw;
      if plz && PlzBit(header) && blklen > 0 {
        match z.unpack(rxbuf[..rxlen - 1]) {
          case Some(d) =>
            forall k | 0 <= k < |d| { rxbuf[k] := d[k]; }
            rxlen := |d| + 1;
            blklen := |d|;
            assert rxbuf[..rxlen - 1] == d;
          case None => return 3;
        }
      }
      rxbuf[rxlen - 1] := 0;
      assert rxbuf[..rxlen - 1] == if plz && PlzBit(old(header)) && old(blklen) > 0 then z.unpack(raw).value else raw;
      return 1;
    }

    /** A command is counted, and M_EOB noted. */
    method Count()
      requires Valid() && gotFrame
      modifies this`messages, this`remoteEob
      ensures messages == old(messages) + (if cmd then 1 else 0)
      ensures remoteEob <==> old(remoteEob) || (cmd && rxlen > 1 && rxbuf[0] == MM_EOB)
    {
      if cmd {
        messages := messages + 1;
        if rxlen > 1 && rxbuf[0] == MM_EOB { remoteEob := true; }
      }
    }

    /** The header is complete. */
    method SecondByte(a: Arrival)
      requires header < 0x10000 && header % 256 == 0
      modifies this`header, this`cmd, this`blklen
      ensures header == old(header) + a.c && cmd == (header >= 0x8000) && blklen <= MAX_BLKSIZE
      ensures blklen == if a.plz then header % PLZ_BLOCK else header % 0x8000
    {
      header := header + a.c;
      cmd := header >= 0x8000;
      blklen := if a.plz then header % PLZ_BLOCK else header % 0x8000;
    }

    /** One byte; 1 and 3 as binkp_poll_frame returns them, 0 to go on. */
    method Take(a: Arrival) returns (rc: int)
      requires Valid() && !gotFrame
      requires Bounded(z)
      modifies this, rxbuf
      ensures Valid()
      ensures var (p, o) := Byte(z, old(State()), a);
        match o
        case Nothing => rc == 0 && !gotFrame && State() == p
        case Done(f) => rc == 1 && gotFrame && f == Frame(cmd, rxbuf[..rxlen - 1])
        case ZipError => rc == 3 && gotFrame
      ensures messages == old(messages) + (if rc == 1 && cmd then 1 else 0)
      ensures remoteEob <==> old(remoteEob) || (rc == 1 && cmd && rxlen > 1 && rxbuf[0] == MM_EOB)
    {
      hide Complete, Bounded;
      assert rxbuf[..0] == [];
      if rxlen == 0 {
        header := a.c * 256;
        rxlen := 1;
        return 0;
      }
      if rxlen == 1 {
        SecondByte(a);
      } else {
        ghost var before := rxbuf[..rxlen - 2];
        rxbuf[rxlen - 2] := a.c;
        assert rxbuf[..rxlen - 1] == before + [a.c];
      }
      if rxlen == blklen + 1 {
        rc := Finish(a.plz);
        if rc == 1 { Count(); }
        return;
      }
      rxlen := rxlen + 1;
      return 0;
    }

    /** The receiver takes the frame out of the buffer. */
    method TakeFrame() returns (f: Frame)
      requires Valid() && gotFrame
      modifies this`gotFrame, this`rxlen, this`header
      ensures Valid() && !gotFrame && State() == IDLE && f == old(Frame(cmd, rxbuf[..rxlen - 1]))
    {
      f := Frame(cmd, rxbuf[..rxlen - 1]);
      gotFrame := false;
      rxlen := 0;
      header := 0;
    }

    /** binkp_poll_frame on the bytes there are now: 0 nothing yet, 1 a frame, 2 one not taken, 3 cannot unpack. */
    method PollFrame(w: seq<Arrival>) returns (rc: int, rest: seq<Arrival>)
      requires Valid()
      requires Bounded(z)
      modifies this, rxbuf
      ensures Valid() && |rest| <= |w| && (rc == 2 <==> old(gotFrame)) && (rc == 2 ==> rest == w)
      ensures !old(gotFrame) ==> (gotFrame <==> rc != 0) && (rc == 0 || rc == 1 || rc == 3)
      ensures !old(gotFrame) ==>
        var (fs, q) := Feed(z, old(State()), w);
        match rc
        case 0 => rest == [] && fs == [] && q == Some(State())
        case 1 => |rest| < |w| && fs == [Frame(cmd, rxbuf[..rxlen - 1])] + Feed(z, IDLE, rest).0 && q == Feed(z, IDLE, rest).1
        case _ => fs == [] && q == None
      ensures messages == old(messages) + (if rc == 1 && cmd then 1 else 0)
      ensures remoteEob <==> old(remoteEob) || (rc == 1 && cmd && rxlen > 1 && rxbuf[0] == MM_EOB)
    {
      hide Byte;
      rest := w;
      if gotFrame { return 2, rest; }
      while rest != []
        invariant Valid() && !gotFrame && |rest| <= |w|
        invariant Feed(z, State(), rest) == Feed(z, old(State()), w)
        invariant messages == old(messages) && (remoteEob <==> old(remoteEob))
        decreases |rest|
      {
        rc := Take(rest[0]);
        rest := rest[1..];
        if rc != 0 { return; }
      }
      return 0, rest;
    }

    /** The receiving side of a session: the line is polled as bytes come in, in whatever pieces, and each frame is taken
        as soon as it is there.  The frames are those of the whole stream. */
    method Session(chunks: seq<seq<Arrival>>) returns (frames: seq<Frame>, ok: bool)
      requires Valid() && !gotFrame && State() == IDLE
      requires Bounded(z)
      modifies this, rxbuf
      ensures var (fs, q) := Feed(z, IDLE, Flat(chunks)); frames == fs && (ok <==> q.Some?)
    {
      hide Feed, Byte;
      frames := [];
      var i := 0;
      ghost var all := Flat(chunks);
      assert chunks[0..] == chunks;
      assert [] + Feed(z, IDLE, all).0 == Feed(z, IDLE, all).0;
      while i < |chunks|
        invariant 0 <= i <= |chunks| && Valid() && !gotFrame
        invariant Feed(z, IDLE, all) == Ahead(frames, Feed(z, State(), Flat(chunks[i..])))
      {
        var rest := chunks[i];
        var rc := 1;
        assert Flat(chunks[i..]) == chunks[i] + Flat(chunks[i + 1..]) by { assert chunks[i..][1..] == chunks[i + 1..]; }
        while rc == 1
          invariant Valid() && !gotFrame && (rc == 0 || rc == 1) && (rc == 0 ==> rest == [])
          invariant Feed(z, IDLE, all) == Ahead(frames, Feed(z, State(), rest + Flat(chunks[i + 1..])))
          decreases rc, |rest|
        {
          ghost var p := State();
          FeedSplit(z, p, rest, Flat(chunks[i + 1..]));
          ghost var before := rest;
          rc, rest := PollFrame(rest);
          if rc == 3 {
            assert frames + [] == frames;
            return frames, false;
          }
          if rc == 1 {
            FeedSplit(z, IDLE, rest, Flat(chunks[i + 1..]));
            var f := TakeFrame();
            AheadOne(frames, f, z, rest, Flat(chunks[i + 1..]), before, p);
            frames := frames + [f];
          } else {
            ghost var more := Flat(chunks[i + 1..]);
            assert [] + Feed(z, State(), more).0 == Feed(z, State(), more).0;
            assert [] + more == more;
          }
        }
        assert [] + Flat(chunks[i + 1..]) == Flat(chunks[i + 1..]);
        i := i + 1;
      }
      FeedNothing(z, State());
      assert Flat(chunks[i..]) == [];
      assert frames + [] == frames;
      ok := true;
    }
  }

  function Flat(chunks: seq<seq<Arrival>>): seq<Arrival>
    decreases |chunks|
  {
    if chunks == [] then [] else chunks[0] + Flat(chunks[1..])
  }

  function Ahead(frames: seq<Frame>, r: (seq<Frame>, Option<Parser>)): (seq<Frame>, Option<Parser>) {
    (frames + r.0, r.1)
  }

  lemma FeedNothing(z: Zip, p: Parser)
    ensures Feed(z, p, []) == ([], Some(p))
  {
  }

  lemma AheadOne(frames: seq<Frame>, f: Frame, z: Zip, rest: seq<Arrival>, more: seq<Arrival>, before: seq<Arrival>, p: Parser)
    requires Feed(z, p, before).0 == [f] + Feed(z, IDLE, rest).0 && Feed(z, p, before).1 == Feed(z, IDLE, rest).1
    ensures Ahead(frames, Feed(z, p, before + more)) == Ahead(frames + [f], Feed(z, IDLE, rest + more))
  {
    hide Feed;
    FeedSplit(z, p, before, more);
    FeedSplit(z, IDLE, rest, more);
    var (fs, q) := Feed(z, IDLE, rest);
    assert frames + ([f] + fs) == frames + [f] + fs;
    if q.Some? {
      var t := Feed(z, q.value, more).0;
      assert frames + ([f] + fs + t) == frames + [f] + (fs + t);
    }
  }
}

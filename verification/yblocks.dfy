/** The block plan of wctx: how a file is cut into sectors, padded, and trimmed again by the receiver. */
module YBlocks {
  import opened Common
  import opened Crc

  /** The retries of both sides. */
  const RETRYMAX: nat := 10

  const SUB: Byte := 0x1A

  function Fill(n: nat): seq<Byte> {
    seq(n, _ => SUB)
  }

  /** A block of count bytes from the file, padded with ^Z. */
  function Padded(f: seq<Byte>, pos: nat, count: nat): (r: seq<Byte>)
    requires pos <= |f|
    ensures |r| == count
  {
    if pos + count <= |f| then f[pos..pos + count] else f[pos..] + Fill(pos + count - |f|)
  }

  /** thisblklen: short blocks once no more than 896 bytes are left of the announced size. */
  function BlockLength(size: int, sent: nat, blklen: nat): nat {
    if size <= sent + 896 then 128 else blklen
  }

  /** The blocks of data that wctx sends from a position on. */
  function Blocks(f: seq<Byte>, size: int, sent: nat, blklen: nat): seq<seq<Byte>>
    requires blklen > 0
    decreases |f| - sent
  {
    if sent >= |f| then [] else
    var n := BlockLength(size, sent, blklen);
    [Padded(f, sent, n)] + Blocks(f, size, sent + n, blklen)
  }

  function Flatten(bs: seq<seq<Byte>>): seq<Byte>
    decreases |bs|
  {
    if bs == [] then [] else bs[0] + Flatten(bs[1..])
  }

  /** The least multiple of 128 that is not below n. */
  function Sectors(n: nat): (r: nat)
    ensures r % 128 == 0 && n <= r < n + 128
  {
    (n + 127) / 128 * 128
  }

  /** A block that reaches beyond the file ends at its last sector. */
  lemma LastBlock(n: nat, sent: nat, blklen: nat)
    requires (blklen == 128 || blklen == 1024) && sent % 128 == 0 && sent < n
    ensures var k := BlockLength(n, sent, blklen);
      (k == 128 || k == blklen) && (sent + k) % 128 == 0 && (sent + k > n ==> Sectors(n) == sent + k)
  {
    var k := BlockLength(n, sent, blklen);
    var s := sent / 128;
    assert sent == s * 128 && (sent + k == (s + 1) * 128 || sent + k == (s + 8) * 128);
  }

  lemma Unroll(f: seq<Byte>, sent: nat, blklen: nat)
    requires blklen > 0 && sent < |f|
    ensures var n := BlockLength(|f|, sent, blklen); var bs := Blocks(f, |f|, sent, blklen);
      && bs == [Padded(f, sent, n)] + Blocks(f, |f|, sent + n, blklen)
      && Flatten(bs) == Padded(f, sent, n) + Flatten(Blocks(f, |f|, sent + n, blklen))
  {
    hide BlockLength, Padded;
    var bs := Blocks(f, |f|, sent, blklen);
    assert bs[1..] == Blocks(f, |f|, sent + BlockLength(|f|, sent, blklen), blklen);
  }

  lemma {:induction false} PlanFrom(f: seq<Byte>, sent: nat, blklen: nat)
    requires blklen == 128 || blklen == 1024
    requires sent % 128 == 0 && sent <= |f|
    ensures Flatten(Blocks(f, |f|, sent, blklen)) == f[sent..] + Fill(Sectors(|f|) - |f|)
    ensures forall b :: b in Blocks(f, |f|, sent, blklen) ==> |b| == 128 || |b| == blklen
    decreases |f| - sent
  {
    hide Fill, Padded, Flatten;
    if sent == |f| {
      AtEnd(f);
      NoBlocks(f, sent, blklen);
    } else {
      hide Sectors, BlockLength, Blocks;
      LastBlock(|f|, sent, blklen);
      Unroll(f, sent, blklen);
      var n := BlockLength(|f|, sent, blklen);
      if sent + n <= |f| {
        PlanFrom(f, sent + n, blklen);
        Join(f, sent, n, Fill(Sectors(|f|) - |f|));
      } else {
        NoBlocks(f, sent + n, blklen);
        Tail(f, sent, n);
      }
    }
  }

  lemma AtEnd(f: seq<Byte>)
    requires |f| % 128 == 0
    ensures f[|f|..] + Fill(Sectors(|f|) - |f|) == []
  {
    assert |f| == |f| / 128 * 128;
  }

  lemma Join(f: seq<Byte>, sent: nat, n: nat, z: seq<Byte>)
    requires sent + n <= |f|
    ensures Padded(f, sent, n) + (f[sent + n..] + z) == f[sent..] + z
  {
  }

  lemma Tail(f: seq<Byte>, sent: nat, n: nat)
    requires sent <= |f| < sent + n
    ensures Padded(f, sent, n) + [] == f[sent..] + Fill(sent + n - |f|)
  {
  }

  lemma NoBlocks(f: seq<Byte>, sent: nat, blklen: nat)
    requires blklen > 0 && sent >= |f|
    ensures Blocks(f, |f|, sent, blklen) == [] && Flatten([]) == []
  {
  }

  /** For every file and either block size: the blocks hold the file and then only ^Z, in all the least multiple of
      128 bytes that holds it. */
  lemma PlanHolds(f: seq<Byte>, blklen: nat)
    requires blklen == 128 || blklen == 1024
    ensures Flatten(Blocks(f, |f|, 0, blklen)) == f + Fill(Sectors(|f|) - |f|)
    ensures forall b :: b in Blocks(f, |f|, 0, blklen) ==> |b| == 128 || |b| == blklen
  {
    PlanFrom(f, 0, blklen);
  }

  // ------------------------------------------------------------------ trimming

  /** What wcrx writes of a block.  The difference is compared as unsigned, so a negative one trims nothing. */
  function Trimmed(left: int, received: nat, block: seq<Byte>): seq<Byte> {
    if left != 0 && 0 <= left - received < |block| then block[..left - received] else block
  }

  function Written(left: int, received: nat, bs: seq<seq<Byte>>): seq<Byte>
    decreases |bs|
  {
    if bs == [] then [] else
    var t := Trimmed(left, received, bs[0]);
    t + Written(left, received + |t|, bs[1..])
  }

  lemma FlattenHead(bs: seq<seq<Byte>>)
    ensures Flatten(bs) == if bs == [] then [] else bs[0] + Flatten(bs[1..])
  {
  }

  lemma CutJoin(a: seq<Byte>, b: seq<Byte>, n: nat)
    ensures var t := if n < |a| then a[..n] else a;
      (a + b)[..Min(n, |a + b|)] == t + b[..Min(n - |t|, |b|)]
  {
  }

  /** A known length cuts everything off behind it, whatever the blocks. */
  lemma {:induction false} TrimmingCuts(left: int, received: nat, bs: seq<seq<Byte>>)
    requires left > 0 && received <= left
    ensures Written(left, received, bs) == Flatten(bs)[..Min(left - received, |Flatten(bs)|)]
    decreases |bs|
  {
    hide Flatten;
    FlattenHead(bs);
    if bs != [] {
      var t := Trimmed(left, received, bs[0]);
      TrimmingCuts(left, received + |t|, bs[1..]);
      CutJoin(bs[0], Flatten(bs[1..]), left - received);
    }
  }

  lemma {:induction false} NoLengthKeeps(received: nat, bs: seq<seq<Byte>>)
    ensures Written(0, received, bs) == Flatten(bs)
    decreases |bs|
  {
    if bs != [] {
      NoLengthKeeps(received + |bs[0]|, bs[1..]);
    }
  }

  /** Bytesleft brings back the file exactly if it is the file's size, or large enough and the file fills its sectors;
      0, which stands for unknown, is right for the empty file as well. */
  lemma TrimmingExact(f: seq<Byte>, blklen: nat, left: nat)
    requires blklen == 128 || blklen == 1024
    ensures Written(left, 0, Blocks(f, |f|, 0, blklen)) == f
       <==> left == |f| || (|f| % 128 == 0 && (left == 0 || left > |f|))
  {
    var bs := Blocks(f, |f|, 0, blklen);
    PlanHolds(f, blklen);
    var all := Flatten(bs);
    assert |all| == Sectors(|f|);
    if left == 0 {
      NoLengthKeeps(0, bs);
      if |f| % 128 == 0 {
        assert all == f;
      }
    } else {
      TrimmingCuts(left, 0, bs);
      assert all[..|f|] == f;
    }
  }

  /** filbuf: the buffer filled from the file and padded in place. */
  method FilBuf(f: seq<Byte>, pos: nat, buf: array<Byte>, count: nat) returns (n: nat)
    requires 0 < count <= buf.Length
    modifies buf
    ensures n == if pos >= |f| then 0 else count
    ensures n > 0 ==> buf[..count] == Padded(f, pos, count)
  {
    var m := if pos >= |f| then 0 else Min(count, |f| - pos);
    if m <= 0 { return 0; }
    var i := 0;
    while i < m
      invariant 0 <= i <= m && buf[..i] == f[pos..pos + i]
    {
      buf[i] := f[pos + i];
      i := i + 1;
    }
    while m < count
      invariant i <= m <= count && buf[..i] == f[pos..pos + i]
      invariant forall k :: i <= k < m ==> buf[k] == SUB
    {
      buf[m] := SUB;
      m := m + 1;
    }
    n := count;
    assert buf[..count] == f[pos..pos + i] + buf[i..count];
  }
}

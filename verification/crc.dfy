/** Cyclic redundancy checks of the transfer protocols.

    `crc16xmodemtab` and `crc32tab` are the byte tables of the polynomials 0x1021 (high bit
    first) and 0xEDB88320 (reflected).  An entry is its index carried through eight
    single-bit steps. */
module Crc {

  /** A C `int` as the serial code sees it: a byte is below 0x100, the rest are codes. */
  type Code = bv16
  type Byte = c: bv16 | c < 0x100

  // ------------------------------------------------------------------ tables

  function Bit16(c: bv16): bv16 {
    if c & 0x8000 != 0 then (c << 1) ^ 0x1021 else c << 1
  }

  function Table16(i: bv16): bv16 {
    Bit16(Bit16(Bit16(Bit16(Bit16(Bit16(Bit16(Bit16((i & 0xFF) << 8))))))))
  }

  function Bit32(c: bv32): bv32 {
    if c & 1 != 0 then (c >> 1) ^ 0xEDB8_8320 else c >> 1
  }

  function Table32(i: bv32): bv32 {
    Bit32(Bit32(Bit32(Bit32(Bit32(Bit32(Bit32(Bit32(i & 0xFF))))))))
  }

  function Unbit16(d: bv16): bv16 {
    if d & 1 != 0 then ((d ^ 0x1021) >> 1) | 0x8000 else d >> 1
  }

  /** Recovers a table index from the low byte of its entry. */
  function Index16(t: bv16): bv16 {
    Unbit16(Unbit16(Unbit16(Unbit16(Unbit16(Unbit16(Unbit16(Unbit16(t & 0xFF)))))))) >> 8
  }

  function Unbit32(d: bv32): bv32 {
    if d & 0x8000_0000 != 0 then ((d ^ 0xEDB8_8320) << 1) | 1 else d << 1
  }

  /** Recovers a table index from the high byte of its entry. */
  function Index32(t: bv32): bv32 {
    Unbit32(Unbit32(Unbit32(Unbit32(Unbit32(Unbit32(Unbit32(Unbit32((t >> 24) << 24)))))))) & 0xFF
  }

  lemma IndexTable16(i: bv16)
    requires i < 0x100
    ensures Index16(Table16(i)) == i
  {
  }

  lemma IndexTable32(i: bv32)
    requires i < 0x100
    ensures Index32(Table32(i)) == i
  {
  }

  /** Two table indices are equal when the bytes that identify an entry are. */
  lemma TableInjective16(i: bv16, j: bv16)
    requires Table16(i) & 0xFF == Table16(j) & 0xFF
    ensures i & 0xFF == j & 0xFF
  {
    hide Table16, Index16;
    TableMasks(i, 0);
    TableMasks(j, 0);
    IndexTable16(i & 0xFF);
    IndexTable16(j & 0xFF);
    IndexMasks(Table16(i), Table16(j), 0, 0);
  }

  lemma TableInjective32(i: bv32, j: bv32)
    requires Table32(i) >> 24 == Table32(j) >> 24
    ensures i & 0xFF == j & 0xFF
  {
    hide Table32, Index32;
    TableMasks(0, i);
    TableMasks(0, j);
    IndexTable32(i & 0xFF);
    IndexTable32(j & 0xFF);
    IndexMasks(0, 0, Table32(i), Table32(j));
  }

  lemma TableMasks(i: bv16, j: bv32)
    ensures Table16(i & 0xFF) == Table16(i) && Table32(j & 0xFF) == Table32(j)
  {
  }

  lemma EqualEntries16(i: bv16, j: bv16)
    requires i & 0xFF == j & 0xFF
    ensures Table16(i) == Table16(j)
  {
  }

  lemma IndexMasks(t: bv16, u: bv16, v: bv32, w: bv32)
    ensures t & 0xFF == u & 0xFF ==> Index16(t) == Index16(u)
    ensures v >> 24 == w >> 24 ==> Index32(v) == Index32(w)
  {
  }

  // ------------------------------------------------------------------ byte steps

  function Mix16(b: bv16, t: bv16, crc: bv16): bv16 {
    t ^ (crc << 8) ^ b
  }

  /** `updcrc16` on an unsigned short register. */
  function Upd16(b: bv16, crc: bv16): bv16 {
    Mix16(b, Table16(crc >> 8), crc)
  }

  function Xor32(a: bv32, b: bv32): bv32 {
    a ^ b
  }

  function Mix32(b: bv16, crc: bv32): bv32 {
    crc ^ (b as bv32)
  }

  /** `updcrc32`. */
  function Upd32(b: bv16, crc: bv32): bv32 {
    Xor32(Table32(Mix32(b, crc)), crc >> 8)
  }

  function Crc16(crc: bv16, s: seq<Byte>): bv16
    decreases |s|
  {
    if s == [] then crc else Crc16(Upd16(s[0], crc), s[1..])
  }

  function Crc32(crc: bv32, s: seq<Byte>): bv32
    decreases |s|
  {
    if s == [] then crc else Crc32(Upd32(s[0], crc), s[1..])
  }

  const INIT32: bv32 := 0xFFFF_FFFF
  const RESIDUE32: bv32 := 0xDEBB_20E3

  function Octet(c: bv32): Byte {
    (c & 0xFF) as bv16
  }

  /** The check bytes sent for a 16-bit register: flush two zero bytes, high byte first. */
  function Flush16(crc: bv16): (r: seq<Byte>)
    ensures |r| == 2
  {
    var f := Upd16(0, Upd16(0, crc));
    [f >> 8, f & 0xFF]
  }

  /** The check bytes sent for a 32-bit register: the complement, low byte first. */
  function Flush32(crc: bv32): (r: seq<Byte>)
    ensures |r| == 4
  {
    var f := !crc;
    [Octet(f), Octet(f >> 8), Octet(f >> 16), Octet(f >> 24)]
  }

  lemma {:induction false} Crc16Append(crc: bv16, s: seq<Byte>, t: seq<Byte>)
    ensures Crc16(crc, s + t) == Crc16(Crc16(crc, s), t)
    decreases |s|
  {
    hide Upd16;
    if s == [] {
      assert s + t == t;
    } else {
      assert (s + t)[1..] == s[1..] + t;
      Crc16Append(Upd16(s[0], crc), s[1..], t);
    }
  }

  lemma {:induction false} Crc32Append(crc: bv32, s: seq<Byte>, t: seq<Byte>)
    ensures Crc32(crc, s + t) == Crc32(Crc32(crc, s), t)
    decreases |s|
  {
    hide Upd32;
    if s == [] {
      assert s + t == t;
    } else {
      assert (s + t)[1..] == s[1..] + t;
      Crc32Append(Upd32(s[0], crc), s[1..], t);
    }
  }

  // ------------------------------------------------------------------ residues

  lemma UpdParts16(b: bv16, c: bv16)
    ensures b < 0x100 ==> Upd16(b, c) >> 8 == Upd16(0, c) >> 8
    ensures b < 0x100 ==> Upd16(b, c) & 0xFF == (Upd16(0, c) & 0xFF) ^ b
  {
    hide Table16;
  }

  lemma Cancel16(s: bv16, t: bv16, f: bv16, u: bv16)
    ensures f == t ^ (s << 8) ^ 0 && u & 0xFF == (s & 0xFF) ^ (f >> 8) ==> t ^ (u << 8) ^ (f & 0xFF) == 0
  {
  }

  lemma UpdAt16(b: bv16, c: bv16, t: bv16)
    ensures Table16(c >> 8) == t ==> Upd16(b, c) == t ^ (c << 8) ^ b
  {
    hide Table16;
  }

  lemma TableAt16(s: bv16, u: bv16)
    ensures u >> 8 == s >> 8 ==> Table16(u >> 8) == Table16(s >> 8)
  {
    hide Table16;
  }

  lemma UpdCancel16(s: bv16, f: bv16, u: bv16)
    requires f == Upd16(0, s) && u >> 8 == s >> 8 && u & 0xFF == (s & 0xFF) ^ (f >> 8)
    ensures Upd16(f & 0xFF, u) == 0
  {
    hide Table16, Upd16;
    var t := Table16(s >> 8);
    TableAt16(s, u);
    UpdAt16(0, s, t);
    UpdAt16(f & 0xFF, u, t);
    Cancel16(s, t, f, u);
  }

  lemma FlushLeavesZero16(c: bv16, s: bv16, f: bv16, u: bv16)
    requires s == Upd16(0, c) && f == Upd16(0, s) && u == Upd16(f >> 8, c)
    ensures Upd16(f & 0xFF, u) == 0
  {
    hide Upd16;
    UpdParts16(f >> 8, c);
    UpdCancel16(s, f, u);
    assert f >> 8 < 0x100;
  }

  lemma Crc16Two(c: bv16, s: seq<Byte>)
    requires |s| == 2
    ensures Crc16(c, s) == Upd16(s[1], Upd16(s[0], c))
  {
    hide Upd16;
    assert s[1..] == [s[1]];
    assert Crc16(Upd16(s[0], c), [s[1]]) == Crc16(Upd16(s[1], Upd16(s[0], c)), [s[1]][1..]);
  }

  /** The receiver's 16-bit test: message and check bytes leave a zero register. */
  lemma Residue16(s: seq<Byte>)
    ensures Crc16(0, s + Flush16(Crc16(0, s))) == 0
  {
    hide Upd16;
    var c := Crc16(0, s);
    var f := Upd16(0, Upd16(0, c));
    Crc16Append(0, s, Flush16(c));
    Crc16Two(c, Flush16(c));
    FlushLeavesZero16(c, Upd16(0, c), f, Upd16(f >> 8, c));
  }

  lemma TableAt32(i: bv32, j: bv32)
    ensures i & 0xFF == j & 0xFF ==> Table32(i) == Table32(j)
  {
  }

  lemma ComplementByte(k: bv32, d: bv32)
    ensures Mix32(Octet(!d), Xor32(k, d)) & 0xFF == Xor32(k, 0xFF) & 0xFF
  {
  }

  lemma XorIs32(a: bv32, b: bv32)
    ensures Xor32(a, b) == a ^ b
    ensures Xor32(a, b) >> 8 == (a >> 8) ^ (b >> 8)
  {
  }

  lemma ShiftXor32(k: bv32, d: bv32)
    ensures Xor32(k, d) >> 8 == Xor32(k >> 8, d >> 8)
  {
    hide Xor32;
    XorIs32(k, d);
    XorIs32(k >> 8, d >> 8);
  }

  lemma XorAssoc32(t: bv32, k: bv32, d: bv32)
    ensures Xor32(t, Xor32(k, d)) == Xor32(Xor32(t, k), d)
  {
  }

  lemma Regroup32(t: bv32, k: bv32, d: bv32)
    ensures Xor32(t, Xor32(k, d) >> 8) == Xor32(Xor32(t, k >> 8), d >> 8)
  {
    hide Xor32;
    ShiftXor32(k, d);
    XorAssoc32(t, k >> 8, d >> 8);
  }

  /** Feeding the complement of what is left of the message register removes a byte of it. */
  lemma ComplementStep32(k: bv32, d: bv32)
    ensures Upd32(Octet(!d), Xor32(k, d)) == Xor32(Xor32(Table32(Xor32(k, 0xFF)), k >> 8), d >> 8)
  {
    hide Xor32, Mix32, Table32, Octet;
    ComplementByte(k, d);
    TableAt32(Mix32(Octet(!d), Xor32(k, d)), Xor32(k, 0xFF));
    Regroup32(Table32(Xor32(k, 0xFF)), k, d);
  }

  lemma ResidueConstants()
    ensures Xor32(Table32(Xor32(0, 0xFF)), 0 >> 8) == 0x2D02_EF8D
    ensures Xor32(Table32(Xor32(0x2D02_EF8D, 0xFF)), 0x2D02_EF8D >> 8) == 0xBE26_12FF
    ensures Xor32(Table32(Xor32(0xBE26_12FF, 0xFF)), 0xBE26_12FF >> 8) == 0x00BE_2612
    ensures Xor32(Table32(Xor32(0x00BE_2612, 0xFF)), 0x00BE_2612 >> 8) == RESIDUE32
  {
  }

  lemma Complements(c: bv32)
    ensures Xor32(0, c) == c && Xor32(RESIDUE32, (((c >> 8) >> 8) >> 8) >> 8) == RESIDUE32
  {
  }

  lemma FlushBytes32(c: bv32, d: bv32, e: bv32, f: bv32)
    requires d == c >> 8 && e == d >> 8 && f == e >> 8
    ensures Flush32(c) == [Octet(!c), Octet(!d), Octet(!e), Octet(!f)]
  {
  }

  lemma Crc32Four(c: bv32, s: seq<Byte>)
    requires |s| == 4
    ensures Crc32(c, s) == Upd32(s[3], Upd32(s[2], Upd32(s[1], Upd32(s[0], c))))
  {
    hide Upd32;
    var c2 := Upd32(s[1], Upd32(s[0], c));
    assert s[1..][0] == s[1] && s[1..][1..] == s[2..];
    assert s[2..][0] == s[2] && s[2..][1..] == s[3..];
    assert s[3..][0] == s[3] && s[3..][1..] == [];
    assert Crc32(c, s) == Crc32(c2, s[2..]);
    assert Crc32(Upd32(s[2], c2), s[3..]) == Upd32(s[3], Upd32(s[2], c2));
  }

  lemma FlushSteps32(c: bv32, d: bv32, e: bv32, f: bv32)
    requires d == c >> 8 && e == d >> 8 && f == e >> 8
    ensures Upd32(Octet(!f), Upd32(Octet(!e), Upd32(Octet(!d), Upd32(Octet(!c), c)))) == RESIDUE32
  {
    hide Xor32, Upd32, Octet, Table32;
    ResidueConstants();
    Complements(c);
    ComplementStep32(0, c);
    ComplementStep32(0x2D02_EF8D, d);
    ComplementStep32(0xBE26_12FF, e);
    ComplementStep32(0x00BE_2612, f);
  }

  lemma FlushLeavesResidueAt32(c: bv32, d: bv32, e: bv32, f: bv32)
    requires d == c >> 8 && e == d >> 8 && f == e >> 8
    ensures Crc32(c, Flush32(c)) == RESIDUE32
  {
    hide Upd32, Octet, Flush32;
    FlushSteps32(c, d, e, f);
    FlushBytes32(c, d, e, f);
    Crc32Four(c, [Octet(!c), Octet(!d), Octet(!e), Octet(!f)]);
  }

  lemma FlushLeavesResidue32(c: bv32)
    ensures Crc32(c, Flush32(c)) == RESIDUE32
  {
    hide *;
    var d := c >> 8;
    var e := d >> 8;
    var f := e >> 8;
    FlushLeavesResidueAt32(c, d, e, f);
  }

  /** The receiver's 32-bit test: message and check bytes leave the fixed residue. */
  lemma Residue32(s: seq<Byte>)
    ensures Crc32(INIT32, s + Flush32(Crc32(INIT32, s))) == RESIDUE32
  {
    hide *;
    Crc32Append(INIT32, s, Flush32(Crc32(INIT32, s)));
    FlushLeavesResidue32(Crc32(INIT32, s));
  }
}

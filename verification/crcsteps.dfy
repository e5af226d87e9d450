/** What one byte, two and four do to a CRC register: nothing is lost. */
module CrcSteps {
  import opened Crc

  /** The low bytes of two equal steps name the same table entry. */
  lemma SameEntry16(b: bv16, c: bv16, d: bv16, t: bv16, u: bv16)
    requires Mix16(b, t, c) == Mix16(b, u, d)
    ensures t & 0xFF == u & 0xFF
    ensures t == u ==> c & 0xFF == d & 0xFF
  {
  }

  lemma FromParts16(c: bv16, d: bv16)
    requires (c >> 8) & 0xFF == (d >> 8) & 0xFF && c & 0xFF == d & 0xFF
    ensures c == d
  {
  }

  /** A step is injective in the register: a difference once made never goes away. */
  lemma StepInjective16(b: bv16, c: bv16, d: bv16)
    ensures Upd16(b, c) == Upd16(b, d) ==> c == d
  {
    hide Table16, Mix16;
    if Upd16(b, c) == Upd16(b, d) {
      SameEntry16(b, c, d, Table16(c >> 8), Table16(d >> 8));
      TableInjective16(c >> 8, d >> 8);
      EqualEntries16(c >> 8, d >> 8);
      FromParts16(c, d);
    }
  }

  /** From one register, two bytes are recovered from the register they lead to. */
  lemma PairInjective16(c: bv16, a: bv16, b: bv16, x: bv16, y: bv16)
    requires a < 0x100 && b < 0x100 && x < 0x100 && y < 0x100
    requires Upd16(b, Upd16(a, c)) == Upd16(y, Upd16(x, c))
    ensures a == x && b == y
  {
    hide Table16, Mix16;
    var t := Table16(c >> 8);
    var u, v := Mix16(a, t, c), Mix16(x, t, c);
    SameHigh16(a, x, t, c);
    EqualEntries16(u >> 8, v >> 8);
    SameBytes16(a, b, x, y, t, c, Table16(u >> 8));
  }

  lemma SameHigh16(a: bv16, x: bv16, t: bv16, c: bv16)
    requires a < 0x100 && x < 0x100
    ensures (Mix16(a, t, c) >> 8) & 0xFF == (Mix16(x, t, c) >> 8) & 0xFF
  {
  }

  lemma SameBytes16(a: bv16, b: bv16, x: bv16, y: bv16, t: bv16, c: bv16, w: bv16)
    requires a < 0x100 && b < 0x100 && x < 0x100 && y < 0x100
    requires Mix16(b, w, Mix16(a, t, c)) == Mix16(y, w, Mix16(x, t, c))
    ensures a == x && b == y
  {
  }

  function Drop8(c: bv32): bv32 {
    c >> 8
  }

  function Drop16(c: bv32): bv32 {
    c >> 16
  }

  function Drop24(c: bv32): bv32 {
    c >> 24
  }

  lemma Drops(c: bv32)
    ensures Drop16(c) == Drop8(Drop8(c)) && Drop24(c) == Drop8(Drop16(c))
  {
  }

  lemma UpdDrop32(b: bv16, c: bv32)
    ensures Upd32(b, c) == Xor32(Table32(Mix32(b, c)), Drop8(c))
  {
    hide Xor32, Mix32, Table32;
  }

  /** The top byte of a step is that of the table entry, so it names the index. */
  lemma TopByte32(t: bv32, c: bv32)
    ensures Drop24(Xor32(t, Drop8(c))) == t >> 24
  {
  }

  lemma SameIndex32(b: bv16, c: bv32, x: bv16, d: bv32)
    requires Drop24(Upd32(b, c)) == Drop24(Upd32(x, d))
    ensures Mix32(b, c) & 0xFF == Mix32(x, d) & 0xFF
    ensures Table32(Mix32(b, c)) == Table32(Mix32(x, d))
  {
    hide Upd32, Xor32, Mix32, Table32, Drop8, Drop24;
    UpdDrop32(b, c);
    UpdDrop32(x, d);
    TopByte32(Table32(Mix32(b, c)), c);
    TopByte32(Table32(Mix32(x, d)), d);
    TableInjective32(Mix32(b, c), Mix32(x, d));
    TableAt32(Mix32(b, c), Mix32(x, d));
  }

  lemma High32(t: bv32, c: bv32, d: bv32)
    requires Xor32(t, c) == Xor32(t, d)
    ensures c == d
  {
  }

  lemma HighUpTo8(t: bv32, c: bv32, d: bv32)
    requires Drop8(Xor32(t, Drop8(c))) == Drop8(Xor32(t, Drop8(d)))
    ensures Drop16(c) == Drop16(d)
  {
  }

  lemma HighUpTo16(t: bv32, c: bv32, d: bv32)
    requires Drop16(Xor32(t, Drop8(c))) == Drop16(Xor32(t, Drop8(d)))
    ensures Drop24(c) == Drop24(d)
  {
  }

  lemma LowByte32(b: bv16, x: bv16, c: bv32, d: bv32)
    requires Mix32(b, c) & 0xFF == Mix32(x, d) & 0xFF
    ensures b == x && Drop8(c) == Drop8(d) ==> c == d
    ensures b < 0x100 && x < 0x100 && c == d ==> b == x
  {
  }

  // Registers that agree after a step on all but k low bytes agreed before it on all but k + 1.

  lemma Back32(b: bv16, c: bv32, x: bv16, d: bv32)
    requires Upd32(b, c) == Upd32(x, d)
    ensures Drop8(c) == Drop8(d)
  {
    hide Upd32, Xor32, Mix32, Table32, Drop8, Drop24;
    SameIndex32(b, c, x, d);
    UpdDrop32(b, c);
    UpdDrop32(x, d);
    High32(Table32(Mix32(b, c)), Drop8(c), Drop8(d));
  }

  lemma BackUpTo8(b: bv16, c: bv32, x: bv16, d: bv32)
    requires Drop8(Upd32(b, c)) == Drop8(Upd32(x, d))
    ensures Drop16(c) == Drop16(d)
  {
    hide Upd32, Xor32, Mix32, Table32, Drop8, Drop16, Drop24;
    Drops(Upd32(b, c));
    Drops(Upd32(x, d));
    SameIndex32(b, c, x, d);
    UpdDrop32(b, c);
    UpdDrop32(x, d);
    HighUpTo8(Table32(Mix32(b, c)), c, d);
  }

  lemma BackUpTo16(b: bv16, c: bv32, x: bv16, d: bv32)
    requires Drop16(Upd32(b, c)) == Drop16(Upd32(x, d))
    ensures Drop24(c) == Drop24(d)
  {
    hide Upd32, Xor32, Mix32, Table32, Drop8, Drop16, Drop24;
    Drops(Upd32(b, c));
    Drops(Upd32(x, d));
    SameIndex32(b, c, x, d);
    UpdDrop32(b, c);
    UpdDrop32(x, d);
    HighUpTo16(Table32(Mix32(b, c)), c, d);
  }

  /** A step is injective in the register: a difference once made never goes away. */
  lemma StepInjective32(b: bv16, c: bv32, d: bv32)
    ensures Upd32(b, c) == Upd32(b, d) ==> c == d
  {
    hide Upd32, Mix32, Table32, Drop8, Drop24;
    if Upd32(b, c) == Upd32(b, d) {
      Back32(b, c, b, d);
      SameIndex32(b, c, b, d);
      LowByte32(b, b, c, d);
    }
  }

  lemma FirstByte32(b: bv16, x: bv16, c: bv32)
    requires b < 0x100 && x < 0x100
    requires Drop24(Upd32(b, c)) == Drop24(Upd32(x, c))
    ensures b == x
  {
    hide Upd32, Mix32, Table32, Drop24;
    SameIndex32(b, c, x, c);
    LowByte32(b, x, c, c);
  }

  /** The registers on the way to one and the same register agree in their top byte. */
  lemma BackWord32(c1: bv32, c2: bv32, c3: bv32, d1: bv32, d2: bv32, d3: bv32, s: seq<Byte>, t: seq<Byte>)
    requires |s| == 4 && |t| == 4
    requires c2 == Upd32(s[1], c1) && c3 == Upd32(s[2], c2) && d2 == Upd32(t[1], d1) && d3 == Upd32(t[2], d2)
    requires Upd32(s[3], c3) == Upd32(t[3], d3)
    ensures Drop24(c3) == Drop24(d3) && Drop24(c2) == Drop24(d2) && Drop24(c1) == Drop24(d1)
  {
    hide *;
    Back32(s[3], c3, t[3], d3);
    Drops(c3);
    Drops(d3);
    BackUpTo8(s[2], c2, t[2], d2);
    Drops(c2);
    Drops(d2);
    BackUpTo16(s[1], c1, t[1], d1);
  }

  /** From one register, four bytes are recovered from the register they lead to. */
  lemma WordInjective32(c: bv32, s: seq<Byte>, t: seq<Byte>)
    requires |s| == 4 && |t| == 4
    ensures Crc32(c, s) == Crc32(c, t) ==> s == t
  {
    hide *;
    if Crc32(c, s) == Crc32(c, t) {
      Crc32Four(c, s);
      Crc32Four(c, t);
      var c1, d1 := Upd32(s[0], c), Upd32(t[0], c);
      var c2, d2 := Upd32(s[1], c1), Upd32(t[1], d1);
      var c3, d3 := Upd32(s[2], c2), Upd32(t[2], d2);
      BackWord32(c1, c2, c3, d1, d2, d3, s, t);
      FirstByte32(s[0], t[0], c);
      FirstByte32(s[1], t[1], c1);
      FirstByte32(s[2], t[2], c2);
      FirstByte32(s[3], t[3], c3);
    }
  }
}

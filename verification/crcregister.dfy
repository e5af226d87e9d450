/** The register of wcputsec, which is wider than its CRC. */
module CrcRegister {
  import opened Crc

  function Low16(c: bv32): bv16 {
    (c & 0xFFFF) as bv16
  }

  function High8(c: bv32): bv16 {
    ((c >> 8) & 0xFF) as bv16
  }

  function MixWide(b: bv16, t: bv16, crc: bv32): bv32 {
    (t as bv32) ^ (crc << 8) ^ (b as bv32)
  }

  /** `updcrc16` on the `unsigned` register of wcputsec, which is never cut to 16 bits. */
  function UpdWide(b: bv16, crc: bv32): bv32 {
    MixWide(b, Table16(High8(crc)), crc)
  }

  function CrcWide(crc: bv32, s: seq<Byte>): bv32
    decreases |s|
  {
    if s == [] then crc else CrcWide(UpdWide(s[0], crc), s[1..])
  }

  lemma WideBits(b: bv16, c: bv32, t: bv16)
    ensures Low16(MixWide(b, t, c)) == t ^ (((c & 0xFFFF) as bv16) << 8) ^ b
  {
  }

  lemma NarrowBits(b: bv16, c: bv32, t: bv16)
    ensures Mix16(b, t, Low16(c)) == t ^ (((c & 0xFFFF) as bv16) << 8) ^ b
  {
  }

  lemma WideMix(b: bv16, c: bv32, t: bv16)
    ensures Low16(MixWide(b, t, c)) == Mix16(b, t, Low16(c))
  {
    hide Low16, Mix16, MixWide;
    WideBits(b, c, t);
    NarrowBits(b, c, t);
  }

  lemma WideIndex(c: bv32)
    ensures High8(c) & 0xFF == (Low16(c) >> 8) & 0xFF
  {
  }

  lemma WideStep(b: bv16, c: bv32)
    ensures Low16(UpdWide(b, c)) == Upd16(b, Low16(c))
  {
    hide Mix16, MixWide, Table16, Low16, High8;
    WideIndex(c);
    EqualEntries16(High8(c), Low16(c) >> 8);
    WideMix(b, c, Table16(High8(c)));
  }

  /** The low half of the register that is never cut is the 16-bit register. */
  lemma {:induction false} WideAgrees(c: bv32, s: seq<Byte>)
    ensures Low16(CrcWide(c, s)) == Crc16(Low16(c), s)
    decreases |s|
  {
    hide Upd16, UpdWide, Low16;
    if s != [] {
      WideAgrees(UpdWide(s[0], c), s[1..]);
      WideStep(s[0], c);
    }
  }
}

/** Damage that the CRCs always detect. */
module CrcDetect {
  import opened Crc
  import opened CrcSteps

  lemma {:induction false} SuffixInjective16(c: bv16, d: bv16, s: seq<Byte>)
    ensures Crc16(c, s) == Crc16(d, s) ==> c == d
    decreases |s|
  {
    hide Upd16;
    if s != [] {
      SuffixInjective16(Upd16(s[0], c), Upd16(s[0], d), s[1..]);
      StepInjective16(s[0], c, d);
    }
  }

  lemma {:induction false} SuffixInjective32(c: bv32, d: bv32, s: seq<Byte>)
    ensures Crc32(c, s) == Crc32(d, s) ==> c == d
    decreases |s|
  {
    hide Upd32;
    if s != [] {
      SuffixInjective32(Upd32(s[0], c), Upd32(s[0], d), s[1..]);
      StepInjective32(s[0], c, d);
    }
  }

  /** Damage confined to two adjacent bytes never passes the 16-bit test: of two sequences
      that differ nowhere else, at most one leaves the register any given value. */
  lemma Detects16(pre: seq<Byte>, s: seq<Byte>, t: seq<Byte>, post: seq<Byte>)
    requires |s| == 2 && |t| == 2
    ensures Crc16(0, pre + s + post) == Crc16(0, pre + t + post) ==> s == t
  {
    hide Upd16;
    if Crc16(0, pre + s + post) == Crc16(0, pre + t + post) {
      var c := Crc16(0, pre);
      Crc16Append(0, pre + s, post);
      Crc16Append(0, pre + t, post);
      Crc16Append(0, pre, s);
      Crc16Append(0, pre, t);
      SuffixInjective16(Crc16(c, s), Crc16(c, t), post);
      Crc16Two(c, s);
      Crc16Two(c, t);
      PairInjective16(c, s[0], s[1], t[0], t[1]);
    }
  }

  /** Damage confined to four adjacent bytes never passes the 32-bit test. */
  lemma Detects32(pre: seq<Byte>, s: seq<Byte>, t: seq<Byte>, post: seq<Byte>)
    requires |s| == 4 && |t| == 4
    ensures Crc32(INIT32, pre + s + post) == Crc32(INIT32, pre + t + post) ==> s == t
  {
    hide Upd32;
    if Crc32(INIT32, pre + s + post) == Crc32(INIT32, pre + t + post) {
      var c := Crc32(INIT32, pre);
      Crc32Append(INIT32, pre + s, post);
      Crc32Append(INIT32, pre + t, post);
      Crc32Append(INIT32, pre, s);
      Crc32Append(INIT32, pre, t);
      SuffixInjective32(Crc32(c, s), Crc32(c, t), post);
      WordInjective32(c, s, t);
    }
  }
}

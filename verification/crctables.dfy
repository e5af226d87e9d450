/** The bitwise definition of the CRC tables and the literal tables agree. */
module CrcTables {
  import opened Crc

  function On16(i: bv16, bit: bv16, entry: bv16): bv16 {
    if i & bit != 0 then entry else 0
  }

  function On32(i: bv32, bit: bv32, entry: bv32): bv32 {
    if i & bit != 0 then entry else 0
  }

  /** Every entry is the sum of those literal entries, eight in all, that the bits of its index select. */
  lemma Entry16(i: bv16)
    ensures Table16(i) == On16(i, 0x01, 0x1021) ^ On16(i, 0x02, 0x2042) ^ On16(i, 0x04, 0x4084) ^ On16(i, 0x08, 0x8108)
                        ^ On16(i, 0x10, 0x1231) ^ On16(i, 0x20, 0x2462) ^ On16(i, 0x40, 0x48C4) ^ On16(i, 0x80, 0x9188)
  {
  }

  lemma Entry32(i: bv32)
    ensures Table32(i) == On32(i, 0x01, 0x7707_3096) ^ On32(i, 0x02, 0xEE0E_612C) ^ On32(i, 0x04, 0x076D_C419) ^ On32(i, 0x08, 0x0EDB_8832)
                        ^ On32(i, 0x10, 0x1DB7_1064) ^ On32(i, 0x20, 0x3B6E_20C8) ^ On32(i, 0x40, 0x76DC_4190) ^ On32(i, 0x80, 0xEDB8_8320)
  {
  }
}

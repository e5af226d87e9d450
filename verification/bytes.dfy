/** A byte kept in an `int` of the serial code, and its value. */
module Bytes {
  lemma NextByte(x: bv16)
    requires x < 0xFF
    ensures (x + 1) as nat == x as nat + 1
  {
  }

  lemma BackAndThere(x: bv16)
    ensures (x as nat) as bv16 == x
  {
  }

  lemma Below(x: bv16)
    requires x as nat < 255
    ensures x < 0xFF
  {
  }

  lemma {:induction false} ThereAndBack(m: nat)
    requires m < 256
    ensures (m as bv16) as nat == m
    decreases m
  {
    if m > 0 {
      ThereAndBack(m - 1);
      var x := (m - 1) as bv16;
      Below(x);
      NextByte(x);
      BackAndThere(x + 1);
    }
  }
}

/**
 * Squaring in GF(2^128) on machine words, and seven words that it moves by 1
 * after 1, 2, 4, ..., 64 steps.
 */
module GfSquares {

  type Word = bv128

  function Add(v: Word, w: Word): Word {
    v ^ w
  }

  /** x^7 + x^2 + x + 1, times a small word. */
  function Tail(o: Word): Word {
    Sum4(o, o << 1, o << 2, o << 7)
  }

  /** Times x. */
  function Dbl(w: Word): Word {
    (w << 1) ^ Tail(w >> 127)
  }

  function Dbl2(w: Word): Word {
    (w << 2) ^ Tail(w >> 126)
  }

  /** The low 64 bits, a zero above each. */
  function Spread(x: Word): Word {
    var s0 := x & 0xffffffffffffffff;
    var s1 := (s0 | (s0 << 32)) & 0x00000000ffffffff00000000ffffffff;
    var s2 := (s1 | (s1 << 16)) & 0x0000ffff0000ffff0000ffff0000ffff;
    var s3 := (s2 | (s2 << 8)) & 0x00ff00ff00ff00ff00ff00ff00ff00ff;
    var s4 := (s3 | (s3 << 4)) & 0x0f0f0f0f0f0f0f0f0f0f0f0f0f0f0f0f;
    var s5 := (s4 | (s4 << 2)) & 0x33333333333333333333333333333333;
    (s5 | (s5 << 1)) & 0x55555555555555555555555555555555
  }

  function Sum4(a: Word, b: Word, c: Word, d: Word): Word {
    Add(Add(a, b), Add(c, d))
  }

  function Dbl4(w: Word): Word {
    (w << 4) ^ Tail(w >> 124)
  }

  /** Times x^7 + x^2 + x + 1, which is x^128. */
  function Fold(v: Word): Word {
    Sum4(v, Dbl(v), Dbl2(v), Dbl(Dbl2(Dbl4(v))))
  }

  function LowHalf(w: Word): Word {
    w & 0xffffffffffffffff
  }

  function HighHalf(w: Word): Word {
    w >> 64
  }

  /** The square. */
  function Sq(w: Word): Word {
    Add(Spread(LowHalf(w)), Fold(Spread(HighHalf(w))))
  }

  // ----------------------------------------------------------------------
  // Seven words

  function Sq2(w: Word): Word {
    Sq(Sq(w))
  }

  function Sq4(w: Word): Word {
    Sq2(Sq2(w))
  }

  function Sq8(w: Word): Word {
    Sq4(Sq4(w))
  }

  const THETA0: Word := 0x295ac0b1f4731af9676aac9fa4b20b08
  const THETA1: Word := 0x8b49849339334e30987a355cbf0c842a
  const THETA2: Word := 0x08f6b313e935b8e2cabcd8e4694e5644
  const THETA3: Word := 0x00ada309d08fcc3527d9118b11aff316
  const THETA4: Word := 0x0000e07f90f56df7530820b4072160b0
  const THETA5: Word := 0x000000002aaea2b181fd2953a6430d2e
  const THETA6: Word := 0x0000000000000020ad2b2be4346fbeb4

  // What they become.

  lemma Theta0At1() ensures Sq(THETA0) == 0x295ac0b1f4731af9676aac9fa4b20b09 {}
  lemma Theta1At2() ensures Sq2(THETA1) == 0x8b49849339334e30987a355cbf0c842b {}
  lemma Theta2At4() ensures Sq4(THETA2) == 0x08f6b313e935b8e2cabcd8e4694e5645 {}
  lemma Theta3At8() ensures Sq8(THETA3) == 0x00ada309d08fcc3527d9118b11aff317 {}
  lemma Theta4At8() ensures Sq8(THETA4) == 0x3c501223729cfce4b164bd05c1812cb3 {}
  lemma Theta4At16() ensures Sq8(0x3c501223729cfce4b164bd05c1812cb3) == 0x0000e07f90f56df7530820b4072160b1 {}
  lemma Theta5At8() ensures Sq8(THETA5) == 0x8bc1f76396791837598e07e2375bbba8 {}
  lemma Theta5At16() ensures Sq8(0x8bc1f76396791837598e07e2375bbba8) == 0x004e507e2d46c075c5fd571c719b3ebd {}
  lemma Theta5At24() ensures Sq8(0x004e507e2d46c075c5fd571c719b3ebd) == 0x86e9325201bc943851d4586ecd02e365 {}
  lemma Theta5At32() ensures Sq8(0x86e9325201bc943851d4586ecd02e365) == 0x000000002aaea2b181fd2953a6430d2f {}
  lemma Theta6At8() ensures Sq8(THETA6) == 0x92c86c84f77802bd5ad673cafa7483a3 {}
  lemma Theta6At16() ensures Sq8(0x92c86c84f77802bd5ad673cafa7483a3) == 0xa2f4dfc94de10f462b4cd9143dac4eb6 {}
  lemma Theta6At24() ensures Sq8(0xa2f4dfc94de10f462b4cd9143dac4eb6) == 0x8a5f27914b69383b94c8aca099169082 {}
  lemma Theta6At32() ensures Sq8(0x8a5f27914b69383b94c8aca099169082) == 0x5845efab5e84562b1c277a228d992d46 {}
  lemma Theta6At40() ensures Sq8(0x5845efab5e84562b1c277a228d992d46) == 0xefdd37948b4d1422e88f88540c4f270e {}
  lemma Theta6At48() ensures Sq8(0xefdd37948b4d1422e88f88540c4f270e) == 0xfa4a1d038f98e9bbcb6d4d68bd5403bf {}
  lemma Theta6At56() ensures Sq8(0xfa4a1d038f98e9bbcb6d4d68bd5403bf) == 0x7df3f473e49f2b5578d9e02370f83211 {}
  lemma Theta6At64() ensures Sq8(0x7df3f473e49f2b5578d9e02370f83211) == 0x0000000000000020ad2b2be4346fbeb5 {}
}

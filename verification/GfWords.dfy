/** Machine words as blocks: squaring a word squares its block. */
module GfWords {
  import opened Blocks
  import opened GfRing
  import opened GfSquares

  // ----------------------------------------------------------------------
  // Words as blocks

  lemma Shrinks(w: Word)
    ensures w != 0 ==> w >> 1 < w
  {
  }

  /** The block whose coefficients are the bits of the word. */
  function Poly(w: Word): Block
    decreases w
  {
    Shrinks(w);
    if w == 0 then Zero() else Xor(if w & 1 == 1 then One() else Zero(), Double(Poly(w >> 1)))
  }

  lemma PolyUnfolds(w: Word)
    ensures Poly(w) == Xor(if w & 1 == 1 then One() else Zero(), Double(Poly(w >> 1)))
    ensures Poly(0) == Zero() && Poly(1) == One()
  {
    hide Xor, Double, One;
    XorZero(Zero());
    XorZero(One());
    assert Poly(0) == Zero();
  }

  predicate Odd(w: Word) {
    w & 1 == 1
  }

  function Half(w: Word): Word {
    w >> 1
  }

  lemma AddOdd(v: Word, w: Word)
    ensures Odd(Add(v, w)) == (Odd(v) != Odd(w))
  {
    var x, y := v & 1, w & 1;
    assert (v ^ w) & 1 == x ^ y;
    assert x == 0 || x == 1;
    assert y == 0 || y == 1;
  }

  lemma AddHalf(v: Word, w: Word)
    ensures Half(Add(v, w)) == Add(Half(v), Half(w))
  {
  }

  lemma AddNone(w: Word)
    ensures Add(0, w) == w
  {
  }

  lemma HalfShrinks(v: Word)
    requires v != 0
    ensures Half(v) < v
  {
  }

  lemma PolyBits(w: Word)
    ensures Poly(w) == Xor(Bit(Odd(w)), Double(Poly(Half(w)))) && Poly(0) == Zero()
  {
    hide Xor, Double, One;
    PolyUnfolds(w);
  }

  function Bit(b: bool): Block {
    if b then One() else Zero()
  }

  lemma OneOrZero(b: bool, c: bool)
    ensures Bit(b != c) == Xor(Bit(b), Bit(c))
  {
    hide Xor, One;
    XorZero(One());
    XorZero(Zero());
  }

  lemma PolyAddStep(v: Word, w: Word)
    requires Poly(Add(Half(v), Half(w))) == Xor(Poly(Half(v)), Poly(Half(w)))
    ensures Poly(Add(v, w)) == Xor(Poly(v), Poly(w))
  {
    hide Xor, Double, One, Poly, Odd, Half, Add, Bit;
    AddOdd(v, w);
    AddHalf(v, w);
    PolyBits(v);
    PolyBits(w);
    PolyBits(Add(v, w));
    DoubleXor(Poly(Half(v)), Poly(Half(w)));
    OneOrZero(Odd(v), Odd(w));
    XorSwap(Bit(Odd(v)), Double(Poly(Half(v))), Bit(Odd(w)), Double(Poly(Half(w))));
  }

  predicate IsZero(v: Word) {
    v == 0
  }

  lemma PolyAddNone(v: Word, w: Word)
    requires IsZero(v)
    ensures Poly(Add(v, w)) == Xor(Poly(v), Poly(w))
  {
    hide Xor, Double, One, Add;
    AddNone(w);
    XorZero(Poly(w));
  }

  lemma PolyAddSome(v: Word)
    requires !IsZero(v)
    ensures Half(v) < v
  {
    HalfShrinks(v);
  }

  lemma {:induction false} PolyAdd(v: Word, w: Word)
    ensures Poly(Add(v, w)) == Xor(Poly(v), Poly(w))
    decreases v
  {
    hide Xor, Poly, Half, Add, IsZero;
    if IsZero(v) {
      PolyAddNone(v, w);
    } else {
      PolyAddSome(v);
      PolyAdd(Half(v), Half(w));
      PolyAddStep(v, w);
    }
  }

  lemma ShiftUp(w: Word)
    requires w >> 127 == 0
    ensures (w << 1) & 1 == 0 && (w << 1) >> 1 == w
  {
  }

  /** Without a top bit, shifting up is multiplying by x. */
  lemma PolyShift(w: Word)
    requires w >> 127 == 0
    ensures Poly(w << 1) == Double(Poly(w))
  {
    hide Xor, Double, One, Poly;
    ShiftUp(w);
    PolyUnfolds(w << 1);
    XorZero(Double(Poly(w)));
  }

  lemma {:induction false} TimesXAdds(b: Block, j: nat, k: nat)
    ensures TimesX(TimesX(b, j), k) == TimesX(b, j + k)
  {
    if k > 0 {
      TimesXAdds(b, j, k - 1);
    }
  }

  lemma ShiftsAdd(w: Word)
    ensures (w << 1) << 1 == w << 2 && (w << 2) << 2 == w << 4 && (w << 4) << 4 == w << 8
    ensures (w << 8) << 8 == w << 16 && (w << 16) << 16 == w << 32 && (w << 32) << 32 == w << 64
  {
  }

  lemma PolyShift1(w: Word)
    requires w >> 127 == 0
    ensures Poly(w << 1) == TimesX(Poly(w), 1)
  {
    hide Poly, Double;
    PolyShift(w);
    assert TimesX(Poly(w), 0) == Poly(w);
  }

  lemma PolyShift2(w: Word)
    requires w >> 126 == 0
    ensures Poly(w << 2) == TimesX(Poly(w), 2)
  {
    hide Poly, TimesX;
    PolyShift1(w);
    PolyShift1(w << 1);
    ShiftsAdd(w);
    TimesXAdds(Poly(w), 1, 1);
  }

  lemma PolyShift4(w: Word)
    requires w >> 124 == 0
    ensures Poly(w << 4) == TimesX(Poly(w), 4)
  {
    hide Poly, TimesX;
    PolyShift2(w);
    PolyShift2(w << 2);
    ShiftsAdd(w);
    TimesXAdds(Poly(w), 2, 2);
  }

  lemma PolyShift8(w: Word)
    requires w >> 120 == 0
    ensures Poly(w << 8) == TimesX(Poly(w), 8)
  {
    hide Poly, TimesX;
    PolyShift4(w);
    PolyShift4(w << 4);
    ShiftsAdd(w);
    TimesXAdds(Poly(w), 4, 4);
  }

  lemma PolyShift16(w: Word)
    requires w >> 112 == 0
    ensures Poly(w << 16) == TimesX(Poly(w), 16)
  {
    hide Poly, TimesX;
    PolyShift8(w);
    PolyShift8(w << 8);
    ShiftsAdd(w);
    TimesXAdds(Poly(w), 8, 8);
  }

  lemma PolyShift32(w: Word)
    requires w >> 96 == 0
    ensures Poly(w << 32) == TimesX(Poly(w), 32)
  {
    hide Poly, TimesX;
    PolyShift16(w);
    PolyShift16(w << 16);
    ShiftsAdd(w);
    TimesXAdds(Poly(w), 16, 16);
  }

  lemma PolyShift64(w: Word)
    requires w >> 64 == 0
    ensures Poly(w << 64) == TimesX(Poly(w), 64)
  {
    hide Poly, TimesX;
    PolyShift32(w);
    PolyShift32(w << 32);
    ShiftsAdd(w);
    TimesXAdds(Poly(w), 32, 32);
  }

  /** x^k as a word, for k = 127. */
  lemma PolyTop()
    ensures Poly(TOP) == Unit(127)
  {
    hide Poly, TimesX, Unit;
    PolyUnfolds(0);
    PolyShift64(1);
    PolyShift32(1 << 64);
    PolyShift16(1 << 96);
    PolyShift8(1 << 112);
    PolyShift4(1 << 120);
    PolyShift2(1 << 124);
    PolyShift1(1 << 126);
    TimesXAdds(One(), 64, 32);
    TimesXAdds(One(), 96, 16);
    TimesXAdds(One(), 112, 8);
    TimesXAdds(One(), 120, 4);
    TimesXAdds(One(), 124, 2);
    TimesXAdds(One(), 126, 1);
    UnitTimes(127, One());
    OneTimes(Unit(127));
    ShiftsToTop();
  }

  lemma ShiftsToTop()
    ensures (1 as Word << 64) << 32 == 1 << 96 && (1 as Word << 96) << 16 == 1 << 112 && (1 as Word << 112) << 8 == 1 << 120
    ensures (1 as Word << 120) << 4 == 1 << 124 && (1 as Word << 124) << 2 == 1 << 126
    ensures (1 as Word << 126) << 1 == 0x80000000000000000000000000000000
  {
  }

  /** The reduction word. */
  lemma PolyTail()
    ensures Poly(0x87) == Double(Unit(127))
  {
    hide Poly, Xor, Double, Unit;
    PolyUnfolds(0x87);
    PolyUnfolds(0x43);
    PolyUnfolds(0x21);
    PolyUnfolds(0x10);
    PolyUnfolds(8);
    PolyUnfolds(4);
    PolyUnfolds(2);
    TailBits();
  }

  lemma TailBits()
    ensures Double(Unit(127)) == Xor(One(), Double(Xor(One(), Double(Xor(One(), Double(
                Xor(Zero(), Double(Xor(Zero(), Double(Xor(Zero(), Double(Xor(Zero(), Double(One()))))))))))))))
  {
    var b := Xor(Zero(), Double(Xor(Zero(), Double(Xor(Zero(), Double(Xor(Zero(), Double(One()))))))));
    assert b == Unit(4);
    var c := Xor(One(), Double(b));
    assert forall i :: 0 <= i < 128 ==> c[i] == (i == 0 || i == 5);
    var d := Xor(One(), Double(c));
    assert forall i :: 0 <= i < 128 ==> d[i] == (i == 0 || i == 1 || i == 6);
    forall i | 0 <= i < 128 ensures Double(Unit(127))[i] == Xor(One(), Double(d))[i] {
      TopTimesX(i);
    }
  }

  const TOP: Word := 0x80000000000000000000000000000000

  /** Without the top bit. */
  function Rest(w: Word): Word {
    w & 0x7fffffffffffffffffffffffffffffff
  }

  predicate HasTop(w: Word) {
    w >> 127 == 1
  }

  function Up(w: Word): Word {
    w << 1
  }

  lemma Masked(w: Word)
    ensures var l := w & 0x7fffffffffffffffffffffffffffffff;
            l >> 127 == 0 && (if w >> 127 == 1 then w == l ^ 0x80000000000000000000000000000000 else w == l)
  {
  }

  lemma Doubled(l: Word)
    requires l >> 127 == 0
    ensures (l ^ 0x80000000000000000000000000000000) << 1 == l << 1 && (l ^ 0x80000000000000000000000000000000) >> 127 == 1
  {
  }

  lemma Tails(l: Word)
    ensures Tail(1) == 0x87 && Tail(0) == 0 && l ^ 0 == l
  {
  }

  lemma TopSplit(w: Word)
    ensures w == if HasTop(w) then Add(Rest(w), TOP) else Rest(w)
    ensures Rest(w) >> 127 == 0
  {
    Masked(w);
  }

  lemma DblTop(w: Word)
    ensures Dbl(w) == if HasTop(w) then Add(Up(Rest(w)), 0x87) else Up(Rest(w))
  {
    hide Tail;
    Masked(w);
    Doubled(Rest(w));
    Tails(Up(Rest(w)));
  }

  lemma PolyUp(w: Word)
    ensures Poly(Up(Rest(w))) == Double(Poly(Rest(w)))
  {
    hide Poly, Double, Rest;
    TopSplit(w);
    PolyShift(Rest(w));
  }

  /** Doubling a word multiplies by x. */
  lemma PolyDbl(w: Word)
    ensures Poly(Dbl(w)) == Double(Poly(w))
  {
    hide Poly, Xor, Double, Unit, Dbl, Rest, HasTop, Up, Add, TOP;
    TopSplit(w);
    DblTop(w);
    PolyUp(w);
    if HasTop(w) {
      PolyAdd(Rest(w), TOP);
      PolyAdd(Up(Rest(w)), 0x87);
      PolyTop();
      PolyTail();
      DoubleXor(Poly(Rest(w)), Unit(127));
    }
  }

  // ----------------------------------------------------------------------
  // The fast square

  function Up2(w: Word): Word {
    w << 2
  }

  predicate Fits126(w: Word) {
    w >> 126 == 0
  }

  function Lowest(w: Word): Word {
    w & 1
  }

  lemma SpreadStep(x: Word)
    requires x >> 64 == 0
    ensures Spread(x) == Add(Lowest(x), Up2(Spread(Half(x)))) && Fits126(Spread(Half(x)))
  {
  }

  lemma PolyUp2(w: Word)
    requires Fits126(w)
    ensures Poly(Up2(w)) == Double(Double(Poly(w)))
  {
    hide Poly, Double;
    PolyShift2(w);
    TimesXUnfolds(Poly(w), 2);
    TimesXUnfolds(Poly(w), 1);
    TimesXUnfolds(Poly(w), 0);
  }

  lemma SquareBit(b: bool)
    ensures Square(Bit(b)) == Bit(b)
  {
    hide Square, One;
    Fixpoints();
  }

  lemma PolyOne(w: Word)
    ensures Poly(Lowest(w)) == Bit(Odd(w))
  {
    hide Poly, One;
    PolyUnfolds(0);
    OneBit(w);
  }

  lemma OneBit(w: Word)
    ensures Lowest(w) == if Odd(w) then 1 else 0
  {
  }

  lemma {:induction false} SquareTimesX(b: Block, k: nat)
    ensures Square(TimesX(b, k)) == TimesX(Square(b), 2 * k)
  {
    hide Square, Double;
    if k > 0 {
      SquareTimesX(b, k - 1);
      SquareDouble(TimesX(b, k - 1));
    }
  }

  lemma SpreadPolyStep(x: Word)
    requires x >> 64 == 0 && Poly(Spread(Half(x))) == Square(Poly(Half(x)))
    ensures Poly(Spread(x)) == Square(Poly(x))
  {
    hide Poly, Xor, Double, One, Square, Spread, Half, Bit, Odd, Add, Up2, Fits126, Lowest;
    var h := Half(x);
    SpreadStep(x);
    PolyAdd(Lowest(x), Up2(Spread(h)));
    PolyOne(x);
    PolyUp2(Spread(h));
    PolyBits(x);
    SquareSum(Bit(Odd(x)), Double(Poly(h)));
    SquareBit(Odd(x));
    SquareDouble(Poly(h));
  }

  lemma SpreadPolyNone(x: Word)
    requires IsZero(x)
    ensures Poly(Spread(x)) == Square(Poly(x))
  {
    hide Square, Poly;
    assert Spread(0) == 0;
    PolyUnfolds(0);
    Fixpoints();
  }

  lemma SmallHalf(x: Word)
    requires x >> 64 == 0
    ensures Half(x) >> 64 == 0
  {
  }

  /** Spreading the bits squares a word of up to 64 bits. */
  lemma {:induction false} SpreadPoly(x: Word)
    requires x >> 64 == 0
    ensures Poly(Spread(x)) == Square(Poly(x))
    decreases x
  {
    hide Poly, Square, Spread, Half, IsZero;
    if IsZero(x) {
      SpreadPolyNone(x);
    } else {
      PolyAddSome(x);
      SmallHalf(x);
      SpreadPoly(Half(x));
      SpreadPolyStep(x);
    }
  }

  lemma TopFour()
    ensures Double(Unit(127)) == Xor(Xor(Unit(0), Unit(1)), Xor(Unit(2), Unit(7)))
  {
    forall i | 0 <= i < 128 ensures Double(Unit(127))[i] == Xor(Xor(Unit(0), Unit(1)), Xor(Unit(2), Unit(7)))[i] {
      TopTimesX(i);
    }
  }

  /** x^128 = x^7 + x^2 + x + 1, as a multiplier. */
  lemma TimesX128(p: Block)
    ensures TimesX(p, 128) == Xor(Xor(p, TimesX(p, 1)), Xor(TimesX(p, 2), TimesX(p, 7)))
  {
    hide Xor, Double, Unit, GfMul;
    TimesXUnfolds(p, 128);
    TimesXUnfolds(p, 0);
    UnitTimes(127, p);
    DoubleTimes(Unit(127), p);
    TopFour();
    Distributes(Xor(Unit(0), Unit(1)), Xor(Unit(2), Unit(7)), p);
    Distributes(Unit(0), Unit(1), p);
    Distributes(Unit(2), Unit(7), p);
    UnitTimes(0, p);
    UnitTimes(1, p);
    UnitTimes(2, p);
    UnitTimes(7, p);
  }

  lemma DoubleTimes(a: Block, b: Block)
    ensures GfMul(Double(a), b) == Double(GfMul(a, b))
  {
    hide MulFrom, Double;
    Commutes(Double(a), b);
    Commutes(a, b);
    MulFromDouble(b, a, 0);
  }

  lemma FoldPoly(v: Word)
    ensures Poly(Fold(v)) == TimesX(Poly(v), 128)
  {
    hide Poly, Xor, Double, Dbl, Dbl2, Dbl4, Sum4;
    var p := Poly(v);
    PolySum4(v, Dbl(v), Dbl2(v), Dbl(Dbl2(Dbl4(v))));
    PolyDbl(v);
    PolyDbl2(v);
    PolyDbl4(v);
    PolyDbl2(Dbl4(v));
    PolyDbl(Dbl2(Dbl4(v)));
    SevenDoubles(p);
    TimesX128(p);
  }

  lemma PolySum4(a: Word, b: Word, c: Word, d: Word)
    ensures Poly(Sum4(a, b, c, d)) == Xor(Xor(Poly(a), Poly(b)), Xor(Poly(c), Poly(d)))
  {
    hide Poly, Xor;
    SumAdds(a, b, c, d);
    PolyAdd(Add(a, b), Add(c, d));
    PolyAdd(a, b);
    PolyAdd(c, d);
  }

  lemma SumAdds(a: Word, b: Word, c: Word, d: Word)
    ensures Sum4(a, b, c, d) == Add(Add(a, b), Add(c, d))
  {
    hide Add;
  }

  lemma TwoDbl(w: Word)
    ensures Dbl2(w) == Dbl(Dbl(w))
  {
  }

  lemma FourDbl(w: Word)
    ensures Dbl4(w) == Dbl2(Dbl2(w))
  {
  }

  lemma PolyDbl2(w: Word)
    ensures Poly(Dbl2(w)) == Double(Double(Poly(w)))
  {
    hide Poly, Double, Dbl, Dbl2;
    TwoDbl(w);
    PolyDbl(w);
    PolyDbl(Dbl(w));
  }

  lemma PolyDbl4(w: Word)
    ensures Poly(Dbl4(w)) == Double(Double(Double(Double(Poly(w)))))
  {
    hide Poly, Double, Dbl2, Dbl4;
    FourDbl(w);
    PolyDbl2(w);
    PolyDbl2(Dbl2(w));
  }

  lemma SevenDoubles(p: Block)
    ensures TimesX(p, 1) == Double(p) && TimesX(p, 2) == Double(Double(p))
    ensures TimesX(p, 7) == Double(Double(Double(Double(Double(Double(Double(p)))))))
  {
    hide Double;
    TimesXUnfolds(p, 1);
    TimesXUnfolds(p, 2);
    TimesXUnfolds(p, 3);
    TimesXUnfolds(p, 4);
    TimesXUnfolds(p, 5);
    TimesXUnfolds(p, 6);
    TimesXUnfolds(p, 7);
  }

  predicate Fits64(w: Word) {
    w >> 64 == 0
  }

  function Up64(w: Word): Word {
    w << 64
  }

  lemma Halves(w: Word)
    ensures w == Add(LowHalf(w), Up64(HighHalf(w))) && Fits64(LowHalf(w)) && Fits64(HighHalf(w))
  {
  }

  lemma PolyUp64(w: Word)
    requires Fits64(w)
    ensures Poly(Up64(w)) == TimesX(Poly(w), 64)
  {
    hide Poly, TimesX;
    PolyShift64(w);
  }

  lemma SpreadSquares(x: Word)
    requires Fits64(x)
    ensures Poly(Spread(x)) == Square(Poly(x))
  {
    hide Poly, Square, Spread;
    SpreadPoly(x);
  }

  /** The word square is the product's square. */
  lemma SqPoly(w: Word)
    ensures Poly(Sq(w)) == Square(Poly(w))
  {
    hide Poly, Xor, Square, Spread, Fold, Add, TimesX, Up64, Fits64, LowHalf, HighHalf;
    var lo, hi := LowHalf(w), HighHalf(w);
    Halves(w);
    SpreadSquares(lo);
    SpreadSquares(hi);
    PolyAdd(lo, Up64(hi));
    PolyUp64(hi);
    SquareSum(Poly(lo), TimesX(Poly(hi), 64));
    SquareTimesX(Poly(hi), 64);
    PolyAdd(Spread(lo), Fold(Spread(hi)));
    FoldPoly(Spread(hi));
  }

  // ----------------------------------------------------------------------
  // The seven words

  lemma PolySq2(w: Word)
    ensures Poly(Sq(w)) == Frobenius(Poly(w), 1) && Poly(Sq2(w)) == Frobenius(Poly(w), 2)
  {
    hide Poly, Sq, Square, Frobenius;
    SqPoly(w);
    SqPoly(Sq(w));
    FrobeniusUnfolds(Poly(w), 1);
  }

  lemma PolySq4(w: Word)
    ensures Poly(Sq4(w)) == Frobenius(Poly(w), 4)
  {
    hide Poly, Sq2, Frobenius;
    PolySq2(w);
    PolySq2(Sq2(w));
    FrobeniusAdds(Poly(w), 2, 2);
  }

  lemma PolySq8(w: Word)
    ensures Poly(Sq8(w)) == Frobenius(Poly(w), 8)
  {
    hide Poly, Sq4, Frobenius;
    PolySq4(w);
    PolySq4(Sq4(w));
    FrobeniusAdds(Poly(w), 4, 4);
  }

  /** Squared k times, t moves by 1. */
  ghost predicate Moves(t: Block, k: nat) {
    Frobenius(t, k) == Xor(t, One())
  }

  lemma MovedByOne(t: Word, k: nat, w: Word)
    requires Frobenius(Poly(t), k) == Poly(w) && w == Add(t, 1)
    ensures Moves(Poly(t), k)
  {
    hide Poly, Xor, Add, One;
    PolyAdd(t, 1);
    PolyUnfolds(1);
  }

  lemma SmallThetasMove()
    ensures Moves(Poly(THETA0), 1) && Moves(Poly(THETA1), 2) && Moves(Poly(THETA2), 4) && Moves(Poly(THETA3), 8)
  {
    hide Poly, Sq, Sq2, Sq4, Sq8, Moves, Frobenius;
    Theta0At1();
    Theta1At2();
    Theta2At4();
    Theta3At8();
    PolySq2(THETA0);
    PolySq2(THETA1);
    PolySq4(THETA2);
    PolySq8(THETA3);
    MovedByOne(THETA0, 1, 0x295ac0b1f4731af9676aac9fa4b20b09);
    MovedByOne(THETA1, 2, 0x8b49849339334e30987a355cbf0c842b);
    MovedByOne(THETA2, 4, 0x08f6b313e935b8e2cabcd8e4694e5645);
    MovedByOne(THETA3, 8, 0x00ada309d08fcc3527d9118b11aff317);
  }

  lemma NextEight(t: Word, k: nat, v: Word, w: Word)
    requires Frobenius(Poly(t), k) == Poly(v) && Sq8(v) == w
    ensures Frobenius(Poly(t), k + 8) == Poly(w)
  {
    hide Poly, Sq8, Frobenius;
    PolySq8(v);
    FrobeniusAdds(Poly(t), k, 8);
  }

  lemma Theta4Moves()
    ensures Moves(Poly(THETA4), 16)
  {
    hide Poly, Sq8, Moves, Frobenius;
    Theta4At8();
    PolySq8(THETA4);
    Theta4At16();
    NextEight(THETA4, 8, 0x3c501223729cfce4b164bd05c1812cb3, 0x0000e07f90f56df7530820b4072160b1);
    MovedByOne(THETA4, 16, 0x0000e07f90f56df7530820b4072160b1);
  }

  lemma Theta5Moves()
    ensures Moves(Poly(THETA5), 32)
  {
    hide Poly, Sq8, Moves, Frobenius;
    Theta5At8();
    PolySq8(THETA5);
    Theta5At16();
    NextEight(THETA5, 8, 0x8bc1f76396791837598e07e2375bbba8, 0x004e507e2d46c075c5fd571c719b3ebd);
    Theta5At24();
    NextEight(THETA5, 16, 0x004e507e2d46c075c5fd571c719b3ebd, 0x86e9325201bc943851d4586ecd02e365);
    Theta5At32();
    NextEight(THETA5, 24, 0x86e9325201bc943851d4586ecd02e365, 0x000000002aaea2b181fd2953a6430d2f);
    MovedByOne(THETA5, 32, 0x000000002aaea2b181fd2953a6430d2f);
  }

  lemma Theta6Moves()
    ensures Moves(Poly(THETA6), 64)
  {
    hide Poly, Sq8, Moves, Frobenius;
    Theta6At8();
    PolySq8(THETA6);
    Theta6At16();
    NextEight(THETA6, 8, 0x92c86c84f77802bd5ad673cafa7483a3, 0xa2f4dfc94de10f462b4cd9143dac4eb6);
    Theta6At24();
    NextEight(THETA6, 16, 0xa2f4dfc94de10f462b4cd9143dac4eb6, 0x8a5f27914b69383b94c8aca099169082);
    Theta6At32();
    NextEight(THETA6, 24, 0x8a5f27914b69383b94c8aca099169082, 0x5845efab5e84562b1c277a228d992d46);
    Theta6At40();
    NextEight(THETA6, 32, 0x5845efab5e84562b1c277a228d992d46, 0xefdd37948b4d1422e88f88540c4f270e);
    Theta6At48();
    NextEight(THETA6, 40, 0xefdd37948b4d1422e88f88540c4f270e, 0xfa4a1d038f98e9bbcb6d4d68bd5403bf);
    Theta6At56();
    NextEight(THETA6, 48, 0xfa4a1d038f98e9bbcb6d4d68bd5403bf, 0x7df3f473e49f2b5578d9e02370f83211);
    Theta6At64();
    NextEight(THETA6, 56, 0x7df3f473e49f2b5578d9e02370f83211, 0x0000000000000020ad2b2be4346fbeb5);
    MovedByOne(THETA6, 64, 0x0000000000000020ad2b2be4346fbeb5);
  }

  /** The i-th of the seven. */
  function Theta(i: nat): Block {
    Poly(if i == 0 then THETA0 else if i == 1 then THETA1 else if i == 2 then THETA2 else if i == 3 then THETA3
         else if i == 4 then THETA4 else if i == 5 then THETA5 else THETA6)
  }

  lemma ThetasMove()
    ensures Moves(Theta(0), 1) && Moves(Theta(1), 2) && Moves(Theta(2), 4) && Moves(Theta(3), 8)
    ensures Moves(Theta(4), 16) && Moves(Theta(5), 32) && Moves(Theta(6), 64)
  {
    hide Poly, Moves;
    SmallThetasMove();
    Theta4Moves();
    Theta5Moves();
    Theta6Moves();
  }
}

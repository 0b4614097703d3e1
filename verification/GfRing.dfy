/** What the block product computes: a commutative ring, by the bits of its factors. */
module GfRing {
  import opened Blocks

  /** x^i */
  function Unit(i: nat): Block
    requires i < 128
  {
    seq(128, k => k == i)
  }

  function One(): Block {
    Unit(0)
  }

  /** b multiplied k times by x. */
  function TimesX(b: Block, k: nat): Block {
    if k == 0 then b else Double(TimesX(b, k - 1))
  }

  // ----------------------------------------------------------------------
  // The product by its bits

  /** x b, bit by bit: a shift, and the top bit comes back at 0, 1, 2 and 7. */
  lemma DoubleBits(b: Block, i: nat)
    requires i < 128
    ensures Double(b)[i] == if i == 0 then b[127]
                            else if i == 1 || i == 2 || i == 7 then b[i - 1] != b[127]
                            else b[i - 1]
  {
  }

  /** x times x^127 is x^7 + x^2 + x + 1. */
  lemma TopTimesX(i: nat)
    requires i < 128
    ensures Double(Unit(127))[i] <==> i == 0 || i == 1 || i == 2 || i == 7
  {
    DoubleBits(Unit(127), i);
  }

  lemma MulFromUnfolds(a: Block, b: Block, i: nat)
    requires i < 128
    ensures MulFrom(a, b, i) == Xor(if a[i] then b else Zero(), Double(MulFrom(a, b, i + 1)))
    ensures MulFrom(a, b, 128) == Zero()
  {
  }

  lemma XorZero(a: Block)
    ensures Xor(a, Zero()) == a && Xor(Zero(), a) == a && Xor(a, a) == Zero() && Double(Zero()) == Zero()
  {
    DoubleZero();
  }

  lemma {:induction false} UnitFrom(i: nat, b: Block, j: nat)
    requires i < 128 && j <= 128
    ensures MulFrom(Unit(i), b, j) == if j > i then Zero() else TimesX(b, i - j)
    decreases 128 - j
  {
    hide Xor, Double, MulFrom, TimesX;
    XorZero(b);
    XorZero(Zero());
    if j < 128 {
      UnitFrom(i, b, j + 1);
      MulFromUnfolds(Unit(i), b, j);
      if j <= i {
        TimesXUnfolds(b, i - j);
        XorZero(TimesX(b, i - j));
      }
    } else {
      MulFromUnfolds(Unit(i), b, 0);
    }
  }

  lemma TimesXUnfolds(b: Block, k: nat)
    ensures TimesX(b, k) == if k == 0 then b else Double(TimesX(b, k - 1))
  {
  }

  /** Multiplying by x^i is multiplying i times by x. */
  lemma UnitTimes(i: nat, b: Block)
    requires i < 128
    ensures GfMul(Unit(i), b) == TimesX(b, i)
  {
    hide MulFrom;
    UnitFrom(i, b, 0);
  }

  /** The coefficients from i up, moved down by i. */
  function Drop(a: Block, i: nat): Block {
    seq(128, k requires 0 <= k < 128 => i + k < 128 && a[i + k])
  }

  lemma DropStep(a: Block, i: nat)
    requires i < 128
    ensures Drop(a, i) == Xor(if a[i] then One() else Zero(), Double(Drop(a, i + 1))) && !Drop(a, i + 1)[127]
  {
    var d, s := Drop(a, i), Double(Drop(a, i + 1));
    forall k | 0 <= k < 128 ensures d[k] == ((if a[i] then One() else Zero())[k] != s[k]) {
      DoubleBits(Drop(a, i + 1), k);
    }
  }

  lemma DropEnds(a: Block)
    ensures Drop(a, 0) == a && Drop(a, 128) == Zero()
  {
  }

  lemma {:induction false} FromOne(a: Block, i: nat)
    requires i <= 128
    ensures MulFrom(a, One(), i) == Drop(a, i)
    decreases 128 - i
  {
    hide Xor, Double, MulFrom, Drop, Unit;
    DropEnds(a);
    if i < 128 {
      FromOne(a, i + 1);
      DropStep(a, i);
      MulFromUnfolds(a, One(), i);
    } else {
      MulFromUnfolds(a, One(), 0);
    }
  }

  /** One is neutral on both sides. */
  lemma OneTimes(a: Block)
    ensures GfMul(One(), a) == a && GfMul(a, One()) == a
  {
    hide MulFrom;
    UnitTimes(0, a);
    FromOne(a, 0);
    DropEnds(a);
  }

  lemma Commutes(a: Block, b: Block)
    ensures GfMul(a, b) == GfMul(b, a)
  {
    hide GfMul, Unit;
    GfMulCommutes(b, a, One());
    OneTimes(a);
    OneTimes(b);
  }

  lemma Associates(a: Block, b: Block, c: Block)
    ensures GfMul(GfMul(a, b), c) == GfMul(a, GfMul(b, c))
  {
    hide GfMul;
    Commutes(GfMul(a, b), c);
    GfMulCommutes(a, c, b);
    Commutes(c, b);
    Commutes(b, c);
  }

  /** The product is additive in its first factor too. */
  lemma Distributes(a: Block, b: Block, c: Block)
    ensures GfMul(Xor(a, b), c) == Xor(GfMul(a, c), GfMul(b, c))
  {
    hide GfMul, Xor;
    Commutes(Xor(a, b), c);
    Commutes(a, c);
    Commutes(b, c);
    GfMulXor(c, a, b);
  }

  // ----------------------------------------------------------------------
  // Squaring

  function Square(a: Block): Block {
    GfMul(a, a)
  }

  lemma SquareSum(a: Block, b: Block)
    ensures Square(Xor(a, b)) == Xor(Square(a), Square(b))
  {
    hide GfMul, Xor;
    var ab := GfMul(a, b);
    Distributes(a, b, Xor(a, b));
    GfMulXor(a, a, b);
    GfMulXor(b, a, b);
    Commutes(a, b);
    Cancels(Square(a), ab, Square(b));
  }

  lemma Cancels(x: Block, y: Block, z: Block)
    ensures Xor(Xor(x, y), Xor(y, z)) == Xor(x, z)
  {
  }

  lemma SquareDouble(a: Block)
    ensures Square(Double(a)) == Double(Double(Square(a)))
  {
    hide MulFrom, Double;
    MulFromDouble(Double(a), a, 0);
    Commutes(Double(a), a);
    MulFromDouble(a, a, 0);
  }

  lemma SquareProduct(a: Block, b: Block)
    ensures Square(GfMul(a, b)) == GfMul(Square(a), Square(b))
  {
    hide GfMul;
    var ab := GfMul(a, b);
    Associates(a, b, ab);
    Commutes(b, ab);
    Associates(a, b, b);
    Associates(a, a, Square(b));
  }

  lemma Fixpoints()
    ensures Square(Zero()) == Zero() && Square(One()) == One()
  {
    hide GfMul;
    GfMulZero(Zero());
    OneTimes(One());
  }

  /** a squared k times. */
  function Frobenius(a: Block, k: nat): Block {
    if k == 0 then a else Square(Frobenius(a, k - 1))
  }

  lemma FrobeniusUnfolds(a: Block, k: nat)
    ensures Frobenius(a, 0) == a && Frobenius(a, 1) == Square(a) && Frobenius(a, k + 1) == Square(Frobenius(a, k))
  {
  }

  lemma {:induction false} FrobeniusAdds(a: Block, j: nat, k: nat)
    ensures Frobenius(a, j + k) == Frobenius(Frobenius(a, j), k)
  {
    hide Square, Frobenius;
    FrobeniusUnfolds(Frobenius(a, j), if k == 0 then 0 else k - 1);
    if k > 0 {
      FrobeniusAdds(a, j, k - 1);
      FrobeniusUnfolds(a, j + k - 1);
    }
  }

  /** Repeated squaring is additive, multiplicative and keeps 0 and 1. */
  lemma {:induction false} FrobeniusKeeps(a: Block, b: Block, k: nat)
    ensures Frobenius(Xor(a, b), k) == Xor(Frobenius(a, k), Frobenius(b, k))
    ensures Frobenius(GfMul(a, b), k) == GfMul(Frobenius(a, k), Frobenius(b, k))
    ensures Frobenius(Zero(), k) == Zero() && Frobenius(One(), k) == One()
  {
    hide Square, Frobenius, Xor, GfMul, One;
    FrobeniusStarts(Xor(a, b), GfMul(a, b), a, b);
    if k > 0 {
      FrobeniusKeeps(a, b, k - 1);
      FrobeniusSteps(Xor(a, b), GfMul(a, b), a, b, k - 1);
      SquareSum(Frobenius(a, k - 1), Frobenius(b, k - 1));
      SquareProduct(Frobenius(a, k - 1), Frobenius(b, k - 1));
      Fixpoints();
    }
  }

  lemma FrobeniusStarts(a: Block, b: Block, c: Block, d: Block)
    ensures Frobenius(a, 0) == a && Frobenius(b, 0) == b && Frobenius(c, 0) == c && Frobenius(d, 0) == d
    ensures Frobenius(Zero(), 0) == Zero() && Frobenius(One(), 0) == One()
  {
  }

  lemma FrobeniusSteps(a: Block, b: Block, c: Block, d: Block, k: nat)
    ensures Frobenius(a, k + 1) == Square(Frobenius(a, k)) && Frobenius(b, k + 1) == Square(Frobenius(b, k))
    ensures Frobenius(c, k + 1) == Square(Frobenius(c, k)) && Frobenius(d, k + 1) == Square(Frobenius(d, k))
    ensures Frobenius(Zero(), k + 1) == Square(Frobenius(Zero(), k))
    ensures Frobenius(One(), k + 1) == Square(Frobenius(One(), k))
  {
    hide Square;
  }
}

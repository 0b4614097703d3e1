/** 128-bit blocks: XOR, vectors of blocks, permutations of vectors, and multiplication in GF(2^128). */
module Blocks {
  import opened Permutations

  /** The bits of a block, least significant first. */
  type Block = b: seq<bool> | |b| == 128 witness ZeroBits()

  function ZeroBits(): (b: seq<bool>)
    ensures |b| == 128 && forall i :: 0 <= i < 128 ==> !b[i]
  {
    seq(128, _ => false)
  }

  function Zero(): Block {
    ZeroBits()
  }

  function Xor(a: Block, b: Block): Block {
    seq(128, i requires 0 <= i < 128 => a[i] != b[i])
  }

  lemma XorLaws(a: Block, b: Block, c: Block)
    ensures Xor(a, b) == Xor(b, a) && Xor(Xor(a, b), c) == Xor(a, Xor(b, c))
    ensures Xor(a, a) == Zero() && Xor(a, Zero()) == a
  {
  }

  lemma XorSwap(a: Block, b: Block, c: Block, d: Block)
    ensures Xor(Xor(a, b), Xor(c, d)) == Xor(Xor(a, c), Xor(b, d))
  {
  }

  // ----------------------------------------------------------------------
  // Vectors

  type Vector = seq<Block>

  function XorVec(a: Vector, b: Vector): (c: Vector)
    requires |a| == |b|
    ensures |c| == |a|
  {
    seq(|a|, i requires 0 <= i < |a| => Xor(a[i], b[i]))
  }

  lemma RouteXor(p: seq<int>, a: Vector, b: Vector)
    requires |a| == |b| && Positions(p, |a|)
    ensures Route(p, XorVec(a, b)) == XorVec(Route(p, a), Route(p, b))
  {
    hide Xor;
  }

  // ----------------------------------------------------------------------
  // GF(2^128), modulo x^128 + x^7 + x^2 + x + 1

  /** x^7 + x^2 + x + 1 */
  predicate InTail(i: nat) {
    i == 0 || i == 1 || i == 2 || i == 7
  }

  /** Multiplication by x: shift up, and reduce what leaves the top. */
  function Double(b: Block): Block {
    seq(128, i requires 0 <= i < 128 => (i > 0 && b[i - 1]) != (b[127] && InTail(i)))
  }

  lemma DoubleXor(a: Block, b: Block)
    ensures Double(Xor(a, b)) == Xor(Double(a), Double(b))
  {
  }

  /** Bit i of the block. */
  predicate BitAt(a: Block, i: nat)
    requires i < 128
  {
    a[i]
  }

  /** The partial product of the bits of a from i up: sum of x^(k-i) b over the set bits k. */
  function MulFrom(a: Block, b: Block, i: nat): Block
    requires i <= 128
    decreases 128 - i
  {
    if i == 128 then Zero()
    else Xor(if BitAt(a, i) then b else Zero(), Double(MulFrom(a, b, i + 1)))
  }

  function GfMul(a: Block, b: Block): Block {
    MulFrom(a, b, 0)
  }

  lemma DoubleZero()
    ensures Double(Zero()) == Zero() && Xor(Zero(), Zero()) == Zero()
  {
  }

  /** Multiplication distributes over addition in its second factor. */
  lemma {:induction false} MulFromXor(a: Block, b: Block, c: Block, i: nat)
    requires i <= 128
    ensures MulFrom(a, Xor(b, c), i) == Xor(MulFrom(a, b, i), MulFrom(a, c, i))
    decreases 128 - i
  {
    DoubleZero();
    if i < 128 {
      hide BitAt, Xor, Double;
      MulFromXor(a, b, c, i + 1);
      var x, y := MulFrom(a, b, i + 1), MulFrom(a, c, i + 1);
      DoubleXor(x, y);
      var b', c' := if BitAt(a, i) then b else Zero(), if BitAt(a, i) then c else Zero();
      XorSwap(b', Double(x), c', Double(y));
    }
  }

  lemma {:induction false} MulFromDouble(a: Block, b: Block, i: nat)
    requires i <= 128
    ensures MulFrom(a, Double(b), i) == Double(MulFrom(a, b, i))
    decreases 128 - i
  {
    DoubleZero();
    if i < 128 {
      hide BitAt, Xor, Double;
      MulFromDouble(a, b, i + 1);
      var x, b' := MulFrom(a, b, i + 1), if BitAt(a, i) then b else Zero();
      DoubleXor(b', Double(x));
    }
  }

  lemma {:induction false} MulFromZero(a: Block, i: nat)
    requires i <= 128
    ensures MulFrom(a, Zero(), i) == Zero()
    decreases 128 - i
  {
    DoubleZero();
    if i < 128 {
      hide BitAt, Xor, Double;
      MulFromZero(a, i + 1);
    }
  }

  /** Multiplications by a and by c commute. */
  lemma {:induction false} MulFromCommutes(a: Block, c: Block, b: Block, i: nat)
    requires i <= 128
    ensures GfMul(c, MulFrom(a, b, i)) == MulFrom(a, GfMul(c, b), i)
    decreases 128 - i
  {
    hide BitAt, Xor, Double;
    if i < 128 {
      MulFromCommutes(a, c, b, i + 1);
      var x, b' := MulFrom(a, b, i + 1), if BitAt(a, i) then b else Zero();
      MulFromXor(c, b', Double(x), 0);
      MulFromDouble(c, x, 0);
      MulFromZero(c, 0);
    } else {
      MulFromZero(c, 0);
    }
  }

  lemma GfMulXor(a: Block, b: Block, c: Block)
    ensures GfMul(a, Xor(b, c)) == Xor(GfMul(a, b), GfMul(a, c))
  {
    MulFromXor(a, b, c, 0);
  }

  lemma GfMulCommutes(a: Block, c: Block, b: Block)
    ensures GfMul(c, GfMul(a, b)) == GfMul(a, GfMul(c, b))
  {
    MulFromCommutes(a, c, b, 0);
  }

  lemma GfMulZero(a: Block)
    ensures GfMul(a, Zero()) == Zero()
  {
    MulFromZero(a, 0);
  }
}

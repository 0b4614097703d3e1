/**
 * GF(2^128) is a field: every block but zero has an inverse. A tower of seven
 * quadratic extensions over the blocks that squaring fixes has as many
 * elements as that base to the power 128; there are only 2^128 blocks, so the
 * base is {0, 1}, and squaring 128 times changes nothing.
 */
module GfField {
  import opened Words
  import opened Blocks
  import opened GfRing
  import opened GfWords

  // ----------------------------------------------------------------------
  // How many blocks there are

  ghost function Strings(n: nat): set<seq<bool>> {
    if n == 0 then {[]} else Extended(Strings(n - 1), false) + Extended(Strings(n - 1), true)
  }

  ghost function Extended(s: set<seq<bool>>, x: bool): set<seq<bool>> {
    set b | b in s :: b + [x]
  }

  lemma {:induction false} ExtendedSize(s: set<seq<bool>>, x: bool)
    ensures |Extended(s, x)| <= |s|
    decreases |s|
  {
    if b :| b in s {
      ExtendedSize(s - {b}, x);
      assert Extended(s, x) == Extended(s - {b}, x) + {b + [x]};
    } else {
      assert Extended(s, x) == {};
    }
  }

  lemma {:induction false} StringsSize(n: nat)
    ensures |Strings(n)| <= Pow2(n)
  {
    if n > 0 {
      StringsSize(n - 1);
      ExtendedSize(Strings(n - 1), false);
      ExtendedSize(Strings(n - 1), true);
    }
  }

  lemma {:induction false} InStrings(b: seq<bool>)
    ensures b in Strings(|b|)
    decreases |b|
  {
    if b != [] {
      var front, x := b[..|b| - 1], b[|b| - 1];
      InStrings(front);
      assert b == front + [x];
      assert b in Extended(Strings(|front|), x);
    }
  }

  lemma {:induction false} SubsetSize<T>(a: set<T>, b: set<T>)
    requires a <= b
    ensures |a| <= |b| && (|a| == |b| ==> a == b)
    decreases |b|
  {
    var more := b - a;
    if more == {} {
      assert a == b;
    } else {
      var x :| x in more;
      SubsetSize(a, b - {x});
    }
  }

  lemma AtMostAllBlocks(s: set<Block>)
    ensures |s| <= 0x1_0000_0000_0000_0000_0000_0000_0000_0000
    ensures |s| == 0x1_0000_0000_0000_0000_0000_0000_0000_0000 ==> forall b: Block :: b in s
  {
    hide Strings;
    AllSize();
    var all, t: set<seq<bool>> := Strings(128), s;
    forall b | b in t ensures b in all {
      InStrings(b);
    }
    SubsetSize(t, all);
    assert |s| == |t|;
    forall b: Block ensures b in all {
      InStrings(b);
    }
  }

  lemma AllSize()
    ensures |Strings(128)| <= 0x1_0000_0000_0000_0000_0000_0000_0000_0000
  {
    hide Strings, Pow2;
    StringsSize(128);
    Pow2At128();
  }

  // ----------------------------------------------------------------------
  // One quadratic extension

  /** a + b t */
  function Plus(a: Block, b: Block, t: Block): Block {
    Xor(a, GfMul(b, t))
  }

  ghost function Row(a: Block, s: set<Block>, t: Block): set<Block> {
    set b | b in s :: Plus(a, b, t)
  }

  ghost function Sums(r: set<Block>, s: set<Block>, t: Block): set<Block> {
    set a, b | a in r && b in s :: Plus(a, b, t)
  }

  /** Different pairs give different sums. */
  ghost predicate Independent(s: set<Block>, t: Block) {
    forall a, b, c, d :: a in s && b in s && c in s && d in s && Plus(a, b, t) == Plus(c, d, t) ==> a == c && b == d
  }

  lemma {:induction false} RowSize(a: Block, q: set<Block>, s: set<Block>, t: Block)
    requires Independent(s, t) && a in s && q <= s
    ensures |Row(a, q, t)| == |q|
    decreases |q|
  {
    hide Plus;
    if b :| b in q {
      var rest := q - {b};
      RowSize(a, rest, s, t);
      assert Row(a, q, t) == Row(a, rest, t) + {Plus(a, b, t)};
      assert Plus(a, b, t) !in Row(a, rest, t);
    } else {
      assert Row(a, q, t) == {};
    }
  }

  lemma {:induction false} SumsSize(r: set<Block>, s: set<Block>, t: Block)
    requires Independent(s, t) && r <= s
    ensures |Sums(r, s, t)| == |r| * |s|
    decreases |r|
  {
    hide Plus, Sums, Row, Independent;
    if a :| a in r {
      var rest := r - {a};
      SumsSize(rest, s, t);
      RowSize(a, s, s, t);
      SumsSplit(r, s, t, a);
      UnionSize(Sums(rest, s, t), Row(a, s, t));
      OneMore(|rest|, |s|);
    } else {
      NoSums(s, t);
    }
  }

  lemma NoSums(s: set<Block>, t: Block)
    ensures Sums({}, s, t) == {} && 0 * |s| == 0
  {
  }

  lemma UnionSize<T>(a: set<T>, b: set<T>)
    requires a !! b
    ensures |a + b| == |a| + |b|
  {
  }

  lemma SumsSplit(r: set<Block>, s: set<Block>, t: Block, a: Block)
    requires Independent(s, t) && r <= s && a in r
    ensures Sums(r, s, t) == Sums(r - {a}, s, t) + Row(a, s, t) && Sums(r - {a}, s, t) !! Row(a, s, t)
  {
    hide Plus;
    forall x ensures x in Sums(r, s, t) <==> x in Sums(r - {a}, s, t) + Row(a, s, t) {
      if x in Sums(r, s, t) {
        var c, d :| c in r && d in s && x == Plus(c, d, t);
        assert c != a ==> c in r - {a};
      }
    }
  }

  lemma OneMore(n: nat, m: nat)
    ensures n * m + m == (n + 1) * m
  {
  }

  /** Squaring k times fixes every element. */
  ghost predicate FixedBy(s: set<Block>, k: nat) {
    forall a :: a in s ==> Frobenius(a, k) == a
  }

  lemma Extends(s: set<Block>, t: Block, k: nat)
    requires FixedBy(s, k) && Moves(t, k)
    ensures |Sums(s, s, t)| == |s| * |s| && FixedBy(Sums(s, s, t), 2 * k)
  {
    hide Plus, Frobenius, Moves;
    forall a, b, c, d | a in s && b in s && c in s && d in s && Plus(a, b, t) == Plus(c, d, t) ensures a == c && b == d {
      SameSum(a, b, c, d, t, k);
    }
    SumsSize(s, s, t);
    forall a, b | a in s && b in s ensures Frobenius(Plus(a, b, t), 2 * k) == Plus(a, b, t) {
      TwiceFixes(a, b, t, k);
    }
  }

  /** (a + b t) moved: a + b t + b. */
  lemma Moved(a: Block, b: Block, t: Block, k: nat)
    requires Frobenius(a, k) == a && Frobenius(b, k) == b && Moves(t, k)
    ensures Frobenius(Plus(a, b, t), k) == Xor(Plus(a, b, t), b)
  {
    hide Frobenius, GfMul, Xor, One;
    FrobeniusKeeps(a, GfMul(b, t), k);
    FrobeniusKeeps(b, t, k);
    GfMulXor(b, t, One());
    OneTimes(b);
    XorLaws(a, GfMul(b, t), b);
  }

  lemma XorBack(a: Block, b: Block, c: Block)
    ensures Xor(a, b) == Xor(a, c) <==> b == c
    ensures Xor(Xor(a, b), b) == a
  {
    hide Xor;
    XorLaws(a, b, b);
    XorLaws(a, a, b);
    XorLaws(a, a, c);
    XorLaws(Zero(), b, b);
    XorLaws(Zero(), c, c);
    XorLaws(b, Zero(), b);
    XorLaws(c, Zero(), c);
  }

  lemma SameSum(a: Block, b: Block, c: Block, d: Block, t: Block, k: nat)
    requires Frobenius(a, k) == a && Frobenius(b, k) == b && Frobenius(c, k) == c && Frobenius(d, k) == d
    requires Moves(t, k) && Plus(a, b, t) == Plus(c, d, t)
    ensures a == c && b == d
  {
    hide Frobenius, GfMul, Xor, Moves;
    Moved(a, b, t, k);
    Moved(c, d, t, k);
    XorBack(Plus(a, b, t), b, d);
    var bt := GfMul(b, t);
    XorLaws(a, bt, a);
    XorLaws(c, bt, c);
    XorBack(bt, a, c);
  }

  lemma TwiceFixes(a: Block, b: Block, t: Block, k: nat)
    requires Frobenius(a, k) == a && Frobenius(b, k) == b && Moves(t, k)
    ensures Frobenius(Plus(a, b, t), 2 * k) == Plus(a, b, t)
  {
    hide Frobenius, Xor, Moves, Plus;
    var p := Plus(a, b, t);
    Moved(a, b, t, k);
    FrobeniusAdds(p, k, k);
    FrobeniusKeeps(p, b, k);
    XorBack(p, b, b);
  }

  // ----------------------------------------------------------------------
  // The tower

  /** The tower over `base`, after i extensions. */
  ghost function Tower(base: set<Block>, i: nat): set<Block> {
    if i == 0 then base else Sums(Tower(base, i - 1), Tower(base, i - 1), Theta(i - 1))
  }

  lemma Floor(base: set<Block>, i: nat, k: nat)
    requires FixedBy(Tower(base, i), k) && Moves(Theta(i), k)
    ensures FixedBy(Tower(base, i + 1), 2 * k)
    ensures |Tower(base, i + 1)| == |Tower(base, i)| * |Tower(base, i)|
  {
    hide FixedBy, Moves, Sums, Theta;
    Extends(Tower(base, i), Theta(i), k);
  }

  /** Seven extensions: the size to the power 128, and squaring 128 times fixes everything. */
  lemma TopFloor(base: set<Block>) returns (n1: nat, n2: nat, n3: nat, n4: nat, n5: nat, n6: nat)
    requires FixedBy(base, 1)
    ensures n1 == |base| * |base| && n2 == n1 * n1 && n3 == n2 * n2 && n4 == n3 * n3 && n5 == n4 * n4 && n6 == n5 * n5
    ensures |Tower(base, 7)| == n6 * n6 && FixedBy(Tower(base, 7), 128)
  {
    hide FixedBy, Moves, Tower, Theta;
    ThetasMove();
    Ground(base);
    Floor(base, 0, 1);
    Floor(base, 1, 2);
    Floor(base, 2, 4);
    Floor(base, 3, 8);
    Floor(base, 4, 16);
    Floor(base, 5, 32);
    Floor(base, 6, 64);
    n1, n2, n3 := |Tower(base, 1)|, |Tower(base, 2)|, |Tower(base, 3)|;
    n4, n5, n6 := |Tower(base, 4)|, |Tower(base, 5)|, |Tower(base, 6)|;
  }

  lemma Ground(base: set<Block>)
    ensures Tower(base, 0) == base
  {
  }

  lemma TwoConstants()
    ensures One() != Zero() && FixedBy({Zero(), One()}, 1)
  {
    hide Square;
    Fixpoints();
    FrobeniusUnfolds(Zero(), 0);
    FrobeniusUnfolds(One(), 0);
    assert One()[0] != Zero()[0];
  }

  /** Squaring 128 times changes no block. */
  lemma FullCircle(a: Block)
    ensures Frobenius(a, 128) == a
  {
    hide Frobenius, Tower, One;
    TwoConstants();
    var base := {Zero(), One()};
    var n1, n2, n3, n4, n5, n6 := TopFloor(base);
    assert n1 == 4 && n2 == 16 && n3 == 256 && n4 == 0x1_0000 && n5 == 0x1_0000_0000 && n6 == 0x1_0000_0000_0000_0000;
    AtMostAllBlocks(Tower(base, 7));
    assert a in Tower(base, 7);
  }

  /** Only 0 and 1 are their own squares. */
  lemma IdempotentIsTrivial(e: Block)
    requires Square(e) == e
    ensures e == Zero() || e == One()
  {
    hide Frobenius, Tower, One, Square;
    TwoConstants();
    FrobeniusUnfolds(e, 0);
    if e != Zero() && e != One() {
      var base := {Zero(), One(), e};
      var n1, n2, n3, n4, n5, n6 := TopFloor(base);
      assert n1 == 9 && n2 == 81 && n3 == 6561 && n4 == 43046721 && n5 == 1853020188851841;
      assert n6 == 3433683820292512484657849089281;
      AtMostAllBlocks(Tower(base, 7));
      assert false;
    }
  }

  // ----------------------------------------------------------------------
  // Inverses

  /** a^2 a^4 ... a^(2^(k-1)) */
  function Conjugates(a: Block, k: nat): Block {
    if k <= 1 then One() else GfMul(Conjugates(a, k - 1), Frobenius(a, k - 1))
  }

  lemma {:induction false} ConjugatesTimes(a: Block, k: nat)
    requires k >= 1
    ensures GfMul(Square(a), Conjugates(a, k)) == Frobenius(a, k)
  {
    hide GfMul, Square, Frobenius, One;
    FrobeniusUnfolds(a, k - 1);
    ConjugatesUnfold(a, k);
    if k == 1 {
      OneTimes(Square(a));
    } else {
      ConjugatesTimes(a, k - 1);
      Associates(Square(a), Conjugates(a, k - 1), Frobenius(a, k - 1));
      SquareIsProduct(Frobenius(a, k - 1));
    }
  }

  lemma ConjugatesUnfold(a: Block, k: nat)
    ensures Conjugates(a, k) == if k <= 1 then One() else GfMul(Conjugates(a, k - 1), Frobenius(a, k - 1))
  {
  }

  lemma SquareIsProduct(a: Block)
    ensures Square(a) == GfMul(a, a)
  {
  }

  /** 1 / a */
  function Inverse(a: Block): Block {
    Conjugates(a, 128)
  }

  lemma ZeroTimes(a: Block)
    ensures GfMul(Zero(), a) == Zero() && GfMul(a, Zero()) == Zero()
  {
    hide GfMul;
    GfMulZero(a);
    Commutes(a, Zero());
  }

  /** Every block but zero has an inverse. */
  lemma InverseTimes(a: Block)
    requires a != Zero()
    ensures GfMul(a, Inverse(a)) == One()
  {
    hide GfMul, Square, Frobenius, Conjugates, One;
    var m := Inverse(a);
    var e := GfMul(a, m);
    ConjugatesTimes(a, 128);
    FullCircle(a);
    SquareIsProduct(a);
    Associates(a, a, m);
    // a e = a, hence e e = e
    Associates(a, e, m);
    Commutes(m, e);
    Associates(e, a, m);
    Commutes(e, a);
    SquareIsProduct(e);
    IdempotentIsTrivial(e);
    ZeroTimes(a);
  }

  /** No zero divisors. */
  lemma NoZeroDivisors(a: Block, b: Block)
    requires GfMul(a, b) == Zero()
    ensures a == Zero() || b == Zero()
  {
    hide GfMul, Inverse, One;
    if a != Zero() {
      var m := Inverse(a);
      InverseTimes(a);
      Commutes(a, m);
      Associates(m, a, b);
      OneTimes(b);
      ZeroTimes(m);
    }
  }

  /** Different multipliers give a nonzero block different products. */
  lemma MultipliersDiffer(a: Block, b: Block, d: Block)
    requires d != Zero() && GfMul(a, d) == GfMul(b, d)
    ensures a == b
  {
    hide GfMul, Xor;
    Distributes(a, b, d);
    XorZero(GfMul(a, d));
    NoZeroDivisors(Xor(a, b), d);
    XorZero(a);
    XorBack(a, b, a);
  }
}

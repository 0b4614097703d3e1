/** Polynomials over the integers modulo a prime: a nonzero one of degree d has at most d roots. */
module PrimeField {
  import opened ModRing

  ghost predicate IsPrime(q: nat) {
    q > 1 && forall d :: 1 < d < q ==> q % d != 0
  }

  // ----------------------------------------------------------------------
  // A prime that divides a product divides a factor

  /** The smallest positive multiplier that makes b divisible by q. */
  ghost predicate Smallest(m: nat, b: int, q: nat) {
    q > 0 && m > 0 && (m * b) % q == 0 && forall k :: 0 < k < m ==> (k * b) % q != 0
  }

  lemma {:induction false} SmallestExists(n: nat, b: int, q: nat) returns (m: nat)
    requires q > 0 && n > 0 && (n * b) % q == 0
    ensures Smallest(m, b, q) && m <= n
    decreases n
  {
    if k :| 0 < k < n && (k * b) % q == 0 {
      m := SmallestExists(k, b, q);
    } else {
      m := n;
    }
  }

  /** It divides every other multiplier. */
  lemma SmallestDivides(m: nat, b: int, q: nat, n: nat)
    requires Smallest(m, b, q) && (n * b) % q == 0
    ensures n % m == 0
  {
    var k, r := n / m, n % m;
    assert n == m * k + r;
    if r > 0 {
      assert r * b == n * b - k * (m * b);
      Canonical(0, q);
      Scale(k, m * b, 0, q);
      Add(n * b, 0, k * (m * b), k * 0, q);
    }
  }

  lemma PrimeDivides(a: int, b: int, q: nat)
    requires IsPrime(q) && (a * b) % q == 0
    ensures a % q == 0 || b % q == 0
  {
    var a' := a % q;
    Reduce(a, q);
    Canonical(0, q);
    Times(a', a, b, b, q);
    assert q * b == b * q;
    FromQuotient(q * b, 0, b, q);
    var m := SmallestExists(q, b, q);
    SmallestDivides(m, b, q, q);
    SmallestDivides(m, b, q, a');
    if m == 1 {
      assert 1 * b == b;
    } else {
      assert m == q;
    }
  }

  // ----------------------------------------------------------------------
  // Polynomials, constant term first

  type Poly = seq<int>

  function Eval(p: Poly, x: int): int {
    if p == [] then 0 else p[0] + x * Eval(p[1..], x)
  }

  ghost predicate ZeroPoly(p: Poly, q: nat)
    requires q > 0
  {
    forall i :: 0 <= i < |p| ==> Eqv(p[i], 0, q)
  }

  lemma {:induction false} ZeroEverywhere(p: Poly, x: int, q: nat)
    requires q > 0 && ZeroPoly(p, q)
    ensures Eqv(Eval(p, x), 0, q)
  {
    if p != [] {
      assert forall i :: 0 <= i < |p[1..]| ==> p[1..][i] == p[i + 1];
      ZeroEverywhere(p[1..], x, q);
      Scale(x, Eval(p[1..], x), 0, q);
      Add(p[0], 0, x * Eval(p[1..], x), x * 0, q);
    }
  }

  /** The quotient of p by (X - r). */
  function Quot(p: Poly, r: int): (d: Poly)
    ensures |d| == if p == [] then 0 else |p| - 1
  {
    if |p| <= 1 then [] else [Eval(p[1..], r)] + Quot(p[1..], r)
  }

  /** p(x) = (x - r) quot(x) + p(r) */
  lemma {:induction false} Factor(p: Poly, r: int, x: int)
    ensures Eval(p, x) == (x - r) * Eval(Quot(p, r), x) + Eval(p, r)
  {
    if |p| > 1 {
      Factor(p[1..], r, x);
      var d, c := Eval(Quot(p[1..], r), x), Eval(p[1..], r);
      assert Quot(p, r)[1..] == Quot(p[1..], r);
      assert Eval(Quot(p, r), x) == c + x * d;
      FactorStep(p[0], x, r, d, c);
    } else if |p| == 1 {
      assert p[1..] == [];
    }
  }

  lemma FactorStep(p0: int, x: int, r: int, d: int, c: int)
    ensures p0 + x * ((x - r) * d + c) == (x - r) * (c + x * d) + (p0 + r * c)
  {
  }

  /** When the quotient and the value at r vanish, so does the polynomial. */
  lemma {:induction false} ZeroFromQuot(p: Poly, r: int, q: nat)
    requires q > 0 && ZeroPoly(Quot(p, r), q) && Eqv(Eval(p, r), 0, q)
    ensures ZeroPoly(p, q)
  {
    if |p| == 1 {
      assert p[1..] == [] && Eval(p, r) == p[0];
    } else if |p| > 1 {
      var d := Quot(p, r);
      assert d[1..] == Quot(p[1..], r);
      assert forall i :: 0 <= i < |d[1..]| ==> d[1..][i] == d[i + 1];
      assert Eqv(d[0], 0, q);
      ZeroFromQuot(p[1..], r, q);
      Scale(r, Eval(p[1..], r), 0, q);
      Add(Eval(p, r), 0, r * Eval(p[1..], r), r * 0, q);
      forall i | 0 <= i < |p| ensures Eqv(p[i], 0, q) {
        if i > 0 {
          assert p[i] == p[1..][i - 1];
        }
      }
    }
  }

  /** Distinct residues at which the polynomial vanishes. */
  ghost predicate Roots(p: Poly, S: set<int>, q: nat)
    requires q > 0
  {
    forall x :: x in S ==> 0 <= x < q && Eqv(Eval(p, x), 0, q)
  }

  lemma RootOfQuot(p: Poly, r: int, x: int, q: nat)
    requires IsPrime(q) && 0 <= r < q && 0 <= x < q && x != r && Eqv(Eval(p, r), 0, q) && Eqv(Eval(p, x), 0, q)
    ensures Eqv(Eval(Quot(p, r), x), 0, q)
  {
    Factor(p, r, x);
    Add(Eval(p, x), 0, Eval(p, r), 0, q);
    Canonical(0, q);
    PrimeDivides(x - r, Eval(Quot(p, r), x), q);
    if (x - r) % q == 0 {
      var k := Quotient(x - r, 0, q);
      if k >= 1 { Gap(q, 0, k); } else if k <= -1 { Gap(q, k, 0); }
    }
  }

  lemma SomeMember(S: set<int>)
    ensures S == {} || exists r :: r in S
  {
    if forall r: int :: r !in S {
      assert S <= {};
    }
  }

  /** As many roots as coefficients: every coefficient is zero. */
  lemma {:induction false} TooManyRoots(p: Poly, S: set<int>, q: nat)
    requires IsPrime(q) && Roots(p, S, q) && |S| >= |p|
    ensures ZeroPoly(p, q)
    decreases |p|
  {
    if p != [] {
      SomeMember(S);
      var r :| r in S;
      var S', d := S - {r}, Quot(p, r);
      forall x | x in S' ensures 0 <= x < q && Eqv(Eval(d, x), 0, q) {
        RootOfQuot(p, r, x, q);
      }
      TooManyRoots(d, S', q);
      ZeroFromQuot(p, r, q);
    }
  }

  // ----------------------------------------------------------------------
  // Products of linear factors

  /** (x - a_0)(x - a_1)... */
  function ProductAt(as_: seq<int>, x: int): int {
    if as_ == [] then 1 else (x - as_[0]) * ProductAt(as_[1..], x)
  }

  /** The coefficients of (X - r) p. */
  function MulLinear(p: Poly, r: int): (m: Poly)
    ensures |m| == |p| + 1
  {
    if p == [] then [0] else
      var rest := MulLinear(p[1..], r);
      [0 - r * p[0]] + rest[0 := rest[0] + p[0]]
  }

  lemma {:induction false} MulLinearEval(p: Poly, r: int, x: int)
    ensures Eval(MulLinear(p, r), x) == (x - r) * Eval(p, x)
  {
    if p == [] {
      assert Eval([0], x) == 0 + x * Eval([], x);
      assert [0][1..] == [];
    } else {
      MulLinearEval(p[1..], r, x);
      var rest := MulLinear(p[1..], r);
      var bumped := rest[0 := rest[0] + p[0]];
      assert bumped[1..] == rest[1..];
      assert MulLinear(p, r)[1..] == bumped;
      assert Eval(bumped, x) == Eval(rest, x) + p[0];
      LinearStep(p[0], x, r, Eval(p[1..], x));
    }
  }

  lemma LinearStep(p0: int, x: int, r: int, e: int)
    ensures (0 - r * p0) + x * ((x - r) * e + p0) == (x - r) * (p0 + x * e)
  {
  }

  function FromRoots(as_: seq<int>): (p: Poly)
    ensures |p| == |as_| + 1
  {
    if as_ == [] then [1] else MulLinear(FromRoots(as_[1..]), as_[0])
  }

  lemma {:induction false} FromRootsEval(as_: seq<int>, x: int)
    ensures Eval(FromRoots(as_), x) == ProductAt(as_, x)
  {
    if as_ == [] {
      assert [1][1..] == [];
      assert Eval([1], x) == 1 + x * Eval([], x);
    } else {
      FromRootsEval(as_[1..], x);
      MulLinearEval(FromRoots(as_[1..]), as_[0], x);
    }
  }

  lemma {:induction false} MulLinearTop(p: Poly, r: int)
    requires |p| > 0
    ensures MulLinear(p, r)[|p|] == p[|p| - 1]
  {
    if |p| == 1 {
      assert MulLinear(p[1..], r) == [0];
    } else {
      MulLinearTop(p[1..], r);
    }
  }

  lemma {:induction false} FromRootsMonic(as_: seq<int>)
    ensures FromRoots(as_)[|as_|] == 1
  {
    if as_ != [] {
      FromRootsMonic(as_[1..]);
      MulLinearTop(FromRoots(as_[1..]), as_[0]);
    }
  }

  function Minus(p: Poly, p': Poly): (d: Poly)
    requires |p| == |p'|
    ensures |d| == |p|
  {
    seq(|p|, i requires 0 <= i < |p| => p[i] - p'[i])
  }

  lemma {:induction false} MinusEval(p: Poly, p': Poly, x: int)
    requires |p| == |p'|
    ensures Eval(Minus(p, p'), x) == Eval(p, x) - Eval(p', x)
  {
    if p != [] {
      MinusEval(p[1..], p'[1..], x);
      assert Minus(p, p')[1..] == Minus(p[1..], p'[1..]);
      assert x * (Eval(p[1..], x) - Eval(p'[1..], x)) == x * Eval(p[1..], x) - x * Eval(p'[1..], x);
    }
  }

  lemma {:induction false} DropZeroTop(p: Poly, x: int)
    requires |p| > 0 && p[|p| - 1] == 0
    ensures Eval(p[..|p| - 1], x) == Eval(p, x)
  {
    if |p| == 1 {
      assert p[1..] == [];
    } else {
      DropZeroTop(p[1..], x);
      assert p[..|p| - 1][1..] == p[1..][..|p| - 2];
    }
  }

  /** The difference of two monic products of n factors has only n coefficients. */
  lemma Difference(as_: seq<int>, bs: seq<int>) returns (d: Poly)
    requires |as_| == |bs|
    ensures |d| == |as_| && forall x :: Eval(d, x) == ProductAt(as_, x) - ProductAt(bs, x)
  {
    var n := |as_|;
    var full := Minus(FromRoots(as_), FromRoots(bs));
    FromRootsMonic(as_);
    FromRootsMonic(bs);
    d := full[..n];
    forall x ensures Eval(d, x) == ProductAt(as_, x) - ProductAt(bs, x) {
      FromRootsEval(as_, x);
      FromRootsEval(bs, x);
      MinusEval(FromRoots(as_), FromRoots(bs), x);
      DropZeroTop(full, x);
    }
  }

  /** n points of agreement make the two products agree everywhere. */
  lemma AgreeEverywhere(as_: seq<int>, bs: seq<int>, S: set<int>, x: int, q: nat)
    requires IsPrime(q) && |as_| == |bs| <= |S|
    requires forall y :: y in S ==> 0 <= y < q && Eqv(ProductAt(as_, y), ProductAt(bs, y), q)
    ensures Eqv(ProductAt(as_, x), ProductAt(bs, x), q)
  {
    var d := Difference(as_, bs);
    forall y | y in S ensures 0 <= y < q && Eqv(Eval(d, y), 0, q) {
      Add(ProductAt(as_, y), ProductAt(bs, y), ProductAt(bs, y), ProductAt(bs, y), q);
    }
    TooManyRoots(d, S, q);
    ZeroEverywhere(d, x, q);
    Add(Eval(d, x), 0, ProductAt(bs, x), ProductAt(bs, x), q);
  }

  /** A vanishing product has a vanishing factor. */
  lemma {:induction false} FindRoot(bs: seq<int>, x: int, q: nat) returns (j: nat)
    requires IsPrime(q) && 0 <= x < q && Eqv(ProductAt(bs, x), 0, q) && forall i :: 0 <= i < |bs| ==> 0 <= bs[i] < q
    ensures j < |bs| && bs[j] == x
  {
    Canonical(0, q);
    if bs == [] {
      Canonical(1, q);
      assert false;
    } else {
      PrimeDivides(x - bs[0], ProductAt(bs[1..], x), q);
      if (x - bs[0]) % q == 0 {
        var k := Quotient(x - bs[0], 0, q);
        if k >= 1 { Gap(q, 0, k); } else if k <= -1 { Gap(q, k, 0); }
        j := 0;
      } else {
        j := FindRoot(bs[1..], x, q);
        j := j + 1;
      }
    }
  }

  lemma {:induction false} ProductWithout(bs: seq<int>, j: nat, x: int)
    requires j < |bs|
    ensures ProductAt(bs, x) == (x - bs[j]) * ProductAt(bs[..j] + bs[j + 1..], x)
  {
    if j == 0 {
      assert bs[..0] + bs[1..] == bs[1..];
    } else {
      ProductWithout(bs[1..], j - 1, x);
      var rest := bs[1..][..j - 1] + bs[1..][j..];
      assert bs[..j] + bs[j + 1..] == [bs[0]] + rest;
      assert ([bs[0]] + rest)[1..] == rest;
      Swap(x - bs[0], x - bs[j], ProductAt(rest, x));
    }
  }

  lemma Swap(a: int, b: int, c: int)
    ensures a * (b * c) == b * (a * c)
  {
  }

  lemma PrimePositive(q: nat)
    requires IsPrime(q)
    ensures q > 1
  {
  }

  lemma CancelFactor(a: int, b: int, c: int, q: nat)
    requires IsPrime(q) && c % q != 0 && Eqv(c * a, c * b, q)
    ensures Eqv(a, b, q)
  {
    hide Eqv, IsPrime;
    PrimePositive(q);
    var p, p' := c * a, c * b;
    Reflexive(p', q);
    Add(p, p', p', p', q);
    Times0(c, a, b);
    ZeroClass(c * (a - b), q);
    PrimeDivides(c, a - b, q);
    ZeroClass(a - b, q);
    Reflexive(b, q);
    Add(a - b, 0, b, b, q);
  }

  lemma Times0(c: int, a: int, b: int)
    ensures c * (a - b) == c * a - c * b
  {
  }

  lemma ZeroClass(a: int, q: nat)
    requires q > 0
    ensures Eqv(a, 0, q) <==> a % q == 0
  {
    Canonical(0, q);
  }

  /** Products that agree at n distinct points come from the same n roots. */
  lemma {:induction false} SameRoots(as_: seq<int>, bs: seq<int>, S: set<int>, q: nat)
    requires IsPrime(q) && |as_| == |bs| <= |S|
    requires forall i :: 0 <= i < |as_| ==> 0 <= as_[i] < q
    requires forall i :: 0 <= i < |bs| ==> 0 <= bs[i] < q
    requires forall y :: y in S ==> 0 <= y < q && Eqv(ProductAt(as_, y), ProductAt(bs, y), q)
    ensures multiset(as_) == multiset(bs)
    decreases |as_|
  {
    if as_ != [] {
      var a, rest := as_[0], as_[1..];
      AgreeEverywhere(as_, bs, S, a, q);
      assert ProductAt(as_, a) == 0 * ProductAt(rest, a) == 0;
      var j := FindRoot(bs, a, q);
      var others := bs[..j] + bs[j + 1..];
      forall y | y in S - {a} ensures 0 <= y < q && Eqv(ProductAt(rest, y), ProductAt(others, y), q) {
        ProductWithout(bs, j, y);
        Nonzero(y, a, q);
        CancelFactor(ProductAt(rest, y), ProductAt(others, y), y - a, q);
      }
      SameRoots(rest, others, S - {a}, q);
      assert as_ == [a] + rest && bs == bs[..j] + [bs[j]] + bs[j + 1..];
    }
  }

  lemma Nonzero(y: int, a: int, q: nat)
    requires q > 0 && 0 <= y < q && 0 <= a < q && y != a
    ensures (y - a) % q != 0
  {
    if (y - a) % q == 0 {
      Canonical(0, q);
      var k := Quotient(y - a, 0, q);
      if k >= 1 { Gap(q, 0, k); } else if k <= -1 { Gap(q, k, 0); }
    }
  }
}

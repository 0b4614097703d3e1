/** Machine words as bit sequences, least significant bit first. */
module Words {

  type Bits = seq<bool>

  const U32: nat := 0x1_0000_0000
  const U64: nat := 0x1_0000_0000_0000_0000

  /** The largest 64-bit key, which the padding sentinels carry. */
  const MAX_KEY: nat := 0xFFFF_FFFF_FFFF_FFFF

  /** 2^n */
  function Pow2(n: nat): (r: nat)
    ensures r >= 1
  {
    if n == 0 then 1 else 2 * Pow2(n - 1)
  }

  /** Division by a positive number stays a natural number, no larger. */
  lemma QuotientBounds(a: nat, b: nat)
    requires b > 0
    ensures 0 <= a / b <= a
  {
    var q, r := a / b, a % b;
    assert a == b * q + r;
    if q < 0 {
      MulGap(b, q, 0);
    } else {
      MulNonneg(b - 1, q);
      assert b * q == (b - 1) * q + q;
    }
  }

  function Div(a: nat, b: nat): (q: nat)
    requires b > 0
  {
    QuotientBounds(a, b);
    a / b
  }

  function NatProduct(a: nat, b: nat): nat {
    MulNonneg(a, b);
    a * b
  }

  lemma NatProductStep(a: nat, b: nat)
    ensures NatProduct(0, b) == 0 && NatProduct(a + 1, b) == NatProduct(a, b) + b
  {
  }

  lemma NatProductIs(a: nat, b: nat)
    ensures NatProduct(a, b) == a * b
  {
  }

  function Bit(b: bool): nat {
    if b then 1 else 0
  }

  /** The number a bit sequence stands for. */
  function ToNat(b: Bits): nat {
    if b == [] then 0 else Bit(b[0]) + 2 * ToNat(b[1..])
  }

  /** The low `n` bits of `v`. */
  function FromNat(v: nat, n: nat): (b: Bits)
    ensures |b| == n
  {
    if n == 0 then [] else [v % 2 == 1] + FromNat(v / 2, n - 1)
  }

  function Repeat<T>(x: T, n: nat): (s: seq<T>)
    ensures |s| == n
    ensures forall i :: 0 <= i < n ==> s[i] == x
  {
    seq(n, _ => x)
  }

  lemma {:induction false} Pow2Adds(a: nat, b: nat)
    ensures Pow2(a + b) == Pow2(a) * Pow2(b)
  {
    if a > 0 {
      Pow2Adds(a - 1, b);
    }
  }

  lemma {:induction false} Pow2Monotone(a: nat, b: nat)
    requires a <= b
    ensures Pow2(a) <= Pow2(b)
    decreases b
  {
    if a < b {
      Pow2Monotone(a, b - 1);
    }
  }

  lemma Pow2At64()
    ensures Pow2(32) == 0x1_0000_0000
    ensures Pow2(40) == 0x100_0000_0000
    ensures Pow2(64) == 0x1_0000_0000_0000_0000
  {
    assert Pow2(8) == 256;
    assert Pow2(16) == 65536;
    assert Pow2(24) == 0x100_0000;
    assert Pow2(32) == 0x1_0000_0000;
    assert Pow2(40) == 0x100_0000_0000;
    assert Pow2(48) == 0x1_0000_0000_0000;
    assert Pow2(56) == 0x100_0000_0000_0000;
  }

  lemma Pow2At128()
    ensures Pow2(128) == 0x1_0000_0000_0000_0000_0000_0000_0000_0000
  {
    Pow2At64();
    Pow2Adds(64, 64);
  }

  lemma {:induction false} ToNatBound(b: Bits)
    ensures ToNat(b) < Pow2(|b|)
  {
    if b != [] {
      ToNatBound(b[1..]);
    }
  }

  lemma {:induction false} ToNatConcat(a: Bits, b: Bits)
    ensures ToNat(a + b) == ToNat(a) + Pow2(|a|) * ToNat(b)
  {
    hide ToNat, Pow2;
    ToNatUnfolds(a);
    if a == [] {
      assert a + b == b;
    } else {
      ToNatUnfolds(a + b);
      assert (a + b)[1..] == a[1..] + b;
      ToNatConcat(a[1..], b);
      Shifted(|a|, ToNat(b));
    }
  }

  lemma ToNatUnfolds(b: Bits)
    ensures ToNat(b) == if b == [] then 0 else Bit(b[0]) + 2 * ToNat(b[1..])
    ensures Pow2(0) == 1
  {
  }

  lemma Shifted(n: nat, v: nat)
    requires n > 0
    ensures Pow2(n) * v == 2 * (Pow2(n - 1) * v)
  {
  }

  lemma ToNatSnoc(a: Bits, x: bool)
    ensures ToNat(a + [x]) == ToNat(a) + Pow2(|a|) * Bit(x)
  {
    ToNatConcat(a, [x]);
    assert ToNat([x]) == Bit(x);
  }

  /** Words of one width are equal exactly when their values are. */
  lemma {:induction false} ToNatInjective(a: Bits, b: Bits)
    requires |a| == |b|
    ensures ToNat(a) == ToNat(b) <==> a == b
  {
    if a != [] {
      ToNatInjective(a[1..], b[1..]);
      assert a == [a[0]] + a[1..] && b == [b[0]] + b[1..];
    }
  }

  /** Dropping the low `k` bits divides by 2^k; keeping them takes the remainder. */
  lemma ToNatSplit(b: Bits, k: nat)
    requires k <= |b|
    ensures ToNat(b) == ToNat(b[..k]) + Pow2(k) * ToNat(b[k..])
    ensures ToNat(b[k..]) == ToNat(b) / Pow2(k)
    ensures ToNat(b[..k]) == ToNat(b) % Pow2(k)
  {
    assert b == b[..k] + b[k..];
    ToNatConcat(b[..k], b[k..]);
    ToNatBound(b[..k]);
    DivModUnique(ToNat(b), Pow2(k), ToNat(b[k..]), ToNat(b[..k]));
  }

  lemma MulNonneg(x: nat, y: nat)
    ensures 0 <= x * y
  {
  }

  lemma MulGap(d: nat, a: int, b: int)
    requires a < b
    ensures d * a + d <= d * b
  {
    MulNonneg(d, b - a - 1);
  }

  lemma DivModUnique(n: int, d: nat, q: int, r: nat)
    requires d > 0 && r < d && n == r + d * q
    ensures q == n / d && r == n % d
  {
    var q', r' := n / d, n % d;
    assert n == d * q' + r';
    if q < q' {
      MulGap(d, q, q');
    } else if q > q' {
      MulGap(d, q', q);
    }
  }

  lemma {:induction false} ToNatZeros(n: nat)
    ensures ToNat(Repeat(false, n)) == 0
  {
    if n > 0 {
      assert Repeat(false, n)[1..] == Repeat(false, n - 1);
      ToNatZeros(n - 1);
    }
  }

  lemma {:induction false} ToNatOnes(n: nat)
    ensures ToNat(Repeat(true, n)) == Pow2(n) - 1
  {
    if n > 0 {
      assert Repeat(true, n)[1..] == Repeat(true, n - 1);
      ToNatOnes(n - 1);
    }
  }

  lemma {:induction false} FromNatValue(v: nat, n: nat)
    ensures ToNat(FromNat(v, n)) == v % Pow2(n)
  {
    if n > 0 {
      FromNatValue(v / 2, n - 1);
      assert FromNat(v, n)[1..] == FromNat(v / 2, n - 1);
      HalfMod(v, Pow2(n - 1));
    }
  }

  lemma HalfMod(v: nat, p: nat)
    requires p > 0
    ensures v % (2 * p) == v % 2 + 2 * (v / 2 % p)
  {
    var q, r := v / 2 / p, v / 2 % p;
    assert v / 2 == p * q + r;
    assert v == (v % 2 + 2 * r) + (2 * p) * q;
    DivModUnique(v, 2 * p, q, v % 2 + 2 * r);
  }

  lemma FromNatOfToNat(b: Bits)
    ensures FromNat(ToNat(b), |b|) == b
  {
    hide ToNat, FromNat, Pow2;
    ToNatBound(b);
    FromNatValue(ToNat(b), |b|);
    DivModUnique(ToNat(b), Pow2(|b|), 0, ToNat(b));
    ToNatInjective(FromNat(ToNat(b), |b|), b);
  }

  lemma Regroup(a: Bits, b: bool, c: Bits)
    ensures a + ([b] + c) == (a + [b]) + c
  {
  }
}

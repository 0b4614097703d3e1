/** Addition, subtraction and multiplication on shared 128-bit words. */
module Wide {
  import opened Outcomes
  import opened Words
  import opened Shares
  import opened Arithmetic

  const WIDTH: nat := 128
  const ADD128_COST: nat := 3 * 128

  predicate Word128(w: Shared, n: nat) {
    n >= 1 && |w| == WIDTH && Shaped(w, n)
  }

  /** 2^128 */
  function Modulus(): (m: nat)
    ensures m > 0
  {
    Pow2(WIDTH)
  }

  // ----------------------------------------------------------------------
  // Ripple-carry with three triples a bit

  /** carry = g XOR t XOR (g AND t), for g = x AND y and t = c AND (x XOR y). */
  method FullAdder3(x: SharedBit, y: SharedBit, c: SharedBit, bag: TripleBag)
    returns (r: Result<(SharedBit, SharedBit)>)
    requires x.N() == y.N() == c.N() && bag.Honest(x.N())
    modifies bag
    ensures r.Success? <==> old(bag.index) + 3 <= |bag.triples|
    ensures r.Success? ==> bag.index == old(bag.index) + 3
    ensures r.Success? ==> r.value.0.N() == r.value.1.N() == x.N()
    ensures r.Success? ==> r.value.0.Open() == ((x.Open() != y.Open()) != c.Open())
    ensures r.Success? ==> r.value.1.Open() == ((x.Open() && y.Open()) != ((x.Open() != y.Open()) && c.Open()))
  {
    if bag.index + 3 > |bag.triples| {
      return Failure("triple bag exhausted (bitAdd128)");
    }
    var ab := XorShared(x, y);
    var sum := XorShared(ab, c);
    var i := bag.index;
    bag.index := i + 3;
    var andAb := SecureAnd(x, y, bag.triples[i]);
    var andCab := SecureAnd(c, ab, bag.triples[i + 1]);
    var orA := XorShared(andAb, andCab);
    var orB := SecureAnd(andAb, andCab, bag.triples[i + 2]);
    r := Success((sum, XorShared(orA, orB)));
  }

  method Ripple128(x: Shared, y: Shared, carryIn: SharedBit, ghost cin: nat, bag: TripleBag) returns (r: Result<AddResult>)
    requires Word128(x, carryIn.N()) && Word128(y, carryIn.N()) && bag.Honest(carryIn.N()) && cin == Bit(carryIn.Open())
    modifies bag
    ensures r.Success? <==> old(bag.index) + ADD128_COST <= |bag.triples|
    ensures r.Success? ==> bag.index == old(bag.index) + ADD128_COST
    ensures r.Success? ==> Word128(r.value.sum, carryIn.N()) && r.value.carryOut.N() == carryIn.N()
    ensures r.Success? ==> Summed(Open(x), Open(y), Open(r.value.sum), r.value.carryOut.Open(), cin)
  {
    NoBitsSummed(Open(x), Open(y), carryIn.Open());
    hide Summed;
    var sum: Shared, carry := [], carryIn;
    for i := 0 to 128
      invariant |sum| == i && Shaped(sum, carryIn.N()) && carry.N() == carryIn.N()
      invariant bag.index == old(bag.index) + 3 * i && (i > 0 ==> bag.index <= |bag.triples|)
      invariant Summed(Open(x), Open(y), Open(sum), carry.Open(), cin)
    {
      var both :- FullAdder3(x[i], y[i], carry, bag);
      AdderStep(Open(x), Open(y), Open(sum), both.0.Open(), carry.Open(), both.1.Open(), cin);
      OpenSnoc(sum, both.0);
      sum, carry := sum + [both.0], both.1;
    }
    r := Success(AddResult(sum, carry));
  }

  lemma NoBitsSummed(x: Bits, y: Bits, c: bool)
    requires |x| == |y|
    ensures Summed(x, y, [], c, Bit(c))
  {
    assert x[..0] == [] && y[..0] == [];
    assert Pow2(0) == 1;
  }

  method BitAdd128(x: Shared, y: Shared, bag: TripleBag) returns (r: Result<Shared>)
    requires |x| == WIDTH && Word128(x, x[0].N()) && Word128(y, x[0].N()) && bag.Honest(x[0].N())
    modifies bag
    ensures r.Success? <==> old(bag.index) + ADD128_COST <= |bag.triples|
    ensures r.Success? ==> bag.index == old(bag.index) + ADD128_COST
    ensures r.Success? ==> Word128(r.value, x[0].N()) && Value(r.value) == (Value(x) + Value(y)) % Modulus()
  {
    hide Pow2, ToNat;
    var sum :- Ripple128(x, y, Zero(x[0].N()), 0, bag);
    FullSum(Open(x), Open(y), Open(sum.sum), sum.carryOut.Open(), 0);
    Wrapped(Open(sum.sum), sum.carryOut.Open(), Value(x) + Value(y));
    r := Success(sum.sum);
  }

  /** Takes its triples unchecked: the caller must have provided them. */
  method BitSub128(x: Shared, y: Shared, bag: TripleBag) returns (out: Shared)
    requires |x| == WIDTH && Word128(x, x[0].N()) && Word128(y, x[0].N()) && bag.Honest(x[0].N())
    requires bag.index + ADD128_COST <= |bag.triples|
    modifies bag
    ensures bag.index == old(bag.index) + ADD128_COST
    ensures Word128(out, x[0].N())
    ensures Value(out) == if Value(x) >= Value(y) then Value(x) - Value(y) else Modulus() + Value(x) - Value(y)
  {
    hide Pow2, ToNat;
    var n := x[0].N();
    var ny: Shared := [];
    for i := 0 to 128
      invariant |ny| == i && Shaped(ny, n) && bag.index == old(bag.index)
      invariant forall k :: 0 <= k < i ==> ny[k].Open() == !y[k].Open()
    {
      ny := ny + [XorConst(y[i], true)];
    }
    assert Open(ny) == Not(Open(y));
    var sum := Ripple128(x, ny, Public(n, true), 1, bag);
    out := sum.value.sum;
    FullSum(Open(x), Open(ny), Open(out), sum.value.carryOut.Open(), 1);
    Subtraction(Open(x), Open(y), Open(out), sum.value.carryOut.Open());
  }

  // ----------------------------------------------------------------------
  // Multiplication

  /** Triples for the first i rounds: 128 - j muxes and one addition in round j. */
  function MulCost(i: nat): nat
    requires i <= WIDTH
  {
    if i == 0 then 0 else MulCost(i - 1) + (WIDTH - (i - 1)) + ADD128_COST
  }

  const MUL128_COST: nat := 57408

  lemma {:induction false} MulCostClosed(i: nat)
    requires i <= WIDTH
    ensures 2 * MulCost(i) == i * (1025 - i)
  {
    hide MulCost;
    MulCostUnfolds(i);
    if i > 0 {
      MulCostClosed(i - 1);
      assert i * (1025 - i) == (i - 1) * (1025 - (i - 1)) + 1026 - 2 * i;
    }
  }

  lemma MulCostUnfolds(i: nat)
    requires i <= WIDTH
    ensures MulCost(i) == if i == 0 then 0 else MulCost(i - 1) + (WIDTH - (i - 1)) + ADD128_COST
  {
  }

  /** y_i ? x << i : 0, cut to 128 bits. */
  method PartialProduct(x: Shared, yi: SharedBit, i: nat, bag: TripleBag) returns (r: Result<Shared>)
    requires i < WIDTH && Word128(x, yi.N()) && bag.Honest(yi.N())
    modifies bag
    ensures r.Success? <==> old(bag.index) + (WIDTH - i) <= |bag.triples|
    ensures r.Success? ==> bag.index == old(bag.index) + (WIDTH - i)
    ensures r.Success? ==> Word128(r.value, yi.N())
    ensures r.Success? ==> Value(r.value) == Bit(yi.Open()) * (Pow2(i) * Value(x)) % Modulus()
  {
    hide ToNat, Pow2;
    var partial: Shared := [];
    for j := 0 to 128
      invariant |partial| == j && Shaped(partial, yi.N())
      invariant bag.index == old(bag.index) + (if j < i then 0 else j - i) && (j > i ==> bag.index <= |bag.triples|)
      invariant forall k :: 0 <= k < j ==> partial[k].Open() == (k >= i && yi.Open() && x[k - i].Open())
    {
      if j < i {
        partial := partial + [Zero(yi.N())];
      } else {
        var bit :- bag.And(yi, x[j - i]);
        partial := partial + [bit];
      }
    }
    ShiftedValue(Open(partial), Open(x), yi.Open(), i);
    r := Success(partial);
  }

  lemma ShiftedValue(p: Bits, x: Bits, on: bool, i: nat)
    requires |p| == |x| == WIDTH && i < WIDTH
    requires forall k :: 0 <= k < WIDTH ==> p[k] == (k >= i && on && x[k - i])
    ensures ToNat(p) == Bit(on) * (Pow2(i) * ToNat(x)) % Modulus()
  {
    if on {
      ShiftedUp(p, x, i);
    } else {
      hide ToNat, Pow2;
      assert p == Repeat(false, WIDTH);
      ToNatZeros(WIDTH);
      DivModUnique(0, Modulus(), 0, 0);
    }
  }

  lemma ShiftedUp(p: Bits, x: Bits, i: nat)
    requires |p| == |x| == WIDTH && i < WIDTH
    requires forall k :: 0 <= k < WIDTH ==> p[k] == (k >= i && x[k - i])
    ensures ToNat(p) == 1 * (Pow2(i) * ToNat(x)) % Modulus()
  {
    hide ToNat, Pow2;
    var low := x[..WIDTH - i];
    assert p == Repeat(false, i) + low;
    ToNatConcat(Repeat(false, i), low);
    ToNatZeros(i);
    ToNatSplit(x, WIDTH - i);
    Pow2Adds(i, WIDTH - i);
    ToNatBound(p);
    ShiftMod(Pow2(i), Pow2(WIDTH - i), ToNat(low), ToNat(x[WIDTH - i..]), ToNat(p), ToNat(x), Modulus());
  }

  lemma ShiftMod(a: nat, b: nat, lo: nat, hi: nat, p: nat, x: nat, m: nat)
    requires m == a * b && m > 0 && x == lo + b * hi && p == a * lo && p < m
    ensures p == 1 * (a * x) % m
  {
    Distribute(a, b, lo, hi);
    var y := a * x;
    Remainder(y, m, hi, p);
  }

  lemma Distribute(a: nat, b: nat, lo: nat, hi: nat)
    ensures a * (lo + b * hi) == a * lo + a * b * hi
  {
    assert a * (b * hi) == a * b * hi;
  }

  lemma Remainder(y: nat, m: nat, q: nat, r: nat)
    requires m > 0 && r < m && y == r + m * q
    ensures r == 1 * y % m
  {
    DivModUnique(y, m, q, r);
  }

  lemma Divide(a: nat, m: nat) returns (q: nat, r: nat)
    requires m > 0
    ensures q == a / m && r == a % m && a == m * q + r && r < m
  {
    q, r := a / m, a % m;
  }

  lemma SumOfMultiples(m: nat, a: nat, b: nat, c: nat)
    ensures m * a + m * b + m * c == m * (a + b + c)
  {
  }

  lemma ModAdd(a: nat, b: nat, m: nat)
    requires m > 0
    ensures (a % m + b % m) % m == (a + b) % m
  {
    var qa, ra := Divide(a, m);
    var qb, rb := Divide(b, m);
    var q, r := Divide(ra + rb, m);
    SumOfMultiples(m, qa, qb, q);
    DivModUnique(a + b, m, qa + qb + q, r);
  }

  /** One round: acc + partial is the product with one more bit of y. */
  lemma MulRound(x: nat, y: Bits, i: nat, acc: nat, partial: nat, acc': nat, m: nat)
    requires i < |y| && m > 0
    requires acc == x * ToNat(y[..i]) % m && partial == Bit(y[i]) * (Pow2(i) * x) % m && acc' == (acc + partial) % m
    ensures acc' == x * ToNat(y[..i + 1]) % m
  {
    hide Pow2, ToNat;
    TakeStep(y, i);
    var low, bit := ToNat(y[..i]), Bit(y[i]);
    Factor(x, low, Pow2(i), bit);
    SumOfResidues(x * low, bit * (Pow2(i) * x), x * ToNat(y[..i + 1]), acc, partial, acc', m);
  }

  lemma SumOfResidues(a: nat, b: nat, c: nat, acc: nat, partial: nat, acc': nat, m: nat)
    requires m > 0 && a + b == c
    requires acc == a % m && partial == b % m && acc' == (acc + partial) % m
    ensures acc' == c % m
  {
    ModAdd(a, b, m);
  }

  lemma Factor(x: nat, low: nat, p: nat, bit: nat)
    ensures x * low + bit * (p * x) == x * (low + p * bit)
  {
  }

  method BitMul128(x: Shared, y: Shared, bag: TripleBag) returns (r: Result<Shared>)
    requires |x| == WIDTH && Word128(x, x[0].N()) && Word128(y, x[0].N()) && bag.Honest(x[0].N())
    modifies bag
    ensures r.Success? <==> old(bag.index) + MUL128_COST <= |bag.triples|
    ensures r.Success? ==> bag.index == old(bag.index) + MUL128_COST
    ensures r.Success? ==> Word128(r.value, x[0].N()) && Value(r.value) == Value(x) * Value(y) % Modulus()
  {
    hide Pow2, ToNat, MulCost;
    var n := x[0].N();
    var acc := Zeros(WIDTH, n);
    MulStarts(Value(x), Open(y));
    for i := 0 to 128
      invariant Word128(acc, n)
      invariant bag.index == old(bag.index) + MulCost(i) && (i > 0 ==> bag.index <= |bag.triples|)
      invariant Value(acc) == Value(x) * ToNat(Open(y)[..i]) % Modulus()
    {
      MulCostGrows(i + 1);
      var partial :- PartialProduct(x, y[i], i, bag);
      var sum :- BitAdd128(acc, partial, bag);
      MulRound(Value(x), Open(y), i, Value(acc), Value(partial), Value(sum), Modulus());
      acc := sum;
    }
    MulCostGrows(WIDTH);
    assert Open(y)[..WIDTH] == Open(y);
    r := Success(acc);
  }

  lemma MulStarts(x: nat, y: Bits)
    ensures ToNat(Repeat(false, WIDTH)) == x * ToNat(y[..0]) % Modulus() && MulCost(0) == 0
  {
    hide Pow2;
    ToNatZeros(WIDTH);
    assert y[..0] == [];
    DivModUnique(0, Modulus(), 0, 0);
  }

  lemma {:induction false} MulCostGrows(i: nat)
    requires 1 <= i <= WIDTH
    ensures MulCost(i) == MulCost(i - 1) + (WIDTH - (i - 1)) + ADD128_COST
    ensures MulCost(i) <= MUL128_COST
    ensures i == WIDTH ==> MulCost(i) == MUL128_COST
    decreases WIDTH - i
  {
    if i < WIDTH {
      MulCostGrows(i + 1);
    } else {
      MulCostClosed(WIDTH);
    }
  }
}

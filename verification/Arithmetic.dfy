/** Addition, subtraction and long division on shared 64-bit words. */
module Arithmetic {
  import opened Outcomes
  import opened Words
  import opened Shares
  import opened Compare

  const ADD_COST: nat := 1 + 2 * 63
  const SUB_COST: nat := 2 * 64
  const DIVIDE_COST: nat := 64 * (SUB_COST + 64) + 63

  // ----------------------------------------------------------------------
  // The ripple-carry adder on opened bits

  lemma TakeStep(b: Bits, i: nat)
    requires i < |b|
    ensures ToNat(b[..i + 1]) == ToNat(b[..i]) + Pow2(i) * Bit(b[i])
  {
    assert b[..i + 1] == b[..i] + [b[i]];
    ToNatSnoc(b[..i], b[i]);
  }

  /** (sum so far) + carry == (x so far) + (y so far) + carry-in. */
  ghost predicate Summed(x: Bits, y: Bits, s: Bits, c: bool, cin: nat) {
    && |s| <= |x| == |y|
    && ToNat(s) + Pow2(|s|) * Bit(c) == ToNat(x[..|s|]) + ToNat(y[..|s|]) + cin
  }

  /** One full adder keeps the sum. */
  lemma AdderStep(x: Bits, y: Bits, s: Bits, bit: bool, c: bool, c': bool, cin: nat)
    requires Summed(x, y, s, c, cin) && |s| < |x|
    requires bit == ((x[|s|] != y[|s|]) != c)
    requires c' == ((x[|s|] && y[|s|]) != ((x[|s|] != y[|s|]) && c))
    ensures Summed(x, y, s + [bit], c', cin)
  {
    hide ToNat, Pow2;
    var i := |s|;
    TakeStep(x, i);
    TakeStep(y, i);
    ToNatSnoc(s, bit);
    Pow2Step(i);
    AtWeight(Pow2(i), Bit(x[i]), Bit(y[i]), Bit(c), Bit(bit), Bit(c'));
  }

  lemma Pow2Step(i: nat)
    ensures Pow2(i + 1) == 2 * Pow2(i)
  {
  }

  lemma AtWeight(p: nat, x: nat, y: nat, c: nat, bit: nat, c': nat)
    requires x + y + c == bit + 2 * c'
    ensures p * x + p * y + p * c == p * bit + (2 * p) * c'
  {
    assert p * (x + y + c) == p * (bit + 2 * c');
  }

  lemma FirstBit(x: Bits, y: Bits, s: Bits, c: bool)
    requires |x| == |y| > 0
    requires s == [x[0] != y[0]] && c == (x[0] && y[0])
    ensures Summed(x, y, s, c, 0)
  {
    assert x[..0] == [] && y[..0] == [];
    AdderStep(x, y, [], x[0] != y[0], false, c, 0);
    assert [] + [x[0] != y[0]] == s;
  }

  /** A full-width sum with its carry is the sum modulo 2^k. */
  lemma Wrapped(s: Bits, carry: bool, total: nat)
    requires ToNat(s) + Pow2(|s|) * Bit(carry) == total
    ensures ToNat(s) == total % Pow2(|s|)
    ensures carry <==> total >= Pow2(|s|)
  {
    hide Pow2, ToNat;
    ToNatBound(s);
    DivModUnique(total, Pow2(|s|), Bit(carry), ToNat(s));
  }

  lemma FullSum(x: Bits, y: Bits, s: Bits, carry: bool, cin: nat)
    requires Summed(x, y, s, carry, cin) && |s| == |x|
    ensures ToNat(s) + Pow2(|x|) * Bit(carry) == ToNat(x) + ToNat(y) + cin
  {
    assert x[..|x|] == x && y[..|y|] == y;
  }

  function Not(b: Bits): (r: Bits)
    ensures |r| == |b|
  {
    seq(|b|, i requires 0 <= i < |b| => !b[i])
  }

  lemma {:induction false} NotValue(b: Bits)
    ensures ToNat(Not(b)) == Pow2(|b|) - 1 - ToNat(b)
  {
    if b != [] {
      NotValue(b[1..]);
      assert Not(b)[1..] == Not(b[1..]);
    }
  }

  /** x + NOT y + 1, read with its carry, is x - y modulo 2^k; no carry means borrow. */
  lemma Subtraction(x: Bits, y: Bits, s: Bits, carry: bool)
    requires |x| == |y| == |s|
    requires ToNat(s) + Pow2(|s|) * Bit(carry) == ToNat(x) + ToNat(Not(y)) + 1
    ensures ToNat(s) == if ToNat(x) >= ToNat(y) then ToNat(x) - ToNat(y) else Pow2(|x|) + ToNat(x) - ToNat(y)
    ensures !carry <==> ToNat(x) < ToNat(y)
  {
    NotValue(y);
    ToNatBound(s);
    ToNatBound(x);
    ToNatBound(y);
  }

  // ----------------------------------------------------------------------
  // The circuits

  datatype AddResult = AddResult(sum: Shared, carryOut: SharedBit)
  datatype SubResult = SubResult(diff: Shared, borrowOut: SharedBit)
  datatype DivResult = DivResult(quotient: Shared, remainder: Shared, divByZero: SharedBit)

  /** p = x XOR y, g = x AND y; the sum bit is p XOR c, the carry g XOR (p AND c). */
  method FullAdder(x: SharedBit, y: SharedBit, c: SharedBit, bag: TripleBag)
    returns (r: Result<(SharedBit, SharedBit)>)
    requires x.N() == y.N() == c.N() && bag.Honest(x.N())
    modifies bag
    ensures r.Success? <==> old(bag.index) + 2 <= |bag.triples|
    ensures r.Success? ==> bag.index == old(bag.index) + 2
    ensures r.Success? ==> r.value.0.N() == r.value.1.N() == x.N()
    ensures r.Success? ==> r.value.0.Open() == ((x.Open() != y.Open()) != c.Open())
    ensures r.Success? ==> r.value.1.Open() == ((x.Open() && y.Open()) != ((x.Open() != y.Open()) && c.Open()))
  {
    var p := XorShared(x, y);
    var g :- bag.And(x, y);
    var s := XorShared(p, c);
    var pc :- bag.And(p, c);
    r := Success((s, XorShared(g, pc)));
  }

  lemma NothingSummed(x: Bits, y: Bits, carry: bool)
    requires |x| == |y|
    ensures Summed(x, y, [], carry, Bit(carry))
  {
    assert x[..0] == [] && y[..0] == [];
  }

  /** The carry chain from bit |low| up, continuing a sum `low` with its carry. */
  method Ripple(x: Shared, y: Shared, low: Shared, carryIn: SharedBit, ghost cin: nat, bag: TripleBag)
    returns (r: Result<AddResult>)
    requires Word(x, carryIn.N()) && Word(y, carryIn.N()) && bag.Honest(carryIn.N())
    requires |low| < 64 && Shaped(low, carryIn.N())
    requires Summed(Open(x), Open(y), Open(low), carryIn.Open(), cin)
    modifies bag
    ensures r.Success? <==> old(bag.index) + 2 * (64 - |low|) <= |bag.triples|
    ensures r.Success? ==> bag.index == old(bag.index) + 2 * (64 - |low|)
    ensures r.Success? ==> Word(r.value.sum, carryIn.N()) && r.value.carryOut.N() == carryIn.N()
    ensures r.Success? ==> Summed(Open(x), Open(y), Open(r.value.sum), r.value.carryOut.Open(), cin)
  {
    hide Summed;
    var sum, carry := low, carryIn;
    for i := |low| to 64
      invariant |sum| == i && Shaped(sum, carryIn.N()) && carry.N() == carryIn.N()
      invariant bag.index == old(bag.index) + 2 * (i - |low|)
      invariant i > |low| ==> bag.index <= |bag.triples|
      invariant Summed(Open(x), Open(y), Open(sum), carry.Open(), cin)
    {
      var both :- FullAdder(x[i], y[i], carry, bag);
      AdderStep(Open(x), Open(y), Open(sum), both.0.Open(), carry.Open(), both.1.Open(), cin);
      OpenSnoc(sum, both.0);
      sum, carry := sum + [both.0], both.1;
    }
    r := Success(AddResult(sum, carry));
  }

  method SecureAdd(x: Shared, y: Shared, bag: TripleBag) returns (r: Result<AddResult>)
    requires |x| == |y| == 64
    requires Word(x, x[0].N()) && Word(y, y[0].N()) && bag.Honest(x[0].N())
    modifies bag
    ensures r.Success? <==> x[0].N() == y[0].N() && old(bag.index) + ADD_COST <= |bag.triples|
    ensures r.Success? ==> bag.index == old(bag.index) + ADD_COST
    ensures r.Success? ==> Word(r.value.sum, x[0].N()) && r.value.carryOut.N() == x[0].N()
    ensures r.Success? ==> Value(r.value.sum) == (Value(x) + Value(y)) % Pow2(|x|)
    ensures r.Success? ==> (r.value.carryOut.Open() <==> Value(x) + Value(y) >= Pow2(|x|))
  {
    hide ToNat, Pow2, SharedBit.Open;
    var n := x[0].N();
    if n != y[0].N() {
      return Failure("secureAddU64Bin: N mismatch");
    }
    var sum := [XorShared(x[0], y[0])];
    var carry :- bag.And(x[0], y[0]);
    FirstBit(Open(x), Open(y), Open(sum), carry.Open());
    r := Ripple(x, y, sum, carry, 0, bag);
    if r.Success? {
      FullSum(Open(x), Open(y), Open(r.value.sum), r.value.carryOut.Open(), 0);
      Wrapped(Open(r.value.sum), r.value.carryOut.Open(), Value(x) + Value(y));
    }
  }

  /** x - y as x + NOT y with carry-in 1. */
  method SecureSub(x: Shared, y: Shared, bag: TripleBag) returns (r: Result<SubResult>)
    requires |x| == |y| == 64
    requires Word(x, x[0].N()) && Word(y, y[0].N()) && bag.Honest(x[0].N())
    modifies bag
    ensures r.Success? <==> x[0].N() == y[0].N() && old(bag.index) + SUB_COST <= |bag.triples|
    ensures r.Success? ==> bag.index == old(bag.index) + SUB_COST
    ensures r.Success? ==> Word(r.value.diff, x[0].N()) && r.value.borrowOut.N() == x[0].N()
    ensures r.Success? ==> Value(r.value.diff) == if Value(x) >= Value(y) then Value(x) - Value(y)
                                                  else Pow2(|x|) + Value(x) - Value(y)
    ensures r.Success? ==> (r.value.borrowOut.Open() <==> Value(x) < Value(y))
  {
    hide ToNat, Pow2, SharedBit.Open;
    var n := x[0].N();
    if n != y[0].N() {
      return Failure("secureSubU64Bin: N mismatch");
    }
    var ny: Shared := [];
    for i := 0 to 64
      invariant |ny| == i && Shaped(ny, n)
      invariant forall k :: 0 <= k < i ==> ny[k].Open() == !y[k].Open()
    {
      ny := ny + [NotShared(y[i])];
    }
    assert Open(ny) == Not(Open(y));
    NothingSummed(Open(x), Open(ny), Public(n, true).Open());
    assert Open([]) == [];
    var sum :- Ripple(x, ny, [], Public(n, true), 1, bag);
    FullSum(Open(x), Open(ny), Open(sum.sum), sum.carryOut.Open(), 1);
    Subtraction(Open(x), Open(y), Open(sum.sum), sum.carryOut.Open());
    r := Success(SubResult(sum.sum, NotShared(sum.carryOut)));
  }

  /** cond ? a : b, as b XOR (cond AND (a XOR b)). */
  method SecureSelectBit(cond: SharedBit, a: SharedBit, b: SharedBit, bag: TripleBag) returns (r: Result<SharedBit>)
    requires cond.N() == a.N() == b.N() && bag.Honest(a.N())
    modifies bag
    ensures r.Success? <==> old(bag.index) + 1 <= |bag.triples|
    ensures r.Success? ==> bag.index == old(bag.index) + 1
    ensures r.Success? ==> r.value.N() == a.N() && r.value.Open() == if cond.Open() then a.Open() else b.Open()
  {
    var maybe :- bag.And(cond, XorShared(a, b));
    r := Success(XorShared(b, maybe));
  }

  method SelectWord(cond: SharedBit, a: Shared, b: Shared, bag: TripleBag) returns (r: Result<Shared>)
    requires Word(a, cond.N()) && Word(b, cond.N()) && bag.Honest(cond.N())
    modifies bag
    ensures r.Success? <==> old(bag.index) + 64 <= |bag.triples|
    ensures r.Success? ==> bag.index == old(bag.index) + 64
    ensures r.Success? ==> Word(r.value, cond.N()) && Value(r.value) == if cond.Open() then Value(a) else Value(b)
  {
    var out: Shared := [];
    for j := 0 to 64
      invariant |out| == j && Shaped(out, cond.N())
      invariant bag.index == old(bag.index) + j
      invariant j > 0 ==> bag.index <= |bag.triples|
      invariant forall k :: 0 <= k < j ==> out[k].Open() == if cond.Open() then a[k].Open() else b[k].Open()
    {
      var bit :- SecureSelectBit(cond, a[j], b[j], bag);
      out := out + [bit];
    }
    assert Open(out) == if cond.Open() then Open(a) else Open(b);
    r := Success(out);
  }

  // ----------------------------------------------------------------------
  // Long division

  /** What the quotient and remainder are once the numerator's bits from `i` up have been consumed. */
  ghost predicate Divided(num: Bits, denom: nat, q: Bits, rem: nat, i: nat)
    requires |num| == 64 && i <= 64 && |q| == 64 - i
  {
    && ToNat(num[i..]) == ToNat(q) * denom + rem
    && (denom > 0 ==> rem < denom)
    && (denom == 0 ==> AllTrue(q))
  }

  /** The remainder never exceeds the prefix consumed, so the left shift loses no bit. */
  lemma RemainderFits(num: Bits, denom: nat, q: Bits, rem: nat, i: nat)
    requires |num| == 64 && 0 < i <= 64 && |q| == 64 - i
    requires Divided(num, denom, q, rem, i)
    ensures 2 * rem + 1 < Pow2(64)
  {
    MulNonneg(ToNat(q), denom);
    ToNatBound(num[i..]);
    Pow2Monotone(64 - i, 63);
  }

  lemma DivideStep(num: Bits, denom: nat, q: Bits, rem: nat, i: nat, shifted: nat, borrow: bool, rem': nat)
    requires |num| == 64 && i < 64 && |q| == 64 - (i + 1)
    requires Divided(num, denom, q, rem, i + 1)
    requires shifted == Bit(num[i]) + 2 * rem
    requires borrow <==> shifted < denom
    requires rem' == if borrow then shifted else shifted - denom
    ensures Divided(num, denom, [!borrow] + q, rem', i)
  {
    TailStep(num, i);
    assert ToNat(num[i..]) == Bit(num[i]) + 2 * ToNat(num[i + 1..]);
    var q' := [!borrow] + q;
    assert q'[1..] == q;
    assert ToNat(q') == Bit(!borrow) + 2 * ToNat(q);
    assert ToNat(q') * denom == Bit(!borrow) * denom + 2 * (ToNat(q) * denom) by {
      MulDistribute(Bit(!borrow), ToNat(q), denom);
    }
  }

  lemma MulDistribute(a: nat, b: nat, d: nat)
    ensures (a + 2 * b) * d == a * d + 2 * (b * d)
  {
  }

  /** The left shift that brings the next numerator bit in, when the top bit is clear. */
  lemma ShiftIn(rem: Bits, bit: bool)
    requires |rem| == 64 && 2 * ToNat(rem) + 1 < Pow2(64)
    ensures ToNat([bit] + rem[..63]) == Bit(bit) + 2 * ToNat(rem)
  {
    TakeStep(rem, 63);
    assert rem[..64] == rem;
    assert ([bit] + rem[..63])[1..] == rem[..63];
    assert Pow2(64) == 2 * Pow2(63);
  }

  method DivideRound(num: Shared, denom: Shared, rem: Shared, i: nat, bag: TripleBag)
    returns (r: Result<(SharedBit, Shared)>)
    requires i < 64 && denom != [] && denom[0].N() >= 1
    requires Word(num, denom[0].N()) && Word(denom, denom[0].N()) && Word(rem, denom[0].N())
    requires bag.Honest(denom[0].N())
    requires 2 * Value(rem) + 1 < Pow2(64)
    modifies bag
    ensures r.Success? <==> old(bag.index) + SUB_COST + 64 <= |bag.triples|
    ensures r.Success? ==> bag.index == old(bag.index) + SUB_COST + 64
    ensures r.Success? ==> r.value.0.N() == denom[0].N() && Word(r.value.1, denom[0].N())
    ensures r.Success? ==> var shifted := Bit(num[i].Open()) + 2 * Value(rem);
                           && (r.value.0.Open() <==> shifted >= Value(denom))
                           && Value(r.value.1) == if shifted < Value(denom) then shifted else shifted - Value(denom)
  {
    hide ToNat, Pow2, SharedBit.Open;
    var rshift := [num[i]] + rem[..63];
    assert Open(rshift) == [num[i].Open()] + Open(rem)[..63];
    ShiftIn(Open(rem), num[i].Open());
    var sub :- SecureSub(rshift, denom, bag);
    var newR :- SelectWord(sub.borrowOut, rshift, sub.diff, bag);
    r := Success((NotShared(sub.borrowOut), newR));
  }

  /**
   * Restoring long division from the top bit. For a zero denominator every
   * trial subtraction succeeds, so the quotient is all ones and the remainder
   * is the numerator.
   */
  method SecureDivide(num: Shared, denom: Shared, bag: TripleBag) returns (r: Result<DivResult>)
    requires |num| == |denom| == 64
    requires Word(num, num[0].N()) && Word(denom, denom[0].N()) && bag.Honest(num[0].N())
    modifies bag
    ensures r.Success? <==> num[0].N() == denom[0].N() && old(bag.index) + DIVIDE_COST <= |bag.triples|
    ensures r.Success? ==> bag.index == old(bag.index) + DIVIDE_COST
    ensures r.Success? ==> Word(r.value.quotient, num[0].N()) && Word(r.value.remainder, num[0].N())
    ensures r.Success? ==> (r.value.divByZero.Open() <==> Value(denom) == 0)
    ensures r.Success? && Value(denom) > 0 ==>
              && Value(r.value.quotient) == Value(num) / Value(denom)
              && Value(r.value.remainder) == Value(num) % Value(denom)
    ensures r.Success? && Value(denom) == 0 ==>
              && Value(r.value.quotient) == Pow2(|num|) - 1
              && Value(r.value.remainder) == Value(num)
  {
    hide Divided, ToNat, Pow2;
    var n := num[0].N();
    if n != denom[0].N() {
      return Failure("secureDivideU64Bin: N mismatch");
    }
    var dbz :- SecureEqual(denom, Zeros(64, n), bag);
    ToNatZeros(64);
    var quotient: Shared, remainder := [], Zeros(64, n);
    var i := 64;
    NothingDivided(Open(num), Value(denom));
    while i > 0
      invariant 0 <= i <= 64
      invariant |quotient| == 64 - i && Shaped(quotient, n) && Word(remainder, n)
      invariant bag.index == old(bag.index) + EQUAL_COST + (64 - i) * (SUB_COST + 64) <= |bag.triples|
      invariant Divided(Open(num), Value(denom), Open(quotient), Value(remainder), i)
    {
      i := i - 1;
      RemainderFits(Open(num), Value(denom), Open(quotient), Value(remainder), i + 1);
      var step :- DivideRound(num, denom, remainder, i, bag);
      DivideStep(Open(num), Value(denom), Open(quotient), Value(remainder), i,
                 Bit(num[i].Open()) + 2 * Value(remainder), !step.0.Open(), Value(step.1));
      OpenCons(step.0, quotient);
      quotient, remainder := [step.0] + quotient, step.1;
    }
    DividedAll(Open(num), Value(denom), Open(quotient), Value(remainder));
    r := Success(DivResult(quotient, remainder, dbz));
  }

  lemma NothingDivided(num: Bits, denom: nat)
    requires |num| == 64
    ensures Divided(num, denom, [], 0, 64)
  {
    assert num[64..] == [];
  }

  lemma DividedAll(num: Bits, denom: nat, q: Bits, rem: nat)
    requires |num| == 64 && |q| == 64 && Divided(num, denom, q, rem, 0)
    ensures denom > 0 ==> ToNat(q) == ToNat(num) / denom && rem == ToNat(num) % denom
    ensures denom == 0 ==> ToNat(q) == Pow2(|num|) - 1 && rem == ToNat(num)
  {
    assert num[0..] == num;
    DivisionDone(num, denom, q, rem);
  }

  lemma MulCommutes(a: int, b: int)
    ensures a * b == b * a
  {
  }

  lemma DivisionDone(num: Bits, denom: nat, q: Bits, rem: nat)
    requires |num| == |q|
    requires ToNat(num) == ToNat(q) * denom + rem
    requires denom > 0 ==> rem < denom
    requires denom == 0 ==> AllTrue(q)
    ensures denom > 0 ==> ToNat(q) == ToNat(num) / denom && rem == ToNat(num) % denom
    ensures denom == 0 ==> ToNat(q) == Pow2(|num|) - 1 && rem == ToNat(num)
  {
    if denom > 0 {
      MulCommutes(ToNat(q), denom);
      DivModUnique(ToNat(num), denom, ToNat(q), rem);
    } else {
      assert q == Repeat(true, |num|);
      ToNatOnes(|num|);
    }
  }
}

/** The reciprocal on shared 64-bit words, by Newton iteration in 128-bit fixed point. */
module Goldschmidt {
  import opened Outcomes
  import opened Words
  import opened Shares
  import opened Compare
  import opened Wide
  import opened Newton
  import opened Draws
  import opened Dealer

  // ----------------------------------------------------------------------
  // Sharing a public value

  method ShareU128(n: nat, value: nat, tape: BitTape) returns (out: Shared)
    requires n >= 2 && value < Modulus()
    ensures Word128(out, n) && Value(out) == value
  {
    hide Pow2, ToNat, Value, Word128, FromNat, Open, SharedBit.Open;
    out := [];
    var rest := value;
    NothingShared(value);
    for i := 0 to 128
      invariant |out| == i && Shaped(out, n)
      invariant Open(out) + FromNat(rest, 128 - i) == FromNat(value, 128)
    {
      var s := ShareBit(n, rest % 2 == 1, tape, n * i);
      BitShared(out, s, rest, 128 - i);
      out := out + [s];
      rest := rest / 2;
    }
    AllShared(out, rest);
    SharedValue(out, n, value);
  }

  lemma NothingShared(value: nat)
    ensures Open([]) + FromNat(value, 128) == FromNat(value, 128)
  {
    hide FromNat;
    assert Open([]) == [];
  }

  lemma AllShared(out: Shared, rest: nat)
    ensures Open(out) + FromNat(rest, 0) == Open(out)
  {
  }

  lemma BitShared(out: Shared, s: SharedBit, rest: nat, k: nat)
    requires k > 0 && s.Open() == (rest % 2 == 1)
    ensures Open(out + [s]) + FromNat(rest / 2, k - 1) == Open(out) + FromNat(rest, k)
  {
    hide SharedBit.Open;
    OpenSnoc(out, s);
    Regroup(Open(out), s.Open(), FromNat(rest / 2, k - 1));
  }

  lemma SharedValue(out: Shared, n: nat, value: nat)
    requires n >= 1 && value < Modulus() && |out| == 128 && Shaped(out, n) && Open(out) == FromNat(value, 128)
    ensures Word128(out, n) && Value(out) == value
  {
    hide Pow2, ToNat;
    FromNatValue(value, 128);
    DivModUnique(value, Modulus(), 0, value);
  }

  // ----------------------------------------------------------------------
  // Fixed-point multiplication and shifts

  /** Drop the low p bits, fill with zeros. */
  method ShiftRight(w: Shared, p: nat, ghost n: nat) returns (out: Shared)
    requires Word128(w, n)
    ensures Word128(out, n) && Value(out) == Value(w) / Pow2(p)
  {
    var N := w[0].N();
    out := [];
    for i := 0 to 128
      invariant |out| == i && Shaped(out, n)
      invariant forall k :: 0 <= k < i ==> out[k].Open() == (k + p < 128 && w[k + p].Open())
    {
      out := out + [if i + p < 128 then w[i + p] else Zero(N)];
    }
    ShiftedDown(Open(out), Open(w), p);
  }

  lemma ShiftedDown(out: Bits, w: Bits, p: nat)
    requires |out| == |w| == WIDTH
    requires forall k :: 0 <= k < WIDTH ==> out[k] == (k + p < WIDTH && w[k + p])
    ensures ToNat(out) == ToNat(w) / Pow2(p)
  {
    hide ToNat, Pow2;
    if p <= WIDTH {
      assert out == w[p..] + Repeat(false, p);
      ToNatConcat(w[p..], Repeat(false, p));
      ToNatZeros(p);
      ToNatSplit(w, p);
    } else {
      assert out == Repeat(false, WIDTH);
      ToNatZeros(WIDTH);
      ToNatBound(w);
      Pow2Monotone(WIDTH, p);
      DivModUnique(ToNat(w), Pow2(p), 0, ToNat(w));
    }
  }

  /** (a b mod 2^128) >> 40 */
  method FpMulShared(a: Shared, b: Shared, bag: TripleBag) returns (r: Result<Shared>)
    requires |a| == WIDTH && Word128(a, a[0].N()) && Word128(b, a[0].N()) && bag.Honest(a[0].N())
    modifies bag
    ensures r.Success? <==> old(bag.index) + MUL128_COST <= |bag.triples|
    ensures r.Success? ==> bag.index == old(bag.index) + MUL128_COST
    ensures r.Success? ==> Word128(r.value, a[0].N())
    ensures r.Success? && Value(a) * Value(b) < Modulus() ==> Value(r.value) == Value(a) * Value(b) / ONE
  {
    hide Pow2, ToNat;
    Pow2At64();
    var prod :- BitMul128(a, b, bag);
    var out := ShiftRight(prod, 40, a[0].N());
    if Value(a) * Value(b) < Modulus() {
      Unwrapped(Value(a) * Value(b), Modulus());
    }
    r := Success(out);
  }

  lemma Unwrapped(v: nat, m: nat)
    requires v < m
    ensures v % m == v
  {
    DivModUnique(v, m, 0, v);
  }

  /** Twice the value: one bit up, the top bit being clear. */
  method Double(w: Shared, ghost n: nat) returns (out: Shared)
    requires Word128(w, n) && 2 * Value(w) < Modulus()
    ensures Word128(out, n) && Value(out) == 2 * Value(w)
  {
    var N := w[0].N();
    out := [];
    for i := 0 to 128
      invariant |out| == i && Shaped(out, n)
      invariant forall k :: 0 <= k < i ==> out[k].Open() == (k > 0 && w[k - 1].Open())
    {
      out := out + [if i == 0 then Zero(N) else w[i - 1]];
    }
    DoubledValue(Open(out), Open(w));
  }

  lemma DoubledValue(out: Bits, w: Bits)
    requires |out| == |w| == WIDTH && 2 * ToNat(w) < Modulus()
    requires forall k :: 0 <= k < WIDTH ==> out[k] == (k > 0 && w[k - 1])
    ensures ToNat(out) == 2 * ToNat(w)
  {
    hide Pow2, ToNat;
    ShiftedUp(out, w, 1);
    Pow2One();
    Unwrapped(2 * ToNat(w), Modulus());
  }

  lemma Pow2One()
    ensures Pow2(1) == 2
  {
    assert Pow2(0) == 1;
  }

  // ----------------------------------------------------------------------
  // Range reduction: x is opened, its magnitude revealed, the reduced value shared again

  method Magnitude(x: nat) returns (p: nat)
    requires 1 <= x <= 0x8000_0000_0000_0000
    ensures IsMagnitude(x, p) && p <= 63
  {
    p := 0;
    Pow2At63();
    while Pow2(p) < x
      invariant p <= 63 && (p == 0 || Pow2(p - 1) < x)
      decreases 63 - p
    {
      BelowPower(x, p);
      p := p + 1;
    }
  }

  lemma Pow2At63()
    ensures Pow2(63) == 0x8000_0000_0000_0000
  {
    Pow2At64();
    Pow2Adds(63, 1);
    Pow2One();
  }

  lemma BelowPower(x: nat, p: nat)
    requires x <= Pow2(63) && Pow2(p) < x
    ensures p < 63
  {
    hide Pow2;
    if p >= 63 {
      Pow2Monotone(63, p);
    }
  }

  method RangeReduceReveal(x: Shared, tape: BitTape, ghost n: nat) returns (r: Result<(Shared, nat)>)
    requires Word(x, n) && Value(x) <= 0x8000_0000_0000_0000
    ensures r.Success? <==> Value(x) != 0 && n >= 2
    ensures r.Success? ==> IsMagnitude(Value(x), r.value.1) && r.value.1 <= 63
    ensures r.Success? ==> Word128(r.value.0, n) && Value(r.value.0) == Reduced(Value(x), r.value.1)
  {
    hide ToNat, Pow2, IsMagnitude, Reduced;
    var xPlain := Value(x);
    if xPlain == 0 {
      return Failure("goldschmidtRecipWire: x = 0");
    }
    if x[0].N() < 2 {
      return Failure("shareBit: N must be >= 2");
    }
    var p := Magnitude(xPlain);
    ReducedRange(xPlain, p);
    Pow2At128();
    var reduced := Reduced(xPlain, p);
    var s := ShareU128(x[0].N(), reduced, tape);
    r := Success((s, p));
  }

  // ----------------------------------------------------------------------
  // The reciprocal

  const ROUND_COST: nat := 2 * MUL128_COST + ADD128_COST

  function ReciprocalCost(iterations: nat): nat {
    ADD128_COST + iterations * ROUND_COST
  }

  /** What callers are told to provide. */
  function TripleBudget(iterations: nat): nat {
    iterations * (2 * 65536 + 380) + 1000
  }

  lemma BudgetSuffices(iterations: nat)
    ensures ReciprocalCost(iterations) <= TripleBudget(iterations)
  {
    ScaleAtMost(iterations, ROUND_COST, 2 * 65536 + 380);
  }

  /** The products of a round stay far below 2^128. */
  lemma RoundRange(X: nat, t: nat)
    requires ONE <= 2 * X && X <= ONE
    ensures Iterate(X, t) >= 0
    ensures var Y: nat := Iterate(X, t);
            && X * Y < Modulus() && X * Y / ONE <= 2 * ONE
            && Y * (2 * ONE - X * Y / ONE) < Modulus()
            && Iterate(X, t + 1) == Y * (2 * ONE - X * Y / ONE) / ONE
  {
    hide Pow2;
    IterateGap(X, t);
    hide Gap;
    Pow2At128();
    IterateUnfolds(X, t);
    var Y: nat := Iterate(X, t);
    NearRange(X, Y, Bound(t));
    hide Iterate, Near;
    ProductsFit(X, Y, 2 * ONE - X * Y / ONE, ONE);
  }

  lemma IterateUnfolds(X: nat, t: nat)
    requires X <= ONE && Iterate(X, t) >= 0
    ensures Iterate(X, t + 1) == Next(X, Iterate(X, t))
  {
  }

  lemma ProductsFit(X: nat, Y: nat, T: int, f: nat)
    requires X <= f && Y <= 4 * f && T <= 2 * f
    ensures X * Y <= 4 * f * f && Y * T <= 8 * f * f
  {
    ScaleAtMost(Y, X, f);
    ScaleAtMost(f, Y, 4 * f);
    ScaleAtMost(Y, T, 2 * f);
    ScaleAtMost(2 * f, Y, 4 * f);
  }

  /** y := y (2 - x' y) on shares. */
  method NewtonRound(xp: Shared, y: Shared, two: Shared, bag: TripleBag, ghost n: nat, ghost X: nat, ghost t: nat)
    returns (y': Shared)
    requires ONE <= 2 * X && X <= ONE && Word128(xp, n) && Word128(y, n) && Word128(two, n) && bag.Honest(n)
    requires Value(xp) == X && Value(y) == Iterate(X, t) && Value(two) == 2 * ONE
    requires bag.index + ROUND_COST <= |bag.triples|
    modifies bag
    ensures bag.index == old(bag.index) + ROUND_COST
    ensures Word128(y', n) && Value(y') == Iterate(X, t + 1)
  {
    hide Pow2, ToNat, Iterate;
    RoundRange(X, t);
    var xy := FpMulShared(xp, y, bag);
    var twoMinusXy := BitSub128(two, xy.value, bag);
    var r := FpMulShared(y, twoMinusXy, bag);
    y' := r.value;
  }

  /** v is the iterated reciprocal of x, scaled back by x's magnitude. */
  ghost predicate IsReciprocal(v: nat, x: nat, iterations: nat) {
    exists p: nat :: IsMagnitude(x, p) && Reduced(x, p) <= ONE && v == Reciprocal(x, p, iterations)
  }

  /**
   * 1/x with 40 fractional bits. The caller provides the triples. From four
   * iterations on, the result is within one unit of 2^40/x.
   */
  method GoldschmidtRecipWire(x: Shared, iterations: nat, bag: TripleBag, tape: BitTape, ghost n: nat)
    returns (r: Result<Shared>)
    requires Word(x, n) && Value(x) <= 0x8000_0000_0000_0000 && bag.Honest(n)
    requires bag.index + ReciprocalCost(iterations) <= |bag.triples|
    modifies bag
    ensures r.Success? <==> Value(x) != 0 && n >= 2
    ensures r.Success? ==> bag.index == old(bag.index) + ReciprocalCost(iterations)
    ensures r.Success? ==> Word128(r.value, n) && IsReciprocal(Value(r.value), Value(x), iterations)
    ensures r.Success? && iterations >= 4 ==> Value(r.value) * Value(x) <= 0x100_0000_0000 + 1
    ensures r.Success? && iterations >= 4 ==> (Value(r.value) + 1) * Value(x) >= 0x100_0000_0000
  {
    hide Pow2, ToNat, Iterate, IsMagnitude, Reduced;
    var reduced :- RangeReduceReveal(x, tape, n);
    var xp, p := reduced.0, reduced.1;
    ghost var X := Value(xp);
    ReducedRange(Value(x), p);
    Pow2At128();
    var N := x[0].N();
    var three := ShareU128(N, 3 * ONE, tape);
    var twice := Double(xp, n);
    CostSteps(iterations, 0);
    var y := BitSub128(three, twice, bag);
    IterateStarts(X);
    var two := ShareU128(N, 2 * ONE, tape);
    for t := 0 to iterations
      invariant Word128(y, n) && Value(y) == Iterate(X, t)
      invariant bag.index == old(bag.index) + ADD128_COST + t * ROUND_COST
    {
      CostSteps(iterations, t);
      y := NewtonRound(xp, y, two, bag, n, X, t);
    }
    var out := y;
    if p > 0 {
      out := ShiftRight(y, p, n);
    } else {
      DivideByOne(Value(y));
    }
    if iterations >= 4 {
      ReciprocalBound(Value(x), p, iterations);
    }
    Computed(Value(out), Value(x), p, iterations);
    r := Success(out);
  }

  lemma Computed(v: nat, x: nat, p: nat, iterations: nat)
    requires IsMagnitude(x, p) && Reduced(x, p) <= ONE && v == Reciprocal(x, p, iterations)
    ensures IsReciprocal(v, x, iterations)
  {
  }

  lemma IterateStarts(X: nat)
    requires X <= ONE
    ensures Iterate(X, 0) == First(X)
  {
  }

  lemma DivideByOne(v: nat)
    ensures v / Pow2(0) == v
  {
    assert Pow2(0) == 1;
  }

  lemma CostSteps(iterations: nat, t: nat)
    ensures t < iterations ==> t * ROUND_COST + ROUND_COST == (t + 1) * ROUND_COST <= iterations * ROUND_COST
    ensures iterations * ROUND_COST >= 0
  {
    if t < iterations {
      ScaleAtMost(ROUND_COST, t + 1, iterations);
    }
  }
}

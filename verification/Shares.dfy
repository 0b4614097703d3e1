/** Outcomes of operations that throw in the program. */
module Outcomes {

  datatype Option<+T> = None | Some(value: T)

  datatype Result<+T> = Success(value: T) | Failure(error: string) {
    predicate IsFailure() {
      Failure?
    }

    function PropagateFailure<U>(): Result<U>
      requires Failure?
    {
      Failure(error)
    }

    function Extract(): T
      requires Success?
    {
      value
    }
  }
}

/** N-party XOR shares of bits, Beaver bit triples, and the bag the triples are taken from. */
module Shares {
  import opened Outcomes
  import opened Words

  datatype SharedBit = SharedBit(shares: seq<bool>) {
    function N(): nat {
      |shares|
    }

    /** Joint opening: the XOR of all parties' shares. */
    function Open(): bool {
      XorAll(shares)
    }
  }

  function XorAll(s: seq<bool>): bool {
    s != [] && (s[0] != XorAll(s[1..]))
  }

  function XorEach(a: seq<bool>, b: seq<bool>): seq<bool>
    requires |a| == |b|
  {
    seq(|a|, i requires 0 <= i < |a| => a[i] != b[i])
  }

  function MaskEach(a: seq<bool>, d: bool): seq<bool> {
    seq(|a|, i requires 0 <= i < |a| => a[i] && d)
  }

  function Zero(n: nat): (r: SharedBit)
    ensures r.N() == n && !r.Open()
  {
    XorAllZero(n);
    SharedBit(Repeat(false, n))
  }

  /** A public bit: party 0 holds it, the others hold 0. */
  function Public(n: nat, b: bool): (r: SharedBit)
    requires n >= 1
    ensures r.N() == n && r.Open() == b
  {
    XorConst(Zero(n), b)
  }

  function XorShared(a: SharedBit, b: SharedBit): (r: SharedBit)
    requires a.N() == b.N()
    ensures r.N() == a.N() && r.Open() == (a.Open() != b.Open())
  {
    XorAllXor(a.shares, b.shares);
    SharedBit(XorEach(a.shares, b.shares))
  }

  function XorConst(a: SharedBit, c: bool): (r: SharedBit)
    requires a.N() >= 1
    ensures r.N() == a.N() && r.Open() == (a.Open() != c)
  {
    assert a.shares[0 := a.shares[0] != c][1..] == a.shares[1..];
    SharedBit(a.shares[0 := a.shares[0] != c])
  }

  function NotShared(a: SharedBit): (r: SharedBit)
    requires a.N() >= 1
    ensures r.N() == a.N() && r.Open() == !a.Open()
  {
    XorConst(a, true)
  }

  /** Every party multiplies its share by the public bit `d`. */
  function Mask(a: SharedBit, d: bool): (r: SharedBit)
    ensures r.N() == a.N() && r.Open() == (a.Open() && d)
  {
    XorAllMask(a.shares, d);
    SharedBit(MaskEach(a.shares, d))
  }

  datatype BitTriple = BitTriple(u: SharedBit, v: SharedBit, w: SharedBit) {
    /** A triple the dealer made for `n` parties: w = u AND v. */
    ghost predicate Honest(n: nat) {
      u.N() == v.N() == w.N() == n && w.Open() == (u.Open() && v.Open())
    }
  }

  /**
   * Beaver multiplication over Z_2: d = x XOR u and e = y XOR v are opened,
   * and the result is w XOR d.v XOR e.u XOR d.e.
   */
  function SecureAnd(x: SharedBit, y: SharedBit, t: BitTriple): (r: SharedBit)
    requires x.N() == y.N() == t.u.N() == t.v.N() == t.w.N() >= 1
    ensures r.N() == x.N()
    ensures t.Honest(x.N()) ==> r.Open() == (x.Open() && y.Open())
  {
    var d := XorShared(x, t.u).Open();
    var e := XorShared(y, t.v).Open();
    var step1 := XorShared(t.w, Mask(t.v, d));
    var step2 := XorShared(step1, Mask(t.u, e));
    XorConst(step2, d && e)
  }

  lemma {:induction false} XorAllZero(n: nat)
    ensures !XorAll(Repeat(false, n))
  {
    if n > 0 {
      XorAllZero(n - 1);
      assert Repeat(false, n)[1..] == Repeat(false, n - 1);
    }
  }

  lemma {:induction false} XorAllXor(a: seq<bool>, b: seq<bool>)
    requires |a| == |b|
    ensures XorAll(XorEach(a, b)) == (XorAll(a) != XorAll(b))
  {
    if a != [] {
      XorAllXor(a[1..], b[1..]);
      assert XorEach(a, b)[1..] == XorEach(a[1..], b[1..]);
    }
  }

  lemma {:induction false} XorAllMask(a: seq<bool>, d: bool)
    ensures XorAll(MaskEach(a, d)) == (XorAll(a) && d)
  {
    if a != [] {
      XorAllMask(a[1..], d);
      assert MaskEach(a, d)[1..] == MaskEach(a[1..], d);
    }
  }

  // ----------------------------------------------------------------------
  // Shared words

  /** A bit-decomposed shared value; the program's words have 64 or 128 bits. */
  type Shared = seq<SharedBit>

  predicate Shaped(w: Shared, n: nat) {
    forall i :: 0 <= i < |w| ==> w[i].N() == n
  }

  function Open(w: Shared): (b: Bits)
    ensures |b| == |w|
    ensures forall i :: 0 <= i < |w| ==> b[i] == w[i].Open()
  {
    seq(|w|, i requires 0 <= i < |w| => w[i].Open())
  }

  function Value(w: Shared): nat {
    ToNat(Open(w))
  }

  function Zeros(k: nat, n: nat): (w: Shared)
    ensures |w| == k && Shaped(w, n)
    ensures Open(w) == Repeat(false, k)
  {
    Repeat(Zero(n), k)
  }

  lemma OpenConcat(a: Shared, b: Shared)
    ensures Open(a + b) == Open(a) + Open(b)
  {
  }

  lemma OpenSnoc(a: Shared, b: SharedBit)
    ensures Open(a + [b]) == Open(a) + [b.Open()]
  {
  }

  lemma OpenCons(b: SharedBit, a: Shared)
    ensures Open([b] + a) == [b.Open()] + Open(a)
  {
  }

  // ----------------------------------------------------------------------
  // The triple bag

  /** The vector of triples with the caller's cursor into it. */
  class TripleBag {
    const triples: seq<BitTriple>
    var index: nat

    constructor (triples: seq<BitTriple>)
      ensures this.triples == triples && index == 0
    {
      this.triples := triples;
      index := 0;
    }

    /** All triples were dealt honestly to `n` parties. */
    ghost predicate Honest(n: nat) {
      n >= 1 && forall i :: 0 <= i < |triples| ==> triples[i].Honest(n)
    }

    method Take() returns (r: Result<BitTriple>)
      modifies this
      ensures r.Success? <==> old(index) < |triples|
      ensures r.Success? ==> index == old(index) + 1 && r.value == triples[old(index)]
      ensures r.Failure? ==> index == old(index)
    {
      if index >= |triples| {
        return Failure("triple bag exhausted");
      }
      index := index + 1;
      return Success(triples[index - 1]);
    }

    /** One AND gate: takes the next triple and multiplies. */
    method And(x: SharedBit, y: SharedBit) returns (r: Result<SharedBit>)
      requires Honest(x.N()) && y.N() == x.N()
      modifies this
      ensures r.Success? <==> old(index) + 1 <= |triples|
      ensures r.Success? ==> index == old(index) + 1
      ensures r.Success? ==> r.value.N() == x.N() && r.value.Open() == (x.Open() && y.Open())
    {
      var t :- Take();
      r := Success(SecureAnd(x, y, t));
    }

    /** a OR b = NOT (NOT a AND NOT b). */
    method Or(a: SharedBit, b: SharedBit) returns (r: Result<SharedBit>)
      requires Honest(a.N()) && b.N() == a.N()
      modifies this
      ensures r.Success? <==> old(index) + 1 <= |triples|
      ensures r.Success? ==> index == old(index) + 1
      ensures r.Success? ==> r.value.N() == a.N() && r.value.Open() == (a.Open() || b.Open())
    {
      var both :- And(NotShared(a), NotShared(b));
      r := Success(NotShared(both));
    }
  }
}

/** Sharing secret values, dealing Beaver triples, and multiplication over Z_2^64. */
module Dealer {
  import opened Outcomes
  import opened Words
  import opened Shares
  import opened ModRing
  import opened Draws
  import AuthShares

  type Share = AuthShares.Share

  // ----------------------------------------------------------------------
  // Bits

  /** The other parties' shares are random; party 0's makes the XOR right. */
  function ShareBit(n: nat, bit: bool, tape: BitTape, at: nat): (s: SharedBit)
    requires n >= 2
    ensures s.N() == n && s.Open() == bit
  {
    var others := seq(n - 1, i requires 0 <= i < n - 1 => tape(at + i));
    var mine := bit != XorAll(others);
    assert ([mine] + others)[1..] == others;
    SharedBit([mine] + others)
  }

  method GenerateBeaverTripleBit(n: nat, tape: BitTape, at: nat) returns (r: Result<BitTriple>)
    ensures r.Success? <==> n >= 2
    ensures r.Success? ==> r.value.Honest(n)
  {
    if n < 2 {
      return Failure("generateBeaverTripleBit: N must be >= 2");
    }
    var u, v := tape(at), tape(at + 1);
    var k := n - 1;
    r := Success(BitTriple(ShareBit(n, u, tape, at + 2), ShareBit(n, v, tape, at + 2 + k),
                           ShareBit(n, u && v, tape, at + 2 + 2 * k)));
  }

  /** Whatever is drawn, a dealt bag is honest. */
  method GenerateBeaverTripleBits(n: nat, count: nat, tape: BitTape) returns (r: Result<TripleBag>)
    ensures r.Success? <==> n >= 2 || count == 0
    ensures r.Success? ==> fresh(r.value) && |r.value.triples| == count && r.value.index == 0
    ensures r.Success? && n >= 1 ==> r.value.Honest(n)
  {
    hide BitTriple.Honest;
    var out: seq<BitTriple> := [];
    for i := 0 to count
      invariant |out| == i && (i > 0 ==> n >= 2) && forall k :: 0 <= k < i ==> out[k].Honest(n)
    {
      var t :- GenerateBeaverTripleBit(n, tape, i * (3 * n));
      out := out + [t];
    }
    var bag := new TripleBag(out);
    r := Success(bag);
  }

  // ----------------------------------------------------------------------
  // Words

  lemma SumSnoc(s: seq<int>, x: int)
    ensures Sum(s + [x]) == Sum(s) + x
    decreases |s|
  {
    if s != [] {
      SumSnoc(s[1..], x);
      assert (s + [x])[1..] == s[1..] + [x];
    } else {
      assert s + [x] == [x] && [x][1..] == [];
    }
  }

  /** Parties 1.. draw their shares; party 0 gets the value minus the wrapping sum of the others. */
  method ShareU64(n: nat, value: nat, tape: Tape, at: nat) returns (r: Result<Share>)
    ensures r.Success? <==> n >= 2
    ensures r.Success? ==> |r.value| == n && forall i :: 0 <= i < n ==> 0 <= r.value[i] < U64
    ensures r.Success? ==> Eqv(Sum(r.value), value, U64)
  {
    if n < 2 {
      return Failure("shareU64: N must be >= 2");
    }
    hide Eqv;
    var others: seq<int>, accum := [], 0;
    assert Eqv(0, Sum([]), U64) by { Reduce(0, U64); }
    for i := 1 to n
      invariant |others| == i - 1 && forall k :: 0 <= k < i - 1 ==> 0 <= others[k] < U64
      invariant Eqv(accum, Sum(others), U64)
    {
      var drawn := tape(at + i) % U64;
      SumSnoc(others, drawn);
      Reduce(accum + drawn, U64);
      Add(accum, Sum(others), drawn, drawn, U64) by { Reduce(drawn, U64); Reflexive(drawn, U64); }
      Transitive((accum + drawn) % U64, accum + drawn, Sum(others) + drawn, U64);
      others := others + [drawn];
      accum := (accum + drawn) % U64;
    }
    var mine := (value - accum) % U64;
    Mine(mine, value, accum, Sum(others));
    assert ([mine] + others)[1..] == others;
    r := Success([mine] + others);
  }

  lemma Mine(mine: int, value: int, accum: int, others: int)
    requires mine == (value - accum) % U64 && Eqv(accum, others, U64)
    ensures Eqv(mine + others, value, U64)
  {
    hide Eqv;
    Reduce(value - accum, U64);
    Reflexive(value, U64);
    Reflexive(others, U64);
    Add(value, value, accum, others, U64);
    Transitive(mine, value - accum, value - others, U64);
    Add(mine, value - others, others, others, U64);
  }

  datatype WordTriple = WordTriple(u: Share, v: Share, w: Share) {
    ghost predicate Honest(n: nat) {
      |u| == |v| == |w| == n && Eqv(Sum(w), Sum(u) * Sum(v), U64)
    }
  }

  method GenerateBeaverTriple(n: nat, tape: Tape, at: nat) returns (r: Result<WordTriple>)
    ensures r.Success? <==> n >= 2
    ensures r.Success? ==> r.value.Honest(n)
  {
    hide Eqv;
    if n < 2 {
      return Failure("generateBeaverTriple: N must be >= 2");
    }
    var uVal, vVal := tape(at) % U64, tape(at + 1) % U64;
    var wVal := uVal * vVal % U64;
    var u := ShareU64(n, uVal, tape, at + 2);
    var v := ShareU64(n, vVal, tape, at + 2 + n);
    var w := ShareU64(n, wVal, tape, at + 2 + 2 * n);
    TripleProduct(Sum(u.value), Sum(v.value), Sum(w.value), uVal, vVal, wVal);
    r := Success(WordTriple(u.value, v.value, w.value));
  }

  lemma TripleProduct(u: int, v: int, w: int, u': int, v': int, w': int)
    requires Eqv(u, u', U64) && Eqv(v, v', U64) && Eqv(w, w', U64) && w' == u' * v' % U64
    ensures Eqv(w, u * v, U64)
  {
    hide Eqv;
    Reduce(u' * v', U64);
    Times(u, u', v, v', U64);
    Transitive(w, w', u' * v', U64);
    Symmetric(u * v, u' * v', U64);
    Transitive(w, u' * v', u * v, U64);
  }

  /** d = x - u and e = y - v are opened; the result shares x y modulo 2^64. */
  method SecureMultiply(x: Share, y: Share, t: WordTriple) returns (r: Result<Share>)
    requires x != []
    ensures r.Success? <==> |x| == |y| == |t.u| == |t.v| == |t.w|
    ensures r.Success? && t.Honest(|x|) ==> Eqv(Sum(r.value), Sum(x) * Sum(y), U64)
  {
    hide Eqv, AuthShares.Linear, AuthShares.Beaver;
    if |x| != |y| || |x| != |t.u| {
      return Failure("secureMultiply: N mismatch");
    }
    if |y| != |t.v| {
      return Failure("subShared: N mismatch");
    }
    var dShared, eShared := AuthShares.SubShared(x, t.u, U64), AuthShares.SubShared(y, t.v, U64);
    var d, e := AuthShares.Reconstruct(dShared, U64), AuthShares.Reconstruct(eShared, U64);
    if |t.w| != |t.v| {
      return Failure("addShared: N mismatch");
    }
    var z := AuthShares.Linear(t.w, t.v, t.u, d, e, d * e, U64);
    if t.Honest(|x|) {
      Reduce(Sum(dShared), U64);
      Reduce(Sum(eShared), U64);
      Transitive(d, Sum(dShared), Sum(x) - Sum(t.u), U64);
      Transitive(e, Sum(eShared), Sum(y) - Sum(t.v), U64);
      AuthShares.BeaverProduct(Sum(x), Sum(y), Sum(t.u), Sum(t.v), Sum(t.w), d, e, U64);
      Transitive(Sum(z), AuthShares.Beaver(Sum(t.w), Sum(t.v), Sum(t.u), d, e, d * e), Sum(x) * Sum(y), U64);
    }
    r := Success(z);
  }
}

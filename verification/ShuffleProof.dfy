/** The shuffle argument: bound openings, and two products compared at a challenge. */
module ShuffleProof {
  import opened Outcomes
  import opened Words
  import opened ModRing
  import opened PrimeField
  import opened Counting
  import opened Permutations

  /** Scalars are residues modulo the group order q; points are whatever the commitment returns. */
  type Scalar = nat
  type Point = nat

  datatype Proof = Proof(challengeY: Scalar, challengeX: Scalar, messages: seq<Scalar>, shuffled: seq<Scalar>,
                         openingsOrig: seq<Scalar>, openingsShuf: seq<Scalar>)

  /** The group order, the commitment and the two transcript hashes. */
  datatype Setup = Setup(q: nat, commit: (Scalar, Scalar) -> Point,
                         hashY: (seq<Point>, seq<Point>) -> nat, hashX: (seq<Point>, seq<Point>, Scalar) -> nat)
  {
    ghost predicate Ok() {
      IsPrime(q)
    }
  }

  function ChallengeY(s: Setup, c: seq<Point>, c': seq<Point>): Scalar
    requires s.q > 0
  {
    s.hashY(c, c') % s.q
  }

  function ChallengeX(s: Setup, c: seq<Point>, c': seq<Point>, y: Scalar): Scalar
    requires s.q > 0
  {
    s.hashX(c, c', y) % s.q
  }

  // ----------------------------------------------------------------------
  // The product at the challenge

  /** The roots of the product: the messages moved by y. */
  function Roots(messages: seq<Scalar>, y: Scalar, q: nat): (r: seq<int>)
    requires q > 0
    ensures |r| == |messages|
    ensures forall i :: 0 <= i < |r| ==> 0 <= r[i] < q
  {
    seq(|messages|, i requires 0 <= i < |messages| => (messages[i] + y) % q)
  }

  /** Modulo a prime, the product vanishes exactly at its roots. */
  lemma {:induction false} VanishesAtRoots(roots: seq<int>, x: int, q: nat)
    requires IsPrime(q)
    ensures ProductAt(roots, x) % q == 0 <==> exists i :: 0 <= i < |roots| && (x - roots[i]) % q == 0
  {
    if roots != [] {
      var rest := roots[1..];
      VanishesAtRoots(rest, x, q);
      var a, b := x - roots[0], ProductAt(rest, x);
      if (a * b) % q == 0 {
        PrimeDivides(a, b, q);
        if b % q == 0 {
          var i :| 0 <= i < |rest| && (x - rest[i]) % q == 0;
          assert roots[i + 1] == rest[i];
        }
      }
      if i :| 0 <= i < |roots| && (x - roots[i]) % q == 0 {
        Canonical(0, q);
        if i == 0 {
          Times(a, 0, b, b, q);
        } else {
          assert rest[i - 1] == roots[i];
          Times(a, a, b, 0, q);
        }
      }
    }
  }

  /** The product of (x - (m + y)) vanishes exactly when x is some message moved by y. */
  lemma VanishesAtMessages(messages: seq<Scalar>, x: Scalar, y: Scalar, q: nat)
    requires IsPrime(q)
    ensures ProductAt(Roots(messages, y, q), x) % q == 0
       <==> exists i :: 0 <= i < |messages| && (messages[i] + y) % q == x % q
  {
    var roots := Roots(messages, y, q);
    VanishesAtRoots(roots, x, q);
    forall i | 0 <= i < |messages| ensures (x - roots[i]) % q == 0 <==> (messages[i] + y) % q == x % q {
      Reduce(messages[i] + y, q);
      Apart(x, roots[i], q);
    }
    if i :| 0 <= i < |roots| && (x - roots[i]) % q == 0 {
      assert (messages[i] + y) % q == x % q;
    }
    if i :| 0 <= i < |messages| && (messages[i] + y) % q == x % q {
      assert (x - roots[i]) % q == 0;
    }
  }

  lemma Apart(a: int, b: int, q: nat)
    requires q > 0
    ensures (a - b) % q == 0 <==> a % q == b % q
  {
    Canonical(0, q);
    if a % q == b % q {
      Add(a, b, 0 - b, 0 - b, q);
    }
    if (a - b) % q == 0 {
      Add(a - b, 0, b, b, q);
    }
  }

  method PolyEvalAtX(messages: seq<Scalar>, x: Scalar, y: Scalar, q: nat) returns (acc: Scalar)
    requires q > 1
    ensures acc == ProductAt(Roots(messages, y, q), x) % q
    ensures IsPrime(q) ==> (acc == 0 <==> exists i :: 0 <= i < |messages| && (messages[i] + y) % q == x % q)
  {
    if IsPrime(q) {
      VanishesAtMessages(messages, x, y, q);
    }
    acc := 1;
    var roots := Roots(messages, y, q);
    Canonical(1, q);
    assert roots[|messages|..] == [];
    for i := 0 to |messages|
      invariant acc < q && Eqv(acc * ProductAt(roots[i..], x), ProductAt(roots, x), q)
    {
      var shifted := (messages[i] + y) % q;
      var factor := (x - shifted) % q;
      assert roots[i..][1..] == roots[i + 1..];
      ProductStep(acc, factor, x - shifted, ProductAt(roots[i + 1..], x), q);
      acc := acc * factor % q;
    }
    Canonical(acc, q);
  }

  lemma ProductStep(acc: int, factor: int, d: int, rest: int, q: nat)
    requires q > 0 && factor == d % q
    ensures Eqv(acc * factor % q * rest, acc * (d * rest), q)
  {
    Reduce(acc * factor, q);
    Reduce(d, q);
    Scale(acc, factor, d, q);
    Times(acc * factor % q, acc * factor, rest, rest, q);
    Times(acc * factor, acc * d, rest, rest, q);
    assert acc * d * rest == acc * (d * rest);
  }

  // ----------------------------------------------------------------------
  // The prover

  method ShuffleProveBg(s: Setup, messages: seq<Scalar>, openingsOrig: seq<Scalar>, openingsShuf: seq<Scalar>,
                        permutation: seq<int>, c: seq<Point>, c': seq<Point>) returns (r: Result<Proof>)
    requires s.Ok()
    ensures r.Success?
       <==> && |openingsOrig| == |openingsShuf| == |permutation| == |c| == |c'| == |messages| < U32
            && forall i :: 0 <= i < |permutation| ==> 0 <= permutation[i] < |messages|
    ensures r.Success? ==> |r.value.shuffled| == |messages|
    ensures r.Success? ==> forall i :: 0 <= i < |messages| ==> r.value.shuffled[i] == messages[permutation[i]]
    ensures r.Success? ==>
              var y := s.hashY(c, c') % s.q;
              r.value == Proof(y, s.hashX(c, c', y) % s.q, messages, r.value.shuffled, openingsOrig, openingsShuf)
  {
    var n := |messages|;
    if |openingsOrig| != n || |openingsShuf| != n || |permutation| != n || |c| != n || |c'| != n {
      return Failure("shuffleProveBg: input size mismatch");
    }
    if n >= U32 {
      return Failure("transcriptBytes: |C| > 2^32 - cap exceeded");
    }
    var y := ChallengeY(s, c, c');
    var x := ChallengeX(s, c, c', y);
    var shuffled: seq<Scalar> := [];
    for i := 0 to n
      invariant |shuffled| == i
      invariant forall k :: 0 <= k < i ==> 0 <= permutation[k] < n && shuffled[k] == messages[permutation[k]]
    {
      if permutation[i] < 0 || permutation[i] >= n {
        return Failure("shuffleProveBg: permutation OOB");
      }
      shuffled := shuffled + [messages[permutation[i]]];
    }
    r := Success(Proof(y, x, messages, shuffled, openingsOrig, openingsShuf));
  }

  // ----------------------------------------------------------------------
  // The verifier

  ghost predicate Sized(p: Proof, n: nat) {
    |p.messages| == |p.shuffled| == |p.openingsOrig| == |p.openingsShuf| == n
  }

  /** Every opening is that of its commitment. */
  ghost predicate Bound(s: Setup, p: Proof, c: seq<Point>, c': seq<Point>)
    requires |c'| == |c| && Sized(p, |c|)
  {
    forall i :: 0 <= i < |c| ==>
      s.commit(p.messages[i], p.openingsOrig[i]) == c[i] && s.commit(p.shuffled[i], p.openingsShuf[i]) == c'[i]
  }

  ghost predicate ProductsAgree(messages: seq<Scalar>, shuffled: seq<Scalar>, x: Scalar, y: Scalar, q: nat)
    requires q > 0
  {
    Eqv(ProductAt(Roots(messages, y, q), x), ProductAt(Roots(shuffled, y, q), x), q)
  }

  method ShuffleVerifyBg(s: Setup, p: Proof, c: seq<Point>, c': seq<Point>) returns (r: Result<bool>)
    requires s.Ok()
    ensures r.Failure? <==> |c'| == |c| >= U32 && Sized(p, |c|)
    ensures r.Success? ==>
              (r.value <==> && |c'| == |c| && Sized(p, |c|)
                            && p.challengeY == s.hashY(c, c') % s.q && p.challengeX == s.hashX(c, c', p.challengeY) % s.q
                            && Bound(s, p, c, c')
                            && ProductsAgree(p.messages, p.shuffled, p.challengeX, p.challengeY, s.q))
  {
    var n := |c|;
    if |c'| != n || |p.messages| != n || |p.shuffled| != n || |p.openingsOrig| != n || |p.openingsShuf| != n {
      return Success(false);
    }
    if n >= U32 {
      return Failure("transcriptBytes: |C| > 2^32 - cap exceeded");
    }
    var y := ChallengeY(s, c, c');
    var x := ChallengeX(s, c, c', y);
    if y != p.challengeY || x != p.challengeX {
      return Success(false);
    }
    for i := 0 to n
      invariant forall k :: 0 <= k < i ==>
                  s.commit(p.messages[k], p.openingsOrig[k]) == c[k] && s.commit(p.shuffled[k], p.openingsShuf[k]) == c'[k]
    {
      if s.commit(p.messages[i], p.openingsOrig[i]) != c[i] {
        return Success(false);
      }
      if s.commit(p.shuffled[i], p.openingsShuf[i]) != c'[i] {
        return Success(false);
      }
    }
    var prodOrig := PolyEvalAtX(p.messages, x, y, s.q);
    var prodShuf := PolyEvalAtX(p.shuffled, x, y, s.q);
    r := Success(prodOrig == prodShuf);
  }

  // ----------------------------------------------------------------------
  // Completeness

  function Shift(y: int, q: nat): int -> int
    requires q > 0
  {
    (m: int) => (m + y) % q
  }

  lemma RootsAreShifted(messages: seq<Scalar>, y: Scalar, q: nat)
    requires q > 0
    ensures Roots(messages, y, q) == Map(Ints(messages), Shift(y, q))
  {
  }

  function Ints(s: seq<nat>): (t: seq<int>)
    ensures |t| == |s| && forall i :: 0 <= i < |s| ==> t[i] == s[i]
  {
    seq(|s|, i requires 0 <= i < |s| => s[i])
  }

  /** The product does not depend on the order of its factors. */
  lemma {:induction false} ProductPermuted(as_: seq<int>, bs: seq<int>, x: int)
    requires multiset(as_) == multiset(bs)
    ensures ProductAt(as_, x) == ProductAt(bs, x)
    decreases |as_|
  {
    if as_ == [] {
      assert |multiset(as_)| == |multiset(bs)|;
    } else {
      var j := TakeOut(as_, bs);
      ProductPermuted(as_[1..], bs[..j] + bs[j + 1..], x);
      ProductWithout(bs, j, x);
    }
  }

  lemma TakeOut(as_: seq<int>, bs: seq<int>) returns (j: nat)
    requires as_ != [] && multiset(as_) == multiset(bs)
    ensures j < |bs| && bs[j] == as_[0] && multiset(as_[1..]) == multiset(bs[..j] + bs[j + 1..])
  {
    assert as_[0] in multiset(bs);
    j :| 0 <= j < |bs| && bs[j] == as_[0];
    WithoutAt(as_, 0);
    WithoutAt(bs, j);
    assert as_[..0] + as_[1..] == as_[1..];
    Cancelled(multiset(as_[1..]), multiset(bs[..j] + bs[j + 1..]), as_[0]);
  }

  lemma WithoutAt(s: seq<int>, j: nat)
    requires j < |s|
    ensures multiset(s) == multiset(s[..j] + s[j + 1..]) + multiset{s[j]}
  {
    assert s == s[..j] + [s[j]] + s[j + 1..];
  }

  lemma Cancelled(a: multiset<int>, b: multiset<int>, x: int)
    requires a + multiset{x} == b + multiset{x}
    ensures a == b
  {
    assert a == (a + multiset{x}) - multiset{x};
    assert b == (b + multiset{x}) - multiset{x};
  }

  /** A permutation of the messages passes at every challenge. */
  lemma PermutationAgrees(messages: seq<Scalar>, shuffled: seq<Scalar>, x: Scalar, y: Scalar, q: nat)
    requires q > 0 && multiset(Ints(messages)) == multiset(Ints(shuffled))
    ensures ProductsAgree(messages, shuffled, x, y, q)
  {
    RootsAreShifted(messages, y, q);
    RootsAreShifted(shuffled, y, q);
    MapPermuted(Ints(messages), Ints(shuffled), Shift(y, q));
    ProductPermuted(Roots(messages, y, q), Roots(shuffled, y, q), x);
  }

  /** Whatever the hashes return, the verifier accepts an honest shuffle. */
  method HonestRun(s: Setup, messages: seq<Scalar>, openingsOrig: seq<Scalar>, openingsShuf: seq<Scalar>,
                   permutation: seq<int>, c: seq<Point>, c': seq<Point>) returns (accepted: bool)
    requires s.Ok() && IsPermutation(permutation, |messages|) && |messages| < U32
    requires |openingsOrig| == |openingsShuf| == |c| == |c'| == |messages|
    requires forall i :: 0 <= i < |messages| ==> c[i] == s.commit(messages[i], openingsOrig[i])
    requires forall i :: 0 <= i < |messages| ==> c'[i] == s.commit(messages[permutation[i]], openingsShuf[i])
    ensures accepted
  {
    var proof := ShuffleProveBg(s, messages, openingsOrig, openingsShuf, permutation, c, c');
    var p := proof.value;
    IndexedPermutes(Ints(messages), permutation, Ints(p.shuffled));
    PermutationAgrees(p.messages, p.shuffled, p.challengeX, p.challengeY, s.q);
    var r := ShuffleVerifyBg(s, p, c, c');
    accepted := r.value;
  }

  // ----------------------------------------------------------------------
  // Soundness

  /** The challenges at which the product check passes. */
  ghost function PassingX(messages: seq<Scalar>, shuffled: seq<Scalar>, y: Scalar, q: nat): set<int>
    requires q > 0
  {
    set x: int | 0 <= x < q && Eqv(ProductAt(Roots(messages, y, q), x), ProductAt(Roots(shuffled, y, q), x), q)
  }

  ghost predicate Canonicals(s: seq<Scalar>, q: nat) {
    forall i :: 0 <= i < |s| ==> s[i] < q
  }

  /** Moving back by y recovers the messages. */
  lemma Unshift(messages: seq<Scalar>, y: Scalar, q: nat)
    requires q > 0 && Canonicals(messages, q)
    ensures Map(Roots(messages, y, q), Shift(0 - y, q)) == Ints(messages)
  {
    var back := Map(Roots(messages, y, q), Shift(0 - y, q));
    forall i | 0 <= i < |messages| ensures back[i] == messages[i] {
      UnshiftOne(messages[i], y, q);
    }
  }

  lemma UnshiftOne(m: Scalar, y: Scalar, q: nat)
    requires q > 0 && m < q
    ensures ((m + y) % q - y) % q == m
  {
    Reduce(m + y, q);
    Add((m + y) % q, m + y, y, y, q);
    Canonical(m, q);
  }

  /**
   * If the two revealed message vectors are not rearrangements of each other,
   * the check passes for at most n - 1 of the q challenges x; if they are, it
   * passes for all of them.
   */
  lemma Soundness(messages: seq<Scalar>, shuffled: seq<Scalar>, y: Scalar, q: nat)
    requires IsPrime(q) && |messages| == |shuffled| && Canonicals(messages, q) && Canonicals(shuffled, q)
    ensures multiset(Ints(messages)) != multiset(Ints(shuffled)) ==> |PassingX(messages, shuffled, y, q)| < |messages|
    ensures multiset(Ints(messages)) == multiset(Ints(shuffled)) ==>
              forall x :: 0 <= x < q ==> x in PassingX(messages, shuffled, y, q)
  {
    var passing := PassingX(messages, shuffled, y, q);
    if multiset(Ints(messages)) == multiset(Ints(shuffled)) {
      forall x: nat | x < q ensures x in passing {
        PermutationAgrees(messages, shuffled, x, y, q);
      }
    } else if |passing| >= |messages| {
      SameRoots(Roots(messages, y, q), Roots(shuffled, y, q), passing, q);
      MapPermuted(Roots(messages, y, q), Roots(shuffled, y, q), Shift(0 - y, q));
      Unshift(messages, y, q);
      Unshift(shuffled, y, q);
      assert false;
    }
  }
}

/** SPDZ and SPDZ2k authenticated shares: MACs under a shared key, opening, and Beaver multiplication. */
module AuthShares {
  import opened Outcomes
  import opened Words
  import opened ModRing

  /** The ring the shares live in, and the ring of the values they carry. */
  datatype Ring = Ring(size: nat, value: nat) {
    predicate Ok() {
      size > 0 && value > 0 && size % value == 0
    }
  }

  /** 64-bit values in a 128-bit ring. */
  const SPDZ2K: Ring := Ring(U64 * U64, U64)

  /** The 64-bit variant: one ring for both. */
  const SPDZ: Ring := Ring(U64, U64)

  type Share = seq<int>

  datatype Auth = Auth(value: Share, mac: Share)

  datatype AuthTriple = AuthTriple(u: Auth, v: Auth, w: Auth)

  // ----------------------------------------------------------------------
  // Linear operations

  function AddShared(a: Share, b: Share, m: nat): (c: Share)
    requires m > 0 && |a| == |b|
    ensures |c| == |a| && Eqv(Sum(c), Sum(a) + Sum(b), m)
  {
    var c := seq(|a|, i requires 0 <= i < |a| => (a[i] + b[i]) % m);
    forall i | 0 <= i < |c| ensures Eqv(c[i], a[i] + b[i], m) { Reduce(a[i] + b[i], m); }
    SumAdd(a, b, c, m);
    c
  }

  function SubShared(a: Share, b: Share, m: nat): (c: Share)
    requires m > 0 && |a| == |b|
    ensures |c| == |a| && Eqv(Sum(c), Sum(a) - Sum(b), m)
  {
    var c := seq(|a|, i requires 0 <= i < |a| => (a[i] - b[i]) % m);
    forall i | 0 <= i < |c| ensures Eqv(c[i], a[i] - b[i], m) { Reduce(a[i] - b[i], m); }
    SumSub(a, b, c, m);
    c
  }

  function MulConst(a: Share, k: int, m: nat): (c: Share)
    requires m > 0
    ensures |c| == |a| && Eqv(Sum(c), k * Sum(a), m)
  {
    var c := seq(|a|, i requires 0 <= i < |a| => (k * a[i]) % m);
    forall i | 0 <= i < |c| ensures Eqv(c[i], k * a[i], m) { Reduce(k * a[i], m); }
    SumScale(k, a, c, m);
    c
  }

  /** The sum of the shares is the ring element. */
  function Reconstruct(s: Share, m: nat): nat
    requires m > 0
  {
    Sum(s) % m
  }

  /** mac = alpha * value in the full ring. */
  ghost predicate Authenticated(x: Auth, alpha: Share, m: nat)
    requires m > 0
  {
    |x.value| == |x.mac| == |alpha| && Eqv(Sum(x.mac), Sum(alpha) * Sum(x.value), m)
  }

  predicate SameParties(a: Auth, b: Auth) {
    |a.value| == |b.value| && |a.mac| == |b.mac|
  }

  function AuthAdd(a: Auth, b: Auth, m: nat): Result<Auth>
    requires m > 0
  {
    if !SameParties(a, b) then Failure("addShared128: N mismatch")
    else Success(Auth(AddShared(a.value, b.value, m), AddShared(a.mac, b.mac, m)))
  }

  function AuthSub(a: Auth, b: Auth, m: nat): Result<Auth>
    requires m > 0
  {
    if !SameParties(a, b) then Failure("subShared128: N mismatch")
    else Success(Auth(SubShared(a.value, b.value, m), SubShared(a.mac, b.mac, m)))
  }

  function AuthMulConst(a: Auth, k: int, m: nat): Auth
    requires m > 0
  {
    Auth(MulConst(a.value, k % m, m), MulConst(a.mac, k % m, m))
  }

  /** Party 0 absorbs a public constant. */
  function BumpFirst(a: Share, c: int, m: nat): (b: Share)
    requires m > 0 && |a| > 0
    ensures |b| == |a| && Eqv(Sum(b), Sum(a) + c, m)
  {
    Reduce(a[0] + c, m);
    SumBump(a, 0, a[0 := (a[0] + c) % m], c, m);
    a[0 := (a[0] + c) % m]
  }

  /** The value grows by c and the MAC by alpha c. */
  function AuthAddConst(a: Auth, c: int, alpha: int, m: nat): Auth
    requires m > 0 && |a.value| > 0 && |a.mac| > 0
  {
    Auth(BumpFirst(a.value, c, m), BumpFirst(a.mac, alpha * c, m))
  }

  /** alpha (x + y) from alpha x and alpha y. */
  lemma MacAdds(mx: int, my: int, mz: int, x: int, y: int, z: int, alpha: int, m: nat)
    requires m > 0 && Eqv(mx, alpha * x, m) && Eqv(my, alpha * y, m)
    ensures Eqv(mz, mx + my, m) && Eqv(z, x + y, m) ==> Eqv(mz, alpha * z, m)
    ensures Eqv(mz, mx - my, m) && Eqv(z, x - y, m) ==> Eqv(mz, alpha * z, m)
  {
    Add(mx, alpha * x, my, alpha * y, m);
    assert alpha * (x + y) == alpha * x + alpha * y && alpha * (x - y) == alpha * x - alpha * y;
    if Eqv(z, x + y, m) { Scale(alpha, z, x + y, m); }
    if Eqv(z, x - y, m) { Scale(alpha, z, x - y, m); }
  }

  lemma AddKeepsMac(a: Auth, b: Auth, alpha: Share, m: nat)
    requires m > 0 && Authenticated(a, alpha, m) && Authenticated(b, alpha, m)
    ensures AuthAdd(a, b, m).Success? && Authenticated(AuthAdd(a, b, m).value, alpha, m)
    ensures Eqv(Sum(AuthAdd(a, b, m).value.value), Sum(a.value) + Sum(b.value), m)
  {
    hide Eqv, AddShared;
    var c := AuthAdd(a, b, m).value;
    MacAdds(Sum(a.mac), Sum(b.mac), Sum(c.mac), Sum(a.value), Sum(b.value), Sum(c.value), Sum(alpha), m);
  }

  lemma SubKeepsMac(a: Auth, b: Auth, alpha: Share, m: nat)
    requires m > 0 && Authenticated(a, alpha, m) && Authenticated(b, alpha, m)
    ensures AuthSub(a, b, m).Success? && Authenticated(AuthSub(a, b, m).value, alpha, m)
    ensures Eqv(Sum(AuthSub(a, b, m).value.value), Sum(a.value) - Sum(b.value), m)
  {
    hide Eqv, SubShared;
    var c := AuthSub(a, b, m).value;
    MacAdds(Sum(a.mac), Sum(b.mac), Sum(c.mac), Sum(a.value), Sum(b.value), Sum(c.value), Sum(alpha), m);
  }

  lemma MulConstKeepsMac(a: Auth, k: int, alpha: Share, m: nat)
    requires m > 0 && Authenticated(a, alpha, m)
    ensures Authenticated(AuthMulConst(a, k, m), alpha, m)
    ensures Eqv(Sum(AuthMulConst(a, k, m).value), k * Sum(a.value), m)
  {
    var c, al, x := AuthMulConst(a, k, m), Sum(alpha), Sum(a.value);
    assert Eqv(Sum(c.mac), k % m * Sum(a.mac), m) && Eqv(Sum(c.value), k % m * x, m);
    Reduce(k, m);
    Times(k % m, k, x, x, m);
    Times(k % m, k, Sum(a.mac), al * x, m);
    Scale(al, Sum(c.value), k * x, m);
    assert k * (al * x) == al * (k * x);
  }

  lemma AddConstKeepsMac(a: Auth, c: int, alpha: Share, m: nat)
    requires m > 0 && |alpha| > 0 && Authenticated(a, alpha, m)
    ensures Authenticated(AuthAddConst(a, c, Sum(alpha), m), alpha, m)
    ensures Eqv(Sum(AuthAddConst(a, c, Sum(alpha), m).value), Sum(a.value) + c, m)
  {
    hide Eqv, BumpFirst;
    var r, al := AuthAddConst(a, c, Sum(alpha), m), Sum(alpha);
    Reflexive(al * c, m);
    MacAdds(Sum(a.mac), al * c, Sum(r.mac), Sum(a.value), c, Sum(r.value), al, m);
  }

  lemma SumIsMac(a: int, a': int, c: int, m: nat)
    requires m > 0 && Eqv(a, a', m)
    ensures Eqv(a + c, a' + c, m)
  {
    Add(a, a', c, c, m);
  }

  // ----------------------------------------------------------------------
  // Opening with a MAC check; alpha stays shared

  /** A commitment function of party, sigma and salt. */
  type Hash = (nat, int, int) -> nat

  datatype SigmaCommit = SigmaCommit(party: nat, sigma: int, salt: int, commit: nat)

  function ComputeSigmaCommit(party: nat, alphaI: int, macI: int, x: int, salt: int, hash: Hash, m: nat): SigmaCommit
    requires m > 0
  {
    var sigma := (alphaI * x - macI) % m;
    SigmaCommit(party, sigma, salt, hash(party, sigma, salt))
  }

  predicate VerifySigmaReveal(s: SigmaCommit, expected: nat, hash: Hash) {
    hash(s.party, s.sigma, s.salt) == expected
  }

  /** sigma_1 + sigma_2 = alpha x - mac */
  lemma SigmaSum(a0: int, a1: int, m0: int, m1: int, x: int, m: nat)
    requires m > 0
    ensures ((a0 * x - m0) % m + (a1 * x - m1) % m) % m == 0 <==> Eqv((a0 + a1) * x, m0 + m1, m)
  {
    Reduce(a0 * x - m0, m);
    Reduce(a1 * x - m1, m);
    var total := (a0 + a1) * x - (m0 + m1);
    assert total == (a0 * x - m0) + (a1 * x - m1);
    Add((a0 * x - m0) % m, a0 * x - m0, (a1 * x - m1) % m, a1 * x - m1, m);
    Canonical(0, m);
    if Eqv((a0 + a1) * x, m0 + m1, m) {
      Add((a0 + a1) * x, m0 + m1, m0 + m1, m0 + m1, m);
    }
    if Eqv(total, 0, m) {
      Add(total, 0, m0 + m1, m0 + m1, m);
    }
  }

  /** What opening returns: the low value bits, when the MAC identity holds in the full ring. */
  function Opened(x: Auth, alpha: Share, ring: Ring): Option<nat>
    requires ring.Ok()
  {
    if (Sum(alpha) * Sum(x.value)) % ring.size == Sum(x.mac) % ring.size
    then Some(Reconstruct(x.value, ring.size) % ring.value) else None
  }

  method OpenWithMacCheckShared(x: Auth, alpha: Share, ring: Ring, hash: Hash, salt1: int, salt2: int)
    returns (r: Result<Option<nat>>)
    requires ring.Ok() && |x.mac| == |x.value|
    ensures r.Success? <==> |x.value| == 2 && |alpha| == 2
    ensures r.Success? ==> r.value == Opened(x, alpha, ring)
  {
    if |x.value| != 2 || |alpha| != 2 {
      return Failure("openWithMacCheckShared128: 2-party only (MPSVS S1/S2 topology)");
    }
    var m := ring.size;
    var xRing := Reconstruct(x.value, m);
    var s1 := ComputeSigmaCommit(1, alpha[0], x.mac[0], xRing, salt1, hash, m);
    var s2 := ComputeSigmaCommit(2, alpha[1], x.mac[1], xRing, salt2, hash, m);
    var c1, c2 := s1.commit, s2.commit;
    SumTwo(alpha);
    SumTwo(x.mac);
    SigmaSum(alpha[0], alpha[1], x.mac[0], x.mac[1], xRing, m);
    Reduce(Sum(x.value), m);
    Scale(Sum(alpha), xRing, Sum(x.value), m);
    if !VerifySigmaReveal(s1, c1, hash) || !VerifySigmaReveal(s2, c2, hash) {
      return Success(None);
    }
    if (s1.sigma + s2.sigma) % m != 0 {
      return Success(None);
    }
    r := Success(Some(xRing % ring.value));
  }

  /** An authenticated share opens, to its value. */
  lemma AuthenticatedOpens(x: Auth, alpha: Share, ring: Ring)
    requires ring.Ok() && Authenticated(x, alpha, ring.size)
    ensures Opened(x, alpha, ring) == Some(Sum(x.value) % ring.value)
  {
    Reduce(Sum(x.value), ring.size);
    Coarser(Sum(x.value) % ring.size, Sum(x.value), ring.size, ring.value);
  }

  // ----------------------------------------------------------------------
  // Beaver multiplication

  predicate TwoParty(x: Auth) {
    |x.value| == 2 && |x.mac| == 2
  }

  /** Party i's share of w + d v + e u, plus its share of the public term. */
  function Combine(w: int, v: int, u: int, d: int, e: int, extra: int, m: nat): int
    requires m > 0
  {
    (w + d * v % m + e * u % m + extra % m) % m
  }

  function Combined(t: AuthTriple, alpha: Share, d: int, e: int, m: nat): Auth
    requires m > 0 && TwoParty(t.u) && TwoParty(t.v) && TwoParty(t.w) && |alpha| == 2
  {
    Auth([Combine(t.w.value[0], t.v.value[0], t.u.value[0], d, e, d * e, m),
          Combine(t.w.value[1], t.v.value[1], t.u.value[1], d, e, 0, m)],
         [Combine(t.w.mac[0], t.v.mac[0], t.u.mac[0], d, e, alpha[0] * d * e, m),
          Combine(t.w.mac[1], t.v.mac[1], t.u.mac[1], d, e, alpha[1] * d * e, m)])
  }

  /** d = x - u and e = y - v are opened, cut to value bits, and used in the full ring. */
  function Product(x: Auth, y: Auth, t: AuthTriple, alpha: Share, ring: Ring): Result<Auth>
    requires ring.Ok()
  {
    if !TwoParty(x) || !TwoParty(y) || |alpha| != 2 || !TwoParty(t.u) || !TwoParty(t.v) || !TwoParty(t.w)
    then Failure("authSecureMultiplyShared128: 2-party only (MPSVS S1/S2)")
    else
      var d, e := Opened(AuthSub(x, t.u, ring.size).value, alpha, ring), Opened(AuthSub(y, t.v, ring.size).value, alpha, ring);
      if d.None? then Failure("authSecureMultiplyShared128: MAC check failed on d = x - u")
      else if e.None? then Failure("authSecureMultiplyShared128: MAC check failed on e = y - v")
      else Success(Combined(t, alpha, d.value, e.value, ring.size))
  }

  /** A triple whose parts are authenticated, with w = u v on the value bits. */
  ghost predicate Honest(t: AuthTriple, alpha: Share, ring: Ring)
    requires ring.Ok()
  {
    && Authenticated(t.u, alpha, ring.size) && Authenticated(t.v, alpha, ring.size) && Authenticated(t.w, alpha, ring.size)
    && Eqv(Sum(t.w.value), Sum(t.u.value) * Sum(t.v.value), ring.value)
  }

  function Beaver(w: int, v: int, u: int, d: int, e: int, extra: int): int {
    w + d * v + e * u + extra
  }

  lemma CombineIs(w: int, v: int, u: int, d: int, e: int, extra: int, m: nat)
    requires m > 0
    ensures Eqv(Combine(w, v, u, d, e, extra, m), Beaver(w, v, u, d, e, extra), m)
  {
    hide Eqv;
    Reduce(d * v, m);
    Reduce(e * u, m);
    Reduce(extra, m);
    Reduce(w + d * v % m + e * u % m + extra % m, m);
    SumIsMac(d * v % m, d * v, w, m);
    Add(d * v % m + w, d * v + w, e * u % m, e * u, m);
    Add(d * v % m + w + e * u % m, d * v + w + e * u, extra % m, extra, m);
    Transitive(Combine(w, v, u, d, e, extra, m), w + d * v % m + e * u % m + extra % m, w + d * v + e * u + extra, m);
  }

  lemma CombinedValue(t: AuthTriple, alpha: Share, d: int, e: int, m: nat)
    requires m > 0 && TwoParty(t.u) && TwoParty(t.v) && TwoParty(t.w) && |alpha| == 2
    ensures Eqv(Sum(Combined(t, alpha, d, e, m).value),
                Beaver(Sum(t.w.value), Sum(t.v.value), Sum(t.u.value), d, e, d * e), m)
  {
    hide Combine, Eqv, Sum, Beaver;
    TwoCombined(t.w.value, t.v.value, t.u.value, d, e, d * e, 0, m);
  }

  lemma CombinedMac(t: AuthTriple, alpha: Share, d: int, e: int, m: nat)
    requires m > 0 && TwoParty(t.u) && TwoParty(t.v) && TwoParty(t.w) && |alpha| == 2
    ensures Eqv(Sum(Combined(t, alpha, d, e, m).mac),
                Beaver(Sum(t.w.mac), Sum(t.v.mac), Sum(t.u.mac), d, e, Sum(alpha) * (d * e)), m)
  {
    hide Combine, Eqv, Sum, Beaver, Combined;
    var x0, x1 := alpha[0] * d * e, alpha[1] * d * e;
    CombinedMacIs(t, alpha, d, e, m, x0, x1);
    TwoCombined(t.w.mac, t.v.mac, t.u.mac, d, e, x0, x1, m);
    SumTwo(alpha);
    Spread(alpha[0], alpha[1], d, e);
  }

  lemma CombinedMacIs(t: AuthTriple, alpha: Share, d: int, e: int, m: nat, x0: int, x1: int)
    requires m > 0 && TwoParty(t.u) && TwoParty(t.v) && TwoParty(t.w) && |alpha| == 2
    requires x0 == alpha[0] * d * e && x1 == alpha[1] * d * e
    ensures Combined(t, alpha, d, e, m).mac
         == [Combine(t.w.mac[0], t.v.mac[0], t.u.mac[0], d, e, x0, m), Combine(t.w.mac[1], t.v.mac[1], t.u.mac[1], d, e, x1, m)]
  {
    hide Combine;
  }

  lemma Spread(a0: int, a1: int, d: int, e: int)
    ensures a0 * d * e + a1 * d * e == (a0 + a1) * (d * e)
  {
    assert a0 * d * e == a0 * (d * e) && a1 * d * e == a1 * (d * e);
  }

  lemma TwoCombined(w: Share, v: Share, u: Share, d: int, e: int, x0: int, x1: int, m: nat)
    requires m > 0 && |w| == |v| == |u| == 2
    ensures Eqv(Sum([Combine(w[0], v[0], u[0], d, e, x0, m), Combine(w[1], v[1], u[1], d, e, x1, m)]),
                Beaver(Sum(w), Sum(v), Sum(u), d, e, x0 + x1), m)
  {
    hide Combine, Eqv, Sum, Beaver;
    var c0, c1 := Combine(w[0], v[0], u[0], d, e, x0, m), Combine(w[1], v[1], u[1], d, e, x1, m);
    CombineIs(w[0], v[0], u[0], d, e, x0, m);
    CombineIs(w[1], v[1], u[1], d, e, x1, m);
    SumTwo([c0, c1]);
    SumTwo(w);
    SumTwo(v);
    SumTwo(u);
    Add(c0, Beaver(w[0], v[0], u[0], d, e, x0), c1, Beaver(w[1], v[1], u[1], d, e, x1), m);
    TwoSums(w[0], w[1], v[0], v[1], u[0], u[1], d, e, x0, x1);
  }

  lemma TwoSums(w0: int, w1: int, v0: int, v1: int, u0: int, u1: int, d: int, e: int, x0: int, x1: int)
    ensures Beaver(w0, v0, u0, d, e, x0) + Beaver(w1, v1, u1, d, e, x1) == Beaver(w0 + w1, v0 + v1, u0 + u1, d, e, x0 + x1)
  {
    Twice(d, v0, v1, v0 + v1);
    Twice(e, u0, u1, u0 + u1);
  }

  lemma Twice(d: int, a: int, b: int, c: int)
    requires c == a + b
    ensures d * a + d * b == d * c
  {
  }

  /** alpha distributes over the combination, whatever d and e are. */
  lemma BeaverKeepsMac(z: int, k: int, w: int, wm: int, v: int, vm: int, u: int, um: int, d: int, e: int, al: int, m: nat)
    requires m > 0 && Eqv(wm, al * w, m) && Eqv(vm, al * v, m) && Eqv(um, al * u, m)
    requires Eqv(z, Beaver(w, v, u, d, e, d * e), m) && Eqv(k, Beaver(wm, vm, um, d, e, al * (d * e)), m)
    ensures Eqv(k, al * z, m)
  {
    hide Eqv;
    Scale(d, vm, al * v, m);
    Scale(e, um, al * u, m);
    Add(wm, al * w, d * vm, d * (al * v), m);
    Add(wm + d * vm, al * w + d * (al * v), e * um, e * (al * u), m);
    SumIsMac(wm + d * vm + e * um, al * w + d * (al * v) + e * (al * u), al * (d * e), m);
    Scale(al, z, w + d * v + e * u + d * e, m);
    Factor(al, w, v, u, d, e);
    var plain := al * (w + d * v + e * u + d * e);
    Transitive(k, wm + d * vm + e * um + al * (d * e), plain, m);
    Symmetric(al * z, plain, m);
    Transitive(k, plain, al * z, m);
  }

  /** The MAC of the combination is alpha times its value. */
  lemma CombinedKeepsMac(t: AuthTriple, alpha: Share, d: int, e: int, m: nat)
    requires m > 0 && |alpha| == 2
    requires Authenticated(t.u, alpha, m) && Authenticated(t.v, alpha, m) && Authenticated(t.w, alpha, m)
    ensures Authenticated(Combined(t, alpha, d, e, m), alpha, m)
  {
    CombinedValue(t, alpha, d, e, m);
    CombinedMac(t, alpha, d, e, m);
    CombinedSize(t, alpha, d, e, m);
    hide Combined, Eqv, Beaver;
    var z := Combined(t, alpha, d, e, m);
    BeaverKeepsMac(Sum(z.value), Sum(z.mac), Sum(t.w.value), Sum(t.w.mac), Sum(t.v.value), Sum(t.v.mac),
                   Sum(t.u.value), Sum(t.u.mac), d, e, Sum(alpha), m);
  }

  lemma CombinedSize(t: AuthTriple, alpha: Share, d: int, e: int, m: nat)
    requires m > 0 && TwoParty(t.u) && TwoParty(t.v) && TwoParty(t.w) && |alpha| == 2
    ensures TwoParty(Combined(t, alpha, d, e, m))
  {
  }

  lemma Factor(al: int, w: int, v: int, u: int, d: int, e: int)
    ensures al * (w + d * v + e * u + d * e) == al * w + d * (al * v) + e * (al * u) + al * (d * e)
  {
  }

  lemma BeaverAlgebra(x: int, y: int, u: int, v: int, d: int, e: int)
    requires d == x - u && e == y - v
    ensures u * v + d * v + e * u + d * e == x * y
  {
  }

  /** w + d v + e u + d e is x y on the value bits, although d and e have been cut to them. */
  lemma CombinedIsProduct(x: int, y: int, u: int, v: int, w: int, d: int, e: int, m: nat)
    requires m > 0 && Eqv(w, u * v, m) && Eqv(d, x - u, m) && Eqv(e, y - v, m)
    ensures Eqv(w + d * v + e * u + d * e, x * y, m)
  {
    hide Eqv;
    Reflexive(v, m);
    Reflexive(u, m);
    Times(d, x - u, v, v, m);
    Times(e, y - v, u, u, m);
    Times(d, x - u, e, y - v, m);
    Add(w, u * v, d * v, (x - u) * v, m);
    Add(w + d * v, u * v + (x - u) * v, e * u, (y - v) * u, m);
    Add(w + d * v + e * u, u * v + (x - u) * v + (y - v) * u, d * e, (x - u) * (y - v), m);
    BeaverAlgebra(x, y, u, v, x - u, y - v);
  }

  /** The opened difference, and its residue on the value bits. */
  lemma DifferenceOpens(x: Auth, u: Auth, alpha: Share, ring: Ring)
    requires ring.Ok() && Authenticated(x, alpha, ring.size) && Authenticated(u, alpha, ring.size)
    ensures AuthSub(x, u, ring.size).Success?
    ensures var d := Opened(AuthSub(x, u, ring.size).value, alpha, ring);
            d.Some? && Eqv(d.value, Sum(x.value) - Sum(u.value), ring.value)
  {
    hide Eqv, Opened, AuthSub, Authenticated;
    SubKeepsMac(x, u, alpha, ring.size);
    var diff := AuthSub(x, u, ring.size).value;
    AuthenticatedOpens(diff, alpha, ring);
    Coarser(Sum(diff.value), Sum(x.value) - Sum(u.value), ring.size, ring.value);
    Reduce(Sum(diff.value), ring.value);
    Transitive(Sum(diff.value) % ring.value, Sum(diff.value), Sum(x.value) - Sum(u.value), ring.value);
  }

  /**
   * With authenticated inputs and an honest triple no MAC failure is thrown;
   * the result is authenticated in the full ring and its value is x y on the
   * value bits.
   */
  lemma ProductIsCorrect(x: Auth, y: Auth, t: AuthTriple, alpha: Share, ring: Ring)
    requires ring.Ok() && |alpha| == 2 && Honest(t, alpha, ring)
    requires Authenticated(x, alpha, ring.size) && Authenticated(y, alpha, ring.size)
    ensures Product(x, y, t, alpha, ring).Success?
    ensures Authenticated(Product(x, y, t, alpha, ring).value, alpha, ring.size)
    ensures Eqv(Sum(Product(x, y, t, alpha, ring).value.value), Sum(x.value) * Sum(y.value), ring.value)
  {
    hide Eqv, Opened, Combined, AuthSub;
    DifferenceOpens(x, t.u, alpha, ring);
    DifferenceOpens(y, t.v, alpha, ring);
    var d := Opened(AuthSub(x, t.u, ring.size).value, alpha, ring).value;
    var e := Opened(AuthSub(y, t.v, ring.size).value, alpha, ring).value;
    CombinedKeepsMac(t, alpha, d, e, ring.size);
    CombinedValue(t, alpha, d, e, ring.size);
    var u, v, w := Sum(t.u.value), Sum(t.v.value), Sum(t.w.value);
    Coarser(Sum(Combined(t, alpha, d, e, ring.size).value), w + d * v + e * u + d * e, ring.size, ring.value);
    CombinedIsProduct(Sum(x.value), Sum(y.value), u, v, w, d, e, ring.value);
    Transitive(Sum(Combined(t, alpha, d, e, ring.size).value), w + d * v + e * u + d * e, Sum(x.value) * Sum(y.value), ring.value);
  }

  lemma SubParties(x: Auth, u: Auth, m: nat)
    requires m > 0 && TwoParty(x) && TwoParty(u)
    ensures AuthSub(x, u, m).Success? && TwoParty(AuthSub(x, u, m).value)
  {
  }

  /** The method of the program: two rounds of opening, then a loop over the parties. */
  method AuthSecureMultiplyShared(x: Auth, y: Auth, t: AuthTriple, alpha: Share, ring: Ring, hash: Hash, salts: nat -> int)
    returns (r: Result<Auth>)
    requires ring.Ok()
    ensures r.Success? <==> Product(x, y, t, alpha, ring).Success?
    ensures r.Success? ==> r == Product(x, y, t, alpha, ring)
  {
    if !TwoParty(x) || !TwoParty(y) || |alpha| != 2 || !TwoParty(t.u) || !TwoParty(t.v) || !TwoParty(t.w) {
      return Failure("authSecureMultiplyShared128: 2-party only (MPSVS S1/S2)");
    }
    hide Opened, Combined, AuthSub;
    SubParties(x, t.u, ring.size);
    SubParties(y, t.v, ring.size);
    var m := ring.size;
    var d := OpenWithMacCheckShared(AuthSub(x, t.u, m).value, alpha, ring, hash, salts(0), salts(1));
    if d.value.None? {
      return Failure("authSecureMultiplyShared128: MAC check failed on d = x - u");
    }
    var e := OpenWithMacCheckShared(AuthSub(y, t.v, m).value, alpha, ring, hash, salts(2), salts(3));
    if e.value.None? {
      return Failure("authSecureMultiplyShared128: MAC check failed on e = y - v");
    }
    var z := CombineShares(t, alpha, d.value.value, e.value.value, m);
    r := Success(z);
  }

  method CombineShares(t: AuthTriple, alpha: Share, d: int, e: int, m: nat) returns (z: Auth)
    requires m > 0 && TwoParty(t.u) && TwoParty(t.v) && TwoParty(t.w) && |alpha| == 2
    ensures z == Combined(t, alpha, d, e, m)
  {
    var value: Share, mac: Share := [], [];
    for i := 0 to 2
      invariant |value| == |mac| == i
      invariant forall k :: 0 <= k < i ==>
                  && value[k] == Combine(t.w.value[k], t.v.value[k], t.u.value[k], d, e, if k == 0 then d * e else 0, m)
                  && mac[k] == Combine(t.w.mac[k], t.v.mac[k], t.u.mac[k], d, e, alpha[k] * d * e, m)
    {
      value := value + [Combine(t.w.value[i], t.v.value[i], t.u.value[i], d, e, if i == 0 then d * e else 0, m)];
      mac := mac + [Combine(t.w.mac[i], t.v.mac[i], t.u.mac[i], d, e, alpha[i] * d * e, m)];
    }
    z := Auth(value, mac);
  }

  // ----------------------------------------------------------------------
  // Circuits

  /** Arithmetic over authenticated inputs. */
  datatype Expr =
    | Input(i: nat)
    | Plus(a: Expr, b: Expr)
    | Minus(a: Expr, b: Expr)
    | Scaled(k: int, a: Expr)
    | Multiply(a: Expr, b: Expr)

  function Muls(e: Expr): nat {
    match e
    case Input(_) => 0
    case Plus(a, b) => Muls(a) + Muls(b)
    case Minus(a, b) => Muls(a) + Muls(b)
    case Scaled(_, a) => Muls(a)
    case Multiply(a, b) => Muls(a) + Muls(b) + 1
  }

  predicate Reads(e: Expr, n: nat) {
    match e
    case Input(i) => i < n
    case Plus(a, b) => Reads(a, n) && Reads(b, n)
    case Minus(a, b) => Reads(a, n) && Reads(b, n)
    case Scaled(_, a) => Reads(a, n)
    case Multiply(a, b) => Reads(a, n) && Reads(b, n)
  }

  /** The plain value of the expression. */
  function Plain(e: Expr, xs: seq<int>): int
    requires Reads(e, |xs|)
  {
    match e
    case Input(i) => xs[i]
    case Plus(a, b) => Plain(a, xs) + Plain(b, xs)
    case Minus(a, b) => Plain(a, xs) - Plain(b, xs)
    case Scaled(k, a) => k * Plain(a, xs)
    case Multiply(a, b) => Plain(a, xs) * Plain(b, xs)
  }

  /** Evaluation on shares; each product takes the next triple. */
  function Evaluate(e: Expr, inputs: seq<Auth>, triples: seq<AuthTriple>, at: nat, alpha: Share, ring: Ring): Result<Auth>
    requires ring.Ok() && Reads(e, |inputs|) && at + Muls(e) <= |triples|
  {
    match e
    case Input(i) => Success(inputs[i])
    case Plus(a, b) =>
      var x :- Evaluate(a, inputs, triples, at, alpha, ring);
      var y :- Evaluate(b, inputs, triples, at + Muls(a), alpha, ring);
      AuthAdd(x, y, ring.size)
    case Minus(a, b) =>
      var x :- Evaluate(a, inputs, triples, at, alpha, ring);
      var y :- Evaluate(b, inputs, triples, at + Muls(a), alpha, ring);
      AuthSub(x, y, ring.size)
    case Scaled(k, a) =>
      var x :- Evaluate(a, inputs, triples, at, alpha, ring);
      Success(AuthMulConst(x, k, ring.size))
    case Multiply(a, b) =>
      var x :- Evaluate(a, inputs, triples, at, alpha, ring);
      var y :- Evaluate(b, inputs, triples, at + Muls(a), alpha, ring);
      Product(x, y, triples[at + Muls(a) + Muls(b)], alpha, ring)
  }

  function Opening(inputs: seq<Auth>): (xs: seq<int>)
    ensures |xs| == |inputs|
  {
    seq(|inputs|, i requires 0 <= i < |inputs| => Sum(inputs[i].value))
  }

  ghost predicate GoodInputs(inputs: seq<Auth>, triples: seq<AuthTriple>, alpha: Share, ring: Ring)
    requires ring.Ok()
  {
    && |alpha| == 2
    && (forall i :: 0 <= i < |inputs| ==> Authenticated(inputs[i], alpha, ring.size))
    && forall i :: 0 <= i < |triples| ==> Honest(triples[i], alpha, ring)
  }

  /** The share carries the value and its MAC in the full ring. */
  ghost predicate Carries(r: Result<Auth>, v: int, alpha: Share, ring: Ring)
    requires ring.Ok()
  {
    r.Success? && Authenticated(r.value, alpha, ring.size) && Eqv(Sum(r.value.value), v, ring.value)
  }

  lemma PlusCarries(x: Auth, y: Auth, v: int, w: int, alpha: Share, ring: Ring)
    requires ring.Ok() && Carries(Success(x), v, alpha, ring) && Carries(Success(y), w, alpha, ring)
    ensures Carries(AuthAdd(x, y, ring.size), v + w, alpha, ring)
    ensures Carries(AuthSub(x, y, ring.size), v - w, alpha, ring)
  {
    hide Eqv, AuthAdd, AuthSub;
    AddKeepsMac(x, y, alpha, ring.size);
    SubKeepsMac(x, y, alpha, ring.size);
    Add(Sum(x.value), v, Sum(y.value), w, ring.value);
    var s, d := AuthAdd(x, y, ring.size).value, AuthSub(x, y, ring.size).value;
    Coarser(Sum(s.value), Sum(x.value) + Sum(y.value), ring.size, ring.value);
    Coarser(Sum(d.value), Sum(x.value) - Sum(y.value), ring.size, ring.value);
    Transitive(Sum(s.value), Sum(x.value) + Sum(y.value), v + w, ring.value);
    Transitive(Sum(d.value), Sum(x.value) - Sum(y.value), v - w, ring.value);
  }

  lemma ScaledCarries(x: Auth, k: int, v: int, alpha: Share, ring: Ring)
    requires ring.Ok() && Carries(Success(x), v, alpha, ring)
    ensures Carries(Success(AuthMulConst(x, k, ring.size)), k * v, alpha, ring)
  {
    hide Eqv, AuthMulConst;
    var s := AuthMulConst(x, k, ring.size);
    MulConstKeepsMac(x, k, alpha, ring.size);
    Scale(k, Sum(x.value), v, ring.value);
    Coarser(Sum(s.value), k * Sum(x.value), ring.size, ring.value);
    Transitive(Sum(s.value), k * Sum(x.value), k * v, ring.value);
  }

  lemma ProductCarries(x: Auth, y: Auth, t: AuthTriple, v: int, w: int, alpha: Share, ring: Ring)
    requires ring.Ok() && |alpha| == 2 && Honest(t, alpha, ring)
    requires Carries(Success(x), v, alpha, ring) && Carries(Success(y), w, alpha, ring)
    ensures Carries(Product(x, y, t, alpha, ring), v * w, alpha, ring)
  {
    hide Eqv, Product;
    ProductIsCorrect(x, y, t, alpha, ring);
    Times(Sum(x.value), v, Sum(y.value), w, ring.value);
    Transitive(Sum(Product(x, y, t, alpha, ring).value.value), Sum(x.value) * Sum(y.value), v * w, ring.value);
  }

  /** Every node of every circuit carries its plain value, with a MAC valid in the full ring. */
  lemma {:induction false} CircuitIsCorrect(e: Expr, inputs: seq<Auth>, triples: seq<AuthTriple>, at: nat,
                                            alpha: Share, ring: Ring)
    requires ring.Ok() && Reads(e, |inputs|) && at + Muls(e) <= |triples| && GoodInputs(inputs, triples, alpha, ring)
    ensures Carries(Evaluate(e, inputs, triples, at, alpha, ring), Plain(e, Opening(inputs)), alpha, ring)
  {
    hide Product, AuthAdd, AuthSub, AuthMulConst, Honest;
    var xs := Opening(inputs);
    match e
    case Input(i) =>
    case Plus(a, b) =>
      CircuitIsCorrect(a, inputs, triples, at, alpha, ring);
      CircuitIsCorrect(b, inputs, triples, at + Muls(a), alpha, ring);
      PlusCarries(Evaluate(a, inputs, triples, at, alpha, ring).value,
                  Evaluate(b, inputs, triples, at + Muls(a), alpha, ring).value, Plain(a, xs), Plain(b, xs), alpha, ring);
    case Minus(a, b) =>
      CircuitIsCorrect(a, inputs, triples, at, alpha, ring);
      CircuitIsCorrect(b, inputs, triples, at + Muls(a), alpha, ring);
      PlusCarries(Evaluate(a, inputs, triples, at, alpha, ring).value,
                  Evaluate(b, inputs, triples, at + Muls(a), alpha, ring).value, Plain(a, xs), Plain(b, xs), alpha, ring);
    case Scaled(k, a) =>
      CircuitIsCorrect(a, inputs, triples, at, alpha, ring);
      ScaledCarries(Evaluate(a, inputs, triples, at, alpha, ring).value, k, Plain(a, xs), alpha, ring);
    case Multiply(a, b) =>
      CircuitIsCorrect(a, inputs, triples, at, alpha, ring);
      CircuitIsCorrect(b, inputs, triples, at + Muls(a), alpha, ring);
      ProductCarries(Evaluate(a, inputs, triples, at, alpha, ring).value,
                     Evaluate(b, inputs, triples, at + Muls(a), alpha, ring).value,
                     triples[at + Muls(a) + Muls(b)], Plain(a, xs), Plain(b, xs), alpha, ring);
  }

  /** Opening the result of a circuit gives the plain value on the value bits. */
  lemma CircuitOpens(e: Expr, inputs: seq<Auth>, triples: seq<AuthTriple>, alpha: Share, ring: Ring)
    requires ring.Ok() && Reads(e, |inputs|) && Muls(e) <= |triples| && GoodInputs(inputs, triples, alpha, ring)
    ensures Evaluate(e, inputs, triples, 0, alpha, ring).Success?
    ensures Opened(Evaluate(e, inputs, triples, 0, alpha, ring).value, alpha, ring)
         == Some(Plain(e, Opening(inputs)) % ring.value)
  {
    hide Evaluate, Opened;
    CircuitIsCorrect(e, inputs, triples, 0, alpha, ring);
    AuthenticatedOpens(Evaluate(e, inputs, triples, 0, alpha, ring).value, alpha, ring);
  }

  // ----------------------------------------------------------------------
  // The key in the clear, any number of parties

  /** w + d v + e u, with party 0 absorbing the public term. */
  function Linear(w: Share, v: Share, u: Share, d: int, e: int, extra: int, m: nat): (z: Share)
    requires m > 0 && |w| == |v| == |u| > 0
    ensures |z| == |w| && Eqv(Sum(z), Beaver(Sum(w), Sum(v), Sum(u), d, e, extra), m)
  {
    var dv, eu := MulConst(v, d, m), MulConst(u, e, m);
    var s := AddShared(w, dv, m);
    var t := AddShared(s, eu, m);
    var z := BumpFirst(t, extra, m);
    LinearSum(Sum(w), Sum(dv), Sum(eu), Sum(s), Sum(t), Sum(z), d * Sum(v), e * Sum(u), extra, m);
    z
  }

  lemma LinearSum(w: int, dv: int, eu: int, s: int, t: int, z: int, dv': int, eu': int, extra: int, m: nat)
    requires m > 0 && Eqv(dv, dv', m) && Eqv(eu, eu', m)
    requires Eqv(s, w + dv, m) && Eqv(t, s + eu, m) && Eqv(z, t + extra, m)
    ensures Eqv(z, w + dv' + eu' + extra, m)
  {
    Add(s, w + dv, eu, eu', m);
    Add(w, w, dv, dv', m);
    Add(w + dv, w + dv', eu', eu', m);
    Add(t, w + dv' + eu', extra, extra, m);
  }

  /** Opening with the key at hand: compare alpha x with the MAC. */
  function OpenWithMacCheck(x: Auth, alpha: int, ring: Ring): Option<nat>
    requires ring.Ok()
  {
    Opened(x, [alpha], ring)
  }

  function PlainKeyProduct(x: Auth, y: Auth, t: AuthTriple, alpha: int, ring: Ring): Result<Auth>
    requires ring.Ok()
  {
    var xmu :- AuthSub(x, t.u, ring.size);
    var ymv :- AuthSub(y, t.v, ring.size);
    var d, e := OpenWithMacCheck(xmu, alpha, ring), OpenWithMacCheck(ymv, alpha, ring);
    if d.None? then Failure("authSecureMultiply: MAC check failed on opening of d = x - u")
    else if e.None? then Failure("authSecureMultiply: MAC check failed on opening of e = y - v")
    else if !SameParties(t.w, t.v) || !SameParties(t.w, t.u) || |t.w.value| == 0 || |t.w.mac| == 0
    then Failure("addShared: N mismatch")
    else
      Success(Auth(Linear(t.w.value, t.v.value, t.u.value, d.value, e.value, d.value * e.value, ring.size),
                   Linear(t.w.mac, t.v.mac, t.u.mac, d.value, e.value, alpha * (d.value * e.value), ring.size)))
  }

  /** The same guarantee with the key in the clear, for any number of parties. */
  lemma PlainKeyProductIsCorrect(x: Auth, y: Auth, t: AuthTriple, alpha: Share, ring: Ring)
    requires ring.Ok() && |alpha| > 0 && Honest(t, alpha, ring)
    requires Authenticated(x, alpha, ring.size) && Authenticated(y, alpha, ring.size)
    ensures PlainKeyProduct(x, y, t, Sum(alpha), ring).Success?
    ensures Authenticated(PlainKeyProduct(x, y, t, Sum(alpha), ring).value, alpha, ring.size)
    ensures Eqv(Sum(PlainKeyProduct(x, y, t, Sum(alpha), ring).value.value), Sum(x.value) * Sum(y.value), ring.value)
  {
    hide Eqv, AuthSub, Linear, Beaver, Opened;
    DifferenceOpens(x, t.u, alpha, ring);
    DifferenceOpens(y, t.v, alpha, ring);
    var m := ring.size;
    SameKey(AuthSub(x, t.u, m).value, alpha, ring);
    SameKey(AuthSub(y, t.v, m).value, alpha, ring);
    var d, e := Opened(AuthSub(x, t.u, m).value, alpha, ring).value, Opened(AuthSub(y, t.v, m).value, alpha, ring).value;
    LinearIsCorrect(x, y, t, alpha, ring, d, e);
  }

  lemma LinearIsCorrect(x: Auth, y: Auth, t: AuthTriple, alpha: Share, ring: Ring, d: int, e: int)
    requires ring.Ok() && |alpha| > 0 && Honest(t, alpha, ring)
    requires Eqv(d, Sum(x.value) - Sum(t.u.value), ring.value) && Eqv(e, Sum(y.value) - Sum(t.v.value), ring.value)
    ensures var zv := Linear(t.w.value, t.v.value, t.u.value, d, e, d * e, ring.size);
            var zm := Linear(t.w.mac, t.v.mac, t.u.mac, d, e, Sum(alpha) * (d * e), ring.size);
            Authenticated(Auth(zv, zm), alpha, ring.size) && Eqv(Sum(zv), Sum(x.value) * Sum(y.value), ring.value)
  {
    hide Eqv, Linear, Beaver;
    var m, al := ring.size, Sum(alpha);
    var zv := Linear(t.w.value, t.v.value, t.u.value, d, e, d * e, m);
    var zm := Linear(t.w.mac, t.v.mac, t.u.mac, d, e, al * (d * e), m);
    LinearIs(t.w.value, t.v.value, t.u.value, d, e, d * e, m);
    LinearIs(t.w.mac, t.v.mac, t.u.mac, d, e, al * (d * e), m);
    var u, v, w := Sum(t.u.value), Sum(t.v.value), Sum(t.w.value);
    BeaverKeepsMac(Sum(zv), Sum(zm), w, Sum(t.w.mac), v, Sum(t.v.mac), u, Sum(t.u.mac), d, e, al, m);
    Coarser(Sum(zv), Beaver(w, v, u, d, e, d * e), m, ring.value);
    BeaverProduct(Sum(x.value), Sum(y.value), u, v, w, d, e, ring.value);
    Transitive(Sum(zv), Beaver(w, v, u, d, e, d * e), Sum(x.value) * Sum(y.value), ring.value);
  }

  lemma LinearIs(w: Share, v: Share, u: Share, d: int, e: int, extra: int, m: nat)
    requires m > 0 && |w| == |v| == |u| > 0
    ensures |Linear(w, v, u, d, e, extra, m)| == |w|
    ensures Eqv(Sum(Linear(w, v, u, d, e, extra, m)), Beaver(Sum(w), Sum(v), Sum(u), d, e, extra), m)
  {
  }

  lemma BeaverProduct(x: int, y: int, u: int, v: int, w: int, d: int, e: int, m: nat)
    requires m > 0 && Eqv(w, u * v, m) && Eqv(d, x - u, m) && Eqv(e, y - v, m)
    ensures Eqv(Beaver(w, v, u, d, e, d * e), x * y, m)
  {
    hide Eqv;
    CombinedIsProduct(x, y, u, v, w, d, e, m);
  }

  lemma SameKey(x: Auth, alpha: Share, ring: Ring)
    requires ring.Ok()
    ensures Opened(x, [Sum(alpha)], ring) == Opened(x, alpha, ring)
  {
    assert [Sum(alpha)][1..] == [];
    assert Sum([Sum(alpha)]) == Sum(alpha);
  }
}

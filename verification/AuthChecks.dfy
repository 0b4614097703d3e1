/** When the checks on authenticated shares accept: sacrifice, batch opening, tampering. */
module AuthChecks {
  import opened Outcomes
  import opened ModRing
  import opened Words
  import opened AuthShares

  // ----------------------------------------------------------------------
  // The sacrifice check

  /** [r x - y] */
  function RXSubY(r: int, x: Auth, y: Auth, m: nat): Result<Auth>
    requires m > 0
  {
    AuthSub(AuthMulConst(x, r, m), y, m)
  }

  /** [r c - c' - sigma a' - rho b'] */
  function TauShared(r: int, c: Auth, sigma: int, a': Auth, rho: int, b': Auth, c': Auth, m: nat): Result<Auth>
    requires m > 0
  {
    var t0 :- AuthSub(AuthMulConst(c, r, m), c', m);
    var t1 :- AuthSub(t0, AuthMulConst(a', sigma, m), m);
    AuthSub(t1, AuthMulConst(b', rho, m), m)
  }

  /** The random challenge; zero is replaced by one. */
  function Challenge(random: int, m: nat): int
    requires m > 0
  {
    if random % m == 0 then 1 else random % m
  }

  /**
   * For two parties the check accepts exactly when the opened values meet the
   * triple equation and the MAC defects of the openings cancel; with valid
   * MACs there are no defects.
   */
  method SacrificeCheckTripleShared(T: AuthTriple, aux: AuthTriple, alpha: Share, ring: Ring, random: int,
                                    hash: Hash, salts: nat -> int) returns (r: Result<bool>)
    requires ring.Ok() && forall a :: a in [T.u, T.v, T.w, aux.u, aux.v, aux.w] ==> |a.value| == |a.mac|
    ensures |alpha| == 2 && AllTwoParty(T, aux) ==>
              var c := if random % ring.size == 0 then 1 else random % ring.size;
              r.Success? && (r.value <==> DefectsCancel(T, aux, Sum(alpha), c, ring) && Passes(T, aux, c, ring.value))
    ensures r == Success(true) ==> |alpha| == 2 && AllTwoParty(T, aux)
    ensures |alpha| == 2 && AllAuthenticated(T, aux, alpha, ring.size) ==>
              var c := if random % ring.size == 0 then 1 else random % ring.size;
              r.Success? && (r.value <==> Passes(T, aux, c, ring.value))
  {
    hide AuthMulConst, Opened, AuthSub, TauShared, RXSubY, Eqv, Passes, AllAuthenticated, DefectsCancel, FirstCancel, SecondCancel,
         ThirdCancel;
    var m, c := ring.size, Challenge(random, ring.size);
    ghost var al := Sum(alpha);
    if |alpha| == 2 && AllTwoParty(T, aux) {
      RhoOpens(T, aux, alpha, ring, c);
      SigmaOpens(T, aux, alpha, ring);
      TauOpens(T, aux, alpha, ring, c);
      CancelParts(T, aux, al, c, ring);
    }
    if |alpha| == 2 && AllAuthenticated(T, aux, alpha, m) {
      AuthenticatedCancel(T, aux, alpha, c, ring);
    }
    SizesKept(c, T.u, aux.u, m);
    SizesKept(1, T.v, aux.v, m);
    var rhoShared :- RXSubY(c, T.u, aux.u, m);
    var sigmaShared :- RXSubY(1, T.v, aux.v, m);
    var rho :- OpenWithMacCheckShared(rhoShared, alpha, ring, hash, salts(0), salts(1));
    if rho.None? {
      return Success(false);
    }
    var sigma :- OpenWithMacCheckShared(sigmaShared, alpha, ring, hash, salts(2), salts(3));
    if sigma.None? {
      return Success(false);
    }
    TauSizes(c, T.w, sigma.value, aux.u, rho.value, aux.v, aux.w, m);
    var tauShared :- TauShared(c, T.w, sigma.value, aux.u, rho.value, aux.v, aux.w, m);
    var tau := OpenWithMacCheckShared(tauShared, alpha, ring, hash, salts(4), salts(5));
    if tau.value.None? {
      return Success(false);
    }
    r := Success(tau.value.value == rho.value * sigma.value % ring.value);
  }

  lemma SizesKept(r: int, x: Auth, y: Auth, m: nat)
    requires m > 0 && |x.value| == |x.mac| && |y.value| == |y.mac|
    ensures var d := RXSubY(r, x, y, m);
            d.Success? ==> |d.value.value| == |d.value.mac| == |x.value| == |y.value|
  {
  }

  lemma TauSizes(r: int, c: Auth, sigma: int, a': Auth, rho: int, b': Auth, c': Auth, m: nat)
    requires m > 0 && |c.value| == |c.mac| && |c'.value| == |c'.mac| && |a'.value| == |a'.mac| && |b'.value| == |b'.mac|
    ensures var t := TauShared(r, c, sigma, a', rho, b', c', m);
            t.Success? ==> |t.value.value| == |t.value.mac| == |c.value| == |c'.value| == |a'.value| == |b'.value|
  {
  }

  ghost predicate PairOf(x: Auth) {
    |x.value| == |x.mac| == 2
  }

  ghost predicate AllTwoParty(T: AuthTriple, aux: AuthTriple) {
    PairOf(T.u) && PairOf(T.v) && PairOf(T.w) && PairOf(aux.u) && PairOf(aux.v) && PairOf(aux.w)
  }

  ghost predicate AllAuthenticated(T: AuthTriple, aux: AuthTriple, alpha: Share, m: nat)
    requires m > 0
  {
    && Authenticated(T.u, alpha, m) && Authenticated(T.v, alpha, m) && Authenticated(T.w, alpha, m)
    && Authenticated(aux.u, alpha, m) && Authenticated(aux.v, alpha, m) && Authenticated(aux.w, alpha, m)
  }

  /** r (w - u v) = w' - u' v' on the value bits. */
  ghost predicate Passes(T: AuthTriple, aux: AuthTriple, r: int, v: nat)
    requires v > 0
  {
    Eqv(r * (Sum(T.w.value) - Sum(T.u.value) * Sum(T.v.value)),
        Sum(aux.w.value) - Sum(aux.u.value) * Sum(aux.v.value), v)
  }

  /** How far a MAC is from alpha times its value. */
  ghost function Defect(x: Auth, al: int): int {
    al * Sum(x.value) - Sum(x.mac)
  }

  /** What the first two openings return: r u - u' and v - v', cut to the value bits. */
  ghost function OpenedRho(T: AuthTriple, aux: AuthTriple, r: int, ring: Ring): nat
    requires ring.Ok()
  {
    (r * Sum(T.u.value) - Sum(aux.u.value)) % ring.size % ring.value
  }

  ghost function OpenedSigma(T: AuthTriple, aux: AuthTriple, ring: Ring): nat
    requires ring.Ok()
  {
    (1 * Sum(T.v.value) - Sum(aux.v.value)) % ring.size % ring.value
  }

  ghost predicate FirstCancel(T: AuthTriple, aux: AuthTriple, al: int, r: int, m: nat)
    requires m > 0
  {
    Eqv(r * Defect(T.u, al) - Defect(aux.u, al), 0, m)
  }

  ghost predicate SecondCancel(T: AuthTriple, aux: AuthTriple, al: int, m: nat)
    requires m > 0
  {
    Eqv(1 * Defect(T.v, al) - Defect(aux.v, al), 0, m)
  }

  ghost predicate ThirdCancel(T: AuthTriple, aux: AuthTriple, al: int, r: int, rho: int, sigma: int, m: nat)
    requires m > 0
  {
    Eqv(r * Defect(T.w, al) - Defect(aux.w, al) - sigma * Defect(aux.u, al) - rho * Defect(aux.v, al), 0, m)
  }

  /** The MAC defects of the three openings cancel in the full ring. */
  ghost predicate DefectsCancel(T: AuthTriple, aux: AuthTriple, al: int, r: int, ring: Ring)
    requires ring.Ok()
  {
    && FirstCancel(T, aux, al, r, ring.size) && SecondCancel(T, aux, al, ring.size)
    && ThirdCancel(T, aux, al, r, OpenedRho(T, aux, r, ring), OpenedSigma(T, aux, ring), ring.size)
  }

  lemma CancelParts(T: AuthTriple, aux: AuthTriple, al: int, r: int, ring: Ring)
    requires ring.Ok()
    ensures DefectsCancel(T, aux, al, r, ring)
       <==> && FirstCancel(T, aux, al, r, ring.size) && SecondCancel(T, aux, al, ring.size)
            && ThirdCancel(T, aux, al, r, OpenedRho(T, aux, r, ring), OpenedSigma(T, aux, ring), ring.size)
  {
    hide FirstCancel, SecondCancel, ThirdCancel, OpenedRho, OpenedSigma;
  }

  lemma NoDefect(x: Auth, alpha: Share, m: nat)
    requires m > 0 && Authenticated(x, alpha, m)
    ensures Eqv(Defect(x, Sum(alpha)), 0, m)
  {
    Symmetric(Sum(x.mac), Sum(alpha) * Sum(x.value), m);
    Add(Sum(alpha) * Sum(x.value), Sum(x.mac), Sum(x.mac), Sum(x.mac), m);
  }

  /** r a - b vanishes with a and b. */
  lemma Vanishes(r: int, a: int, b: int, m: nat)
    requires m > 0 && Eqv(a, 0, m) && Eqv(b, 0, m)
    ensures Eqv(r * a, 0, m) && Eqv(r * a - b, 0, m)
  {
    hide Eqv;
    Scale(r, a, 0, m);
    Add(r * a, r * 0, b, 0, m);
  }

  /** Valid MACs leave nothing to cancel. */
  lemma AuthenticatedCancel(T: AuthTriple, aux: AuthTriple, alpha: Share, r: int, ring: Ring)
    requires ring.Ok() && |alpha| == 2 && AllAuthenticated(T, aux, alpha, ring.size)
    ensures AllTwoParty(T, aux) && DefectsCancel(T, aux, Sum(alpha), r, ring)
  {
    hide Eqv, OpenedRho, OpenedSigma, Defect;
    var m, al := ring.size, Sum(alpha);
    NoDefect(T.u, alpha, m);
    NoDefect(T.v, alpha, m);
    NoDefect(T.w, alpha, m);
    NoDefect(aux.u, alpha, m);
    NoDefect(aux.v, alpha, m);
    NoDefect(aux.w, alpha, m);
    var rho, sigma := OpenedRho(T, aux, r, ring), OpenedSigma(T, aux, ring);
    Vanishes(r, Defect(T.u, al), Defect(aux.u, al), m);
    Vanishes(1, Defect(T.v, al), Defect(aux.v, al), m);
    Vanishes(r, Defect(T.w, al), Defect(aux.w, al), m);
    Vanishes(sigma, Defect(aux.u, al), 0, m) by { Reflexive(0, m); }
    Vanishes(rho, Defect(aux.v, al), 0, m) by { Reflexive(0, m); }
    var first := r * Defect(T.w, al) - Defect(aux.w, al);
    Add(first, 0, sigma * Defect(aux.u, al), 0, m);
    Add(first - sigma * Defect(aux.u, al), 0, rho * Defect(aux.v, al), 0, m);
  }

  /** The share carries the value v and the MAC k in the full ring. */
  ghost predicate Has(r: Result<Auth>, v: int, k: int, m: nat)
    requires m > 0
  {
    r.Success? && PairOf(r.value) && Eqv(Sum(r.value.value), v, m) && Eqv(Sum(r.value.mac), k, m)
  }

  lemma SubHas(x: Auth, y: Auth, v: int, k: int, w: int, l: int, m: nat)
    requires m > 0 && Has(Success(x), v, k, m) && Has(Success(y), w, l, m)
    ensures Has(AuthSub(x, y, m), v - w, k - l, m)
  {
    hide Eqv;
    var d := AuthSub(x, y, m).value;
    Add(Sum(x.value), v, Sum(y.value), w, m);
    Add(Sum(x.mac), k, Sum(y.mac), l, m);
    Transitive(Sum(d.value), Sum(x.value) - Sum(y.value), v - w, m);
    Transitive(Sum(d.mac), Sum(x.mac) - Sum(y.mac), k - l, m);
  }

  lemma ItselfHas(x: Auth, m: nat)
    requires m > 0 && PairOf(x)
    ensures Has(Success(x), Sum(x.value), Sum(x.mac), m)
  {
  }

  lemma ScaledHas(x: Auth, c: int, m: nat)
    requires m > 0 && PairOf(x)
    ensures Has(Success(AuthMulConst(x, c, m)), c * Sum(x.value), c * Sum(x.mac), m)
  {
    hide Eqv;
    var d := AuthMulConst(x, c, m);
    Reduce(c, m);
    Reflexive(Sum(x.value), m);
    Reflexive(Sum(x.mac), m);
    Times(c % m, c, Sum(x.value), Sum(x.value), m);
    Times(c % m, c, Sum(x.mac), Sum(x.mac), m);
    Transitive(Sum(d.value), c % m * Sum(x.value), c * Sum(x.value), m);
    Transitive(Sum(d.mac), c % m * Sum(x.mac), c * Sum(x.mac), m);
  }

  lemma DifferenceHas(c: int, x: Auth, y: Auth, m: nat)
    requires m > 0 && PairOf(x) && PairOf(y)
    ensures Has(RXSubY(c, x, y, m), c * Sum(x.value) - Sum(y.value), c * Sum(x.mac) - Sum(y.mac), m)
  {
    hide Eqv, AuthMulConst, AuthSub, Has;
    ScaledHas(x, c, m);
    ItselfHas(y, m);
    SubHas(AuthMulConst(x, c, m), y, c * Sum(x.value), c * Sum(x.mac), Sum(y.value), Sum(y.mac), m);
  }

  /** An opening succeeds exactly when the defect of what it opens vanishes. */
  lemma OpensIff(r: Result<Auth>, v: int, k: int, alpha: Share, ring: Ring)
    requires ring.Ok() && Has(r, v, k, ring.size)
    ensures Opened(r.value, alpha, ring).Some? <==> Eqv(Sum(alpha) * v - k, 0, ring.size)
    ensures Opened(r.value, alpha, ring).Some? ==>
              Opened(r.value, alpha, ring).value == v % ring.size % ring.value
  {
    var m, al, s, t := ring.size, Sum(alpha), Sum(r.value.value), Sum(r.value.mac);
    OpenedIs(r.value, alpha, ring);
    hide Eqv, Opened;
    Scale(al, s, v, m);
    SameDefect(al * s, t, al * v, k, m);
    SameResidue(s, v, m);
  }

  lemma OpenedIs(x: Auth, alpha: Share, ring: Ring)
    requires ring.Ok()
    ensures Opened(x, alpha, ring).Some? <==> Eqv(Sum(alpha) * Sum(x.value), Sum(x.mac), ring.size)
    ensures Opened(x, alpha, ring).Some? ==> Opened(x, alpha, ring).value == Sum(x.value) % ring.size % ring.value
  {
  }

  lemma SameResidue(a: int, b: int, m: nat)
    requires m > 0 && Eqv(a, b, m)
    ensures a % m == b % m
  {
  }

  lemma SameDefect(a: int, b: int, c: int, d: int, m: nat)
    requires m > 0 && Eqv(a, c, m) && Eqv(b, d, m)
    ensures Eqv(a, b, m) <==> Eqv(c - d, 0, m)
  {
    hide Eqv;
    Symmetric(a, c, m);
    Symmetric(b, d, m);
    if Eqv(a, b, m) {
      Transitive(c, a, b, m);
      Transitive(c, b, d, m);
      Reflexive(d, m);
      Add(c, d, d, d, m);
    }
    if Eqv(c - d, 0, m) {
      Reflexive(d, m);
      Add(c - d, 0, d, d, m);
      Transitive(a, c, d, m);
      Transitive(a, d, b, m);
    }
  }

  lemma DefectOfDifference(al: int, c: int, v: int, k: int, w: int, l: int)
    ensures al * (c * v - w) - (c * k - l) == c * (al * v - k) - (al * w - l)
  {
    assert al * (c * v) == c * (al * v);
    assert al * (c * v - w) == al * (c * v) - al * w;
    assert c * (al * v - k) == c * (al * v) - c * k;
  }

  /** rho = r u - u' opens exactly when its defects cancel. */
  lemma RhoOpens(T: AuthTriple, aux: AuthTriple, alpha: Share, ring: Ring, r: int)
    requires ring.Ok() && AllTwoParty(T, aux)
    ensures var rho := RXSubY(r, T.u, aux.u, ring.size);
            && rho.Success? && PairOf(rho.value)
            && (Opened(rho.value, alpha, ring).Some? <==> FirstCancel(T, aux, Sum(alpha), r, ring.size))
            && (Opened(rho.value, alpha, ring).Some? ==> Opened(rho.value, alpha, ring).value == OpenedRho(T, aux, r, ring))
  {
    hide Eqv, Opened, RXSubY;
    var x, y, al := T.u, aux.u, Sum(alpha);
    DifferenceHas(r, x, y, ring.size);
    OpensIff(RXSubY(r, x, y, ring.size), r * Sum(x.value) - Sum(y.value), r * Sum(x.mac) - Sum(y.mac), alpha, ring);
    DefectOfDifference(al, r, Sum(x.value), Sum(x.mac), Sum(y.value), Sum(y.mac));
  }

  lemma SigmaOpens(T: AuthTriple, aux: AuthTriple, alpha: Share, ring: Ring)
    requires ring.Ok() && AllTwoParty(T, aux)
    ensures var sigma := RXSubY(1, T.v, aux.v, ring.size);
            && sigma.Success? && PairOf(sigma.value)
            && (Opened(sigma.value, alpha, ring).Some? <==> SecondCancel(T, aux, Sum(alpha), ring.size))
            && (Opened(sigma.value, alpha, ring).Some? ==> Opened(sigma.value, alpha, ring).value == OpenedSigma(T, aux, ring))
  {
    hide Eqv, Opened, RXSubY;
    var x, y, al := T.v, aux.v, Sum(alpha);
    DifferenceHas(1, x, y, ring.size);
    OpensIff(RXSubY(1, x, y, ring.size), 1 * Sum(x.value) - Sum(y.value), 1 * Sum(x.mac) - Sum(y.mac), alpha, ring);
    DefectOfDifference(al, 1, Sum(x.value), Sum(x.mac), Sum(y.value), Sum(y.mac));
  }

  lemma TauHas(r: int, c: Auth, sigma: int, a': Auth, rho: int, b': Auth, c': Auth, m: nat)
    requires m > 0 && PairOf(c) && PairOf(a') && PairOf(b') && PairOf(c')
    ensures Has(TauShared(r, c, sigma, a', rho, b', c', m),
                r * Sum(c.value) - Sum(c'.value) - sigma * Sum(a'.value) - rho * Sum(b'.value),
                r * Sum(c.mac) - Sum(c'.mac) - sigma * Sum(a'.mac) - rho * Sum(b'.mac), m)
  {
    hide Eqv, AuthMulConst, AuthSub;
    DifferenceHas(r, c, c', m);
    var t0 := RXSubY(r, c, c', m).value;
    var v0, k0 := r * Sum(c.value) - Sum(c'.value), r * Sum(c.mac) - Sum(c'.mac);
    ScaledHas(a', sigma, m);
    SubHas(t0, AuthMulConst(a', sigma, m), v0, k0, sigma * Sum(a'.value), sigma * Sum(a'.mac), m);
    var t1 := AuthSub(t0, AuthMulConst(a', sigma, m), m).value;
    ScaledHas(b', rho, m);
    SubHas(t1, AuthMulConst(b', rho, m), v0 - sigma * Sum(a'.value), k0 - sigma * Sum(a'.mac),
           rho * Sum(b'.value), rho * Sum(b'.mac), m);
  }

  lemma DefectOfTau(al: int, r: int, s: int, p: int, w: int, kw: int, w': int, kw': int, u': int, ku': int, v': int, kv': int)
    ensures al * (r * w - w' - s * u' - p * v') - (r * kw - kw' - s * ku' - p * kv')
         == r * (al * w - kw) - (al * w' - kw') - s * (al * u' - ku') - p * (al * v' - kv')
  {
    DefectOfDifference(al, r, w, kw, w', kw');
    DefectOfDifference(al, s, u', ku', 0, 0);
    DefectOfDifference(al, p, v', kv', 0, 0);
    var a, b, c := r * w - w', s * u', p * v';
    assert al * (a - b - c) == al * a - al * b - al * c;
  }

  /** tau - rho sigma = r (w - u v) - (w' - u' v'), for rho = r u - u' and sigma = v - v'. */
  lemma SacrificeAlgebra(r: int, u: int, v: int, w: int, u': int, v': int, w': int, rho: int, sigma: int)
    requires rho == r * u - u' && sigma == v - v'
    ensures (r * w - w' - sigma * u' - rho * v') - rho * sigma == r * (w - u * v) - (w' - u' * v')
  {
    assert rho * sigma == r * u * v - r * u * v' - u' * v + u' * v' by {
      assert (r * u - u') * (v - v') == (r * u) * v - (r * u) * v' - u' * v + u' * v';
    }
    assert sigma * u' == v * u' - v' * u';
    assert rho * v' == r * u * v' - u' * v';
    assert r * (w - u * v) == r * w - r * u * v by {
      assert r * (u * v) == r * u * v;
    }
  }

  lemma TauResidue(r: int, u: int, v: int, w: int, u': int, v': int, w': int, rho: int, sigma: int, tau: int, m: nat)
    requires m > 0 && 0 <= tau < m
    requires Eqv(rho, r * u - u', m) && Eqv(sigma, 1 * v - v', m)
    requires Eqv(tau, r * w - w' - sigma * u' - rho * v', m)
    ensures tau == rho * sigma % m <==> Eqv(r * (w - u * v), w' - u' * v', m)
  {
    hide Eqv;
    var rho1, sigma1 := r * u - u', v - v';
    var t1 := r * w - w' - sigma1 * u' - rho1 * v';
    Reflexive(u', m);
    Reflexive(v', m);
    Reflexive(r * w - w', m);
    Times(sigma, sigma1, u', u', m);
    Times(rho, rho1, v', v', m);
    Times(rho, rho1, sigma, sigma1, m);
    Add(r * w - w', r * w - w', sigma * u', sigma1 * u', m);
    Add(r * w - w' - sigma * u', r * w - w' - sigma1 * u', rho * v', rho1 * v', m);
    Transitive(tau, r * w - w' - sigma * u' - rho * v', t1, m);
    SacrificeAlgebra(r, u, v, w, u', v', w', rho1, sigma1);
    Compare(tau, t1, rho * sigma, rho1 * sigma1, r * (w - u * v), w' - u' * v', m);
  }

  /** tau = rho sigma exactly when the two defects agree. */
  lemma Compare(tau: int, t1: int, p: int, p1: int, a: int, b: int, m: nat)
    requires m > 0 && 0 <= tau < m && Eqv(tau, t1, m) && Eqv(p, p1, m) && t1 - p1 == a - b
    ensures tau == p % m <==> Eqv(a, b, m)
  {
    Canonical(tau, m);
    if Eqv(a, b, m) {
      Add(a, b, b, b, m);
      Add(a - b, b - b, p1, p1, m);
    }
    if Eqv(tau, p, m) {
      Add(t1, p1, p1, p1, m);
      Add(t1 - p1, p1 - p1, b, b, m);
    }
  }

  /** tau opens exactly when its defects cancel, and equals rho sigma exactly when the triple equation holds. */
  lemma TauOpens(T: AuthTriple, aux: AuthTriple, alpha: Share, ring: Ring, r: int)
    requires ring.Ok() && AllTwoParty(T, aux)
    ensures var rho, sigma := OpenedRho(T, aux, r, ring), OpenedSigma(T, aux, ring);
            var tau := TauShared(r, T.w, sigma, aux.u, rho, aux.v, aux.w, ring.size);
            && tau.Success? && PairOf(tau.value)
            && (Opened(tau.value, alpha, ring).Some? <==> ThirdCancel(T, aux, Sum(alpha), r, rho, sigma, ring.size))
            && (Opened(tau.value, alpha, ring).Some? ==>
                  (Opened(tau.value, alpha, ring).value == rho * sigma % ring.value <==> Passes(T, aux, r, ring.value)))
  {
    hide Eqv, Opened, TauShared;
    var m, al := ring.size, Sum(alpha);
    var rho, sigma := OpenedRho(T, aux, r, ring), OpenedSigma(T, aux, ring);
    var u, v, w, u', v', w' := Sum(T.u.value), Sum(T.v.value), Sum(T.w.value),
                               Sum(aux.u.value), Sum(aux.v.value), Sum(aux.w.value);
    var ku', kv', kw, kw' := Sum(aux.u.mac), Sum(aux.v.mac), Sum(T.w.mac), Sum(aux.w.mac);
    TauHas(r, T.w, sigma, aux.u, rho, aux.v, aux.w, m);
    var value := r * w - w' - sigma * u' - rho * v';
    OpensIff(TauShared(r, T.w, sigma, aux.u, rho, aux.v, aux.w, m), value, r * kw - kw' - sigma * ku' - rho * kv', alpha, ring);
    DefectOfTau(al, r, sigma, rho, w, kw, w', kw', u', ku', v', kv');
    CutKeeps(r * u - u', ring);
    CutKeeps(1 * v - v', ring);
    CutKeeps(value, ring);
    TauResidue(r, u, v, w, u', v', w', rho, sigma, value % m % ring.value, ring.value);
  }

  /** Cutting to the value bits keeps the class on them. */
  lemma CutKeeps(a: int, ring: Ring)
    requires ring.Ok()
    ensures Eqv(a % ring.size % ring.value, a, ring.value) && 0 <= a % ring.size % ring.value < ring.value
  {
    hide Eqv;
    Reduce(a, ring.size);
    Coarser(a % ring.size, a, ring.size, ring.value);
    Reduce(a % ring.size, ring.value);
    Transitive(a % ring.size % ring.value, a % ring.size, a, ring.value);
  }

  // ----------------------------------------------------------------------
  // Batch opening

  function Weighted(rs: seq<int>, vs: seq<int>): int
    requires |rs| == |vs|
  {
    if rs == [] then 0 else rs[0] * vs[0] + Weighted(rs[1..], vs[1..])
  }

  lemma {:induction false} WeightedSnoc(rs: seq<int>, vs: seq<int>, r: int, v: int)
    requires |rs| == |vs|
    ensures Weighted(rs + [r], vs + [v]) == Weighted(rs, vs) + r * v
  {
    if rs != [] {
      assert (rs + [r])[1..] == rs[1..] + [r] && (vs + [v])[1..] == vs[1..] + [v];
      WeightedSnoc(rs[1..], vs[1..], r, v);
    }
  }

  function Values(xs: seq<Auth>): (vs: seq<int>)
    ensures |vs| == |xs|
  {
    seq(|xs|, i requires 0 <= i < |xs| => Sum(xs[i].value))
  }

  function Macs(xs: seq<Auth>): (vs: seq<int>)
    ensures |vs| == |xs|
  {
    seq(|xs|, i requires 0 <= i < |xs| => Sum(xs[i].mac))
  }

  /** How far each MAC is from alpha times its value. */
  function Defects(xs: seq<Auth>, alpha: int): (ds: seq<int>)
    ensures |ds| == |xs|
  {
    seq(|xs|, i requires 0 <= i < |xs| => alpha * Sum(xs[i].value) - Sum(xs[i].mac))
  }

  lemma {:induction false} WeightedDefects(rs: seq<int>, xs: seq<Auth>, alpha: int)
    requires |rs| == |xs|
    ensures Weighted(rs, Defects(xs, alpha)) == alpha * Weighted(rs, Values(xs)) - Weighted(rs, Macs(xs))
  {
    if rs != [] {
      WeightedDefects(rs[1..], xs[1..], alpha);
      assert Defects(xs, alpha)[1..] == Defects(xs[1..], alpha);
      assert Values(xs)[1..] == Values(xs[1..]) && Macs(xs)[1..] == Macs(xs[1..]);
      hide Weighted;
      OneDefect(rs[0], alpha, Sum(xs[0].value), Sum(xs[0].mac), Weighted(rs[1..], Values(xs[1..])));
      WeightedUnfolds(rs, Defects(xs, alpha));
      WeightedUnfolds(rs, Values(xs));
      WeightedUnfolds(rs, Macs(xs));
    }
  }

  lemma WeightedUnfolds(rs: seq<int>, vs: seq<int>)
    requires |rs| == |vs| > 0
    ensures Weighted(rs, vs) == rs[0] * vs[0] + Weighted(rs[1..], vs[1..])
  {
  }

  lemma OneDefect(r: int, alpha: int, v: int, k: int, rest: int)
    ensures r * (alpha * v - k) + alpha * rest == alpha * (r * v + rest) - r * k
  {
    assert r * (alpha * v - k) == r * (alpha * v) - r * k;
    assert r * (alpha * v) == alpha * (r * v);
  }

  /** The two-party sum of folded shares is the folded sum. */
  lemma FoldedTwo(a0: int, a1: int, r: int, s: Share, b0: int, b1: int, total: int, m: nat)
    requires m > 0 && |s| == 2 && Eqv(a0 + a1, total, m)
    requires b0 == (a0 + r * s[0]) % m && b1 == (a1 + r * s[1]) % m
    ensures Eqv(b0 + b1, total + r * Sum(s), m)
  {
    SumTwo(s);
    Reduce(a0 + r * s[0], m);
    Reduce(a1 + r * s[1], m);
    Add(b0, a0 + r * s[0], b1, a1 + r * s[1], m);
    assert r * (s[0] + s[1]) == r * s[0] + r * s[1];
    SumIsMac(a0 + a1, total, r * Sum(s), m);
  }

  /** The batch accepts: the challenge-weighted MAC defects cancel in the full ring. */
  ghost predicate BatchAccepts(xs: seq<Auth>, rs: seq<int>, alpha: Share, m: nat)
    requires m > 0 && |rs| == |xs|
  {
    Eqv(Weighted(rs, Defects(xs, Sum(alpha))), 0, m)
  }

  lemma BatchVerdict(xs: seq<Auth>, rs: seq<int>, alpha: Share, v: int, k: int, m: nat)
    requires m > 0 && |rs| == |xs| && Eqv(v, Weighted(rs, Values(xs)), m) && Eqv(k, Weighted(rs, Macs(xs)), m)
    ensures Eqv(Sum(alpha) * v, k, m) <==> BatchAccepts(xs, rs, alpha, m)
  {
    hide Eqv, Weighted, Sum;
    WeightedDefects(rs, xs, Sum(alpha));
    Verdict(Sum(alpha), v, Weighted(rs, Values(xs)), k, Weighted(rs, Macs(xs)), m);
  }

  lemma Verdict(al: int, v: int, vs: int, k: int, ks: int, m: nat)
    requires m > 0 && Eqv(v, vs, m) && Eqv(k, ks, m)
    ensures Eqv(al * v, k, m) <==> Eqv(al * vs - ks, 0, m)
  {
    Scale(al, v, vs, m);
    if Eqv(al * v, k, m) {
      Add(al * vs, al * v, ks, k, m);
      Add(al * v, k, k, k, m);
    }
    if Eqv(al * vs - ks, 0, m) {
      Add(al * vs - ks, 0, ks, ks, m);
    }
  }

  /** The accumulators after the first j elements. */
  ghost predicate Folded(rs: seq<int>, vs: seq<int>, j: nat, a0: int, a1: int, m: nat)
    requires m > 0 && j <= |rs| == |vs|
  {
    Eqv(a0 + a1, Weighted(rs[..j], vs[..j]), m)
  }

  lemma FoldNext(rs: seq<int>, vs: seq<int>, j: nat, a0: int, a1: int, s: Share, m: nat)
    requires m > 0 && j < |rs| == |vs| && |s| == 2 && vs[j] == Sum(s) && Folded(rs, vs, j, a0, a1, m)
    ensures Folded(rs, vs, j + 1, (a0 + rs[j] * s[0]) % m, (a1 + rs[j] * s[1]) % m, m)
  {
    hide Eqv, Weighted, Sum;
    FoldedTwo(a0, a1, rs[j], s, (a0 + rs[j] * s[0]) % m, (a1 + rs[j] * s[1]) % m, Weighted(rs[..j], vs[..j]), m);
    WeightedSnoc(rs[..j], vs[..j], rs[j], vs[j]);
    assert rs[..j + 1] == rs[..j] + [rs[j]] && vs[..j + 1] == vs[..j] + [vs[j]];
  }

  lemma FoldDone(rs: seq<int>, vs: seq<int>, a0: int, a1: int, m: nat)
    requires m > 0 && |rs| == |vs| && Folded(rs, vs, |rs|, a0, a1, m)
    ensures Eqv(a0 + a1, Weighted(rs, vs), m)
  {
    assert rs[..|rs|] == rs && vs[..|vs|] == vs;
  }

  /** Challenges derived from the batch itself. */
  function Challenges(xs: seq<Auth>, random: (nat, seq<Auth>) -> int, m: nat): (rs: seq<int>)
    requires m > 0
    ensures |rs| == |xs|
  {
    seq(|xs|, j requires 0 <= j < |xs| => Challenge(random(j, xs), m))
  }

  /** Opens every value, and checks one random combination of the MACs. */
  method BatchOpenWithMacCheckShared(xs: seq<Auth>, alpha: Share, ring: Ring, random: (nat, seq<Auth>) -> int,
                                     hash: Hash, salt1: int, salt2: int)
    returns (r: Result<(bool, seq<nat>)>)
    requires ring.Ok() && forall j :: 0 <= j < |xs| ==> |xs[j].mac| == |xs[j].value|
    ensures r.Success? <==> |alpha| == 2 && forall j :: 0 <= j < |xs| ==> |xs[j].value| == 2
    ensures r.Success? ==> r.value.1 == seq(|xs|, j requires 0 <= j < |xs| => Reconstruct(xs[j].value, ring.size) % ring.value)
    ensures r.Success? ==> (r.value.0 <==> BatchAccepts(xs, Challenges(xs, random, ring.size), alpha, ring.size))
  {
    if |alpha| != 2 {
      return Failure("batchOpenWithMacCheckShared128: 2-party only");
    }
    for j := 0 to |xs|
      invariant forall k :: 0 <= k < j ==> |xs[k].value| == 2
    {
      if |xs[j].value| != 2 {
        return Failure("batchOpenWithMacCheckShared128: element must be 2-party");
      }
    }
    hide Eqv, Weighted, Opened, Reconstruct, Challenges, Folded;
    var m := ring.size;
    var rs := Challenges(xs, random, m);
    var out: seq<nat> := [];
    var v0, v1, m0, m1 := 0, 0, 0, 0;
    NothingYet(rs, Values(xs), m);
    NothingYet(rs, Macs(xs), m);
    for j := 0 to |xs|
      invariant |out| == j && forall k :: 0 <= k < j ==> out[k] == Reconstruct(xs[k].value, m) % ring.value
      invariant Folded(rs, Values(xs), j, v0, v1, m) && Folded(rs, Macs(xs), j, m0, m1, m)
    {
      var x, r := xs[j], rs[j];
      out := out + [Reconstruct(x.value, m) % ring.value];
      FoldNext(rs, Values(xs), j, v0, v1, x.value, m);
      FoldNext(rs, Macs(xs), j, m0, m1, x.mac, m);
      v0, v1 := (v0 + r * x.value[0]) % m, (v1 + r * x.value[1]) % m;
      m0, m1 := (m0 + r * x.mac[0]) % m, (m1 + r * x.mac[1]) % m;
    }
    FoldDone(rs, Values(xs), v0, v1, m);
    FoldDone(rs, Macs(xs), m0, m1, m);
    BatchVerdict(xs, rs, alpha, v0 + v1, m0 + m1, m);
    CombinedOpens(v0, v1, m0, m1, alpha, ring);
    var check := OpenWithMacCheckShared(Auth([v0, v1], [m0, m1]), alpha, ring, hash, salt1, salt2);
    r := Success((check.value.Some?, out));
  }

  lemma NothingYet(rs: seq<int>, vs: seq<int>, m: nat)
    requires m > 0 && |rs| == |vs|
    ensures Folded(rs, vs, 0, 0, 0, m)
  {
  }

  lemma CombinedOpens(v0: int, v1: int, m0: int, m1: int, alpha: Share, ring: Ring)
    requires ring.Ok()
    ensures Opened(Auth([v0, v1], [m0, m1]), alpha, ring).Some? <==> Eqv(Sum(alpha) * (v0 + v1), m0 + m1, ring.size)
  {
    SumTwo([v0, v1]);
    SumTwo([m0, m1]);
  }

  lemma {:induction false} NoDefects(rs: seq<int>, ds: seq<int>, m: nat)
    requires m > 0 && |rs| == |ds| && forall j :: 0 <= j < |ds| ==> Eqv(ds[j], 0, m)
    ensures Eqv(Weighted(rs, ds), 0, m)
  {
    if rs != [] {
      assert forall j :: 0 <= j < |ds[1..]| ==> ds[1..][j] == ds[j + 1];
      NoDefects(rs[1..], ds[1..], m);
      Scale(rs[0], ds[0], 0, m);
      Add(rs[0] * ds[0], 0, Weighted(rs[1..], ds[1..]), 0, m);
    }
  }

  lemma {:induction false} WeightedChange(rs: seq<int>, ds: seq<int>, k: nat, r: int)
    requires |rs| == |ds| && k < |rs|
    ensures Weighted(rs[k := r], ds) == Weighted(rs, ds) + (r - rs[k]) * ds[k]
  {
    var rs' := rs[k := r];
    if k == 0 {
      assert rs'[1..] == rs[1..];
      assert (r - rs[0]) * ds[0] == r * ds[0] - rs[0] * ds[0];
    } else {
      WeightedChange(rs[1..], ds[1..], k - 1, r);
      assert rs'[1..] == rs[1..][k - 1 := r];
    }
  }

  /**
   * With the other challenges fixed, all values of one challenge for which the
   * batch is accepted agree: modulo the whole ring 2^n when the defect behind
   * it is odd, and modulo 2^(n-j+1) when 2^j does not divide the defect.
   */
  lemma AcceptingChallengesAgree(xs: seq<Auth>, rs: seq<int>, k: nat, r: int, alpha: Share, n: nat, j: nat)
    requires |rs| == |xs| && k < |xs| && j <= n && Defects(xs, Sum(alpha))[k] % Pow2(j) != 0
    requires BatchAccepts(xs, rs, alpha, Pow2(n)) && BatchAccepts(xs, rs[k := r], alpha, Pow2(n))
    ensures Eqv(r, rs[k], Pow2(n - j + 1))
  {
    hide Pow2, Eqv, Weighted, Defects;
    var ds := Defects(xs, Sum(alpha));
    WeightedChange(rs, ds, k, r);
    Add(Weighted(rs[k := r], ds), 0, Weighted(rs, ds), 0, Pow2(n));
    Divides((r - rs[k]) * ds[k], Pow2(n));
    PowerLeft(r - rs[k], ds[k], n, j);
    Divides(r - rs[k], Pow2(n - j + 1));
    Reflexive(rs[k], Pow2(n - j + 1));
    Add(r - rs[k], 0, rs[k], rs[k], Pow2(n - j + 1));
  }

  lemma Divides(a: int, m: nat)
    requires m > 0
    ensures Eqv(a, 0, m) <==> a % m == 0
  {
    Canonical(0, m);
  }

  /** A batch of authenticated shares is accepted, whatever the challenges. */
  lemma HonestBatchAccepts(xs: seq<Auth>, rs: seq<int>, alpha: Share, m: nat)
    requires m > 0 && |rs| == |xs| && forall j :: 0 <= j < |xs| ==> Authenticated(xs[j], alpha, m)
    ensures BatchAccepts(xs, rs, alpha, m)
  {
    var ds := Defects(xs, Sum(alpha));
    forall j | 0 <= j < |xs| ensures Eqv(ds[j], 0, m) {
      Add(Sum(alpha) * Sum(xs[j].value), Sum(xs[j].mac), Sum(xs[j].mac), Sum(xs[j].mac), m);
    }
    NoDefects(rs, ds, m);
  }

  // ----------------------------------------------------------------------
  // Tampering

  /** A party adds d to its value share and c to its MAC share. */
  function Tampered(x: Auth, bad: nat, d: int, c: int, m: nat): Auth
    requires m > 0 && bad < |x.value| && bad < |x.mac|
  {
    Auth(x.value[bad := (x.value[bad] + d) % m], x.mac[bad := (x.mac[bad] + c) % m])
  }

  /** A tampered opening is accepted exactly when alpha d = c in the full ring. */
  lemma TamperAccepted(x: Auth, alpha: Share, bad: nat, d: int, c: int, ring: Ring)
    requires ring.Ok() && Authenticated(x, alpha, ring.size) && bad < |x.value|
    ensures Opened(Tampered(x, bad, d, c, ring.size), alpha, ring).Some? <==> Eqv(Sum(alpha) * d, c, ring.size)
  {
    var m, t, al := ring.size, Tampered(x, bad, d, c, ring.size), Sum(alpha);
    Reduce(x.value[bad] + d, m);
    Reduce(x.mac[bad] + c, m);
    SumBump(x.value, bad, t.value, d, m);
    SumBump(x.mac, bad, t.mac, c, m);
    TamperResidue(al, Sum(x.value), Sum(x.mac), Sum(t.value), Sum(t.mac), d, c, m);
  }

  lemma TamperResidue(al: int, v: int, k: int, v': int, k': int, d: int, c: int, m: nat)
    requires m > 0 && Eqv(k, al * v, m) && Eqv(v', v + d, m) && Eqv(k', k + c, m)
    ensures Eqv(al * v', k', m) <==> Eqv(al * d, c, m)
  {
    Scale(al, v', v + d, m);
    assert al * (v + d) == al * v + al * d;
    SumIsMac(k, al * v, c, m);
    if Eqv(al * d, c, m) {
      SumIsMac(al * d, c, al * v, m);
    }
    if Eqv(al * v', k', m) {
      Add(al * v + al * d, al * v + c, al * v, al * v, m);
    }
  }

  lemma Halve(a: int, p: int, q: int)
    requires 2 * a == (2 * p) * q
    ensures a == p * q
  {
    assert (2 * p) * q == 2 * (p * q);
  }

  lemma HalfOf(a: int, p: nat)
    requires p > 0 && (2 * a) % (2 * p) == 0
    ensures a % p == 0
  {
    Canonical(0, 2 * p);
    var q := Quotient(2 * a, 0, 2 * p);
    Halve(a, p, q);
    DivModUnique(a, p, q, 0);
  }

  lemma DoubleOf(a: int, p: nat)
    requires p > 0 && a % p == 0
    ensures (2 * a) % (2 * p) == 0
  {
    var q := a / p;
    assert a == p * q;
    assert 2 * a == 2 * p * q;
    DivModUnique(2 * a, 2 * p, q, 0);
  }

  lemma EvenFactor(a: int, d: int, p: nat)
    requires p > 0 && (a * d) % (2 * p) == 0 && d % 2 == 1
    ensures a % 2 == 0
  {
    var q := (a * d) / (2 * p);
    assert a * d == 2 * (p * q);
    var h := d / 2;
    assert d == 2 * h + 1;
    assert a * d == 2 * (a * h) + a;
  }

  /** An odd factor can be cancelled modulo a power of two. */
  lemma {:induction false} CancelOdd(a: int, d: int, n: nat)
    requires (a * d) % Pow2(n) == 0 && d % 2 == 1
    ensures a % Pow2(n) == 0
    decreases n
  {
    if n > 0 {
      EvenFactor(a, d, Pow2(n - 1));
      var b := a / 2;
      assert a == 2 * b && a * d == 2 * (b * d);
      HalfOf(b * d, Pow2(n - 1));
      CancelOdd(b, d, n - 1);
      DoubleOf(b, Pow2(n - 1));
    }
  }

  /** 2^n divides a d but 2^k does not divide d: then 2^(n-k+1) divides a. */
  lemma {:induction false} PowerLeft(a: int, d: int, n: nat, k: nat)
    requires (a * d) % Pow2(n) == 0 && d % Pow2(k) != 0 && k <= n
    ensures a % Pow2(n - k + 1) == 0
    decreases k
  {
    if k == 0 {
      DivModUnique(d, 1, d, 0);
    } else if d % 2 == 1 {
      CancelOdd(a, d, n);
      LowerPower(a, n, n - k + 1);
    } else {
      var h := d / 2;
      assert d == 2 * h && a * d == 2 * (a * h);
      HalfOf(a * h, Pow2(n - 1));
      if h % Pow2(k - 1) == 0 {
        DoubleOf(h, Pow2(k - 1));
      }
      PowerLeft(a, h, n - 1, k - 1);
    }
  }

  lemma {:induction false} LowerPower(a: int, n: nat, j: nat)
    requires a % Pow2(n) == 0 && j <= n
    ensures a % Pow2(j) == 0
    decreases n
  {
    if j < n {
      var q := a / Pow2(n);
      assert a == Pow2(n) * q;
      assert a == Pow2(n - 1) * (2 * q);
      DivModUnique(a, Pow2(n - 1), 2 * q, 0);
      LowerPower(a, n - 1, j);
    }
  }

  /**
   * After a change of the value that shows on its 64 value bits and any fixed
   * shift of the MAC, all keys for which the opening is accepted agree
   * modulo 2^65.
   */
  lemma AcceptingKeysAgree(x: Auth, y: Auth, alpha: Share, beta: Share, bad: nat, d: int, c: int)
    requires Authenticated(x, alpha, SPDZ2K.size) && Authenticated(y, beta, SPDZ2K.size)
    requires bad < |x.value| && bad < |y.value| && d % U64 != 0
    requires Opened(Tampered(x, bad, d, c, SPDZ2K.size), alpha, SPDZ2K).Some?
    requires Opened(Tampered(y, bad, d, c, SPDZ2K.size), beta, SPDZ2K).Some?
    ensures Eqv(Sum(alpha), Sum(beta), 2 * U64)
  {
    hide Eqv, Opened, Tampered;
    var m, a, b := SPDZ2K.size, Sum(alpha), Sum(beta);
    TamperAccepted(x, alpha, bad, d, c, SPDZ2K);
    TamperAccepted(y, beta, bad, d, c, SPDZ2K);
    KeysAgree(a, b, d, c);
  }

  lemma KeysAgree(a: int, b: int, d: int, c: int)
    requires d % U64 != 0 && Eqv(a * d, c, U64 * U64) && Eqv(b * d, c, U64 * U64)
    ensures Eqv(a, b, 2 * U64)
  {
    Powers();
    Add(a * d, c, b * d, c, U64 * U64);
    assert (a - b) * d == a * d - b * d;
    hide Pow2;
    PowerLeft(a - b, d, 128, 64);
    Add(a - b, 0, b, b, 2 * U64);
  }

  lemma Powers()
    ensures Pow2(64) == U64 && Pow2(65) == 2 * U64 && Pow2(128) == U64 * U64
  {
    Pow2At64();
    Pow2Adds(64, 64);
  }

  /** The 64-bit ring misses the change of the top bit for every even key. */
  lemma ClassicalMissesTopBit(x: Auth, alpha: Share, bad: nat)
    requires Authenticated(x, alpha, SPDZ.size) && bad < |x.value|
    ensures Opened(Tampered(x, bad, U64 / 2, 0, SPDZ.size), alpha, SPDZ).Some? <==> Sum(alpha) % 2 == 0
  {
    hide Opened, Authenticated, Tampered;
    TamperAccepted(x, alpha, bad, U64 / 2, 0, SPDZ);
    TopBit(Sum(alpha));
  }

  lemma TopBit(a: int)
    ensures Eqv(a * (U64 / 2), 0, U64) <==> a % 2 == 0
  {
    var h, r := a / 2, a % 2;
    assert a * (U64 / 2) == U64 * h + r * (U64 / 2);
    DivModUnique(a * (U64 / 2), U64, h, r * (U64 / 2));
  }
}

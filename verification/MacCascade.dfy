/** Authenticated shares over GF(2^128), and the cascade that checks and renews their tags each round. */
module MacCascade {
  import opened Outcomes
  import opened Blocks
  import opened Permutations
  import GfField

  datatype AuthData = Auth(data: Vector, tag: Vector)

  /** One party's half: a tag for every block. */
  type AuthShare = a: AuthData | |a.data| == |a.tag| witness Auth([], [])

  function Times(alpha: Block, v: Vector): (w: Vector)
    ensures |w| == |v|
  {
    seq(|v|, i requires 0 <= i < |v| => GfMul(alpha, v[i]))
  }

  /** The joint tag is alpha times the joint data. */
  ghost predicate Authentic(a: AuthShare, b: AuthShare, alpha: Block) {
    |a.data| == |b.data| && XorVec(a.tag, b.tag) == Times(alpha, XorVec(a.data, b.data))
  }

  function Joint(a: AuthShare, b: AuthShare): Vector
    requires |a.data| == |b.data|
  {
    XorVec(a.data, b.data)
  }

  // ----------------------------------------------------------------------
  // Local operations

  function XorAuth(a: AuthShare, b: AuthShare): Result<AuthShare> {
    if |a.data| != |b.data| then Failure("xorAuth: size mismatch")
    else Success(Auth(XorVec(a.data, b.data), XorVec(a.tag, b.tag)))
  }

  function XorConstAuth(a: AuthShare, c: Vector, alpha: Block): Result<AuthShare> {
    if |a.data| != |c| then Failure("xorConstAuth: size mismatch")
    else Success(Auth(XorVec(a.data, c), XorVec(a.tag, Times(alpha, c))))
  }

  /** out[i] = in[dest[i]], data and tags alike. */
  function PermuteAuth(a: AuthShare, dest: seq<int>): (r: Result<AuthShare>)
    ensures r.Success? <==> |dest| == |a.data| && forall i :: 0 <= i < |dest| ==> 0 <= dest[i] < |a.data|
    ensures r.Success? ==>
              && |r.value.data| == |a.data|
              && forall i :: 0 <= i < |a.data| ==>
                   r.value.data[i] == a.data[dest[i]] && r.value.tag[i] == a.tag[dest[i]]
  {
    if |a.data| != |dest| then Failure("permuteAuth: size mismatch")
    else if !Positions(dest, |a.data|) then Failure("permuteAuth: dest out of range")
    else Success(Auth(Route(dest, a.data), Route(dest, a.tag)))
  }

  /** Shares of `plain` under alpha, from one drawn data share and one drawn tag share. */
  function RandomAuthShare(plain: Vector, alpha: Block, data: Vector, tag: Vector): (AuthShare, AuthShare)
    requires |data| == |plain| == |tag|
  {
    (Auth(data, tag), Auth(XorVec(data, plain), XorVec(tag, Times(alpha, plain))))
  }

  lemma {:induction false} VectorLaws(a: Vector, b: Vector, c: Vector, d: Vector)
    requires |a| == |b| == |c| == |d|
    ensures XorVec(XorVec(a, b), XorVec(c, d)) == XorVec(XorVec(a, c), XorVec(b, d))
    ensures XorVec(XorVec(a, b), c) == XorVec(XorVec(a, c), b)
    ensures XorVec(a, XorVec(a, b)) == b
  {
    hide Xor;
    forall i | 0 <= i < |a|
      ensures Xor(Xor(a[i], b[i]), Xor(c[i], d[i])) == Xor(Xor(a[i], c[i]), Xor(b[i], d[i]))
      ensures Xor(Xor(a[i], b[i]), c[i]) == Xor(Xor(a[i], c[i]), b[i])
      ensures Xor(a[i], Xor(a[i], b[i])) == b[i]
    {
      XorSwap(a[i], b[i], c[i], d[i]);
      XorLaws(a[i], b[i], c[i]);
      XorLaws(a[i], c[i], b[i]);
      XorLaws(b[i], c[i], a[i]);
      XorLaws(a[i], a[i], b[i]);
      XorLaws(Zero(), b[i], b[i]);
      XorLaws(b[i], Zero(), b[i]);
    }
  }

  lemma TimesXor(alpha: Block, a: Vector, b: Vector)
    requires |a| == |b|
    ensures Times(alpha, XorVec(a, b)) == XorVec(Times(alpha, a), Times(alpha, b))
  {
    hide Xor, GfMul;
    forall i | 0 <= i < |a| ensures GfMul(alpha, Xor(a[i], b[i])) == Xor(GfMul(alpha, a[i]), GfMul(alpha, b[i])) {
      GfMulXor(alpha, a[i], b[i]);
    }
  }

  /** Fresh shares are authentic and reconstruct the plaintext. */
  lemma RandomSharesAuthentic(plain: Vector, alpha: Block, data: Vector, tag: Vector)
    requires |data| == |plain| == |tag|
    ensures var s := RandomAuthShare(plain, alpha, data, tag); Authentic(s.0, s.1, alpha) && Joint(s.0, s.1) == plain
  {
    VectorLaws(data, plain, data, plain);
    var t := Times(alpha, plain);
    VectorLaws(tag, t, tag, t);
    hide XorVec, Times;
  }

  /** Adding two shared vectors adds the plaintexts and keeps the tags valid. */
  lemma XorAuthKeeps(a: AuthShare, b: AuthShare, c: AuthShare, d: AuthShare, alpha: Block)
    requires Authentic(a, b, alpha) && Authentic(c, d, alpha) && |a.data| == |c.data|
    ensures var left, right := XorAuth(a, c), XorAuth(b, d);
            && left.Success? && right.Success? && Authentic(left.value, right.value, alpha)
            && Joint(left.value, right.value) == XorVec(Joint(a, b), Joint(c, d))
  {
    VectorLaws(a.data, c.data, b.data, d.data);
    VectorLaws(a.tag, c.tag, b.tag, d.tag);
    TimesXor(alpha, Joint(a, b), Joint(c, d));
    hide XorVec, Times;
  }

  /** A constant is added on one side only. */
  lemma XorConstKeeps(a: AuthShare, b: AuthShare, c: Vector, alpha: Block)
    requires Authentic(a, b, alpha) && |c| == |a.data|
    ensures var left := XorConstAuth(a, c, alpha);
            && left.Success? && Authentic(left.value, b, alpha) && Joint(left.value, b) == XorVec(Joint(a, b), c)
  {
    var t := Times(alpha, c);
    VectorLaws(a.data, c, b.data, c);
    VectorLaws(a.tag, t, b.tag, t);
    TimesXor(alpha, Joint(a, b), c);
    hide XorVec, Times;
  }

  lemma TimesRoute(alpha: Block, dest: seq<int>, v: Vector)
    requires Positions(dest, |v|)
    ensures Times(alpha, Route(dest, v)) == Route(dest, Times(alpha, v))
  {
    hide GfMul;
  }

  lemma PermuteKeeps(a: AuthShare, b: AuthShare, dest: seq<int>, alpha: Block)
    requires Authentic(a, b, alpha) && Positions(dest, |a.data|)
    ensures var left, right := PermuteAuth(a, dest), PermuteAuth(b, dest);
            && left.Success? && right.Success? && Authentic(left.value, right.value, alpha)
            && Joint(left.value, right.value) == Route(dest, Joint(a, b))
  {
    RouteXor(dest, a.data, b.data);
    RouteXor(dest, a.tag, b.tag);
    TimesRoute(alpha, dest, Joint(a, b));
    hide XorVec, Times, Route;
  }

  // ----------------------------------------------------------------------
  // Verification

  /** One by one. */
  method VerifyAuthShares(a: AuthShare, b: AuthShare, alpha: Block) returns (ok: bool)
    ensures ok <==> Authentic(a, b, alpha)
  {
    hide Xor, GfMul;
    if |a.data| != |b.data| {
      return false;
    }
    ghost var tags, expected := XorVec(a.tag, b.tag), Times(alpha, XorVec(a.data, b.data));
    var i := 0;
    while i < |a.data|
      invariant 0 <= i <= |a.data| && forall k :: 0 <= k < i ==> tags[k] == expected[k]
    {
      if Xor(a.tag[i], b.tag[i]) != GfMul(alpha, Xor(a.data[i], b.data[i])) {
        assert tags[i] != expected[i];
        return false;
      }
      assert tags[i] == expected[i];
      i := i + 1;
    }
    assert tags == expected;
    return true;
  }

  /** sum of challenge[i] v[i], added up from the left. */
  function Dot(challenge: Vector, v: Vector): Block
    requires |challenge| == |v|
  {
    if v == [] then Zero()
    else Xor(Dot(challenge[..|v| - 1], v[..|v| - 1]), GfMul(challenge[|v| - 1], v[|v| - 1]))
  }

  lemma DotUpTo(challenge: Vector, v: Vector, i: nat)
    requires |challenge| == |v| && i < |v|
    ensures Dot(challenge[..i + 1], v[..i + 1]) == Xor(Dot(challenge[..i], v[..i]), GfMul(challenge[i], v[i]))
  {
    hide Xor, GfMul;
    assert challenge[..i + 1][..i] == challenge[..i] && v[..i + 1][..i] == v[..i];
  }

  /** What each joint tag is off by. */
  ghost function TagErrors(a: AuthShare, b: AuthShare, alpha: Block): Vector
    requires |a.data| == |b.data|
  {
    XorVec(XorVec(a.tag, b.tag), Times(alpha, XorVec(a.data, b.data)))
  }

  /** The random linear combination accepts exactly when the tag errors are orthogonal to the challenge. */
  method VerifyAuthSharesBatched(a: AuthShare, b: AuthShare, alpha: Block, challenge: Vector) returns (ok: bool)
    ensures ok <==> |a.data| == |b.data| == |challenge| && Dot(challenge, TagErrors(a, b, alpha)) == Zero()
  {
    hide Xor, GfMul, Dot, TagErrors;
    if |a.data| != |b.data| || |a.data| != |challenge| {
      return false;
    }
    ghost var tags, data := XorVec(a.tag, b.tag), XorVec(a.data, b.data);
    var left, right := Zero(), Zero();
    var i := 0;
    EmptyDot();
    while i < |a.data|
      invariant 0 <= i <= |a.data|
      invariant left == Dot(challenge[..i], tags[..i]) && right == Dot(challenge[..i], data[..i])
    {
      DotUpTo(challenge, tags, i);
      DotUpTo(challenge, data, i);
      left := Xor(left, GfMul(challenge[i], Xor(a.tag[i], b.tag[i])));
      right := Xor(right, GfMul(challenge[i], Xor(a.data[i], b.data[i])));
      i := i + 1;
    }
    assert challenge[..i] == challenge && tags[..i] == tags && data[..i] == data;
    BatchedIsOrthogonal(a, b, alpha, challenge);
    ok := left == GfMul(alpha, right);
  }

  lemma EmptyDot()
    ensures Dot([], []) == Zero()
  {
  }

  lemma DotLast(challenge: Vector, v: Vector)
    requires |challenge| == |v| > 0
    ensures var n := |v| - 1; Dot(challenge, v) == Xor(Dot(challenge[..n], v[..n]), GfMul(challenge[n], v[n]))
  {
    hide Xor, GfMul;
  }

  lemma {:induction false} DotXor(challenge: Vector, v: Vector, w: Vector)
    requires |challenge| == |v| == |w|
    ensures Dot(challenge, XorVec(v, w)) == Xor(Dot(challenge, v), Dot(challenge, w))
  {
    hide Xor, GfMul, Dot;
    EmptyDot();
    XorLaws(Zero(), Zero(), Zero());
    if v != [] {
      var n := |v| - 1;
      DotLast(challenge, v);
      DotLast(challenge, w);
      DotLast(challenge, XorVec(v, w));
      DotXor(challenge[..n], v[..n], w[..n]);
      assert XorVec(v, w)[..n] == XorVec(v[..n], w[..n]);
      GfMulXor(challenge[n], v[n], w[n]);
      XorSwap(Dot(challenge[..n], v[..n]), Dot(challenge[..n], w[..n]), GfMul(challenge[n], v[n]), GfMul(challenge[n], w[n]));
    }
  }

  lemma {:induction false} DotTimes(challenge: Vector, v: Vector, alpha: Block)
    requires |challenge| == |v|
    ensures Dot(challenge, Times(alpha, v)) == GfMul(alpha, Dot(challenge, v))
  {
    hide Xor, GfMul, Dot;
    EmptyDot();
    GfMulZero(alpha);
    if v != [] {
      var n := |v| - 1;
      DotLast(challenge, v);
      DotLast(challenge, Times(alpha, v));
      DotTimes(challenge[..n], v[..n], alpha);
      assert Times(alpha, v)[..n] == Times(alpha, v[..n]);
      GfMulCommutes(alpha, challenge[n], v[n]);
      GfMulXor(alpha, Dot(challenge[..n], v[..n]), GfMul(challenge[n], v[n]));
    }
  }

  lemma SumVanishes(x: Block, y: Block)
    ensures Xor(x, y) == Zero() <==> x == y
  {
    if Xor(x, y) == Zero() {
      forall i | 0 <= i < 128 ensures x[i] == y[i] {
        assert !Xor(x, y)[i];
      }
      assert x == y;
    }
    XorLaws(x, x, x);
  }

  lemma BatchedIsOrthogonal(a: AuthShare, b: AuthShare, alpha: Block, challenge: Vector)
    requires |a.data| == |b.data| == |challenge|
    ensures Dot(challenge, XorVec(a.tag, b.tag)) == GfMul(alpha, Dot(challenge, XorVec(a.data, b.data)))
       <==> Dot(challenge, TagErrors(a, b, alpha)) == Zero()
  {
    hide Xor, GfMul, XorVec, Times, Dot;
    var tags, data := XorVec(a.tag, b.tag), XorVec(a.data, b.data);
    DotXor(challenge, tags, Times(alpha, data));
    DotTimes(challenge, data, alpha);
    SumVanishes(Dot(challenge, tags), GfMul(alpha, Dot(challenge, data)));
  }

  lemma {:induction false} DotOfZeros(challenge: Vector, v: Vector)
    requires |challenge| == |v| && forall i :: 0 <= i < |v| ==> v[i] == Zero()
    ensures Dot(challenge, v) == Zero()
  {
    if v != [] {
      hide GfMul;
      var n := |v| - 1;
      DotOfZeros(challenge[..n], v[..n]);
      GfMulZero(challenge[n]);
      XorLaws(Zero(), Zero(), Zero());
    }
  }

  /** Authentic shares have no tag errors, and pass under every challenge. */
  lemma BatchedAcceptsHonest(a: AuthShare, b: AuthShare, alpha: Block, challenge: Vector)
    requires Authentic(a, b, alpha) && |challenge| == |a.data|
    ensures Dot(challenge, TagErrors(a, b, alpha)) == Zero()
  {
    hide Dot, GfMul, Times;
    var t := XorVec(a.tag, b.tag);
    forall i | 0 <= i < |t| ensures Xor(t[i], t[i]) == Zero() {
      XorLaws(t[i], t[i], t[i]);
    }
    hide Xor;
    DotOfZeros(challenge, TagErrors(a, b, alpha));
  }

  /** Changing one party's data by d and tag by t goes unnoticed exactly when t = alpha d. */
  lemma TamperAcceptedIff(a: AuthShare, b: AuthShare, d: Vector, t: Vector, alpha: Block)
    requires Authentic(a, b, alpha) && |d| == |t| == |a.data|
    ensures Authentic(a, Auth(XorVec(b.data, d), XorVec(b.tag, t)), alpha) <==> t == Times(alpha, d)
  {
    var data, tags := Joint(a, b), XorVec(a.tag, b.tag);
    Regroup(a.data, b.data, d);
    Regroup(a.tag, b.tag, t);
    TimesXor(alpha, data, d);
    VectorLaws(tags, t, tags, t);
    VectorLaws(tags, Times(alpha, d), tags, t);
    hide XorVec, Times, Xor, GfMul;
  }

  /**
   * A change of the data that touches some block, with one fixed change of
   * the tags, is accepted under at most one key.
   */
  lemma AcceptingKeysAgree(a: AuthShare, b: AuthShare, alpha: Block, a': AuthShare, b': AuthShare, alpha': Block,
                           d: Vector, t: Vector, k: nat)
    requires Authentic(a, b, alpha) && Authentic(a', b', alpha') && |d| == |t| == |a.data| == |a'.data|
    requires k < |d| && d[k] != Zero()
    requires Authentic(a, Auth(XorVec(b.data, d), XorVec(b.tag, t)), alpha)
    requires Authentic(a', Auth(XorVec(b'.data, d), XorVec(b'.tag, t)), alpha')
    ensures alpha == alpha'
  {
    hide XorVec, GfMul;
    TamperAcceptedIff(a, b, d, t, alpha);
    TamperAcceptedIff(a', b', d, t, alpha');
    assert t[k] == GfMul(alpha, d[k]) && t[k] == GfMul(alpha', d[k]);
    GfField.MultipliersDiffer(alpha, alpha', d[k]);
  }

  lemma {:induction false} DotChange(challenge: Vector, v: Vector, k: nat, r: Block)
    requires |challenge| == |v| && k < |v|
    ensures Xor(Dot(challenge[k := r], v), GfMul(r, v[k])) == Xor(Dot(challenge, v), GfMul(challenge[k], v[k]))
  {
    hide Xor, GfMul, Dot;
    var n := |v| - 1;
    DotLast(challenge, v);
    DotLast(challenge[k := r], v);
    if k == n {
      assert challenge[k := r][..n] == challenge[..n];
      AddedTwice(Dot(challenge[..n], v[..n]), GfMul(r, v[k]));
      AddedTwice(Dot(challenge[..n], v[..n]), GfMul(challenge[k], v[k]));
    } else {
      DotChange(challenge[..n], v[..n], k, r);
      assert challenge[k := r][..n] == challenge[..n][k := r];
      XorLaws(Dot(challenge[..n][k := r], v[..n]), GfMul(challenge[n], v[n]), GfMul(r, v[k]));
      XorLaws(Dot(challenge[..n], v[..n]), GfMul(challenge[n], v[n]), GfMul(challenge[k], v[k]));
      SwapLast(Dot(challenge[..n][k := r], v[..n]), GfMul(challenge[n], v[n]), GfMul(r, v[k]));
      SwapLast(Dot(challenge[..n], v[..n]), GfMul(challenge[n], v[n]), GfMul(challenge[k], v[k]));
    }
  }

  lemma AddedTwice(x: Block, y: Block)
    ensures Xor(Xor(x, y), y) == x
  {
    hide Xor;
    XorLaws(x, y, y);
    XorLaws(y, y, y);
    XorLaws(x, x, x);
  }

  lemma SwapLast(x: Block, y: Block, z: Block)
    ensures Xor(Xor(x, y), z) == Xor(Xor(x, z), y)
  {
    hide Xor;
    XorLaws(x, y, z);
    XorLaws(x, z, y);
    XorLaws(y, z, x);
  }

  /**
   * With the other challenges fixed, a wrong tag at place k is accepted by
   * the batched check under at most one challenge for that place.
   */
  lemma AcceptingChallengesAgree(a: AuthShare, b: AuthShare, alpha: Block, challenge: Vector, k: nat, r: Block)
    requires |a.data| == |b.data| == |challenge| && k < |challenge|
    requires Xor(a.tag[k], b.tag[k]) != GfMul(alpha, Xor(a.data[k], b.data[k]))
    requires Dot(challenge, TagErrors(a, b, alpha)) == Zero() && Dot(challenge[k := r], TagErrors(a, b, alpha)) == Zero()
    ensures r == challenge[k]
  {
    var v := TagErrors(a, b, alpha);
    assert v[k] == Xor(Xor(a.tag[k], b.tag[k]), GfMul(alpha, Xor(a.data[k], b.data[k])));
    hide Xor, GfMul, Dot, TagErrors;
    SumVanishes(Xor(a.tag[k], b.tag[k]), GfMul(alpha, Xor(a.data[k], b.data[k])));
    DotChange(challenge, v, k, r);
    XorLaws(Zero(), GfMul(r, v[k]), v[k]);
    XorLaws(Zero(), GfMul(challenge[k], v[k]), v[k]);
    XorLaws(GfMul(r, v[k]), Zero(), v[k]);
    XorLaws(GfMul(challenge[k], v[k]), Zero(), v[k]);
    GfField.MultipliersDiffer(r, challenge[k], v[k]);
  }

  lemma Regroup(a: Vector, b: Vector, c: Vector)
    requires |a| == |b| == |c|
    ensures XorVec(a, XorVec(b, c)) == XorVec(XorVec(a, b), c)
  {
    hide Xor;
    forall i | 0 <= i < |a| ensures Xor(a[i], Xor(b[i], c[i])) == Xor(Xor(a[i], b[i]), c[i]) {
      XorLaws(a[i], b[i], c[i]);
    }
  }

  // ----------------------------------------------------------------------
  // One round

  datatype Column = Column(sp: AuthShare, peer: AuthShare)

  ghost predicate Sound(col: Column, C: nat, alpha: Block) {
    |col.sp.data| == C && |col.peer.data| == C && Authentic(col.sp, col.peer, alpha)
  }

  /** The routed data under freshly computed tags. */
  function Renewed(a: AuthShare, routing: seq<int>, alphaNew: Block): AuthShare
    requires Positions(routing, |a.data|)
  {
    Auth(Route(routing, a.data), Times(alphaNew, Route(routing, a.data)))
  }

  function RenewedColumn(col: Column, routing: seq<int>, alphaNew: Block): Column
    requires Positions(routing, |col.sp.data|) && Positions(routing, |col.peer.data|)
  {
    Column(Renewed(col.sp, routing, alphaNew), Renewed(col.peer, routing, alphaNew))
  }

  method TagVector(alpha: Block, plain: Vector) returns (tags: Vector)
    ensures tags == Times(alpha, plain)
  {
    hide GfMul;
    tags := [];
    while |tags| < |plain|
      invariant |tags| <= |plain| && forall k :: 0 <= k < |tags| ==> tags[k] == GfMul(alpha, plain[k])
    {
      tags := tags + [GfMul(alpha, plain[|tags|])];
    }
  }

  /** The columns before k were processed. */
  ghost predicate Processed(incoming: seq<Column>, routing: seq<int>, alphaOld: Block, alphaNew: Block, k: nat,
                            spState: seq<AuthShare>, peerHandoff: seq<AuthShare>)
    requires k <= |incoming|
  {
    && |spState| == |peerHandoff| == k && (k > 0 ==> Positions(routing, |routing|))
    && forall c :: 0 <= c < k ==>
         && Sound(incoming[c], |routing|, alphaOld)
         && Column(spState[c], peerHandoff[c]) == RenewedColumn(incoming[c], routing, alphaNew)
  }

  /**
   * One round: every column is checked under the old key, routed, and tagged
   * under the new one. On a bad column the columns before it are already out.
   */
  method CascadeRound(incoming: seq<Column>, routing: seq<int>, alphaOld: Block, alphaNew: Block)
    returns (ok: Result<bool>, spState: seq<AuthShare>, peerHandoff: seq<AuthShare>)
    ensures ok == Success(true) <==>
              && (incoming != [] ==> Positions(routing, |routing|))
              && forall c :: 0 <= c < |incoming| ==> Sound(incoming[c], |routing|, alphaOld)
    ensures ok == Success(true) ==> Processed(incoming, routing, alphaOld, alphaNew, |incoming|, spState, peerHandoff)
    ensures ok == Success(false) ==>
              && |spState| < |incoming| && !Sound(incoming[|spState|], |routing|, alphaOld)
              && Processed(incoming, routing, alphaOld, alphaNew, |spState|, spState, peerHandoff)
    ensures ok.Failure? <==>
              && !Positions(routing, |routing|) && incoming != [] && Sound(incoming[0], |routing|, alphaOld)
  {
    hide Xor, GfMul, Times, XorVec, Authentic;
    spState, peerHandoff := [], [];
    var C := |routing|;
    var c := 0;
    while c < |incoming|
      invariant 0 <= c <= |incoming| && Processed(incoming, routing, alphaOld, alphaNew, c, spState, peerHandoff)
    {
      var col := incoming[c];
      if |col.sp.data| != C || |col.peer.data| != C {
        return Success(false), spState, peerHandoff;
      }
      var valid := VerifyAuthShares(col.sp, col.peer, alphaOld);
      if !valid {
        return Success(false), spState, peerHandoff;
      }
      var sp, peer := PermuteAuth(col.sp, routing), PermuteAuth(col.peer, routing);
      if sp.Failure? {
        return Failure(sp.error), spState, peerHandoff;
      }
      var spTags := TagVector(alphaNew, sp.value.data);
      var peerTags := TagVector(alphaNew, peer.value.data);
      spState := spState + [Auth(sp.value.data, spTags)];
      peerHandoff := peerHandoff + [Auth(peer.value.data, peerTags)];
      c := c + 1;
    }
    ok := Success(true);
  }

  /** The new column is authentic under the new key, and its plaintext is the old one routed. */
  lemma RoundKeeps(col: Column, routing: seq<int>, alphaOld: Block, alphaNew: Block)
    requires Sound(col, |routing|, alphaOld) && Positions(routing, |routing|)
    ensures var out := RenewedColumn(col, routing, alphaNew);
            Sound(out, |routing|, alphaNew) && Joint(out.sp, out.peer) == Route(routing, Joint(col.sp, col.peer))
  {
    hide Xor, GfMul;
    RouteXor(routing, col.sp.data, col.peer.data);
    TimesXor(alphaNew, Route(routing, col.sp.data), Route(routing, col.peer.data));
    hide XorVec, Times, Route;
  }

  // ----------------------------------------------------------------------
  // The end, and whole runs

  /** Accepts exactly when every column is authentic, and then returns the plaintexts. */
  method FinalVerify(spState: seq<AuthShare>, peerState: seq<AuthShare>, alpha: Block)
    returns (ok: bool, plain: seq<Vector>)
    ensures ok <==> |spState| == |peerState| && forall c :: 0 <= c < |spState| ==> Authentic(spState[c], peerState[c], alpha)
    ensures ok ==> |plain| == |spState| && forall c :: 0 <= c < |spState| ==>
                     |spState[c].data| == |peerState[c].data| && plain[c] == Joint(spState[c], peerState[c])
    ensures !ok ==> plain == []
  {
    hide Xor, GfMul, XorVec, Times;
    plain := [];
    if |spState| != |peerState| {
      return false, [];
    }
    var c := 0;
    while c < |spState|
      invariant 0 <= c == |plain| <= |spState|
      invariant forall k :: 0 <= k < c ==> Authentic(spState[k], peerState[k], alpha) && plain[k] == Joint(spState[k], peerState[k])
    {
      var valid := VerifyAuthShares(spState[c], peerState[c], alpha);
      if !valid {
        return false, [];
      }
      plain := plain + [Joint(spState[c], peerState[c])];
      c := c + 1;
    }
    ok := true;
  }

  /** Every column after the first k rounds. */
  ghost function After(col: Column, routings: seq<seq<int>>, keys: seq<Block>, C: nat, k: nat): Column
    requires |col.sp.data| == |col.peer.data| == C && k <= |routings| < |keys|
    requires forall j :: 0 <= j < |routings| ==> Positions(routings[j], C)
    ensures |After(col, routings, keys, C, k).sp.data| == |After(col, routings, keys, C, k).peer.data| == C
  {
    if k == 0 then col else RenewedColumn(After(col, routings, keys, C, k - 1), routings[k - 1], keys[k])
  }

  ghost function ComposedRouting(routings: seq<seq<int>>, C: nat, k: nat): (p: seq<int>)
    requires k <= |routings| && forall j :: 0 <= j < |routings| ==> Positions(routings[j], C)
    ensures Positions(p, C)
  {
    if k == 0 then Identity(C) else Compose(routings[k - 1], ComposedRouting(routings, C, k - 1))
  }

  lemma {:induction false} ComposedIsOrigin(routings: seq<seq<int>>, C: nat, k: nat, i: int)
    requires k <= |routings| && 0 <= i < C && forall j :: 0 <= j < |routings| ==> Positions(routings[j], C)
    ensures ComposedRouting(routings, C, k)[i] == Origin(routings, C, k, i)
    decreases k
  {
    if k > 0 {
      ComposeAt(routings[k - 1], ComposedRouting(routings, C, k - 1));
      ComposedIsOrigin(routings, C, k - 1, routings[k - 1][i]);
    }
  }

  /** An honest run, place by place: the plaintext at i is the initial one at the place that i comes from. */
  lemma HonestPlaces(col: Column, routings: seq<seq<int>>, keys: seq<Block>, C: nat, k: nat, i: int)
    requires k <= |routings| < |keys| && Sound(col, C, keys[0]) && 0 <= i < C
    requires forall j :: 0 <= j < |routings| ==> Positions(routings[j], C)
    ensures var now, o := After(col, routings, keys, C, k), Origin(routings, C, k, i);
            Xor(now.sp.data[i], now.peer.data[i]) == Xor(col.sp.data[o], col.peer.data[o])
  {
    hide Xor, After, Authentic;
    var now := After(col, routings, keys, C, k);
    HonestRun(col, routings, keys, C, k);
    RouteAt(ComposedRouting(routings, C, k), Joint(col.sp, col.peer));
    ComposedIsOrigin(routings, C, k, i);
    assert Joint(now.sp, now.peer)[i] == Xor(now.sp.data[i], now.peer.data[i]);
  }

  /**
   * An honest run: before each round the columns are sound under that round's
   * key, so every round and the last check accept, and the plaintext is the
   * initial one under the composed routing.
   */
  lemma {:induction false} HonestRun(col: Column, routings: seq<seq<int>>, keys: seq<Block>, C: nat, k: nat)
    requires k <= |routings| < |keys| && Sound(col, C, keys[0])
    requires forall j :: 0 <= j < |routings| ==> Positions(routings[j], C)
    ensures var now := After(col, routings, keys, C, k);
            && Sound(now, C, keys[k])
            && Joint(now.sp, now.peer) == Route(ComposedRouting(routings, C, k), Joint(col.sp, col.peer))
  {
    hide Xor, GfMul, XorVec, Times, Authentic;
    if k == 0 {
      RouteIdentity(Joint(col.sp, col.peer));
    } else {
      HonestRun(col, routings, keys, C, k - 1);
      RoundKeeps(After(col, routings, keys, C, k - 1), routings[k - 1], keys[k - 1], keys[k]);
      RouteCompose(routings[k - 1], ComposedRouting(routings, C, k - 1), Joint(col.sp, col.peer));
    }
  }
}

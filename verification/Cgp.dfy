/** The two-party secret-shared shuffle over a dealt correlation, and its cascade. */
module Cgp {
  import opened Outcomes
  import opened Blocks
  import opened Draws
  import opened Permutations

  type Row = Vector
  type RowVec = seq<Row>

  ghost predicate Rect(v: RowVec, n: nat, W: nat) {
    |v| == n && forall i :: 0 <= i < n ==> |v[i]| == W
  }

  predicate SameShape(a: RowVec, b: RowVec) {
    |a| == |b| && forall i :: 0 <= i < |a| ==> |a[i]| == |b[i]|
  }

  function SumRows(a: RowVec, b: RowVec): (c: RowVec)
    requires SameShape(a, b)
    ensures SameShape(c, a)
  {
    seq(|a|, i requires 0 <= i < |a| => XorVec(a[i], b[i]))
  }

  /** out[i] = in[pi[i]] */
  function ApplyPiRows(v: RowVec, pi: seq<int>): (r: Result<RowVec>)
    ensures r.Success? <==> |pi| == |v| && forall i :: 0 <= i < |v| ==> 0 <= pi[i] < |v|
    ensures r.Success? ==> |r.value| == |v| && forall i :: 0 <= i < |v| ==> r.value[i] == v[pi[i]]
  {
    if |v| != |pi| then Failure("applyPiRows: size mismatch")
    else if !Positions(pi, |v|) then Failure("applyPiRows: pi out of range")
    else Success(Route(pi, v))
  }

  function XorRows(a: RowVec, b: RowVec): Result<RowVec> {
    if |a| != |b| then Failure("xorRows: row count mismatch")
    else if !SameShape(a, b) then Failure("xorRows: row width mismatch")
    else Success(SumRows(a, b))
  }

  predicate HasWidth(v: RowVec, W: nat) {
    forall i :: 0 <= i < |v| ==> |v[i]| == W
  }

  datatype CorrelationA = CorrelationA(a: RowVec, alpha: RowVec)
  datatype CorrelationB = CorrelationB(pi: seq<int>, b: RowVec)

  /** The promise of the dealer: alpha = pi(a) + b, where place i of pi(a) is a[pi[i]]. */
  ghost predicate Correlated(A: CorrelationA, B: CorrelationB) {
    && Positions(B.pi, |A.a|) && |B.b| == |A.alpha| == |A.a|
    && forall i :: 0 <= i < |A.a| ==>
         && |A.alpha[i]| == |B.b[i]| == |A.a[B.pi[i]]|
         && forall j :: 0 <= j < |A.alpha[i]| ==> A.alpha[i][j] == Xor(A.a[B.pi[i]][j], B.b[i][j])
  }

  ghost predicate CorrelatedRows(A: CorrelationA, B: CorrelationB) {
    && Positions(B.pi, |A.a|) && SameShape(Route(B.pi, A.a), B.b)
    && A.alpha == SumRows(Route(B.pi, A.a), B.b)
  }

  lemma CorrelatedByRows(A: CorrelationA, B: CorrelationB)
    ensures Correlated(A, B) <==> CorrelatedRows(A, B)
  {
    hide Xor;
    if Correlated(A, B) {
      var w := Route(B.pi, A.a);
      RouteAt(B.pi, A.a);
      assert SameShape(w, B.b);
      var sum := SumRows(w, B.b);
      forall i | 0 <= i < |A.a| ensures A.alpha[i] == sum[i] {
      }
      assert A.alpha == sum;
    }
  }

  method RandomRows(n: nat, W: nat, blocks: (nat, nat) -> Block) returns (v: RowVec)
    ensures Rect(v, n, W) && forall i, j :: 0 <= i < n && 0 <= j < W ==> v[i][j] == blocks(i, j)
  {
    v := [];
    while |v| < n
      invariant |v| <= n && Rect(v, |v|, W)
      invariant forall i, j :: 0 <= i < |v| && 0 <= j < W ==> v[i][j] == blocks(i, j)
    {
      var row := [];
      while |row| < W
        invariant |row| <= W && forall j :: 0 <= j < |row| ==> row[j] == blocks(|v|, j)
      {
        row := row + [blocks(|v|, |row|)];
      }
      v := v + [row];
    }
  }

  /** Whatever the generator draws, pi is a permutation and the correlation holds. */
  method CgpDealerGenerate(n: nat, W: nat, blocksA: (nat, nat) -> Block, blocksB: (nat, nat) -> Block, tape: Tape)
    returns (r: Result<(CorrelationA, CorrelationB)>)
    ensures r.Failure? <==> W == 0
    ensures W > 0 ==>
              && var A, B := r.value.0, r.value.1;
              && Rect(A.a, n, W) && Rect(A.alpha, n, W) && Rect(B.b, n, W)
              && IsPermutation(B.pi, n) && Correlated(A, B)
  {
    if W == 0 {
      return Failure("cgpDealerGenerate: W must be >= 1");
    }
    var a := RandomRows(n, W, blocksA);
    var b := RandomRows(n, W, blocksB);
    var pi := RandomPermutation(n, tape);
    var alpha := SumRows(Route(pi, a), b);
    CorrelatedByRows(CorrelationA(a, alpha), CorrelationB(pi, b));
    r := Success((CorrelationA(a, alpha), CorrelationB(pi, b)));
  }

  /** The message for B, and A's output share. */
  function CgpOnlineA(x: RowVec, A: CorrelationA): Result<(RowVec, RowVec)> {
    if |A.a| != |x| || |A.alpha| != |x| then Failure("cgpOnlineA: correlation size mismatch")
    else if x == [] then Success(([], []))
    else if !HasWidth(x, |x[0]|) || !HasWidth(A.a, |x[0]|) || !HasWidth(A.alpha, |x[0]|) then
      Failure("cgpOnlineA: row width mismatch")
    else Success((SumRows(x, A.a), A.alpha))
  }

  /** B's output share. */
  function CgpOnlineB(x: RowVec, B: CorrelationB, message: RowVec): Result<RowVec> {
    if |B.pi| != |x| || |B.b| != |x| then Failure("cgpOnlineB: correlation size mismatch")
    else if |message| != |x| then Failure("cgpOnlineB: message size mismatch")
    else if x == [] then Success([])
    else if !HasWidth(x, |x[0]|) || !HasWidth(B.b, |x[0]|) || !HasWidth(message, |x[0]|) then
      Failure("cgpOnlineB: row width mismatch")
    else
      var mb :- XorRows(message, x);
      var routed :- ApplyPiRows(mb, B.pi);
      XorRows(routed, B.b)
  }

  datatype State = State(spShare: RowVec, peerShare: RowVec)

  ghost predicate SizesAgree(s: State, A: CorrelationA, B: CorrelationB) {
    |s.spShare| == |s.peerShare| == |A.a| == |A.alpha| == |B.pi| == |B.b|
  }

  /** Every row has the width of the first, and pi stays in range. */
  ghost predicate Shaped(s: State, A: CorrelationA, B: CorrelationB)
    requires SizesAgree(s, A, B)
  {
    var n := |s.spShare|;
    var W := if n == 0 then 0 else |s.spShare[0]|;
    && Rect(s.spShare, n, W) && Rect(s.peerShare, n, W) && Rect(A.a, n, W) && Rect(A.alpha, n, W) && Rect(B.b, n, W)
    && Positions(B.pi, n)
  }

  ghost function RoundOutput(s: State, A: CorrelationA, B: CorrelationB): State
    requires SizesAgree(s, A, B) && Shaped(s, A, B)
  {
    State(A.alpha, SumRows(Route(B.pi, SumRows(SumRows(s.spShare, A.a), s.peerShare)), B.b))
  }

  /** Place by place: A keeps alpha, B's share comes from place pi[i] of what B adds up. */
  ghost predicate IsRound(out: State, s: State, A: CorrelationA, B: CorrelationB)
    requires SizesAgree(s, A, B) && Shaped(s, A, B)
  {
    && out.spShare == A.alpha && |out.peerShare| == |A.alpha|
    && forall i :: 0 <= i < |A.alpha| ==>
         var k := B.pi[i];
         && |out.peerShare[i]| == |A.alpha[i]|
         && forall j :: 0 <= j < |A.alpha[i]| ==>
              out.peerShare[i][j] == Xor(Xor(Xor(s.spShare[k][j], A.a[k][j]), s.peerShare[k][j]), B.b[i][j])
  }

  lemma OutputIsRound(s: State, A: CorrelationA, B: CorrelationB)
    requires SizesAgree(s, A, B) && Shaped(s, A, B)
    ensures IsRound(RoundOutput(s, A, B), s, A, B)
  {
    hide Xor;
    var sums := SumRows(SumRows(s.spShare, A.a), s.peerShare);
    RouteAt(B.pi, sums);
  }

  lemma OnlineHalves(s: State, A: CorrelationA, B: CorrelationB)
    requires SizesAgree(s, A, B)
    ensures var first := CgpOnlineA(s.spShare, A);
            if Shaped(s, A, B) then
              && first.Success? && first.value.1 == A.alpha
              && CgpOnlineB(s.peerShare, B, first.value.0) == Success(RoundOutput(s, A, B).peerShare)
            else first.Failure? || CgpOnlineB(s.peerShare, B, first.value.0).Failure?
  {
    hide XorVec;
    var first := CgpOnlineA(s.spShare, A);
    if s.spShare != [] && first.Success? {
      var W, m := |s.spShare[0]|, first.value.0;
      assert forall i :: 0 <= i < |m| ==> |m[i]| == W;
      assert |m[0]| == W;
    }
  }

  /**
   * One round. It returns false on a size mismatch and, in malicious mode,
   * exactly when the correlation does not hold; it fails on ragged rows or a
   * routing out of range.
   */
  method CgpCascadeRound(s: State, A: CorrelationA, B: CorrelationB, malicious: bool)
    returns (ok: Result<bool>, out: State)
    ensures !SizesAgree(s, A, B) ==> ok == Success(false)
    ensures SizesAgree(s, A, B) && !Shaped(s, A, B) ==> ok.Failure?
    ensures SizesAgree(s, A, B) && Shaped(s, A, B) ==> ok == Success(malicious ==> Correlated(A, B))
    ensures ok == Success(true) ==>
              SizesAgree(s, A, B) && Shaped(s, A, B) && IsRound(out, s, A, B) && out == RoundOutput(s, A, B)
    ensures ok == Success(false) ==> out == State([], [])
  {
    hide XorVec;
    out := State([], []);
    var n := |s.spShare|;
    if |s.peerShare| != n || |A.a| != n || |A.alpha| != n || |B.pi| != n || |B.b| != n {
      return Success(false), out;
    }
    OnlineHalves(s, A, B);
    var first := CgpOnlineA(s.spShare, A);
    if first.Failure? {
      return Failure(first.error), out;
    }
    var second := CgpOnlineB(s.peerShare, B, first.value.0);
    if second.Failure? {
      return Failure(second.error), out;
    }
    if malicious {
      var matches := CorrelationMatches(s, A, B);
      if !matches {
        return Success(false), out;
      }
    }
    OutputIsRound(s, A, B);
    return Success(true), State(first.value.1, second.value);
  }

  /** The entry-by-entry comparison of the malicious mode. */
  method CorrelationMatches(s: State, A: CorrelationA, B: CorrelationB) returns (ok: bool)
    requires SizesAgree(s, A, B) && Shaped(s, A, B)
    ensures ok <==> Correlated(A, B)
  {
    CorrelatedByRows(A, B);
    var routed := Route(B.pi, A.a);
    ghost var expected := SumRows(routed, B.b);
    var n := |routed|;
    var i := 0;
    while i < n
      invariant 0 <= i <= n && forall k :: 0 <= k < i ==> A.alpha[k] == expected[k]
    {
      var j := 0;
      while j < |routed[i]|
        invariant 0 <= j <= |routed[i]| && forall k :: 0 <= k < j ==> A.alpha[i][k] == expected[i][k]
      {
        if Xor(routed[i][j], B.b[i][j]) != A.alpha[i][j] {
          assert A.alpha[i][j] != expected[i][j];
          return false;
        }
        j := j + 1;
      }
      assert A.alpha[i] == expected[i];
      i := i + 1;
    }
    assert A.alpha == expected;
    return true;
  }

  function CgpFinalReveal(s: State): Result<RowVec> {
    XorRows(s.spShare, s.peerShare)
  }

  // ----------------------------------------------------------------------
  // What a round does to the shared secret

  ghost predicate Coherent(s: State) {
    SameShape(s.spShare, s.peerShare)
  }

  ghost function Secret(s: State): RowVec
    requires Coherent(s)
  {
    SumRows(s.spShare, s.peerShare)
  }

  lemma BlockIdentity(alpha: Block, x: Block, a: Block, y: Block, b: Block)
    ensures Xor(alpha, Xor(Xor(Xor(x, a), y), b)) == Xor(Xor(x, y), Xor(alpha, Xor(a, b)))
    ensures Xor(x, Xor(alpha, a)) == x <==> alpha == a
  {
    if Xor(x, Xor(alpha, a)) == x {
      forall i | 0 <= i < 128 ensures alpha[i] == a[i] {
        assert Xor(x, Xor(alpha, a))[i] == x[i];
      }
      assert alpha == a;
    }
  }

  lemma RowIdentity(alpha: Row, x: Row, a: Row, y: Row, b: Row)
    requires |alpha| == |x| == |a| == |y| == |b|
    ensures XorVec(alpha, XorVec(XorVec(XorVec(x, a), y), b)) == XorVec(XorVec(x, y), XorVec(alpha, XorVec(a, b)))
  {
    hide Xor;
    forall j | 0 <= j < |x|
      ensures Xor(alpha[j], Xor(Xor(Xor(x[j], a[j]), y[j]), b[j])) == Xor(Xor(x[j], y[j]), Xor(alpha[j], Xor(a[j], b[j])))
    {
      BlockIdentity(alpha[j], x[j], a[j], y[j], b[j]);
    }
  }

  lemma OffsetVanishes(t: RowVec, alpha: RowVec, w: RowVec)
    requires SameShape(t, alpha) && SameShape(alpha, w)
    ensures SumRows(t, SumRows(alpha, w)) == t <==> alpha == w
  {
    hide Xor;
    if SumRows(t, SumRows(alpha, w)) == t {
      forall i | 0 <= i < |t| ensures alpha[i] == w[i] {
        assert XorVec(t[i], XorVec(alpha[i], w[i])) == t[i];
        forall j | 0 <= j < |t[i]| ensures alpha[i][j] == w[i][j] {
          assert Xor(t[i][j], Xor(alpha[i][j], w[i][j])) == t[i][j];
          BlockIdentity(alpha[i][j], t[i][j], w[i][j], t[i][j], t[i][j]);
        }
      }
    }
    if alpha == w {
      forall i | 0 <= i < |t| ensures XorVec(t[i], XorVec(alpha[i], w[i])) == t[i] {
        forall j | 0 <= j < |t[i]| ensures Xor(t[i][j], Xor(alpha[i][j], w[i][j])) == t[i][j] {
          BlockIdentity(alpha[i][j], t[i][j], w[i][j], t[i][j], t[i][j]);
        }
      }
      assert SumRows(t, SumRows(alpha, w)) == t;
    }
  }

  /** The shared secret is routed by pi, off by alpha + (pi(a) + b). */
  lemma RoundOffset(s: State, A: CorrelationA, B: CorrelationB)
    requires SizesAgree(s, A, B) && Shaped(s, A, B)
    ensures var out := RoundOutput(s, A, B);
            && Coherent(s) && Coherent(out) && SameShape(Route(B.pi, A.a), B.b)
            && Secret(out) == SumRows(Route(B.pi, Secret(s)), SumRows(A.alpha, SumRows(Route(B.pi, A.a), B.b)))
  {
    hide XorVec;
    forall i | 0 <= i < |B.pi|
      ensures var k := B.pi[i]; (XorVec(A.alpha[i], XorVec(XorVec(XorVec(s.spShare[k], A.a[k]), s.peerShare[k]), B.b[i]))
                                 == XorVec(XorVec(s.spShare[k], s.peerShare[k]), XorVec(A.alpha[i], XorVec(A.a[k], B.b[i]))))
    {
      var k := B.pi[i];
      RowIdentity(A.alpha[i], s.spShare[k], A.a[k], s.peerShare[k], B.b[i]);
    }
  }

  /** A round routes the secret by pi if and only if the correlation holds. */
  lemma RoundRoutesIff(s: State, A: CorrelationA, B: CorrelationB)
    requires SizesAgree(s, A, B) && Shaped(s, A, B)
    ensures var out := RoundOutput(s, A, B);
            && Coherent(s) && Coherent(out)
            && (Secret(out) == Route(B.pi, Secret(s)) <==> Correlated(A, B))
  {
    RoundOffset(s, A, B);
    CorrelatedByRows(A, B);
    hide XorVec;
    OffsetVanishes(Route(B.pi, Secret(s)), A.alpha, SumRows(Route(B.pi, A.a), B.b));
  }

  // ----------------------------------------------------------------------
  // Any number of rounds

  datatype Dealt = Dealt(A: CorrelationA, B: CorrelationB)

  /** A run of rounds, each accepted in malicious mode, whoever dealt the correlations. */
  ghost predicate AcceptedRun(trace: seq<State>, dealt: seq<Dealt>) {
    && |trace| == |dealt| + 1
    && forall k :: 0 <= k < |dealt| ==>
         && SizesAgree(trace[k], dealt[k].A, dealt[k].B) && Shaped(trace[k], dealt[k].A, dealt[k].B)
         && Correlated(dealt[k].A, dealt[k].B)
         && trace[k + 1] == RoundOutput(trace[k], dealt[k].A, dealt[k].B)
  }

  /** First the first routing, then the second, and so on. */
  ghost function ComposedIndex(dealt: seq<Dealt>, n: nat): (p: seq<int>)
    requires forall k :: 0 <= k < |dealt| ==> Positions(dealt[k].B.pi, n)
    ensures Positions(p, n)
  {
    if dealt == [] then Identity(n)
    else Compose(dealt[|dealt| - 1].B.pi, ComposedIndex(dealt[..|dealt| - 1], n))
  }

  lemma {:induction false} RunPositions(trace: seq<State>, dealt: seq<Dealt>)
    requires AcceptedRun(trace, dealt)
    ensures var n := |trace[0].spShare|;
            && (forall k :: 0 <= k < |dealt| ==> Positions(dealt[k].B.pi, n))
            && forall k :: 0 <= k < |trace| ==> |trace[k].spShare| == n
    decreases |dealt|
  {
    hide XorVec, Correlated;
    if dealt != [] {
      var last := |dealt| - 1;
      RunPositions(trace[..|dealt|], dealt[..last]);
      assert trace[..|dealt|][last] == trace[last];
      assert trace[|dealt|] == RoundOutput(trace[last], dealt[last].A, dealt[last].B);
      forall k | 0 <= k < |dealt| ensures Positions(dealt[k].B.pi, |trace[0].spShare|) {
        assert k < last ==> dealt[..last][k] == dealt[k];
      }
      forall k | 0 <= k < |trace| ensures |trace[k].spShare| == |trace[0].spShare| {
        assert k < |dealt| ==> trace[..|dealt|][k] == trace[k];
      }
    }
  }

  ghost function Routings(dealt: seq<Dealt>): (p: seq<seq<int>>)
    ensures |p| == |dealt| && forall k :: 0 <= k < |dealt| ==> p[k] == dealt[k].B.pi
  {
    seq(|dealt|, k requires 0 <= k < |dealt| => dealt[k].B.pi)
  }

  lemma {:induction false} ComposedIsOrigin(dealt: seq<Dealt>, n: nat, k: nat, i: int)
    requires k <= |dealt| && 0 <= i < n && forall k :: 0 <= k < |dealt| ==> Positions(dealt[k].B.pi, n)
    ensures ComposedIndex(dealt[..k], n)[i] == Origin(Routings(dealt), n, k, i)
    decreases k
  {
    if k > 0 {
      var last := k - 1;
      assert dealt[..k][..last] == dealt[..last] && dealt[..k][last] == dealt[last];
      ComposeAt(dealt[last].B.pi, ComposedIndex(dealt[..last], n));
      ComposedIsOrigin(dealt, n, last, dealt[last].B.pi[i]);
    }
  }

  /**
   * Any number of accepted rounds: place i of the reveal is the sum of the
   * initial shares at the place that i comes from.
   */
  lemma RevealedPlaces(trace: seq<State>, dealt: seq<Dealt>)
    requires AcceptedRun(trace, dealt) && Coherent(trace[0])
    ensures var n, start, r := |trace[0].spShare|, trace[0], CgpFinalReveal(trace[|dealt|]);
            && (forall k :: 0 <= k < |dealt| ==> Positions(dealt[k].B.pi, n))
            && r.Success? && |r.value| == n
            && forall i :: 0 <= i < n ==>
                 var o := Origin(Routings(dealt), n, |dealt|, i);
                 && |r.value[i]| == |start.spShare[o]|
                 && forall j :: 0 <= j < |r.value[i]| ==> r.value[i][j] == Xor(start.spShare[o][j], start.peerShare[o][j])
  {
    hide Xor, CgpFinalReveal, RoundOutput, Correlated;
    AcceptedRunReveals(trace, dealt);
    var n, start := |trace[0].spShare|, trace[0];
    var p := ComposedIndex(dealt, n);
    RouteAt(p, Secret(start));
    assert dealt[..|dealt|] == dealt;
    forall i | 0 <= i < n ensures Route(p, Secret(start))[i] == Secret(start)[Origin(Routings(dealt), n, |dealt|, i)] {
      ComposedIsOrigin(dealt, n, |dealt|, i);
    }
  }

  /** Any number of accepted rounds reveals the initial secret under the composed index map. */
  lemma {:induction false} AcceptedRunReveals(trace: seq<State>, dealt: seq<Dealt>)
    requires AcceptedRun(trace, dealt) && Coherent(trace[0])
    ensures var n, last := |trace[0].spShare|, trace[|dealt|];
            && (forall k :: 0 <= k < |dealt| ==> Positions(dealt[k].B.pi, n))
            && CgpFinalReveal(last) == Success(Route(ComposedIndex(dealt, n), Secret(trace[0])))
    decreases |dealt|
  {
    hide XorVec, Correlated, SizesAgree, Shaped, RoundOutput;
    RunPositions(trace, dealt);
    var n := |trace[0].spShare|;
    if dealt == [] {
      RouteIdentity(Secret(trace[0]));
    } else {
      var last := |dealt| - 1;
      var before, d := trace[last], dealt[last];
      assert trace[..|dealt|][last] == before && trace[..|dealt|][0] == trace[0];
      AcceptedRunReveals(trace[..|dealt|], dealt[..last]);
      RoundRoutesIff(before, d.A, d.B);
      assert trace[|dealt|] == RoundOutput(before, d.A, d.B);
      RouteCompose(d.B.pi, ComposedIndex(dealt[..last], n), Secret(trace[0]));
    }
  }
}

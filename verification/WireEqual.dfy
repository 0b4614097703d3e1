/** The wire equality test: an AND tree over the 64 agreement bits. */
module WireEqual {
  import opened Words
  import opened Shares
  import opened Compare
  import opened MpcSort
  import opened Wire
  import opened WireLogic
  import opened WireGates

  /** Pair i of the level is multiplied and pushed. */
  function PairBody(me: nat, level: Bits, ts: seq<MyTriple>): (nat, At<Bits>) -> Proc<At<Bits>> {
    (i: nat, next: At<Bits>) =>
      if 2 * i + 1 < |level|
      then Bind(WireAnd(me, level[2 * i], level[2 * i + 1], ts, next.idx), PushBit(next.value))
      else Throw
  }

  function PushBit(next: Bits): At<bool> -> Proc<At<Bits>> {
    (r: At<bool>) => Ret(At(next + [r.value], r.idx))
  }

  /** An odd last bit is carried over. */
  function CarryOver(level: Bits): At<Bits> -> Proc<At<Bits>> {
    (next: At<Bits>) => Ret(At(if |level| % 2 == 1 then next.value + [level[|level| - 1]] else next.value, next.idx))
  }

  function WireAndLevel(me: nat, level: Bits, ts: seq<MyTriple>, idx: nat): Proc<At<Bits>> {
    Bind(Loop(PairBody(me, level, ts), 0, |level| / 2, At([], idx)), CarryOver(level))
  }

  /** Level by level until one bit is left. */
  function WireTree(me: nat, level: Bits, ts: seq<MyTriple>, idx: nat): Proc<At<bool>>
    decreases |level|, 0
  {
    if level == [] then Ret(At(true, idx))
    else if |level| == 1 then Ret(At(level[0], idx))
    else Bind(WireAndLevel(me, level, ts, idx), NextLevel(me, (|level| + 1) / 2, ts))
  }

  /** The level of size n produced by the previous one. */
  function NextLevel(me: nat, n: nat, ts: seq<MyTriple>): At<Bits> -> Proc<At<bool>>
    decreases n, 1
  {
    (level: At<Bits>) => if |level.value| == n then WireTree(me, level.value, ts, level.idx) else Throw
  }

  function Agreements(me: nat, x: Bits, y: Bits): (b: Bits)
    requires |x| == |y|
    ensures |b| == |x|
  {
    seq(|x|, i requires 0 <= i < |x| => WireNot(me, x[i] != y[i]))
  }

  function WireSecureEqual(me: nat, x: Bits, y: Bits, ts: seq<MyTriple>, idx: nat): Proc<At<bool>>
    requires |x| == |y| == 64
  {
    WireTree(me, Agreements(me, x, y), ts, idx)
  }

  ghost predicate AreBits(b: Bits, x: Bits, y: Bits) {
    |x| == |y| == |b| && XorEach(x, y) == b
  }

  /** Shares of the bits b. */
  ghost function BitsOf(b: Bits): (Bits, Bits) -> bool {
    (x: Bits, y: Bits) => AreBits(b, x, y)
  }

  ghost predicate PairsDone(b: Bits, i: nat, x: Bits, y: Bits) {
    2 * i <= |b| && AreBits(Pairwise(b[..2 * i]), x, y)
  }

  ghost function PairInv(b: Bits): (nat, Bits, Bits) -> bool {
    (i: nat, x: Bits, y: Bits) => PairsDone(b, i, x, y)
  }

  lemma PushPair(x: Bits, y: Bits, b: Bits, i: nat, p: bool, q: bool)
    requires PairsDone(b, i, x, y) && 2 * i + 1 < |b| && (p != q) == (b[2 * i] && b[2 * i + 1])
    ensures PairsDone(b, i + 1, x + [p], y + [q])
  {
    PairwiseSnoc(b, 2 * i);
    hide Pairwise;
    assert XorEach(x + [p], y + [q]) == XorEach(x, y) + [p != q];
  }

  lemma PairKeeps(i: nat, x: At<Bits>, y: At<Bits>, l0: Bits, l1: Bits, t0: seq<MyTriple>, t1: seq<MyTriple>)
    requires Paired(t0, t1) && |l0| == |l1| && 2 * i + 1 < |l0| && x.idx == y.idx
    requires PairInv(XorEach(l0, l1))(i, x.value, y.value)
    ensures Meets(PairBody(0, l0, t0)(i, x), PairBody(1, l1, t1)(i, y), |t0|, x.idx, 1, When(PairInv(XorEach(l0, l1)), i + 1))
  {
    hide Meets, Paired, WireAnd, Bind, PairsDone;
    var b := XorEach(l0, l1);
    var v := b[2 * i] && b[2 * i + 1];
    AndMeets(l0[2 * i], l0[2 * i + 1], l1[2 * i], l1[2 * i + 1], t0, t1, x.idx);
    forall p: At<bool>, q: At<bool> | p.idx == q.idx == x.idx + 1 && SharesOf(v)(p.value, q.value)
      ensures Meets(PushBit(x.value)(p), PushBit(y.value)(q), |t0|, x.idx + 1, 0, When(PairInv(b), i + 1))
    {
      PushPair(x.value, y.value, b, i, p.value, q.value);
      Returns(At(x.value + [p.value], p.idx), At(y.value + [q.value], q.idx), |t0|, When(PairInv(b), i + 1));
    }
    Then(WireAnd(0, l0[2 * i], l0[2 * i + 1], t0, x.idx), WireAnd(1, l1[2 * i], l1[2 * i + 1], t1, x.idx),
         PushBit(x.value), PushBit(y.value), |t0|, x.idx, 1, 0, SharesOf(v), When(PairInv(b), i + 1));
  }

  lemma LevelEnds(l0: Bits, l1: Bits, x: Bits, y: Bits)
    requires |l0| == |l1| && PairsDone(XorEach(l0, l1), |l0| / 2, x, y)
    ensures var odd := |l0| % 2 == 1;
            AreBits(Pairwise(XorEach(l0, l1)), if odd then x + [l0[|l0| - 1]] else x, if odd then y + [l1[|l1| - 1]] else y)
  {
    var b := XorEach(l0, l1);
    if |b| % 2 == 1 {
      PairwiseOdd(b);
      assert XorEach(x + [l0[|l0| - 1]], y + [l1[|l1| - 1]]) == XorEach(x, y) + [b[|b| - 1]];
    } else {
      assert b[..2 * (|b| / 2)] == b;
    }
  }

  lemma CarryContinues(l0: Bits, l1: Bits, len: nat, idx: nat)
    requires |l0| == |l1|
    ensures var b := XorEach(l0, l1);
            Continue(CarryOver(l0), CarryOver(l1), len, idx, 0, When(PairInv(b), |l0| / 2), BitsOf(Pairwise(b)))
  {
    hide Meets, PairsDone, AreBits, Pairwise;
    var b, odd := XorEach(l0, l1), |l0| % 2 == 1;
    forall x: At<Bits>, y: At<Bits> | x.idx == y.idx == idx && When(PairInv(b), |l0| / 2)(x.value, y.value)
      ensures Meets(CarryOver(l0)(x), CarryOver(l1)(y), len, idx, 0, BitsOf(Pairwise(b)))
    {
      LevelEnds(l0, l1, x.value, y.value);
      Returns(At(if odd then x.value + [l0[|l0| - 1]] else x.value, x.idx),
              At(if odd then y.value + [l1[|l1| - 1]] else y.value, y.idx), len, BitsOf(Pairwise(b)));
    }
  }

  lemma NoPairs(b: Bits)
    ensures PairsDone(b, 0, [], [])
  {
  }

  lemma LevelMeets(l0: Bits, l1: Bits, t0: seq<MyTriple>, t1: seq<MyTriple>, idx: nat)
    requires Paired(t0, t1) && |l0| == |l1|
    ensures Meets(WireAndLevel(0, l0, t0, idx), WireAndLevel(1, l1, t1, idx), |t0|, idx, |l0| / 2,
                  BitsOf(Pairwise(XorEach(l0, l1))))
  {
    hide Meets, Paired, Bind, PairsDone, Loop, PairBody, RowCost, AreBits, Pairwise, Continue, CarryOver, XorEach;
    var b, n := XorEach(l0, l1), |l0| / 2;
    NoPairs(b);
    var f, g, inv := PairBody(0, l0, t0), PairBody(1, l1, t1), PairInv(b);
    forall i: nat, x: At<Bits>, y: At<Bits> | i < n && x.idx == y.idx && inv(i, x.value, y.value)
      ensures Meets(f(i, x), g(i, y), |t0|, x.idx, 1, When(inv, i + 1))
    {
      PairKeeps(i, x, y, l0, l1, t0, t1);
    }
    LoopMeets(f, g, 0, n, At([], idx), At([], idx), |t0|, 1, inv);
    RowCostProduct(n, 1);
    var post := BitsOf(Pairwise(b));
    CarryContinues(l0, l1, |t0|, idx + n);
    Then(Loop(f, 0, n, At([], idx)), Loop(g, 0, n, At([], idx)), CarryOver(l0), CarryOver(l1), |t0|, idx, n, 0,
         When(inv, n), post);
  }

  lemma TreeUnfolds(me: nat, level: Bits, ts: seq<MyTriple>, idx: nat)
    requires |level| > 1
    ensures WireTree(me, level, ts, idx)
         == Bind(WireAndLevel(me, level, ts, idx), NextLevel(me, (|level| + 1) / 2, ts))
  {
  }

  lemma {:induction false} TreeMeets(l0: Bits, l1: Bits, t0: seq<MyTriple>, t1: seq<MyTriple>, idx: nat)
    requires Paired(t0, t1) && |l0| == |l1| > 0
    ensures Meets(WireTree(0, l0, t0, idx), WireTree(1, l1, t1, idx), |t0|, idx, |l0| - 1,
                  SharesOf(AllTrue(XorEach(l0, l1))))
    decreases |l0|
  {
    hide Meets, Paired, Bind, WireAndLevel, WireTree, Pairwise, AllTrue;
    var b, post := XorEach(l0, l1), SharesOf(AllTrue(XorEach(l0, l1)));
    if |l0| == 1 {
      TreeOfOne(l0, l1, t0, t1, idx);
    } else {
      TreeUnfolds(0, l0, t0, idx);
      TreeUnfolds(1, l1, t1, idx);
      PairwiseKeeps(b);
      var half, rest := |l0| / 2, (|l0| + 1) / 2;
      LevelMeets(l0, l1, t0, t1, idx);
      forall x: At<Bits>, y: At<Bits> | x.idx == y.idx == idx + half && BitsOf(Pairwise(b))(x.value, y.value)
        ensures Meets(NextLevel(0, rest, t0)(x), NextLevel(1, rest, t1)(y), |t0|, idx + half, rest - 1, post)
      {
        TreeMeets(x.value, y.value, t0, t1, idx + half);
      }
      Then(WireAndLevel(0, l0, t0, idx), WireAndLevel(1, l1, t1, idx), NextLevel(0, rest, t0), NextLevel(1, rest, t1),
           |t0|, idx, half, rest - 1, BitsOf(Pairwise(b)), post);
    }
  }

  lemma TreeOfOne(l0: Bits, l1: Bits, t0: seq<MyTriple>, t1: seq<MyTriple>, idx: nat)
    requires |l0| == |l1| == 1
    ensures Meets(WireTree(0, l0, t0, idx), WireTree(1, l1, t1, idx), |t0|, idx, 0, SharesOf(AllTrue(XorEach(l0, l1))))
  {
    hide Meets;
    var b := XorEach(l0, l1);
    assert AllTrue(b) <==> b[0];
    Returns(At(l0[0], idx), At(l1[0], idx), |t0|, SharesOf(AllTrue(b)));
  }

  /** 63 triples, and shares of whether the two shared words are equal. */
  lemma SecureEqualMeets(x0: Bits, y0: Bits, x1: Bits, y1: Bits, t0: seq<MyTriple>, t1: seq<MyTriple>, idx: nat)
    requires Paired(t0, t1) && |x0| == |y0| == |x1| == |y1| == 64
    ensures Meets(WireSecureEqual(0, x0, y0, t0, idx), WireSecureEqual(1, x1, y1, t1, idx), |t0|, idx, EQUAL_COST,
                  SharesOf(XorEach(x0, x1) == XorEach(y0, y1)))
  {
    hide Meets, Paired, WireTree;
    var b := XorEach(Agreements(0, x0, y0), Agreements(1, x1, y1));
    var x, y := XorEach(x0, x1), XorEach(y0, y1);
    TreeMeets(Agreements(0, x0, y0), Agreements(1, x1, y1), t0, t1, idx);
    assert AllTrue(b) <==> x == y by {
      assert forall i :: 0 <= i < 64 ==> (b[i] <==> x[i] == y[i]);
      if AllTrue(b) {
        assert forall i :: 0 <= i < 64 ==> b[i];
      }
    }
  }
}

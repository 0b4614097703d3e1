/** The wire protocol's gates and comparisons, one party's side at a time. */
module WireGates {
  import opened Wire
  import opened WireLogic
  import opened Shares

  /** One party's shares of a Beaver bit triple. */
  datatype MyTriple = MyTriple(u: bool, v: bool, w: bool)

  /** The two parties' triple vectors hold shares of honest triples. */
  ghost predicate Paired(t0: seq<MyTriple>, t1: seq<MyTriple>) {
    && |t0| == |t1|
    && forall i :: 0 <= i < |t0| ==>
         (t0[i].w != t1[i].w) == ((t0[i].u != t1[i].u) && (t0[i].v != t1[i].v))
  }

  /** Party `me` keeps its own shares of a dealt bag. */
  function MyShares(triples: seq<BitTriple>, me: nat): (s: seq<MyTriple>)
    requires me < 2 && forall i :: 0 <= i < |triples| ==> TwoParty(triples[i])
    ensures |s| == |triples|
    ensures forall i :: 0 <= i < |s| ==> s[i] == MyShare(triples[i], me)
  {
    seq(|triples|, i requires 0 <= i < |triples| => MyShare(triples[i], me))
  }

  predicate TwoParty(t: BitTriple) {
    t.u.N() == t.v.N() == t.w.N() == 2
  }

  function MyShare(t: BitTriple, me: nat): MyTriple
    requires me < 2 && TwoParty(t)
  {
    MyTriple(t.u.shares[me], t.v.shares[me], t.w.shares[me])
  }

  lemma HonestBagIsPaired(triples: seq<BitTriple>)
    requires forall i :: 0 <= i < |triples| ==> triples[i].Honest(2)
    ensures forall i :: 0 <= i < |triples| ==> TwoParty(triples[i])
    ensures Paired(MyShares(triples, 0), MyShares(triples, 1))
  {
    forall i | 0 <= i < |triples|
      ensures triples[i].u.Open() == (triples[i].u.shares[0] != triples[i].u.shares[1])
      ensures triples[i].v.Open() == (triples[i].v.shares[0] != triples[i].v.shares[1])
      ensures triples[i].w.Open() == (triples[i].w.shares[0] != triples[i].w.shares[1])
    {
      OpenTwo(triples[i].u);
      OpenTwo(triples[i].v);
      OpenTwo(triples[i].w);
    }
  }

  lemma OpenTwo(b: SharedBit)
    requires b.N() == 2
    ensures b.Open() == (b.shares[0] != b.shares[1])
  {
    assert b.shares[1..][0] == b.shares[1] && b.shares[1..][1..] == [];
    assert XorAll(b.shares[1..]) == b.shares[1];
  }

  // ----------------------------------------------------------------------
  // Gates

  /** Only party 0 flips its share. */
  function WireNot(me: nat, x: bool): bool {
    if me == 0 then !x else x
  }

  /** w XOR d.v XOR e.u, and party 0 absorbs d.e. */
  function Masked(me: nat, t: MyTriple, d: bool, e: bool): bool {
    ((t.w != (d && t.v)) != (e && t.u)) != (me == 0 && d && e)
  }

  /** Opens d and e in one exchange, then computes the share of the product. */
  function WireAnd(me: nat, x: bool, y: bool, ts: seq<MyTriple>, idx: nat): Proc<At<bool>> {
    if me > 1 || idx >= |ts| then Throw
    else
      var t := ts[idx];
      var d, e := x != t.u, y != t.v;
      Exchange(Msg(d, e),
               Ret(At(Masked(me, t, d, e), idx + 1)), Ret(At(Masked(me, t, d, !e), idx + 1)),
               Ret(At(Masked(me, t, !d, e), idx + 1)), Ret(At(Masked(me, t, !d, !e), idx + 1)))
  }

  function ThenNot(me: nat): At<bool> -> Proc<At<bool>> {
    (r: At<bool>) => Ret(At(WireNot(me, r.value), r.idx))
  }

  function WireOr(me: nat, a: bool, b: bool, ts: seq<MyTriple>, idx: nat): Proc<At<bool>> {
    Bind(WireAnd(me, WireNot(me, a), WireNot(me, b), ts, idx), ThenNot(me))
  }

  /** Sends its share and returns the opened bit. */
  function WireOpenBit(me: nat, x: bool): Proc<bool> {
    if me > 1 then Throw else Exchange(Msg(x, false), Ret(x), Ret(x), Ret(!x), Ret(!x))
  }

  lemma OpenBitOpens(x0: bool, x1: bool)
    ensures Run(WireOpenBit(0, x0), WireOpenBit(1, x1)) == Finished(x0 != x1, x0 != x1)
  {
  }

  /** The two results are shares of `v`. */
  ghost function SharesOf(v: bool): (bool, bool) -> bool {
    (a: bool, b: bool) => (a != b) == v
  }

  lemma MaskedXor(t0: MyTriple, t1: MyTriple, x: bool, y: bool)
    requires (t0.w != t1.w) == ((t0.u != t1.u) && (t0.v != t1.v))
    ensures var d, e := x != (t0.u != t1.u), y != (t0.v != t1.v);
            (Masked(0, t0, d, e) != Masked(1, t1, d, e)) == (x && y)
  {
  }

  lemma ReplyOfAnd(me: nat, x: bool, y: bool, ts: seq<MyTriple>, idx: nat, peer: Msg)
    requires me < 2 && idx < |ts|
    ensures WireAnd(me, x, y, ts, idx).Exchange?
    ensures WireAnd(me, x, y, ts, idx).mine == Msg(x != ts[idx].u, y != ts[idx].v)
    ensures WireAnd(me, x, y, ts, idx).On(peer)
         == Ret(At(Masked(me, ts[idx], (x != ts[idx].u) != peer.d, (y != ts[idx].v) != peer.e), idx + 1))
  {
    hide Masked;
  }

  lemma AndMeets(x0: bool, y0: bool, x1: bool, y1: bool, t0: seq<MyTriple>, t1: seq<MyTriple>, idx: nat)
    requires Paired(t0, t1)
    ensures Meets(WireAnd(0, x0, y0, t0, idx), WireAnd(1, x1, y1, t1, idx), |t0|, idx, 1,
                  SharesOf((x0 != x1) && (y0 != y1)))
  {
    if idx < |t0| {
      AndRuns(x0, y0, x1, y1, t0, t1, idx);
      MaskedXor(t0[idx], t1[idx], x0 != x1, y0 != y1);
    }
  }

  lemma AndRuns(x0: bool, y0: bool, x1: bool, y1: bool, t0: seq<MyTriple>, t1: seq<MyTriple>, idx: nat)
    requires |t0| == |t1| && idx < |t0|
    ensures var a, b := t0[idx], t1[idx];
            var d, e := (x0 != x1) != (a.u != b.u), (y0 != y1) != (a.v != b.v);
            Run(WireAnd(0, x0, y0, t0, idx), WireAnd(1, x1, y1, t1, idx))
            == Finished(At(Masked(0, a, d, e), idx + 1), At(Masked(1, b, d, e), idx + 1))
  {
    var a, b := t0[idx], t1[idx];
    ReplyOfAnd(0, x0, y0, t0, idx, Msg(x1 != b.u, y1 != b.v));
    ReplyOfAnd(1, x1, y1, t1, idx, Msg(x0 != a.u, y0 != a.v));
    hide *;
    var d, e := (x0 != x1) != (a.u != b.u), (y0 != y1) != (a.v != b.v);
    assert ((x0 != a.u) != (x1 != b.u)) == d && ((x1 != b.u) != (x0 != a.u)) == d;
    assert ((y0 != a.v) != (y1 != b.v)) == e && ((y1 != b.v) != (y0 != a.v)) == e;
    RunExchange(WireAnd(0, x0, y0, t0, idx), WireAnd(1, x1, y1, t1, idx));
    RunReturns(At(Masked(0, a, d, e), idx + 1), At(Masked(1, b, d, e), idx + 1));
  }

  lemma OrMeets(a0: bool, b0: bool, a1: bool, b1: bool, t0: seq<MyTriple>, t1: seq<MyTriple>, idx: nat)
    requires Paired(t0, t1)
    ensures Meets(WireOr(0, a0, b0, t0, idx), WireOr(1, a1, b1, t1, idx), |t0|, idx, 1,
                  SharesOf((a0 != a1) || (b0 != b1)))
  {
    hide WireAnd, Bind, Meets, Paired;
    var both, either := (!a0 != a1) && (!b0 != b1), (a0 != a1) || (b0 != b1);
    AndMeets(!a0, !b0, a1, b1, t0, t1, idx);
    forall r0: At<bool>, r1: At<bool> | r0.idx == r1.idx == idx + 1 && SharesOf(both)(r0.value, r1.value)
      ensures Meets(ThenNot(0)(r0), ThenNot(1)(r1), |t0|, idx + 1, 0, SharesOf(either))
    {
      Returns(At(!r0.value, r0.idx), r1, |t0|, SharesOf(either));
    }
    Then(WireAnd(0, !a0, !b0, t0, idx), WireAnd(1, a1, b1, t1, idx), ThenNot(0), ThenNot(1),
         |t0|, idx, 1, 0, SharesOf(both), SharesOf(either));
  }

  // ----------------------------------------------------------------------
  // Less-than: the running result and the "decided" flag, from the top bit down

  datatype Verdict = Verdict(result: bool, decided: bool)

  function WireLessRound(me: nat, x: bool, y: bool, v: Verdict, ts: seq<MyTriple>, idx: nat): Proc<At<Verdict>> {
    Bind(WireAnd(me, x != y, WireNot(me, v.decided), ts, idx), AfterFirst(me, v, y, ts))
  }

  function AfterFirst(me: nat, v: Verdict, y: bool, ts: seq<MyTriple>): At<bool> -> Proc<At<Verdict>> {
    (first: At<bool>) => Bind(WireAnd(me, first.value, y, ts, first.idx), AfterContrib(me, v, first.value, ts))
  }

  function AfterContrib(me: nat, v: Verdict, first: bool, ts: seq<MyTriple>): At<bool> -> Proc<At<Verdict>> {
    (contrib: At<bool>) => Bind(WireOr(me, v.result, contrib.value, ts, contrib.idx), AfterResult(me, v, first, ts))
  }

  function AfterResult(me: nat, v: Verdict, first: bool, ts: seq<MyTriple>): At<bool> -> Proc<At<Verdict>> {
    (result: At<bool>) => Bind(WireOr(me, v.decided, first, ts, result.idx), AfterDecided(result.value))
  }

  function AfterDecided(result: bool): At<bool> -> Proc<At<Verdict>> {
    (decided: At<bool>) => Ret(At(Verdict(result, decided.value), decided.idx))
  }

  /** The verdict the two parties' shares stand for. */
  function Joint(v0: Verdict, v1: Verdict): Verdict {
    Verdict(v0.result != v1.result, v0.decided != v1.decided)
  }

  ghost function VerdictOf(v: Verdict): (Verdict, Verdict) -> bool {
    (a: Verdict, b: Verdict) => Joint(a, b) == v
  }

  lemma DecidedMeets(r0: At<bool>, r1: At<bool>, f0: bool, f1: bool, v0: Verdict, v1: Verdict,
                     t0: seq<MyTriple>, t1: seq<MyTriple>)
    requires Paired(t0, t1) && r0.idx == r1.idx
    ensures Meets(AfterResult(0, v0, f0, t0)(r0), AfterResult(1, v1, f1, t1)(r1), |t0|, r0.idx, 1,
                  VerdictOf(Verdict(r0.value != r1.value, Joint(v0, v1).decided || (f0 != f1))))
  {
    hide WireOr, Bind, Meets, Paired;
    var decided := Joint(v0, v1).decided || (f0 != f1);
    var verdict := Verdict(r0.value != r1.value, decided);
    OrMeets(v0.decided, f0, v1.decided, f1, t0, t1, r0.idx);
    forall d0: At<bool>, d1: At<bool> | d0.idx == d1.idx == r0.idx + 1 && SharesOf(decided)(d0.value, d1.value)
      ensures Meets(AfterDecided(r0.value)(d0), AfterDecided(r1.value)(d1), |t0|, r0.idx + 1, 0, VerdictOf(verdict))
    {
      Returns(At(Verdict(r0.value, d0.value), d0.idx), At(Verdict(r1.value, d1.value), d1.idx), |t0|, VerdictOf(verdict));
    }
    Then(WireOr(0, v0.decided, f0, t0, r0.idx), WireOr(1, v1.decided, f1, t1, r0.idx),
         AfterDecided(r0.value), AfterDecided(r1.value), |t0|, r0.idx, 1, 0, SharesOf(decided), VerdictOf(verdict));
  }

  lemma ContribMeets(c0: At<bool>, c1: At<bool>, f0: bool, f1: bool, v0: Verdict, v1: Verdict,
                     t0: seq<MyTriple>, t1: seq<MyTriple>)
    requires Paired(t0, t1) && c0.idx == c1.idx
    ensures Meets(AfterContrib(0, v0, f0, t0)(c0), AfterContrib(1, v1, f1, t1)(c1), |t0|, c0.idx, 2,
                  VerdictOf(Verdict(Joint(v0, v1).result || (c0.value != c1.value),
                                    Joint(v0, v1).decided || (f0 != f1))))
  {
    hide WireOr, Bind, Meets, AfterResult, Paired;
    var result := Joint(v0, v1).result || (c0.value != c1.value);
    var verdict := Verdict(result, Joint(v0, v1).decided || (f0 != f1));
    OrMeets(v0.result, c0.value, v1.result, c1.value, t0, t1, c0.idx);
    forall r0: At<bool>, r1: At<bool> | r0.idx == r1.idx == c0.idx + 1 && SharesOf(result)(r0.value, r1.value)
      ensures Meets(AfterResult(0, v0, f0, t0)(r0), AfterResult(1, v1, f1, t1)(r1), |t0|, c0.idx + 1, 1, VerdictOf(verdict))
    {
      DecidedMeets(r0, r1, f0, f1, v0, v1, t0, t1);
    }
    Then(WireOr(0, v0.result, c0.value, t0, c0.idx), WireOr(1, v1.result, c1.value, t1, c0.idx),
         AfterResult(0, v0, f0, t0), AfterResult(1, v1, f1, t1), |t0|, c0.idx, 1, 1, SharesOf(result), VerdictOf(verdict));
  }

  lemma FirstMeets(f0: At<bool>, f1: At<bool>, y0: bool, y1: bool, v0: Verdict, v1: Verdict,
                   t0: seq<MyTriple>, t1: seq<MyTriple>)
    requires Paired(t0, t1) && f0.idx == f1.idx
    ensures var first, y := f0.value != f1.value, y0 != y1;
            Meets(AfterFirst(0, v0, y0, t0)(f0), AfterFirst(1, v1, y1, t1)(f1), |t0|, f0.idx, 3,
                  VerdictOf(Verdict(Joint(v0, v1).result || (first && y), Joint(v0, v1).decided || first)))
  {
    hide WireAnd, Bind, Meets, AfterContrib, Paired;
    var first, y := f0.value != f1.value, y0 != y1;
    var verdict := Verdict(Joint(v0, v1).result || (first && y), Joint(v0, v1).decided || first);
    AndMeets(f0.value, y0, f1.value, y1, t0, t1, f0.idx);
    forall c0: At<bool>, c1: At<bool> | c0.idx == c1.idx == f0.idx + 1 && SharesOf(first && y)(c0.value, c1.value)
      ensures Meets(AfterContrib(0, v0, f0.value, t0)(c0), AfterContrib(1, v1, f1.value, t1)(c1), |t0|, f0.idx + 1, 2,
                    VerdictOf(verdict))
    {
      ContribMeets(c0, c1, f0.value, f1.value, v0, v1, t0, t1);
    }
    Then(WireAnd(0, f0.value, y0, t0, f0.idx), WireAnd(1, f1.value, y1, t1, f0.idx),
         AfterContrib(0, v0, f0.value, t0), AfterContrib(1, v1, f1.value, t1), |t0|, f0.idx, 1, 2,
         SharesOf(first && y), VerdictOf(verdict));
  }

  lemma RoundMeets(x0: bool, y0: bool, v0: Verdict, x1: bool, y1: bool, v1: Verdict,
                   t0: seq<MyTriple>, t1: seq<MyTriple>, idx: nat)
    requires Paired(t0, t1)
    ensures var x, y, v := x0 != x1, y0 != y1, Joint(v0, v1);
            var first := x != y && !v.decided;
            Meets(WireLessRound(0, x0, y0, v0, t0, idx), WireLessRound(1, x1, y1, v1, t1, idx), |t0|, idx, 4,
                  VerdictOf(Verdict(v.result || (first && y), v.decided || first)))
  {
    hide WireAnd, Bind, Meets, AfterFirst, Paired;
    var x, y, v := x0 != x1, y0 != y1, Joint(v0, v1);
    var first := x != y && !v.decided;
    var verdict := Verdict(v.result || (first && y), v.decided || first);
    AndMeets(x0 != y0, !v0.decided, x1 != y1, v1.decided, t0, t1, idx);
    forall f0: At<bool>, f1: At<bool> | f0.idx == f1.idx == idx + 1 && SharesOf(first)(f0.value, f1.value)
      ensures Meets(AfterFirst(0, v0, y0, t0)(f0), AfterFirst(1, v1, y1, t1)(f1), |t0|, idx + 1, 3, VerdictOf(verdict))
    {
      FirstMeets(f0, f1, y0, y1, v0, v1, t0, t1);
    }
    Then(WireAnd(0, x0 != y0, !v0.decided, t0, idx), WireAnd(1, x1 != y1, v1.decided, t1, idx),
         AfterFirst(0, v0, y0, t0), AfterFirst(1, v1, y1, t1), |t0|, idx, 1, 3, SharesOf(first), VerdictOf(verdict));
  }
}

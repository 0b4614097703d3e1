/** The wire join's expansion: each party gathers its own shares; only the AND chains talk. */
module WireJoin {
  import opened Words
  import opened Shares
  import opened Compare
  import opened Counting
  import opened MpcSort
  import opened JoinModel
  import opened Wire
  import opened WireLogic
  import opened WireGates
  import opened WireSort
  import JoinProof
  import MpcJoin
  import MpcJoinDriver

  datatype WireJoinRow = WireJoinRow(id: Bits, joinedPayload: Bits, isIntersection: bool)

  type Rows = seq<WireJoinRow>

  ghost predicate RowMates(a: WireJoinRow, b: WireJoinRow, d: nat) {
    |a.id| == |b.id| == 64 && |a.joinedPayload| == |b.joinedPayload| == d
  }

  /** The join row the two shares stand for. */
  function JointRow(a: WireJoinRow, b: WireJoinRow): JoinRow
    requires |a.id| == |b.id| && |a.joinedPayload| == |b.joinedPayload|
  {
    JoinRow(ToNat(XorEach(a.id, b.id)), XorEach(a.joinedPayload, b.joinedPayload), a.isIntersection != b.isIntersection)
  }

  ghost predicate AreRows(js: seq<JoinRow>, d: nat, s: Rows, t: Rows) {
    |s| == |t| == |js| && forall i :: 0 <= i < |js| ==> RowMates(s[i], t[i], d) && JointRow(s[i], t[i]) == js[i]
  }

  /** Shares of the rows js, each with d data bits. */
  ghost function RowsOf(js: seq<JoinRow>, d: nat): (Rows, Rows) -> bool {
    (s: Rows, t: Rows) => AreRows(js, d, s, t)
  }

  lemma RowsConcat(s: Rows, t: Rows, js: seq<JoinRow>, s': Rows, t': Rows, js': seq<JoinRow>, d: nat)
    requires AreRows(js, d, s, t) && AreRows(js', d, s', t')
    ensures AreRows(js + js', d, s + s', t + t')
  {
    hide JointRow;
  }

  // ----------------------------------------------------------------------
  // What a party does alone

  /** The composite key's share: the public party index is held by party 0. */
  function MakeCompositeMyShare(idShare: Bits, partyIdxBits: nat, p: nat, me: nat): (c: Bits)
    requires |idShare| == 64 && partyIdxBits <= 64
    ensures |c| == 64
  {
    (if me == 0 then FromNat(p, partyIdxBits) else Repeat(false, partyIdxBits)) + idShare[..64 - partyIdxBits]
  }

  lemma CompositeJoins(id0: Bits, id1: Bits, pb: nat, p: nat)
    requires |id0| == |id1| == 64 && pb <= 64
    ensures ToNat(XorEach(MakeCompositeMyShare(id0, pb, p, 0), MakeCompositeMyShare(id1, pb, p, 1)))
         == CompositeKey(ToNat(XorEach(id0, id1)), pb, p)
  {
    hide ToNat;
    var out := XorEach(MakeCompositeMyShare(id0, pb, p, 0), MakeCompositeMyShare(id1, pb, p, 1));
    assert out[..pb] == FromNat(p, pb);
    MpcJoin.CompositeBits(out, XorEach(id0, id1), pb, p);
  }

  function ExtractIdBits(composite: Bits, partyIdxBits: nat): (id: Bits)
    requires |composite| == 64 && partyIdxBits <= 64
    ensures |id| == 64
  {
    composite[partyIdxBits..] + Repeat(false, partyIdxBits)
  }

  lemma ExtractJoins(c0: Bits, c1: Bits, pb: nat)
    requires |c0| == |c1| == 64 && pb <= 64
    ensures ToNat(XorEach(ExtractIdBits(c0, pb), ExtractIdBits(c1, pb))) == IdPart(ToNat(XorEach(c0, c1)), pb)
  {
    hide ToNat;
    MpcJoin.ShiftedDown(XorEach(ExtractIdBits(c0, pb), ExtractIdBits(c1, pb)), XorEach(c0, c1), pb);
  }

  function Own(s: Vec, i: nat): WireElem {
    if i < |s| then s[i] else WireElem([], [])
  }

  /** The tuples the counter points at, one per party. */
  function Gather(s: Vec, start: nat, M: nat, digits: seq<nat>): (v: Vec)
    ensures |v| == |digits|
  {
    seq(|digits|, p requires 0 <= p < |digits| => Own(s, start + p * M + digits[p]))
  }

  function OwnData(v: Vec): Bits {
    if v == [] then [] else (if v[0].payload == [] then [] else v[0].payload[1..]) + OwnData(v[1..])
  }

  function OwnReals(v: Vec): (b: Bits)
    ensures |b| == |v|
  {
    seq(|v|, p requires 0 <= p < |v| => v[p].payload != [] && v[p].payload[0])
  }

  lemma GatherJoins(s: Vec, t: Vec, js: seq<Tuple>, w: nat, start: nat, N: nat, M: nat, digits: seq<nat>)
    requires VecOf(js, w)(s, t) && start + N * M <= |js| && |digits| == N
    requires forall p :: 0 <= p < N ==> digits[p] < M
    ensures VecOf(Pick(Split(js[start..start + N * M], N, M), digits), w)(Gather(s, start, M, digits), Gather(t, start, M, digits))
  {
    hide JointElem, Split, VecOf, Pick, Gather;
    PickFits(js[start..start + N * M], N, M, digits);
    var picked := Pick(Split(js[start..start + N * M], N, M), digits);
    var a, b := Gather(s, start, M, digits), Gather(t, start, M, digits);
    forall p | 0 <= p < N ensures Mates(a[p], b[p], w) && JointElem(a[p], b[p]) == picked[p] {
      GatherJoinsAt(s, t, js, w, start, N, M, digits, p);
    }
    VecFrom(a, b, picked, w);
  }

  lemma PickFits(win: seq<Tuple>, N: nat, M: nat, digits: seq<nat>)
    requires |win| == N * M && |digits| == N && forall p :: 0 <= p < N ==> digits[p] < M
    ensures |Split(win, N, M)| == N && forall p :: 0 <= p < N ==> digits[p] < |Split(win, N, M)[p]|
  {
  }

  lemma GatherJoinsAt(s: Vec, t: Vec, js: seq<Tuple>, w: nat, start: nat, N: nat, M: nat, digits: seq<nat>, p: nat)
    requires VecOf(js, w)(s, t) && start + N * M <= |js| && |digits| == N
    requires (forall p :: 0 <= p < N ==> digits[p] < M) && p < N
    ensures var a, b := Gather(s, start, M, digits)[p], Gather(t, start, M, digits)[p];
            Mates(a, b, w) && JointElem(a, b) == Pick(Split(js[start..start + N * M], N, M), digits)[p]
  {
    hide JointElem, Split, VecOf;
    var win, k := js[start..start + N * M], p * M + digits[p];
    JoinProof.SplitMembers(win, N, M, p, digits[p]);
    assert win[k] == js[start + k];
    VecAt(s, t, start + k, js, w);
  }

  lemma VecFrom(a: Vec, b: Vec, js: seq<Tuple>, w: nat)
    requires |a| == |b| == |js|
    requires forall p :: 0 <= p < |js| ==> Mates(a[p], b[p], w) && JointElem(a[p], b[p]) == js[p]
    ensures VecOf(js, w)(a, b)
  {
    hide JointElem, Mates;
    assert AllMates(a, b, w);
    assert JointAll(a, b, w) == js;
  }

  lemma DataUnfolds(a: Vec, js: seq<Tuple>)
    ensures OwnData(a) == if a == [] then [] else (if a[0].payload == [] then [] else a[0].payload[1..]) + OwnData(a[1..])
    ensures ConcatData(js)
         == if js == [] then [] else (if js[0].payload == [] then [] else js[0].payload[1..]) + ConcatData(js[1..])
  {
  }

  lemma WidthStep(n: nat, w: nat)
    ensures n > 0 ==> n * w == w + (n - 1) * w
  {
  }

  lemma {:induction false} DataJoins(a: Vec, b: Vec, js: seq<Tuple>, w: nat)
    requires VecOf(js, 1 + w)(a, b)
    ensures |OwnData(a)| == |OwnData(b)| == |a| * w
    ensures XorEach(OwnData(a), OwnData(b)) == ConcatData(js)
    decreases |a|
  {
    hide VecOf, ToNat, OwnData, ConcatData;
    SameSize(a, b, js, 1 + w);
    DataUnfolds(a, js);
    DataUnfolds(b, js);
    if a != [] {
      VecAt(a, b, 0, js, 1 + w);
      TailVec(a, b, js, 1 + w);
      WidthStep(|a|, w);
      DataJoins(a[1..], b[1..], js[1..], w);
      assert XorEach(a[0].payload, b[0].payload)[1..] == XorEach(a[0].payload[1..], b[0].payload[1..]);
      XorConcat(a[0].payload[1..], OwnData(a[1..]), b[0].payload[1..], OwnData(b[1..]));
    }
  }

  lemma TailVec(a: Vec, b: Vec, js: seq<Tuple>, w: nat)
    requires VecOf(js, w)(a, b) && js != []
    ensures |a| == |b| == |js| && VecOf(js[1..], w)(a[1..], b[1..])
  {
    hide JointElem;
    assert JointAll(a[1..], b[1..], w) == js[1..];
  }

  lemma XorConcat(a: Bits, a': Bits, b: Bits, b': Bits)
    requires |a| == |b| && |a'| == |b'|
    ensures XorEach(a + a', b + b') == XorEach(a, b) + XorEach(a', b')
  {
  }

  lemma RealsJoin(a: Vec, b: Vec, js: seq<Tuple>, w: nat)
    requires VecOf(js, 1 + w)(a, b)
    ensures |a| == |b| && (AllTrue(XorEach(OwnReals(a), OwnReals(b))) <==> AllReal(js))
  {
    SameSize(a, b, js, 1 + w);
    var c := XorEach(OwnReals(a), OwnReals(b));
    forall p | 0 <= p < |js| ensures js[p].payload != [] && c[p] == js[p].payload[0] {
      VecAt(a, b, p, js, 1 + w);
    }
  }

  // ----------------------------------------------------------------------
  // The AND chain

  function ChainBody(me: nat, bits: Bits, ts: seq<MyTriple>): (nat, At<bool>) -> Proc<At<bool>> {
    (i: nat, acc: At<bool>) => if i + 1 < |bits| then WireAnd(me, acc.value, bits[i + 1], ts, acc.idx) else Throw
  }

  function WireAndChain(me: nat, bits: Bits, ts: seq<MyTriple>, idx: nat): Proc<At<bool>> {
    if bits == [] then Throw else Loop(ChainBody(me, bits, ts), 0, |bits| - 1, At(bits[0], idx))
  }

  ghost function ChainInv(bits: Bits): (nat, bool, bool) -> bool {
    (i: nat, a: bool, b: bool) => i < |bits| && ((a != b) <==> AllTrue(bits[..i + 1]))
  }

  lemma ChainMeets(b0: Bits, b1: Bits, t0: seq<MyTriple>, t1: seq<MyTriple>, idx: nat)
    requires Paired(t0, t1) && |b0| == |b1| > 0
    ensures Meets(WireAndChain(0, b0, t0, idx), WireAndChain(1, b1, t1, idx), |t0|, idx, RowCost(|b0| - 1, 1),
                  SharesOf(AllTrue(XorEach(b0, b1))))
  {
    hide Meets, Paired, WireAnd, Loop, AllTrue, RowCost;
    var bits, n := XorEach(b0, b1), |b0| - 1;
    OnlyTrue(bits[0]);
    var f, g, inv := ChainBody(0, b0, t0), ChainBody(1, b1, t1), ChainInv(bits);
    forall i: nat, a: At<bool>, b: At<bool> | i < n && a.idx == b.idx && inv(i, a.value, b.value)
      ensures Meets(f(i, a), g(i, b), |t0|, a.idx, 1, When(inv, i + 1))
    {
      ChainStep(bits, i);
      AndMeets(a.value, b0[i + 1], b.value, b1[i + 1], t0, t1, a.idx);
      Weaken(f(i, a), g(i, b), |t0|, a.idx, 1, SharesOf((a.value != b.value) && bits[i + 1]), When(inv, i + 1));
    }
    assert bits[..1] == [bits[0]];
    LoopMeets(f, g, 0, n, At(b0[0], idx), At(b1[0], idx), |t0|, 1, inv);
    assert bits[..n + 1] == bits;
    Weaken(Loop(f, 0, n, At(b0[0], idx)), Loop(g, 0, n, At(b1[0], idx)), |t0|, idx, RowCost(n, 1), When(inv, n),
           SharesOf(AllTrue(bits)));
  }

  lemma OnlyTrue(b: bool)
    ensures AllTrue([b]) <==> b
  {
    assert [b][0] == b;
  }

  lemma ChainStep(bits: Bits, i: nat)
    requires i + 1 < |bits|
    ensures AllTrue(bits[..i + 2]) <==> AllTrue(bits[..i + 1]) && bits[i + 1]
  {
    assert bits[..i + 2] == bits[..i + 1] + [bits[i + 1]];
  }

  // ----------------------------------------------------------------------
  // One row, one window

  datatype Walk = Walk(out: Rows, digits: seq<nat>)

  /** The state after a row: appended, and the counter bumped. */
  function PushRow(x: Walk, id: Bits, data: Bits, M: nat): At<bool> -> Proc<At<Walk>> {
    (acc: At<bool>) =>
      Ret(At(Walk(x.out + [WireJoinRow(id, data, acc.value)], Successor(x.digits, M)), acc.idx))
  }

  function ComboBody(me: nat, s: Vec, start: nat, M: nat, pb: nat, ts: seq<MyTriple>): (nat, At<Walk>) -> Proc<At<Walk>> {
    (c: nat, x: At<Walk>) =>
      var v := Gather(s, start, M, x.value.digits);
      if v == [] || |v[0].key| != 64 || pb > 64 then Throw
      else Bind(WireAndChain(me, OwnReals(v), ts, x.idx),
                PushRow(x.value, ExtractIdBits(v[0].key, pb), OwnData(v), M))
  }

  function TakeRows(): At<Walk> -> Proc<At<Rows>> {
    (x: At<Walk>) => Ret(At(x.value.out, x.idx))
  }

  function WireExpandWindow(me: nat, s: Vec, start: nat, N: nat, M: nat, pb: nat, ts: seq<MyTriple>, out: At<Rows>)
    : Proc<At<Rows>>
  {
    Bind(Loop(ComboBody(me, s, start, M, pb, ts), 0, Power(M, N), At(Walk(out.value, seq(N, _ => 0)), out.idx)), TakeRows())
  }

  /** After c rows: the rows of the first c choices, and the counter at c. */
  ghost function WalkInv(before: seq<JoinRow>, rows: seq<JoinRow>, N: nat, M: nat, d: nat): (nat, Walk, Walk) -> bool {
    (c: nat, x: Walk, y: Walk) =>
      && c <= |rows| && x.digits == y.digits == Digits(c, N, M)
      && AreRows(before + rows[..c], d, x.out, y.out)
  }

  /** One row out of the gathered tuples. */
  lemma RowJoins(v0: Vec, v1: Vec, js: seq<Tuple>, pb: nat, B: nat, i0: bool, i1: bool)
    requires VecOf(js, 1 + B)(v0, v1) && js != [] && pb <= 64
    requires (i0 != i1) <==> AllReal(js)
    ensures v0 != [] && v1 != [] && |v0[0].key| == |v1[0].key| == 64
    ensures var a := WireJoinRow(ExtractIdBits(v0[0].key, pb), OwnData(v0), i0);
            var b := WireJoinRow(ExtractIdBits(v1[0].key, pb), OwnData(v1), i1);
            RowMates(a, b, |js| * B) && JointRow(a, b) == ToRow(pb)(js)
  {
    SameSize(v0, v1, js, 1 + B);
    VecAt(v0, v1, 0, js, 1 + B);
    hide VecOf, ToNat, IdPart, OwnData, ConcatData, XorEach, AllReal, ExtractIdBits;
    DataJoins(v0, v1, js, B);
    ExtractJoins(v0[0].key, v1[0].key, pb);
  }

  /** What the counter's digits pick, as shares and opened. */
  lemma PickedRow(c: nat, s: Vec, t: Vec, js: seq<Tuple>, start: nat, N: nat, M: nat, pb: nat, B: nat)
    returns (picked: seq<Tuple>)
    requires N > 0 && M > 0 && VecOf(js, 1 + B)(s, t) && start + N * M <= |js| && c < Power(M, N)
    ensures VecOf(picked, 1 + B)(Gather(s, start, M, Digits(c, N, M)), Gather(t, start, M, Digits(c, N, M)))
    ensures |picked| == N
    ensures var rows := ExpandWindow(js[start..start + N * M], N, M, pb);
            |rows| == Power(M, N) && rows[c] == ToRow(pb)(picked)
  {
    hide VecOf, ExpandWindow, Split, Choices, Digits, Power, ToRow, Gather;
    var win := js[start..start + N * M];
    MpcJoin.WindowRows(win, N, M, pb);
    ChoiceAt(Split(win, N, M), M, c);
    picked := Pick(Split(win, N, M), Digits(c, N, M));
    GatherJoins(s, t, js, 1 + B, start, N, M, Digits(c, N, M));
  }

  lemma PushOne(c: nat, x: Walk, y: Walk, v0: Vec, v1: Vec, picked: seq<Tuple>, before: seq<JoinRow>, rows: seq<JoinRow>,
                N: nat, M: nat, pb: nat, B: nat, i0: bool, i1: bool)
    requires N > 0 && pb <= 64 && c < |rows| && WalkInv(before, rows, N, M, N * B)(c, x, y)
    requires VecOf(picked, 1 + B)(v0, v1) && |picked| == N && rows[c] == ToRow(pb)(picked)
    requires (i0 != i1) == AllReal(picked)
    ensures |v0| == |v1| == N && |v0[0].key| == |v1[0].key| == 64
    ensures var a := WireJoinRow(ExtractIdBits(v0[0].key, pb), OwnData(v0), i0);
            var b := WireJoinRow(ExtractIdBits(v1[0].key, pb), OwnData(v1), i1);
            WalkInv(before, rows, N, M, N * B)
              (c + 1, Walk(x.out + [a], Successor(x.digits, M)), Walk(y.out + [b], Successor(y.digits, M)))
  {
    hide VecOf, ExtractIdBits, OwnData, AllReal, ToRow, JointRow, RowMates, Successor, AreRows, Digits;
    SameSize(v0, v1, picked, 1 + B);
    RowJoins(v0, v1, picked, pb, B, i0, i1);
    var a := WireJoinRow(ExtractIdBits(v0[0].key, pb), OwnData(v0), i0);
    var b := WireJoinRow(ExtractIdBits(v1[0].key, pb), OwnData(v1), i1);
    OneRow(a, b, rows[c], N * B);
    RowsConcat(x.out, y.out, before + rows[..c], [a], [b], [rows[c]], N * B);
    assert before + rows[..c + 1] == before + rows[..c] + [rows[c]];
    MpcJoin.NextDigits(c, N, M);
  }

  lemma OneRow(a: WireJoinRow, b: WireJoinRow, row: JoinRow, d: nat)
    requires RowMates(a, b, d) && JointRow(a, b) == row
    ensures AreRows([row], d, [a], [b])
  {
  }

  lemma PushKeeps(c: nat, x: Walk, y: Walk, v0: Vec, v1: Vec, picked: seq<Tuple>, before: seq<JoinRow>, rows: seq<JoinRow>,
                  N: nat, M: nat, pb: nat, B: nat, len: nat, idx: nat)
    requires N > 0 && pb <= 64 && c < |rows| && WalkInv(before, rows, N, M, N * B)(c, x, y)
    requires VecOf(picked, 1 + B)(v0, v1) && |picked| == N && rows[c] == ToRow(pb)(picked)
    ensures |v0| == |v1| == N && |v0[0].key| == |v1[0].key| == 64
    ensures Continue(PushRow(x, ExtractIdBits(v0[0].key, pb), OwnData(v0), M),
                     PushRow(y, ExtractIdBits(v1[0].key, pb), OwnData(v1), M), len, idx, 0,
                     SharesOf(AllReal(picked)), When(WalkInv(before, rows, N, M, N * B), c + 1))
  {
    hide VecOf, Meets, ExtractIdBits, OwnData, AllReal, ToRow, Successor, WalkInv;
    PushOne(c, x, y, v0, v1, picked, before, rows, N, M, pb, B, AllReal(picked), false);
    var k0, k1, d0, d1 := ExtractIdBits(v0[0].key, pb), ExtractIdBits(v1[0].key, pb), OwnData(v0), OwnData(v1);
    var f, g := PushRow(x, k0, d0, M), PushRow(y, k1, d1, M);
    var post := When(WalkInv(before, rows, N, M, N * B), c + 1);
    forall p: At<bool>, q: At<bool> | p.idx == q.idx == idx && SharesOf(AllReal(picked))(p.value, q.value)
      ensures Meets(f(p), g(q), len, idx, 0, post)
    {
      PushOne(c, x, y, v0, v1, picked, before, rows, N, M, pb, B, p.value, q.value);
      Returns(At(Walk(x.out + [WireJoinRow(k0, d0, p.value)], Successor(x.digits, M)), p.idx),
              At(Walk(y.out + [WireJoinRow(k1, d1, q.value)], Successor(y.digits, M)), q.idx), len, post);
    }
  }

  lemma ComboKeeps(c: nat, x: At<Walk>, y: At<Walk>, s: Vec, t: Vec, js: seq<Tuple>, before: seq<JoinRow>, rows: seq<JoinRow>,
                   start: nat, N: nat, M: nat, pb: nat, B: nat, t0: seq<MyTriple>, t1: seq<MyTriple>)
    requires Paired(t0, t1) && N > 0 && M > 0 && pb <= 64 && VecOf(js, 1 + B)(s, t) && start + N * M <= |js|
    requires rows == ExpandWindow(js[start..start + N * M], N, M, pb) && c < Power(M, N) && x.idx == y.idx
    requires WalkInv(before, rows, N, M, N * B)(c, x.value, y.value)
    ensures Meets(ComboBody(0, s, start, M, pb, t0)(c, x), ComboBody(1, t, start, M, pb, t1)(c, y), |t0|, x.idx, N - 1,
                  When(WalkInv(before, rows, N, M, N * B), c + 1))
  {
    hide Meets, Paired, VecOf, ExpandWindow, Gather, Power, ToRow, AreRows, Bind, WireAndChain, OwnData, ExtractIdBits,
         Digits, AllReal, AllTrue, OwnReals, PushRow, XorEach, Continue;
    var picked := PickedRow(c, s, t, js, start, N, M, pb, B);
    var ds := Digits(c, N, M);
    var v0, v1 := Gather(s, start, M, ds), Gather(t, start, M, ds);
    RealsJoin(v0, v1, picked, B);
    ChainMeets(OwnReals(v0), OwnReals(v1), t0, t1, x.idx);
    RowCostProduct(N - 1, 1);
    PushKeeps(c, x.value, y.value, v0, v1, picked, before, rows, N, M, pb, B, |t0|, x.idx + (N - 1));
    Then(WireAndChain(0, OwnReals(v0), t0, x.idx), WireAndChain(1, OwnReals(v1), t1, x.idx),
         PushRow(x.value, ExtractIdBits(v0[0].key, pb), OwnData(v0), M),
         PushRow(y.value, ExtractIdBits(v1[0].key, pb), OwnData(v1), M), |t0|, x.idx, N - 1, 0,
         SharesOf(AllReal(picked)), When(WalkInv(before, rows, N, M, N * B), c + 1));
  }

  lemma ExpandWindowMeets(s: Vec, t: Vec, js: seq<Tuple>, x: At<Rows>, y: At<Rows>, before: seq<JoinRow>,
                          start: nat, N: nat, M: nat, pb: nat, B: nat, t0: seq<MyTriple>, t1: seq<MyTriple>)
    requires Paired(t0, t1) && N > 0 && M > 0 && pb <= 64 && VecOf(js, 1 + B)(s, t) && start + N * M <= |js|
    requires x.idx == y.idx && AreRows(before, N * B, x.value, y.value)
    ensures Meets(WireExpandWindow(0, s, start, N, M, pb, t0, x), WireExpandWindow(1, t, start, N, M, pb, t1, y), |t0|, x.idx,
                  RowCost(Power(M, N), N - 1),
                  RowsOf(before + ExpandWindow(js[start..start + N * M], N, M, pb), N * B))
  {
    hide Meets, Paired, VecOf, ExpandWindow, Power, AreRows, Bind, ComboBody, RowCost, Loop, Digits;
    var rows := ExpandWindow(js[start..start + N * M], N, M, pb);
    var inv, n := WalkInv(before, rows, N, M, N * B), Power(M, N);
    MpcJoin.WindowRows(js[start..start + N * M], N, M, pb);
    MpcJoin.WalkStarts(seq(N, _ => 0), N, M);
    var f, g := ComboBody(0, s, start, M, pb, t0), ComboBody(1, t, start, M, pb, t1);
    var a0, b0 := At(Walk(x.value, seq(N, _ => 0)), x.idx), At(Walk(y.value, seq(N, _ => 0)), y.idx);
    forall c: nat, a: At<Walk>, b: At<Walk> | c < n && a.idx == b.idx && inv(c, a.value, b.value)
      ensures Meets(f(c, a), g(c, b), |t0|, a.idx, N - 1, When(inv, c + 1))
    {
      ComboKeeps(c, a, b, s, t, js, before, rows, start, N, M, pb, B, t0, t1);
    }
    assert before + rows[..0] == before;
    LoopMeets(f, g, 0, n, a0, b0, |t0|, N - 1, inv);
    var cost, post := RowCost(n, N - 1), RowsOf(before + rows, N * B);
    assert rows[..n] == rows;
    forall a: At<Walk>, b: At<Walk> | a.idx == b.idx == x.idx + cost && When(inv, n)(a.value, b.value)
      ensures Meets(TakeRows()(a), TakeRows()(b), |t0|, x.idx + cost, 0, post)
    {
      Returns(At(a.value.out, a.idx), At(b.value.out, b.idx), |t0|, post);
    }
    Then(Loop(f, 0, n, a0), Loop(g, 0, n, b0), TakeRows(), TakeRows(), |t0|, x.idx, cost, 0, When(inv, n), post);
  }

  // ----------------------------------------------------------------------
  // All windows

  function WindowBody(me: nat, s: Vec, N: nat, M: nat, pb: nat, ts: seq<MyTriple>): (nat, At<Rows>) -> Proc<At<Rows>> {
    (w: nat, out: At<Rows>) => WireExpandWindow(me, s, w * (N * M), N, M, pb, ts, out)
  }

  /** Checks the shape, then expands window by window. */
  function WireMpcCrossProductExpand(me: nat, s: At<Vec>, N: nat, M: nat, pb: nat, B: nat, ts: seq<MyTriple>): Proc<At<Rows>> {
    if N == 0 || M == 0 then Throw
    else
      assert N * M > 0 by { MulMonotone(M, 1, N); }
      if |s.value| % (N * M) != 0 || !WideEnough(s.value, 1 + B) then Throw
      else Loop(WindowBody(me, s.value, N, M, pb, ts), 0, |s.value| / (N * M), At([], s.idx))
  }

  predicate WideEnough(s: Vec, w: nat) {
    forall i :: 0 <= i < |s| ==> |s[i].payload| == w
  }

  /** After w windows: their rows; the rest of the sorted bag is still to come. */
  ghost function WindowInv(js: seq<Tuple>, N: nat, M: nat, pb: nat, d: nat): (nat, Rows, Rows) -> bool {
    (w: nat, x: Rows, y: Rows) =>
      w * (N * M) <= |js| &&
      exists done: seq<JoinRow> ::
        AreRows(done, d, x, y) && done + Expand(js[w * (N * M)..], N, M, pb) == Expand(js, N, M, pb)
  }

  lemma WindowKeeps(w: nat, a: At<Rows>, b: At<Rows>, s: Vec, t: Vec, js: seq<Tuple>, N: nat, M: nat, pb: nat, B: nat,
                    windows: nat, t0: seq<MyTriple>, t1: seq<MyTriple>)
    requires Paired(t0, t1) && N > 0 && M > 0 && pb <= 64 && VecOf(js, 1 + B)(s, t)
    requires w < windows && |js| == windows * (N * M) && a.idx == b.idx
    requires WindowInv(js, N, M, pb, N * B)(w, a.value, b.value)
    ensures Meets(WindowBody(0, s, N, M, pb, t0)(w, a), WindowBody(1, t, N, M, pb, t1)(w, b), |t0|, a.idx,
                  RowCost(Power(M, N), N - 1), When(WindowInv(js, N, M, pb, N * B), w + 1))
  {
    hide Meets, Paired, VecOf, ExpandWindow, Expand, Power, AreRows, WireExpandWindow, RowCost;
    var start, size := w * (N * M), N * M;
    MpcJoinDriver.WindowFits(w, windows, size);
    MulMonotone(M, 1, N);
    var done :| AreRows(done, N * B, a.value, b.value) && done + Expand(js[start..], N, M, pb) == Expand(js, N, M, pb);
    var more := ExpandWindow(js[start..start + size], N, M, pb);
    ExpandWindowMeets(s, t, js, a, b, done, start, N, M, pb, B, t0, t1);
    MpcJoinDriver.NextWindow(js, start, N, M, pb);
    MpcJoinDriver.Reassociate(done, more, Expand(js[start + size..], N, M, pb));
    Weaken(WindowBody(0, s, N, M, pb, t0)(w, a), WindowBody(1, t, N, M, pb, t1)(w, b), |t0|, a.idx,
           RowCost(Power(M, N), N - 1), RowsOf(done + more, N * B), When(WindowInv(js, N, M, pb, N * B), w + 1));
  }

  lemma ExpandUnfolds(me: nat, s: At<Vec>, N: nat, M: nat, pb: nat, B: nat, ts: seq<MyTriple>, windows: nat)
    requires N > 0 && M > 0 && |s.value| == windows * (N * M) && WideEnough(s.value, 1 + B)
    ensures WireMpcCrossProductExpand(me, s, N, M, pb, B, ts)
         == Loop(WindowBody(me, s.value, N, M, pb, ts), 0, windows, At([], s.idx))
  {
    MpcJoinDriver.BagArithmetic(|s.value|, N, M, windows);
  }

  lemma ExpandMeets(s: At<Vec>, t: At<Vec>, js: seq<Tuple>, N: nat, M: nat, pb: nat, B: nat,
                    t0: seq<MyTriple>, t1: seq<MyTriple>, windows: nat)
    requires Paired(t0, t1) && N > 0 && M > 0 && pb <= 64 && VecOf(js, 1 + B)(s.value, t.value) && s.idx == t.idx
    requires |js| == windows * (N * M)
    ensures Meets(WireMpcCrossProductExpand(0, s, N, M, pb, B, t0), WireMpcCrossProductExpand(1, t, N, M, pb, B, t1), |t0|,
                  s.idx, MpcJoin.ExpandCost(windows, N, M), RowsOf(Expand(js, N, M, pb), N * B))
  {
    hide Meets, Paired, VecOf, Expand, Power, WindowBody, RowCost, Loop, MpcJoin.ExpandCost, AreRows,
         WireMpcCrossProductExpand, WindowInv;
    SameSize(s.value, t.value, js, 1 + B);
    EnoughOf(s.value, t.value, js, 1 + B);
    ExpandUnfolds(0, s, N, M, pb, B, t0, windows);
    ExpandUnfolds(1, t, N, M, pb, B, t1, windows);
    MpcJoinDriver.ExpandCostProduct(windows, N, M);
    var c, d := RowCost(Power(M, N), N - 1), N * B;
    var inv := WindowInv(js, N, M, pb, d);
    var f, g := WindowBody(0, s.value, N, M, pb, t0), WindowBody(1, t.value, N, M, pb, t1);
    forall w: nat, a: At<Rows>, b: At<Rows> | w < windows && a.idx == b.idx && inv(w, a.value, b.value)
      ensures Meets(f(w, a), g(w, b), |t0|, a.idx, c, When(inv, w + 1))
    {
      WindowKeeps(w, a, b, s.value, t.value, js, N, M, pb, B, windows, t0, t1);
    }
    WindowsStart(js, N, M, pb, d);
    LoopMeets(f, g, 0, windows, At([], s.idx), At([], t.idx), |t0|, c, inv);
    forall a, b | When(inv, windows)(a, b) ensures RowsOf(Expand(js, N, M, pb), d)(a, b) {
      WindowsEnd(js, N, M, pb, d, windows, a, b);
    }
    Weaken(Loop(f, 0, windows, At([], s.idx)), Loop(g, 0, windows, At([], t.idx)), |t0|, s.idx, RowCost(windows, c),
           When(inv, windows), RowsOf(Expand(js, N, M, pb), d));
  }

  lemma EnoughOf(s: Vec, t: Vec, js: seq<Tuple>, w: nat)
    requires VecOf(js, w)(s, t)
    ensures WideEnough(s, w) && WideEnough(t, w)
  {
  }

  lemma WindowsStart(js: seq<Tuple>, N: nat, M: nat, pb: nat, d: nat)
    ensures WindowInv(js, N, M, pb, d)(0, [], [])
  {
    var none: seq<JoinRow> := [];
    assert js[0..] == js;
    assert AreRows(none, d, [], []) && none + Expand(js[0 * (N * M)..], N, M, pb) == Expand(js, N, M, pb);
  }

  lemma WindowsEnd(js: seq<Tuple>, N: nat, M: nat, pb: nat, d: nat, windows: nat, x: Rows, y: Rows)
    requires |js| == windows * (N * M) && WindowInv(js, N, M, pb, d)(windows, x, y)
    ensures AreRows(Expand(js, N, M, pb), d, x, y)
  {
    hide AreRows, Expand;
    var rest := js[windows * (N * M)..];
    assert rest == [];
    MpcJoinDriver.ExpandEnds(rest, N, M, pb);
    var done :| AreRows(done, d, x, y) && done + Expand(rest, N, M, pb) == Expand(js, N, M, pb);
    assert done == Expand(js, N, M, pb);
  }
}

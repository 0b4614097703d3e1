/** The wire join put together, and its agreement with the in-memory join. */
module WireJoinDriver {
  import opened Words
  import opened Shares
  import opened PaddedSort
  import opened Counting
  import opened MpcSort
  import opened JoinModel
  import opened Wire
  import opened WireLogic
  import opened WireGates
  import opened WireSort
  import opened WireJoin
  import MpcJoin
  import MpcJoinDriver

  // ----------------------------------------------------------------------
  // The filter

  /** The rank bit NOT isIntersection, then the row. */
  function EncodeShare(me: nat, r: WireJoinRow): WireElem {
    WireElem([WireNot(me, r.isIntersection)] + Repeat(false, 63), r.id + r.joinedPayload + [r.isIntersection])
  }

  function DecodeShare(e: WireElem): WireJoinRow {
    if |e.payload| < 65 then WireJoinRow([], [], false)
    else WireJoinRow(e.payload[..64], e.payload[64..|e.payload| - 1], e.payload[|e.payload| - 1])
  }

  function EncodeAll(me: nat, rows: Rows): (s: Vec)
    ensures |s| == |rows|
  {
    seq(|rows|, i requires 0 <= i < |rows| => EncodeShare(me, rows[i]))
  }

  function DecodeAll(): At<Vec> -> Proc<At<Rows>> {
    (s: At<Vec>) => Ret(At(seq(|s.value|, i requires 0 <= i < |s.value| => DecodeShare(s.value[i])), s.idx))
  }

  function WireMpcFilterIntersection(me: nat, rows: At<Rows>, N: nat, B: nat, ts: seq<MyTriple>): Proc<At<Rows>> {
    if rows.value == [] then Ret(rows)
    else if !AllOfSize(rows.value, N * B) then Throw
    else Bind(WireMpcBitonicSort(me, At(EncodeAll(me, rows.value), rows.idx), ts), DecodeAll())
  }

  predicate AllOfSize(rows: Rows, d: nat) {
    forall i :: 0 <= i < |rows| ==> |rows[i].joinedPayload| == d
  }

  lemma EncodeJoins(a: WireJoinRow, b: WireJoinRow, d: nat)
    requires RowMates(a, b, d)
    ensures Mates(EncodeShare(0, a), EncodeShare(1, b), 64 + d + 1)
    ensures JointElem(EncodeShare(0, a), EncodeShare(1, b)) == Encode()(JointRow(a, b))
  {
    hide ToNat;
    var x, y := EncodeShare(0, a), EncodeShare(1, b);
    var inter := a.isIntersection != b.isIntersection;
    MpcJoinDriver.RankKey(XorEach(x.key, y.key), !inter);
    FromNatOfToNat(XorEach(a.id, b.id));
    XorConcat(a.id, a.joinedPayload, b.id, b.joinedPayload);
    XorConcat(a.id + a.joinedPayload, [a.isIntersection], b.id + b.joinedPayload, [b.isIntersection]);
    assert XorEach([a.isIntersection], [b.isIntersection]) == [inter];
  }

  lemma EncodeAllJoins(s: Rows, t: Rows, js: seq<JoinRow>, d: nat)
    requires AreRows(js, d, s, t)
    ensures VecOf(Map(js, Encode()), 64 + d + 1)(EncodeAll(0, s), EncodeAll(1, t))
  {
    var a, b, w := EncodeAll(0, s), EncodeAll(1, t), 64 + d + 1;
    forall i | 0 <= i < |js| ensures Mates(a[i], b[i], w) && JointElem(a[i], b[i]) == Encode()(js[i]) {
      EncodeJoins(s[i], t[i], d);
    }
    hide JointElem, Mates, Encode, EncodeAll;
    assert AllMates(a, b, w);
    assert JointAll(a, b, w) == Map(js, Encode());
  }

  lemma DecodeJoins(a: WireElem, b: WireElem, d: nat)
    requires Mates(a, b, 64 + d + 1)
    ensures RowMates(DecodeShare(a), DecodeShare(b), d)
    ensures JointRow(DecodeShare(a), DecodeShare(b)) == Decode()(JointElem(a, b))
  {
    hide ToNat;
    var p := XorEach(a.payload, b.payload);
    assert p[..64] == XorEach(a.payload[..64], b.payload[..64]);
    assert p[64..64 + d] == XorEach(a.payload[64..64 + d], b.payload[64..64 + d]);
  }

  lemma DecodeMeets(s: At<Vec>, t: At<Vec>, js: seq<Tuple>, d: nat, len: nat)
    requires VecOf(js, 64 + d + 1)(s.value, t.value) && s.idx == t.idx
    ensures Meets(DecodeAll()(s), DecodeAll()(t), len, s.idx, 0, RowsOf(Map(js, Decode()), d))
  {
    hide Meets, JointElem, JointRow, Mates, Decode, DecodeShare;
    var x := seq(|s.value|, i requires 0 <= i < |s.value| => DecodeShare(s.value[i]));
    var y := seq(|t.value|, i requires 0 <= i < |t.value| => DecodeShare(t.value[i]));
    forall i | 0 <= i < |js| ensures RowMates(x[i], y[i], d) && JointRow(x[i], y[i]) == Decode()(js[i]) {
      VecAt(s.value, t.value, i, js, 64 + d + 1);
      DecodeJoins(s.value[i], t.value[i], d);
    }
    Returns(At(x, s.idx), At(y, t.idx), len, RowsOf(Map(js, Decode()), d));
  }

  lemma FilterMeets(s: At<Rows>, t: At<Rows>, js: seq<JoinRow>, N: nat, B: nat, t0: seq<MyTriple>, t1: seq<MyTriple>)
    requires Paired(t0, t1) && AreRows(js, N * B, s.value, t.value) && s.idx == t.idx
    ensures Meets(WireMpcFilterIntersection(0, s, N, B, t0), WireMpcFilterIntersection(1, t, N, B, t1), |t0|, s.idx,
                  MpcJoinDriver.FilterCost(|js|, N, B), RowsOf(Filter(js, N * B), N * B))
  {
    hide Meets, Paired, AreRows, VecOf, WireMpcBitonicSort, EncodeAll, DecodeAll, SortTripleCost, SortPadded, Encode, Decode,
         Bind, RowsOf, AllOfSize, WireMpcFilterIntersection, Filter, MpcJoinDriver.FilterCost;
    var d := N * B;
    RowsSized(s.value, t.value, js, d);
    if js == [] {
      NoRows(s, t, N, B, t0, t1);
    } else {
      var w := 64 + d + 1;
      var encoded := Map(js, Encode());
      var sorted, cost := SortPadded(false, encoded, Repeat(false, w)), SortTripleCost(|js|, w);
      var post := RowsOf(Filter(js, d), d);
      FilterSorts(0, s, js, N, B, t0);
      FilterSorts(1, t, js, N, B, t1);
      EncodeAllJoins(s.value, t.value, js, d);
      var a, b := At(EncodeAll(0, s.value), s.idx), At(EncodeAll(1, t.value), t.idx);
      BitonicSortMeets(a, b, encoded, w, t0, t1);
      forall x: At<Vec>, y: At<Vec> | x.idx == y.idx == s.idx + cost && VecOf(sorted, w)(x.value, y.value)
        ensures Meets(DecodeAll()(x), DecodeAll()(y), |t0|, s.idx + cost, 0, post)
      {
        DecodeMeets(x, y, sorted, d, |t0|);
      }
      Then(WireMpcBitonicSort(0, a, t0), WireMpcBitonicSort(1, b, t1), DecodeAll(), DecodeAll(), |t0|, s.idx, cost, 0,
           VecOf(sorted, w), post);
    }
  }

  lemma RowsSized(s: Rows, t: Rows, js: seq<JoinRow>, d: nat)
    requires AreRows(js, d, s, t)
    ensures |s| == |t| == |js| && AllOfSize(s, d) && AllOfSize(t, d)
  {
  }

  lemma FilterSorts(me: nat, s: At<Rows>, js: seq<JoinRow>, N: nat, B: nat, ts: seq<MyTriple>)
    requires |s.value| == |js| > 0 && AllOfSize(s.value, N * B)
    ensures WireMpcFilterIntersection(me, s, N, B, ts)
         == Bind(WireMpcBitonicSort(me, At(EncodeAll(me, s.value), s.idx), ts), DecodeAll())
    ensures MpcJoinDriver.FilterCost(|js|, N, B) == SortTripleCost(|js|, 64 + N * B + 1)
    ensures Filter(js, N * B) == Map(SortPadded(false, Map(js, Encode()), Repeat(false, 64 + N * B + 1)), Decode())
  {
    hide SortTripleCost, SortPadded, Bind, WireMpcBitonicSort, EncodeAll, DecodeAll, Encode, Decode;
  }

  lemma NoRows(s: At<Rows>, t: At<Rows>, N: nat, B: nat, t0: seq<MyTriple>, t1: seq<MyTriple>)
    requires s.value == t.value == [] && s.idx == t.idx
    ensures Meets(WireMpcFilterIntersection(0, s, N, B, t0), WireMpcFilterIntersection(1, t, N, B, t1), |t0|, s.idx,
                  MpcJoinDriver.FilterCost(0, N, B), RowsOf(Filter([], N * B), N * B))
  {
    hide Meets;
    assert Filter([], N * B) == [];
    Returns(s, t, |t0|, RowsOf(Filter([], N * B), N * B));
  }

  // ----------------------------------------------------------------------
  // The party's own input

  datatype WireInputRow = WireInputRow(id: Bits, isReal: bool, rowData: Bits)

  type Table = seq<seq<WireInputRow>>

  function ShareOf(w: Shared, me: nat): (b: Bits)
    requires me < 2 && Shaped(w, 2)
    ensures |b| == |w|
  {
    seq(|w|, i requires 0 <= i < |w| => w[i].shares[me])
  }

  lemma SharesJoin(w: Shared)
    requires Shaped(w, 2)
    ensures XorEach(ShareOf(w, 0), ShareOf(w, 1)) == Open(w)
  {
    forall i | 0 <= i < |w| ensures (w[i].shares[0] != w[i].shares[1]) == w[i].Open() {
      OpenTwo(w[i]);
    }
  }

  ghost predicate TwoParties(perParty: seq<seq<MpcJoin.SharedRow>>) {
    MpcJoinDriver.InputsFit(perParty, 2)
  }

  ghost function MyRow(r: MpcJoin.SharedRow, me: nat): (w: WireInputRow)
    requires me < 2 && r.Fits(2)
    ensures |w.id| == 64 && |w.rowData| == |r.rowData|
  {
    WireInputRow(ShareOf(r.id, me), r.isReal.shares[me], ShareOf(r.rowData, me))
  }

  /** What party `me` holds of the shared tables. */
  ghost function MyTable(perParty: seq<seq<MpcJoin.SharedRow>>, me: nat): (t: Table)
    requires me < 2 && TwoParties(perParty)
    ensures |t| == |perParty|
    ensures forall p :: 0 <= p < |t| ==> |t[p]| == |perParty[p]|
    ensures forall p :: 0 <= p < |t| ==> forall i :: 0 <= i < |t[p]| ==> t[p][i] == MyRow(perParty[p][i], me)
  {
    seq(|perParty|, p requires 0 <= p < |perParty| =>
      seq(|perParty[p]|, i requires 0 <= i < |perParty[p]| => MyRow(perParty[p][i], me)))
  }

  // ----------------------------------------------------------------------
  // The driver

  function OwnTuple(me: nat, pb: nat, p: nat): WireInputRow -> WireElem
    requires pb <= 64
  {
    (r: WireInputRow) =>
      WireElem(if |r.id| == 64 then MakeCompositeMyShare(r.id, pb, p, me) else [], [r.isReal] + r.rowData)
  }

  function OwnBag(me: nat, table: Table, pb: nat, n: nat): Vec
    requires pb <= 64 && n <= |table|
  {
    if n == 0 then [] else OwnBag(me, table, pb, n - 1) + Map(table[n - 1], OwnTuple(me, pb, n - 1))
  }

  predicate GoodShape(table: Table, M: nat, B: nat)
    requires table != [] && M > 0
  {
    && |table[0]| % M == 0
    && forall p :: 0 <= p < |table| ==>
         |table[p]| == |table[0]| && forall i :: 0 <= i < |table[p]| ==> |table[p][i].rowData| == B
  }

  function AfterSort(me: nat, N: nat, M: nat, pb: nat, B: nat, ts: seq<MyTriple>): At<Vec> -> Proc<At<Rows>> {
    (s: At<Vec>) => Bind(WireMpcCrossProductExpand(me, s, N, M, pb, B, ts), AfterExpand(me, N, B, ts))
  }

  function AfterExpand(me: nat, N: nat, B: nat, ts: seq<MyTriple>): At<Rows> -> Proc<At<Rows>> {
    (rows: At<Rows>) => WireMpcFilterIntersection(me, rows, N, B, ts)
  }

  function WirePhases(me: nat, N: nat, M: nat, pb: nat, B: nat, bag: Vec, ts: seq<MyTriple>): Proc<At<Rows>> {
    Bind(WireMpcBitonicSort(me, At(bag, 0), ts), AfterSort(me, N, M, pb, B, ts))
  }

  function WireMpcExecutePrivateJoin(me: nat, N: nat, M: nat, pb: nat, B: nat, table: Table, ts: seq<MyTriple>): Proc<At<Rows>>
    requires M > 0 && pb <= 32
  {
    if |table| != N then Throw
    else if table == [] || table[0] == [] then Ret(At([], 0))
    else if !GoodShape(table, M, B) then Throw
    else WirePhases(me, N, M, pb, B, OwnBag(me, table, pb, N), ts)
  }

  // ----------------------------------------------------------------------
  // Both sides together

  lemma TupleJoins(r: MpcJoin.SharedRow, pb: nat, p: nat)
    requires r.Fits(2) && pb <= 64
    ensures var a, b := OwnTuple(0, pb, p)(MyRow(r, 0)), OwnTuple(1, pb, p)(MyRow(r, 1));
            Mates(a, b, 1 + |r.rowData|) && JointElem(a, b) == ToTuple(pb, p)(MpcJoin.OpenInput()(r))
  {
    hide ToNat, CompositeKey, MakeCompositeMyShare, ShareOf;
    CompositeJoins(ShareOf(r.id, 0), ShareOf(r.id, 1), pb, p);
    SharesJoin(r.id);
    SharesJoin(r.rowData);
    OpenTwo(r.isReal);
    XorConcat([r.isReal.shares[0]], ShareOf(r.rowData, 0), [r.isReal.shares[1]], ShareOf(r.rowData, 1));
    assert XorEach([r.isReal.shares[0]], [r.isReal.shares[1]]) == [r.isReal.Open()];
  }

  lemma PartyJoins(rows: seq<MpcJoin.SharedRow>, a: seq<WireInputRow>, b: seq<WireInputRow>, pb: nat, p: nat, B: nat)
    requires pb <= 64 && |a| == |b| == |rows|
    requires forall i :: 0 <= i < |rows| ==> rows[i].Fits(2) && |rows[i].rowData| == B
    requires forall i :: 0 <= i < |rows| ==> a[i] == MyRow(rows[i], 0) && b[i] == MyRow(rows[i], 1)
    ensures VecOf(Map(Map(rows, MpcJoin.OpenInput()), ToTuple(pb, p)), 1 + B)
                 (Map(a, OwnTuple(0, pb, p)), Map(b, OwnTuple(1, pb, p)))
  {
    hide JointElem, ToTuple, OwnTuple, MyRow, MpcJoin.OpenInput;
    var x, y := Map(a, OwnTuple(0, pb, p)), Map(b, OwnTuple(1, pb, p));
    var js := Map(Map(rows, MpcJoin.OpenInput()), ToTuple(pb, p));
    forall i | 0 <= i < |rows| ensures Mates(x[i], y[i], 1 + B) && JointElem(x[i], y[i]) == js[i] {
      TupleJoins(rows[i], pb, p);
    }
    assert AllMates(x, y, 1 + B);
    assert JointAll(x, y, 1 + B) == js;
  }

  lemma VecConcat(s: Vec, t: Vec, js: seq<Tuple>, s': Vec, t': Vec, js': seq<Tuple>, w: nat)
    requires VecOf(js, w)(s, t) && VecOf(js', w)(s', t')
    ensures VecOf(js + js', w)(s + s', t + t')
  {
    hide JointElem;
    assert JointAll(s + s', t + t', w) == js + js';
  }

  lemma {:induction false} BagJoins(perParty: seq<seq<MpcJoin.SharedRow>>, M: nat, pb: nat, B: nat, n: nat)
    requires TwoParties(perParty) && pb <= 64 && n <= |perParty| && perParty != [] && M > 0
    requires MpcJoinDriver.ShapeOk(perParty, M, pb, B)
    ensures VecOf(Bag(MpcJoin.OpenTables(perParty), pb, n), 1 + B)
                 (OwnBag(0, MyTable(perParty, 0), pb, n), OwnBag(1, MyTable(perParty, 1), pb, n))
  {
    var tables, a, b := MpcJoin.OpenTables(perParty), MyTable(perParty, 0), MyTable(perParty, 1);
    if n > 0 {
      hide VecOf, ToTuple, OwnTuple, MyRow, MpcJoin.OpenInput, MyTable;
      BagJoins(perParty, M, pb, B, n - 1);
      PartyJoins(perParty[n - 1], a[n - 1], b[n - 1], pb, n - 1, B);
      VecConcat(OwnBag(0, a, pb, n - 1), OwnBag(1, b, pb, n - 1), Bag(tables, pb, n - 1),
                Map(a[n - 1], OwnTuple(0, pb, n - 1)), Map(b[n - 1], OwnTuple(1, pb, n - 1)),
                Map(tables[n - 1], ToTuple(pb, n - 1)), 1 + B);
    }
  }

  lemma FiltersContinue(js: seq<JoinRow>, N: nat, B: nat, t0: seq<MyTriple>, t1: seq<MyTriple>, idx: nat)
    requires Paired(t0, t1)
    ensures Continue(AfterExpand(0, N, B, t0), AfterExpand(1, N, B, t1), |t0|, idx,
                     MpcJoinDriver.FilterCost(|js|, N, B), RowsOf(js, N * B), RowsOf(Filter(js, N * B), N * B))
  {
    hide Meets, Paired, AreRows, WireMpcFilterIntersection, Filter, MpcJoinDriver.FilterCost;
    forall x: At<Rows>, y: At<Rows> | x.idx == y.idx == idx && RowsOf(js, N * B)(x.value, y.value)
      ensures Meets(AfterExpand(0, N, B, t0)(x), AfterExpand(1, N, B, t1)(y), |t0|, idx,
                    MpcJoinDriver.FilterCost(|js|, N, B), RowsOf(Filter(js, N * B), N * B))
    {
      FilterMeets(x, y, js, N, B, t0, t1);
    }
  }

  lemma SortedContinue(js: seq<Tuple>, N: nat, M: nat, pb: nat, B: nat, windows: nat,
                       t0: seq<MyTriple>, t1: seq<MyTriple>, idx: nat, rows: seq<JoinRow>, d: nat)
    requires Paired(t0, t1) && N > 0 && M > 0 && pb <= 64 && |js| == windows * (N * M)
    requires rows == Expand(js, N, M, pb) && d == N * B
    ensures Continue(AfterSort(0, N, M, pb, B, t0), AfterSort(1, N, M, pb, B, t1), |t0|, idx,
                     MpcJoin.ExpandCost(windows, N, M) + MpcJoinDriver.FilterCost(|rows|, N, B),
                     VecOf(js, 1 + B), RowsOf(Filter(rows, d), d))
  {
    hide Meets, Paired, AreRows, VecOf, Bind, Expand, WireMpcCrossProductExpand, AfterExpand, Filter, RowsOf,
         MpcJoinDriver.FilterCost, MpcJoin.ExpandCost;
    var post := RowsOf(Filter(rows, d), d);
    var c, c' := MpcJoin.ExpandCost(windows, N, M), MpcJoinDriver.FilterCost(|rows|, N, B);
    forall x: At<Vec>, y: At<Vec> | x.idx == y.idx == idx && VecOf(js, 1 + B)(x.value, y.value)
      ensures Meets(AfterSort(0, N, M, pb, B, t0)(x), AfterSort(1, N, M, pb, B, t1)(y), |t0|, idx, c + c', post)
    {
      ExpandMeets(x, y, js, N, M, pb, B, t0, t1, windows);
      FiltersContinue(rows, N, B, t0, t1, idx + c);
      Then(WireMpcCrossProductExpand(0, x, N, M, pb, B, t0), WireMpcCrossProductExpand(1, y, N, M, pb, B, t1),
           AfterExpand(0, N, B, t0), AfterExpand(1, N, B, t1), |t0|, idx, c, c', RowsOf(rows, d), post);
    }
  }

  /** After the bag is built, the parties stay in step and end with shares of the in-memory result. */
  lemma PhasesMeet(s: Vec, t: Vec, js: seq<Tuple>, N: nat, M: nat, pb: nat, B: nat, universe: nat,
                   d: nat, t0: seq<MyTriple>, t1: seq<MyTriple>)
    requires Paired(t0, t1) && N > 0 && M > 0 && pb <= 64 && universe > 0 && d == N * B
    requires VecOf(js, 1 + B)(s, t) && |js| == universe * (N * M)
    ensures Meets(WirePhases(0, N, M, pb, B, s, t0), WirePhases(1, N, M, pb, B, t, t1), |t0|, 0,
                  MpcJoinDriver.JoinCost(N, M, B, universe), RowsOf(Phases(js, N, M, pb, B), d))
  {
    hide Meets, Paired, AreRows, VecOf, Bind, Expand, Filter, RowsOf, WireMpcBitonicSort, AfterSort, SortPadded, Continue,
         MpcJoinDriver.FilterCost, MpcJoin.ExpandCost, SortTripleCost, MpcJoinDriver.JoinCost, Power;
    var sorted := SortPadded(false, js, Repeat(false, 1 + B));
    var rows := Expand(sorted, N, M, pb);
    MpcJoinDriver.BagArithmetic(|js|, N, M, universe);
    MpcJoinDriver.JoinCostParts(N, M, B, universe);
    MpcJoinDriver.ExpandLength(sorted, N, M, pb, universe);
    var c, c' := SortTripleCost(|js|, 1 + B), MpcJoin.ExpandCost(universe, N, M) + MpcJoinDriver.FilterCost(|rows|, N, B);
    BitonicSortMeets(At(s, 0), At(t, 0), js, 1 + B, t0, t1);
    SortedContinue(sorted, N, M, pb, B, universe, t0, t1, c, rows, d);
    Then(WireMpcBitonicSort(0, At(s, 0), t0), WireMpcBitonicSort(1, At(t, 0), t1), AfterSort(0, N, M, pb, B, t0),
         AfterSort(1, N, M, pb, B, t1), |t0|, 0, c, c', VecOf(sorted, 1 + B), RowsOf(Filter(rows, d), d));
  }

  /** Party `me`'s whole program. */
  ghost function Party(me: nat, N: nat, M: nat, pb: nat, B: nat, perParty: seq<seq<MpcJoin.SharedRow>>,
                       triples: seq<BitTriple>): Proc<At<Rows>>
    requires me < 2 && M > 0 && pb <= 32 && TwoParties(perParty)
    requires forall i :: 0 <= i < |triples| ==> triples[i].Honest(2)
  {
    HonestBagIsPaired(triples);
    WireMpcExecutePrivateJoin(me, N, M, pb, B, MyTable(perParty, me), MyShares(triples, me))
  }

  ghost predicate WellShaped(N: nat, M: nat, pb: nat, B: nat, perParty: seq<seq<MpcJoin.SharedRow>>)
    requires M > 0
  {
    |perParty| == N && (N == 0 || perParty[0] == [] || MpcJoinDriver.ShapeOk(perParty, M, pb, B))
  }

  ghost function WireJoinCost(N: nat, M: nat, B: nat, perParty: seq<seq<MpcJoin.SharedRow>>): nat
    requires M > 0
  {
    if perParty == [] || perParty[0] == [] then 0 else MpcJoinDriver.JoinCost(N, M, B, |perParty[0]| / M)
  }

  /** The opened rows of the in-memory join of the same shared tables. */
  ghost function InMemoryResult(N: nat, M: nat, pb: nat, B: nat, perParty: seq<seq<MpcJoin.SharedRow>>): seq<JoinRow>
    requires pb <= 64 && |perParty| == N
  {
    if N == 0 || perParty[0] == [] then [] else Join(N, M, pb, B, MpcJoin.OpenTables(perParty))
  }

  lemma ShapesAgree(perParty: seq<seq<MpcJoin.SharedRow>>, M: nat, pb: nat, B: nat, me: nat)
    requires me < 2 && TwoParties(perParty) && perParty != [] && M > 0 && pb <= 32
    ensures GoodShape(MyTable(perParty, me), M, B) <==> MpcJoinDriver.ShapeOk(perParty, M, pb, B)
  {
    var t: Table := MyTable(perParty, me);
    assert forall p :: 0 <= p < |t| ==> |t[p]| == |perParty[p]|;
    forall p | 0 <= p < |t|
      ensures (forall i :: 0 <= i < |t[p]| ==> |t[p][i].rowData| == B)
         <==> (forall i :: 0 <= i < |perParty[p]| ==> |perParty[p][i].rowData| == B)
    {
      forall i | 0 <= i < |t[p]| ensures |t[p][i].rowData| == |perParty[p][i].rowData| {
        assert t[p][i] == MyRow(perParty[p][i], me);
      }
    }
  }

  /**
   * The two parties' programs agree: on inputs of the right shape they take
   * the declared triples and return shares of the in-memory result; with too
   * few triples, or on any other shape, both throw.
   */
  lemma WireJoinMeets(N: nat, M: nat, pb: nat, B: nat, perParty: seq<seq<MpcJoin.SharedRow>>, triples: seq<BitTriple>)
    requires M > 0 && pb <= 32 && TwoParties(perParty)
    requires forall i :: 0 <= i < |triples| ==> triples[i].Honest(2)
    ensures var p, q := Party(0, N, M, pb, B, perParty, triples), Party(1, N, M, pb, B, perParty, triples);
            if WellShaped(N, M, pb, B, perParty)
            then Meets(p, q, |triples|, 0, WireJoinCost(N, M, B, perParty), RowsOf(InMemoryResult(N, M, pb, B, perParty), N * B))
            else Run(p, q).BothThrow?
  {
    HonestBagIsPaired(triples);
    var t0, t1 := MyShares(triples, 0), MyShares(triples, 1);
    hide Meets, Paired, VecOf, WirePhases, Phases, OwnBag, Bag, GoodShape, MpcJoinDriver.ShapeOk, MyTable, MpcJoin.OpenTables,
         MpcJoinDriver.JoinCost, MyShares;
    if |perParty| == N && N > 0 && perParty[0] != [] {
      ShapesAgree(perParty, M, pb, B, 0);
      ShapesAgree(perParty, M, pb, B, 1);
      if MpcJoinDriver.ShapeOk(perParty, M, pb, B) {
        BagJoins(perParty, M, pb, B, N);
        BagLength(perParty, M, pb, B, N);
        PhasesMeet(OwnBag(0, MyTable(perParty, 0), pb, N), OwnBag(1, MyTable(perParty, 1), pb, N),
                   Bag(MpcJoin.OpenTables(perParty), pb, N), N, M, pb, B, |perParty[0]| / M, N * B, t0, t1);
      }
    } else if |perParty| == N {
      Returns(At([], 0), At([], 0), |triples|, RowsOf([], N * B));
    }
  }

  lemma BagLength(perParty: seq<seq<MpcJoin.SharedRow>>, M: nat, pb: nat, B: nat, N: nat)
    requires |perParty| == N > 0 && M > 0 && pb <= 64 && perParty[0] != [] && MpcJoinDriver.ShapeOk(perParty, M, pb, B)
    ensures |perParty[0]| / M > 0
    ensures |Bag(MpcJoin.OpenTables(perParty), pb, N)| == |perParty[0]| / M * (N * M)
  {
    hide Bag;
    BagSize(MpcJoin.OpenTables(perParty), pb, N, |perParty[0]|);
    MpcJoinDriver.UniverseSize(N, M, |perParty[0]|);
  }

  /**
   * Over FIFO channels, whatever the schedule: a run never gets stuck before
   * both parties have ended, and when they have, either they hold shares of
   * the in-memory join's rows, at equal cursors after the declared number of
   * triples, or both have thrown.
   */
  lemma EveryWireRunJoins(trace: seq<Net<At<Rows>, At<Rows>>>, N: nat, M: nat, pb: nat, B: nat,
                          perParty: seq<seq<MpcJoin.SharedRow>>, triples: seq<BitTriple>)
    requires M > 0 && pb <= 32 && TwoParties(perParty)
    requires forall i :: 0 <= i < |triples| ==> triples[i].Honest(2)
    requires IsRun(trace, Party(0, N, M, pb, B, perParty, triples), Party(1, N, M, pb, B, perParty, triples))
    ensures var p, q := Party(0, N, M, pb, B, perParty, triples), Party(1, N, M, pb, B, perParty, triples);
            var last, cost := trace[|trace| - 1], WireJoinCost(N, M, B, perParty);
            && |trace| - 1 <= 4 * Rounds(p, q)
            && (|trace| - 1 < 4 * Rounds(p, q) ==> CanStep(last))
            && (|trace| - 1 == 4 * Rounds(p, q) ==>
                  && last.to0 == last.to1 == [] && last.zero.Ready? && last.one.Ready?
                  && if WellShaped(N, M, pb, B, perParty) && (cost == 0 || cost <= |triples|)
                     then && last.zero.proc.Ret? && last.one.proc.Ret?
                          && last.zero.proc.value.idx == last.one.proc.value.idx == cost
                          && AreRows(InMemoryResult(N, M, pb, B, perParty), N * B,
                                     last.zero.proc.value.value, last.one.proc.value.value)
                     else last.zero.proc.Throw? && last.one.proc.Throw?)
  {
    hide Party, AreRows, InMemoryResult, WireJoinCost, WellShaped, Run, Rounds, CanStep, Join;
    WireJoinMeets(N, M, pb, B, perParty, triples);
    EveryRunFinishes(trace, Party(0, N, M, pb, B, perParty, triples), Party(1, N, M, pb, B, perParty, triples));
  }
}

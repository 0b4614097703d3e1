/** The plaintext join driver, step by step. */
module PlainJoin {
  import opened Outcomes
  import opened Words
  import opened Network
  import opened PaddedSort
  import opened Counting
  import opened ObliviousSort
  import opened JoinModel
  import opened PlainModel
  import opened PlainTheorem


  // ----------------------------------------------------------------------
  // The universe of ids

  /** Every id of the first n tables is in `us`, and nothing else. */
  ghost predicate Collected(us: seq<nat>, tables: PlainTables, n: nat, i: nat)
    requires n <= |tables|
  {
    && (forall u :: u in us ==> exists p, j :: 0 <= p < |tables| && 0 <= j < |tables[p]| && tables[p][j].id == u)
    && (forall p, j :: 0 <= p < n && 0 <= j < |tables[p]| ==> tables[p][j].id in us)
    && (n < |tables| ==> forall j :: 0 <= j < i && j < |tables[n]| ==> tables[n][j].id in us)
  }

  method Universe(perParty: PlainTables) returns (universe: seq<nat>)
    ensures IsUniverse(universe, perParty)
  {
    universe := [];
    for p := 0 to |perParty|
      invariant Increasing(universe) && Collected(universe, perParty, p, 0)
    {
      for i := 0 to |perParty[p]|
        invariant Increasing(universe) && Collected(universe, perParty, p, i)
      {
        InsertIncreasing(universe, perParty[p][i].id);
        universe := Insert(universe, perParty[p][i].id);
      }
    }
  }

  // ----------------------------------------------------------------------
  // Grouping a party's rows by id

  type ById = map<nat, seq<PlainInput>>

  ghost predicate Grouped(byId: ById, rows: seq<PlainInput>) {
    forall u: nat :: (u in byId <==> RowsFor(rows, u) != []) && (u in byId ==> byId[u] == RowsFor(rows, u))
  }

  lemma GroupNext(byId: ById, rows: seq<PlainInput>, r: PlainInput)
    requires Grouped(byId, rows)
    ensures Grouped(byId[r.id := (if r.id in byId then byId[r.id] else []) + [r]], rows + [r])
  {
    forall u: nat ensures RowsFor(rows + [r], u) == RowsFor(rows, u) + if r.id == u then [r] else [] {
      SelectConcat(rows, [r], HasId(u));
    }
  }

  /** Rejects rows of the wrong width and ids with too many rows. */
  method GroupRows(table: seq<PlainInput>, M: nat, W: nat) returns (r: Result<ById>)
    ensures r.Success? <==> TableOk(table, M, W)
    ensures r.Success? ==> Grouped(r.value, table)
  {
    var byId: ById := map[];
    for i := 0 to |table|
      invariant Grouped(byId, table[..i])
      invariant forall k :: 0 <= k < i ==> |table[k].data| == W
    {
      if |table[i].data| != W {
        return Failure("executePrivateJoinInMemory: a row has the wrong width");
      }
      GroupNext(byId, table[..i], table[i]);
      assert table[..i + 1] == table[..i] + [table[i]];
      var id := table[i].id;
      byId := byId[id := (if id in byId then byId[id] else []) + [table[i]]];
    }
    assert table[..|table|] == table;
    var ids := byId.Keys;
    while ids != {}
      invariant ids <= byId.Keys
      invariant forall u :: u in byId.Keys - ids ==> |byId[u]| <= M
      decreases |ids|
    {
      var u :| u in ids;
      if |byId[u]| > M {
        assert |RowsFor(table, u)| > M;
        return Failure("executePrivateJoinInMemory: too many rows for an id");
      }
      ids := ids - {u};
    }
    forall u: nat ensures |RowsFor(table, u)| <= M {
      if u in byId {
        assert u in byId.Keys - ids;
      }
    }
    r := Success(byId);
  }

  // ----------------------------------------------------------------------
  // Padding

  lemma PadTupleIs(mine: seq<PlainInput>, u: nat, p: nat, r: nat, W: nat)
    ensures PadTuple(mine, u, p, r, W)
         == if r < |mine| then Elem(u, [p + 0x1_0000_0000 * r + 0x1_0000_0000_0000_0000] + mine[r].data)
            else Elem(u, [p + 0x1_0000_0000 * r] + Repeat<Block>(0, W))
  {
    assert U32 * r == 0x1_0000_0000 * r;
    assert PackTupleMeta(p, r, true) == p + 0x1_0000_0000 * r + 0x1_0000_0000_0000_0000;
    assert PackTupleMeta(p, r, false) == p + 0x1_0000_0000 * r;
  }

  lemma PartyTuplesAre(table: seq<PlainInput>, u: nat, p: nat, M: nat, W: nat)
    ensures var mine, tuples := RowsFor(table, u), PartyTuples(table, u, p, M, W);
            forall r :: 0 <= r < M ==>
              tuples[r] == if r < |mine| then Elem(u, [p + 0x1_0000_0000 * r + 0x1_0000_0000_0000_0000] + mine[r].data)
                           else Elem(u, [p + 0x1_0000_0000 * r] + Repeat<Block>(0, W))
  {
    hide PadTuple, RowsFor;
    forall r: nat | r < M ensures PartyTuples(table, u, p, M, W)[r] == PadTuple(RowsFor(table, u), u, p, r, W) {
    }
    forall r: nat | r < M {
      PadTupleIs(RowsFor(table, u), u, p, r, W);
    }
  }

  method PadParty(byId: ById, u: nat, p: nat, M: nat, W: nat, ghost table: seq<PlainInput>) returns (tuples: seq<SortElement>)
    requires Grouped(byId, table)
    ensures tuples == PartyTuples(table, u, p, M, W)
    ensures var mine := RowsFor(table, u);
            forall r :: 0 <= r < M ==>
              tuples[r] == if r < |mine| then Elem(u, [p + 0x1_0000_0000 * r + 0x1_0000_0000_0000_0000] + mine[r].data)
                           else Elem(u, [p + 0x1_0000_0000 * r] + Repeat<Block>(0, W))
  {
    tuples := [];
    var myRows := if u in byId then byId[u] else [];
    assert myRows == RowsFor(table, u);
    for r := 0 to M
      invariant |tuples| == r && forall k :: 0 <= k < r ==> tuples[k] == PadTuple(myRows, u, p, k, W)
    {
      var isReal := r < |myRows|;
      var data: seq<Block> := if isReal then myRows[r].data else Repeat(0, W);
      tuples := tuples + [Elem(u, [PackTupleMeta(p, r, isReal)] + data)];
    }
    hide PadTuple, PackTupleMeta, RowsFor;
    PartyTuplesAre(table, u, p, M, W);
  }

  lemma BagSnoc(tables: PlainTables, us: seq<nat>, u: nat, M: nat, W: nat)
    ensures PaddedBag(tables, us + [u], M, W) == PaddedBag(tables, us, M, W) + IdTuples(tables, u, M, W, |tables|)
  {
    if us == [] {
      assert PaddedBag(tables, [u][1..], M, W) == [];
    } else {
      assert (us + [u])[1..] == us[1..] + [u];
      BagSnoc(tables, us[1..], u, M, W);
    }
  }

  method PadAndAggregate(N: nat, M: nat, W: nat, perParty: PlainTables, ghost us: seq<nat>)
    returns (r: Result<seq<SortElement>>)
    requires |perParty| == N && IsUniverse(us, perParty)
    ensures r.Success? <==> TablesOk(perParty, M, W)
    ensures r.Success? ==> r.value == PaddedBag(perParty, us, M, W)
  {
    hide PaddedBag, IdTuples, PartyTuples, Grouped, TableOk;
    var universe := Universe(perParty);
    UniverseUnique(universe, us, perParty);
    var byId: seq<ById> := [];
    for i := 0 to N
      invariant |byId| == i
      invariant forall k :: 0 <= k < i ==> TableOk(perParty[k], M, W) && Grouped(byId[k], perParty[k])
    {
      var groups :- GroupRows(perParty[i], M, W);
      byId := byId + [groups];
    }
    var bag: seq<SortElement> := [];
    EmptyBag(perParty, M, W);
    for k := 0 to |universe|
      invariant bag == PaddedBag(perParty, universe[..k], M, W)
    {
      ghost var before := bag;
      NoTuples(perParty, universe[k], M, W);
      assert before + [] == before;
      for i := 0 to N
        invariant bag == before + IdTuples(perParty, universe[k], M, W, i)
      {
        var tuples := PadParty(byId[i], universe[k], i, M, W, perParty[i]);
        NextTuples(before, perParty, universe[k], M, W, i);
        bag := bag + tuples;
      }
      BagSnoc(perParty, universe[..k], universe[k], M, W);
      assert universe[..k + 1] == universe[..k] + [universe[k]];
    }
    assert universe[..|universe|] == universe;
    r := Success(bag);
  }

  lemma EmptyBag(tables: PlainTables, M: nat, W: nat)
    ensures PaddedBag(tables, [], M, W) == []
  {
  }

  lemma NoTuples(tables: PlainTables, u: nat, M: nat, W: nat)
    ensures IdTuples(tables, u, M, W, 0) == []
  {
  }

  lemma NextTuples(before: seq<SortElement>, tables: PlainTables, u: nat, M: nat, W: nat, i: nat)
    requires i < |tables|
    ensures before + IdTuples(tables, u, M, W, i + 1)
         == before + IdTuples(tables, u, M, W, i) + PartyTuples(tables[i], u, i, M, W)
  {
  }

  /** A table has one universe. */
  lemma UniverseUnique(us: seq<nat>, vs: seq<nat>, tables: PlainTables)
    requires IsUniverse(us, tables) && IsUniverse(vs, tables)
    ensures us == vs
  {
    forall u ensures u in us <==> u in vs {
      if u in us {
        var p, i :| 0 <= p < |tables| && 0 <= i < |tables[p]| && tables[p][i].id == u;
      }
      if u in vs {
        var p, i :| 0 <= p < |tables| && 0 <= i < |tables[p]| && tables[p][i].id == u;
      }
    }
    SameElements(us, vs);
  }

  // ----------------------------------------------------------------------
  // Expansion

  method WindowStartIndices(sorted: seq<SortElement>) returns (starts: seq<nat>)
    ensures starts == WindowStarts(sorted)
  {
    starts := [];
    if |sorted| == 0 {
      return;
    }
    starts := [0];
    assert sorted[..1][..0] == [];
    for i := 1 to |sorted|
      invariant starts == WindowStarts(sorted[..i])
    {
      StartsStep(sorted, i);
      if sorted[i].key != sorted[i - 1].key {
        starts := starts + [i];
      }
    }
    assert sorted[..|sorted|] == sorted;
  }

  /** Sorts the window's tuples into one list per party. */
  method GroupByParty(win: seq<SortElement>, N: nat) returns (r: Result<seq<seq<SortElement>>>)
    requires forall i :: 0 <= i < |win| ==> win[i].payload != []
    ensures r.Success? <==> forall i :: 0 <= i < |win| ==> MetaParty(Meta(win[i])) < N
    ensures r.Success? ==> r.value == ByParty(win, N)
  {
    var byParty: seq<seq<SortElement>> := seq(N, _ => []);
    for i := 0 to |win|
      invariant byParty == ByParty(win[..i], N)
      invariant forall k :: 0 <= k < i ==> MetaParty(Meta(win[k])) < N
    {
      var p := MetaParty(win[i].payload[0]);
      assert p == MetaParty(Meta(win[i]));
      if p >= N {
        return Failure("crossProductExpand: party_idx out of range");
      }
      GroupStep(win, i, N);
      byParty := byParty[p := byParty[p] + [win[i]]];
    }
    assert win[..|win|] == win;
    r := Success(byParty);
  }

  lemma GroupStep(win: seq<SortElement>, i: nat, N: nat)
    requires i < |win| && MetaParty(Meta(win[i])) < N
    ensures var p, g := MetaParty(Meta(win[i])), ByParty(win[..i], N);
            ByParty(win[..i + 1], N) == g[p := g[p] + [win[i]]]
  {
    hide MetaParty, Meta;
    var p := MetaParty(Meta(win[i]));
    var before, after := ByParty(win[..i], N), ByParty(win[..i + 1], N);
    assert win[..i + 1] == win[..i] + [win[i]];
    forall q | 0 <= q < N ensures after[q] == before[p := before[p] + [win[i]]][q] {
      SelectConcat(win[..i], [win[i]], OfParty(q));
    }
  }

  lemma {:induction false} FlattenSnoc<T>(parts: seq<seq<T>>, last: seq<T>)
    ensures Flatten(parts + [last]) == Flatten(parts) + last
  {
    if parts == [] {
      assert Flatten([last]) == last + Flatten([last][1..]);
    } else {
      assert (parts + [last])[1..] == parts[1..] + [last];
      FlattenSnoc(parts[1..], last);
    }
  }

  lemma RowStep(v: seq<SortElement>, p: nat, W: nat)
    requires p < |v|
    ensures Flatten(Map(v[..p + 1], DataPart(W))) == Flatten(Map(v[..p], DataPart(W))) + DataPart(W)(v[p])
    ensures AllRealTuples(v[..p + 1]) <==> AllRealTuples(v[..p]) && IsReal()(v[p])
  {
    hide DataPart, IsReal, Flatten;
    var done, next := v[..p], v[..p + 1];
    assert next == done + [v[p]];
    FlattenSnoc(Map(done, DataPart(W)), DataPart(W)(v[p]));
    assert Map(next, DataPart(W)) == Map(done, DataPart(W)) + [DataPart(W)(v[p])];
    if AllRealTuples(next) {
      assert IsReal()(next[p]);
      forall q | 0 <= q < p ensures IsReal()(done[q]) {
        assert IsReal()(next[q]);
      }
    }
  }

  /** One combination: concatenate the data, AND the flags. */
  method BuildRow(id: nat, v: seq<SortElement>, W: nat) returns (r: Result<PlainRow>)
    requires forall p :: 0 <= p < |v| ==> v[p].payload != []
    ensures r.Success? <==> LongEnough(v, W)
    ensures r.Success? ==> r.value == ToPlainRow(id, W)(v)
  {
    hide Flatten, AllRealTuples, MetaReal;
    var joined: seq<Block> := [];
    var allReal := true;
    NoRow(W);
    assert v[..0] == [];
    for p := 0 to |v|
      invariant joined == Flatten(Map(v[..p], DataPart(W)))
      invariant allReal <==> AllRealTuples(v[..p])
      invariant forall q :: 0 <= q < p ==> |v[q].payload| >= 1 + W
    {
      if |v[p].payload| < 1 + W {
        return Failure("crossProductExpand: tuple payload too short");
      }
      RowStep(v, p, W);
      assert IsReal()(v[p]) == MetaReal(v[p].payload[0]);
      if !MetaReal(v[p].payload[0]) {
        allReal := false;
      }
      joined := joined + v[p].payload[1..1 + W];
    }
    assert v[..|v|] == v;
    r := Success(PlainRow(id, joined, allReal));
  }

  lemma NoRow(W: nat)
    ensures Flatten(Map([], DataPart(W))) == [] && AllRealTuples([])
  {
  }

  ghost predicate EqualGroups(groups: seq<seq<SortElement>>, M: nat) {
    forall p :: 0 <= p < |groups| ==> |groups[p]| == M
  }

  /** The tuples the counter points at. */
  method PickTuples(byParty: seq<seq<SortElement>>, digits: seq<nat>, M: nat) returns (v: seq<SortElement>)
    requires |digits| == |byParty| && EqualGroups(byParty, M) && forall p :: 0 <= p < |digits| ==> digits[p] < M
    ensures v == Pick(byParty, digits)
  {
    v := [];
    for p := 0 to |byParty|
      invariant |v| == p && forall q :: 0 <= q < p ==> v[q] == byParty[q][digits[q]]
    {
      v := v + [byParty[p][digits[p]]];
    }
  }

  /** Every combination of the counter, in order. */
  method Combine(id: nat, byParty: seq<seq<SortElement>>, N: nat, M: nat, W: nat) returns (r: Result<seq<PlainRow>>)
    requires |byParty| == N > 0 && M > 0 && EqualGroups(byParty, M)
    requires forall p :: 0 <= p < N ==> forall d :: 0 <= d < M ==> byParty[p][d].payload != []
    ensures r.Success? <==> forall c :: 0 <= c < |Choices(byParty)| ==> LongEnough(Choices(byParty)[c], W)
    ensures r.Success? ==> r.value == Map(Choices(byParty), ToPlainRow(id, W))
  {
    hide Choices, Digits, Successor, Power, Pick, LongEnough;
    ghost var cs := Choices(byParty);
    ChoicesSize(byParty, M);
    var out: seq<PlainRow> := [];
    var digits: seq<nat> := seq(N, _ => 0);
    StartAtZero(digits, N, M);
    for combo := 0 to Power(M, N)
      invariant |out| == combo && digits == Digits(combo, N, M)
      invariant forall c :: 0 <= c < combo ==> LongEnough(cs[c], W) && out[c] == ToPlainRow(id, W)(cs[c])
    {
      ChoiceAt(byParty, M, combo);
      var v := PickTuples(byParty, digits, M);
      PickedNonempty(byParty, digits, M);
      var row :- BuildRow(id, v, W);
      out := out + [row];
      digits := Increment(digits, M);
      CounterStep(combo, N, M);
    }
    assert out == Map(cs, ToPlainRow(id, W));
    r := Success(out);
  }

  lemma StartAtZero(digits: seq<nat>, N: nat, M: nat)
    requires |digits| == N && forall p :: 0 <= p < N ==> digits[p] == 0
    ensures digits == Digits(0, N, M)
  {
  }

  lemma CounterStep(c: nat, N: nat, M: nat)
    ensures Digits(c + 1, N, M) == Successor(Digits(c, N, M), M)
  {
  }

  lemma PickedNonempty(byParty: seq<seq<SortElement>>, digits: seq<nat>, M: nat)
    requires |digits| == |byParty| && EqualGroups(byParty, M) && forall p :: 0 <= p < |digits| ==> digits[p] < M
    requires forall p :: 0 <= p < |byParty| ==> forall d :: 0 <= d < M ==> byParty[p][d].payload != []
    ensures forall p :: 0 <= p < |byParty| ==> Pick(byParty, digits)[p].payload != []
  {
  }

  ghost predicate Tagged(s: seq<SortElement>) {
    forall i :: 0 <= i < |s| ==> s[i].payload != []
  }

  method ExpandWindow(win: seq<SortElement>, N: nat, M: nat, W: nat) returns (r: Result<seq<PlainRow>>)
    requires win != [] && N > 0 && M > 0 && Tagged(win)
    ensures r.Success? <==> WindowOk(win, N, M, W)
    ensures r.Success? ==> r.value == PlainWindow(win, N, W)
  {
    hide Choices, Select;
    if |win| != N * M {
      return Failure("crossProductExpand: pad-input contract violated");
    }
    var byParty :- GroupByParty(win, N);
    for p := 0 to N
      invariant forall q :: 0 <= q < p ==> |byParty[q]| == M
    {
      if |byParty[p]| != M {
        return Failure("crossProductExpand: a party has the wrong number of tuples in a window");
      }
    }
    GroupsTagged(win, N, M);
    r := Combine(win[0].key, byParty, N, M, W);
  }

  lemma GroupsTagged(win: seq<SortElement>, N: nat, M: nat)
    requires Tagged(win) && forall p :: 0 <= p < N ==> |ByParty(win, N)[p]| == M
    ensures forall p :: 0 <= p < N ==> forall d :: 0 <= d < M ==> ByParty(win, N)[p][d].payload != []
  {
    forall p, d | 0 <= p < N && 0 <= d < M ensures ByParty(win, N)[p][d].payload != [] {
      SelectCount(win, OfParty(p));
      assert ByParty(win, N)[p][d] in win;
    }
  }

  /** The windows' expansions, or a failure when the pad-input contract is violated. */
  method CrossProductExpand(sorted: seq<SortElement>, N: nat, M: nat, W: nat) returns (r: Result<seq<PlainRow>>)
    requires Tagged(sorted)
    ensures r.Success?
       <==> && N > 0 && M > 0 && Power(M, N) <= 0x100_0000_0000
            && WindowsOk(sorted, N, M, W, |WindowStarts(sorted)|)
    ensures r.Success? ==> r.value == PlainExpand(sorted, N, W, |WindowStarts(sorted)|)
  {
    hide WindowStarts, PlainWindow, WindowOk, Power;
    if N == 0 || M == 0 {
      return Failure("crossProductExpand: N and M must be >= 1");
    }
    if Power(M, N) > MAX_COMBOS {
      return Failure("crossProductExpand: M^N exceeds 2^40");
    }
    var starts := WindowStartIndices(sorted);
    var out: seq<PlainRow> := [];
    for w := 0 to |starts|
      invariant WindowsOk(sorted, N, M, W, w)
      invariant out == PlainExpand(sorted, N, W, w)
    {
      var end := if w + 1 < |starts| then starts[w + 1] else |sorted|;
      var win := sorted[starts[w]..end];
      assert win == WindowAt(sorted, w);
      var rows :- ExpandWindow(win, N, M, W);
      out := out + rows;
    }
    r := Success(out);
  }

  // ----------------------------------------------------------------------
  // Shapes of the intermediate vectors

  /** The sort brings in nothing but its sentinels. */
  lemma SortedMember(xs: seq<SortElement>, pad: seq<Block>, i: nat)
    requires i < |xs|
    ensures SortPadded(true, xs, pad)[i] in xs || SortPadded(true, xs, pad)[i] == Elem(MAX_KEY, pad)
  {
    hide Sort;
    if |xs| > 1 {
      var padded := xs + Pads(|xs|, pad);
      SortPermutes(true, true, padded);
      assert Sort(true, true, padded)[i] in multiset(padded);
    }
  }

  ghost predicate Bag64(s: seq<SortElement>, W: nat) {
    forall i :: 0 <= i < |s| ==> s[i].key < U64 && |s[i].payload| == 1 + W
  }

  lemma SortedBag64(bag: seq<SortElement>, W: nat)
    requires Bag64(bag, W)
    ensures Bag64(SortPadded(true, bag, ZeroPayload(bag)), W)
  {
    hide SortPadded;
    var s := SortPadded(true, bag, ZeroPayload(bag));
    forall i | 0 <= i < |s| ensures s[i].key < U64 && |s[i].payload| == 1 + W {
      SortedMember(bag, ZeroPayload(bag), i);
    }
  }

  lemma PaddedBag64(tables: PlainTables, us: seq<nat>, M: nat, W: nat)
    requires 0 < |tables| < U32 && 0 < M < U32 && TablesOk(tables, M, W) && IsUniverse(us, tables)
    requires Ids64In(tables)
    ensures Bag64(PaddedBag(tables, us, M, W), W) && |PaddedBag(tables, us, M, W)| == |us| * (|tables| * M)
  {
    hide PaddedBag, EachTimes, TablesOk, IsUniverse;
    var bag, m := PaddedBag(tables, us, M, W), |tables| * M;
    MulMonotone(M, 1, |tables|);
    BagWide(tables, us, M, W);
    BagKeys(tables, us, M, W);
    EachTimesSize(us, m);
    EachTimesMembers(us, m);
    UniverseIds(us, tables);
    forall i | 0 <= i < |bag| ensures bag[i].key < U64 {
      assert Map(bag, KeyOf())[i] == bag[i].key;
    }
  }

  lemma {:induction false} EachTimesMembers(us: seq<nat>, m: nat)
    ensures forall i :: 0 <= i < |EachTimes(us, m)| ==> EachTimes(us, m)[i] in us
    decreases |us|
  {
    if us != [] {
      EachTimesMembers(us[1..], m);
    }
  }

  ghost predicate Ids64In(tables: PlainTables) {
    forall p, i :: 0 <= p < |tables| && 0 <= i < |tables[p]| ==> tables[p][i].id < U64
  }

  lemma UniverseIds(us: seq<nat>, tables: PlainTables)
    requires IsUniverse(us, tables) && Ids64In(tables)
    ensures forall u :: u in us ==> u < U64
  {
    forall u | u in us ensures u < U64 {
      var p, j :| 0 <= p < |tables| && 0 <= j < |tables[p]| && tables[p][j].id == u;
    }
  }

  lemma {:induction false} StartsAreMultiples(s: seq<SortElement>, N: nat, M: nat, W: nat, w: nat)
    requires WindowsOk(s, N, M, W, |WindowStarts(s)|) && w < |WindowStarts(s)|
    ensures WindowStarts(s)[w] == w * (N * M)
  {
    if w > 0 {
      hide WindowStarts;
      StartsAreMultiples(s, N, M, W, w - 1);
      assert WindowOk(WindowAt(s, w - 1), N, M, W);
      WindowBounds(w - 1, w, N * M);
    }
  }

  /** Windows that pass the check cut the vector into equal parts. */
  lemma WindowCount(s: seq<SortElement>, N: nat, M: nat, W: nat)
    requires WindowsOk(s, N, M, W, |WindowStarts(s)|)
    ensures |s| == |WindowStarts(s)| * (N * M)
  {
    if s != [] {
      hide WindowStarts;
      var w := |WindowStarts(s)| - 1;
      StartsAreMultiples(s, N, M, W, w);
      assert WindowOk(WindowAt(s, w), N, M, W);
      WindowBounds(w, w + 1, N * M);
    }
  }

  ghost predicate RowShape(rows: seq<PlainRow>, d: nat) {
    forall i :: 0 <= i < |rows| ==> |rows[i].data| == d && rows[i].id < U64
  }

  lemma WindowShape(win: seq<SortElement>, N: nat, M: nat, W: nat)
    requires WindowOk(win, N, M, W) && M > 0 && win != [] && win[0].key < U64
    ensures |PlainWindow(win, N, W)| == Power(M, N) && RowShape(PlainWindow(win, N, W), N * W)
  {
    hide Choices, WindowOk;
    ghost var cs := Choices(ByParty(win, N));
    GroupsEqual(win, N, M, W);
    ChoicesSize(ByParty(win, N), M);
    forall c | 0 <= c < |cs| ensures |ToPlainRow(win[0].key, W)(cs[c]).data| == N * W {
      ChoiceOk(win, N, M, W, c);
      FlattenParts(Map(cs[c], DataPart(W)), [], W);
    }
  }

  lemma GroupsEqual(win: seq<SortElement>, N: nat, M: nat, W: nat)
    requires WindowOk(win, N, M, W)
    ensures Groups(ByParty(win, N), M)
  {
  }

  lemma {:induction false} ExpandShape(s: seq<SortElement>, N: nat, M: nat, W: nat, d: nat, k: nat)
    requires M > 0 && d == N * W && (forall i :: 0 <= i < |s| ==> s[i].key < U64)
    requires k <= |WindowStarts(s)| && WindowsOk(s, N, M, W, k)
    ensures RowShape(PlainExpand(s, N, W, k), d) && |PlainExpand(s, N, W, k)| == k * Power(M, N)
  {
    hide WindowStarts, WindowAt, WindowOk, PlainExpand, PlainWindow, Power;
    PlainExpandUnfolds(s, N, W, k);
    if k == 0 {
      assert 0 * Power(M, N) == 0;
    } else {
      ExpandShape(s, N, M, W, d, k - 1);
      var win := WindowAt(s, k - 1);
      WindowWithin(s, k - 1);
      WindowShape(win, N, M, W);
      SplitSize(k, Power(M, N));
    }
  }

  lemma PlainExpandUnfolds(s: seq<SortElement>, N: nat, W: nat, k: nat)
    requires k <= |WindowStarts(s)|
    ensures PlainExpand(s, N, W, k)
         == if k == 0 then [] else PlainExpand(s, N, W, k - 1) + PlainWindow(WindowAt(s, k - 1), N, W)
  {
  }

  lemma WindowWithin(s: seq<SortElement>, w: nat)
    requires w < |WindowStarts(s)|
    ensures WindowAt(s, w)[0] in s
  {
    hide WindowStarts;
  }

  // ----------------------------------------------------------------------
  // Filter and truncate

  method EncodeRows(rows: seq<PlainRow>, total: nat) returns (r: Result<seq<SortElement>>)
    ensures r.Success? <==> forall i :: 0 <= i < |rows| ==> |rows[i].data| == total
    ensures r.Success? ==> r.value == Map(rows, EncodeRow())
  {
    var encoded: seq<SortElement> := [];
    for i := 0 to |rows|
      invariant |encoded| == i
      invariant forall k :: 0 <= k < i ==> |rows[k].data| == total && encoded[k] == EncodeRow()(rows[k])
    {
      if |rows[i].data| != total {
        return Failure("obliviousFilterIntersection: inconsistent joinedPayload size");
      }
      encoded := encoded + [EncodeRow()(rows[i])];
    }
    r := Success(encoded);
  }

  /** The decoder's size check never fires on what the encoder made. */
  method DecodeRows(sorted: seq<SortElement>, total: nat) returns (rows: seq<PlainRow>)
    requires forall i :: 0 <= i < |sorted| ==> |sorted[i].payload| == 1 + total
    ensures rows == Map(sorted, DecodeRow())
  {
    rows := [];
    for i := 0 to |sorted|
      invariant |rows| == i && forall k :: 0 <= k < i ==> rows[k] == DecodeRow()(sorted[k])
    {
      var e := sorted[i];
      if |e.payload| != 1 + total {
        assert false;
      }
      rows := rows + [PlainRow(e.payload[0] % U64, e.payload[1..], e.payload[0] / U64 % 256 != 0)];
    }
  }

  class RowVector {
    var rows: seq<PlainRow>

    constructor (rows: seq<PlainRow>)
      ensures this.rows == rows
    {
      this.rows := rows;
    }

    /** What the filter checks of its input. */
    ghost predicate Filterable(W: nat)
      reads this
    {
      rows == [] || (W > 0 && |rows[0].data| % W == 0 && forall i :: 0 <= i < |rows| ==> |rows[i].data| == |rows[0].data|)
    }

    method ObliviousFilterIntersection(W: nat) returns (r: Result<()>)
      requires |rows| <= 0x8000_0000_0000_0000
      modifies this
      ensures r.Success? <==> old(Filterable(W))
      ensures rows == if r.Success? then FilterRows(old(rows)) else old(rows)
    {
      if |rows| == 0 {
        assert FilterRows([]) == [];
        return Success(());
      }
      var total := |rows[0].data|;
      if W == 0 || total % W != 0 {
        return Failure("obliviousFilterIntersection: payloadW does not divide joinedPayload.size()");
      }
      hide SortPadded, EncodeRow, DecodeRow;
      var encoded :- EncodeRows(rows, total);
      var vec := new SortVector(encoded);
      vec.ObliviousBitonicSort();
      SortedEncodings(rows, total);
      rows := DecodeRows(vec.xs, total);
      r := Success(());
    }

    method TruncateToK(k: nat)
      modifies this
      ensures rows == if k < |old(rows)| then old(rows)[..k] else old(rows)
    {
      if k < |rows| {
        rows := rows[..k];
      }
    }

    method CountIntersection() returns (k: nat)
      ensures k == Count(rows, IsInter())
    {
      k := 0;
      for i := 0 to |rows|
        invariant k == Count(rows[..i], IsInter())
      {
        assert rows[..i + 1] == rows[..i] + [rows[i]];
        CountConcat(rows[..i], [rows[i]], IsInter());
        if rows[i].inter {
          k := k + 1;
        }
      }
      assert rows[..|rows|] == rows;
    }

    /** Leaves exactly the intersection rows, each as often as before. */
    method FilterAndTruncate(W: nat) returns (r: Result<nat>)
      requires |rows| <= 0x8000_0000_0000_0000 && Ids64(rows)
      modifies this
      ensures r.Success? <==> old(Filterable(W))
      ensures r.Success? ==> r.value == |rows| == Count(old(rows), IsInter())
      ensures r.Success? ==> forall row: PlainRow :: multiset(rows)[row] == if row.inter then multiset(old(rows))[row] else 0
      ensures r.Failure? ==> rows == old(rows)
    {
      var _ :- ObliviousFilterIntersection(W);
      hide FilterRows;
      FilterAndTruncateKeeps(old(rows));
      var k := CountIntersection();
      TruncateToK(k);
      assert k == |old(rows)| ==> FilterRows(old(rows))[..k] == FilterRows(old(rows));
      r := Success(k);
    }
  }

  lemma SortedEncodings(rows: seq<PlainRow>, total: nat)
    requires forall i :: 0 <= i < |rows| ==> |rows[i].data| == total
    ensures var encoded := Map(rows, EncodeRow());
            forall i :: 0 <= i < |rows| ==> |SortPadded(true, encoded, ZeroPayload(encoded))[i].payload| == 1 + total
  {
    hide SortPadded;
    var encoded := Map(rows, EncodeRow());
    forall i | 0 <= i < |rows| ensures |SortPadded(true, encoded, ZeroPayload(encoded))[i].payload| == 1 + total {
      SortedMember(encoded, ZeroPayload(encoded), i);
    }
  }

  // ----------------------------------------------------------------------
  // The driver

  /** The padded bag after the sort. */
  function SortedInput(tables: PlainTables, us: seq<nat>, M: nat, W: nat): seq<SortElement> {
    var bag := PaddedBag(tables, us, M, W);
    SortPadded(true, bag, ZeroPayload(bag))
  }

  /** All rows of the expansion, dummies included. */
  function ExpandedRows(tables: PlainTables, us: seq<nat>, M: nat, W: nat): seq<PlainRow> {
    var s := SortedInput(tables, us, M, W);
    PlainExpand(s, |tables|, W, |WindowStarts(s)|)
  }

  ghost predicate ContractHolds(tables: PlainTables, us: seq<nat>, M: nat, W: nat) {
    var s := SortedInput(tables, us, M, W);
    WindowsOk(s, |tables|, M, W, |WindowStarts(s)|)
  }

  /** The caps the driver and its phases check. */
  ghost predicate WithinCaps(tables: PlainTables, N: nat, M: nat, W: nat) {
    N >= 2 && M >= 1 && W >= 1 && |tables| == N && TablesOk(tables, M, W) && Power(M, N) <= 0x100_0000_0000
  }

  ghost predicate Sizes(tables: PlainTables, us: seq<nat>, N: nat, M: nat) {
    && N < U32 && M < U32 && Ids64In(tables) && IsUniverse(us, tables)
    && |us| * (N * M) <= 0x8000_0000_0000_0000 && |us| * Power(M, N) <= 0x8000_0000_0000_0000
  }

  /** Without a misplaced sentinel, every row of the expansion is there for the relational join. */
  lemma PlainJoinIsRelational(tables: PlainTables, us: seq<nat>, M: nat, W: nat, N: nat)
    requires WithinCaps(tables, N, M, W) && Sizes(tables, us, N, M) && SentinelFree(PaddedBag(tables, us, M, W))
    ensures ContractHolds(tables, us, M, W)
    ensures forall row: PlainRow ::
              (if row.inter then multiset(ExpandedRows(tables, us, M, W))[row] else 0) == PlainMultiplicity(tables, W, row)
  {
    SortedInputOk(tables, us, M, W);
    hide SortedBag, SortedInput, PlainExpand, WindowStarts, WindowsOk, Product, PlainSuppliers;
    var s := SortedInput(tables, us, M, W);
    PaddedWindowsOk(s, tables, us, M, W);
    forall row: PlainRow
      ensures (if row.inter then multiset(ExpandedRows(tables, us, M, W))[row] else 0) == PlainMultiplicity(tables, W, row)
    {
      if row.inter {
        ExpandIsRelational(s, tables, us, M, W, row);
      }
    }
  }

  lemma SortedInputOk(tables: PlainTables, us: seq<nat>, M: nat, W: nat)
    requires 0 < |tables| < U32 && 0 < M < U32 && TablesOk(tables, M, W) && IsUniverse(us, tables) && Ids64In(tables)
    requires SentinelFree(PaddedBag(tables, us, M, W))
    ensures SortedBag(SortedInput(tables, us, M, W), tables, us, M, W)
  {
    hide SortPadded, PaddedBag, Sort, TablesOk, IsUniverse, Ids64In;
    var bag := PaddedBag(tables, us, M, W);
    PaddedBag64(tables, us, M, W);
    SortPaddedSorts(true, bag, ZeroPayload(bag));
    SortPaddedPermutes(true, bag, ZeroPayload(bag));
  }

  /** What the sort and the expander need. */
  lemma SortedShape(tables: PlainTables, us: seq<nat>, M: nat, W: nat, N: nat)
    requires |tables| == N >= 1 && M >= 1 && TablesOk(tables, M, W) && Sizes(tables, us, N, M)
    ensures |PaddedBag(tables, us, M, W)| == |us| * (N * M) <= 0x8000_0000_0000_0000
    ensures Bag64(SortedInput(tables, us, M, W), W)
  {
    hide PaddedBag, SortPadded, TablesOk, Power, IsUniverse, Ids64In, Bag64;
    PaddedBag64(tables, us, M, W);
    SortedBag64(PaddedBag(tables, us, M, W), W);
  }

  lemma Bag64Tagged(s: seq<SortElement>, W: nat)
    requires Bag64(s, W)
    ensures Tagged(s)
  {
  }

  /** The size and the shape of the expansion. */
  lemma ExpandedShape(tables: PlainTables, us: seq<nat>, M: nat, W: nat, N: nat, d: nat)
    requires WithinCaps(tables, N, M, W) && Sizes(tables, us, N, M) && ContractHolds(tables, us, M, W) && d == N * W
    ensures |ExpandedRows(tables, us, M, W)| <= 0x8000_0000_0000_0000
    ensures RowShape(ExpandedRows(tables, us, M, W), d)
  {
    hide PaddedBag, SortPadded, PlainExpand, WindowStarts, TablesOk, WindowsOk, Power, IsUniverse, Ids64In, SortedInput, RowShape;
    var s := SortedInput(tables, us, M, W);
    SortedShape(tables, us, M, W, N);
    SortedLength(tables, us, M, W);
    WindowCount(s, N, M, W);
    MulMonotone(M, 1, N);
    SameFactor(|WindowStarts(s)|, |us|, N * M);
    ExpandShape(s, N, M, W, d, |WindowStarts(s)|);
  }

  lemma SortedLength(tables: PlainTables, us: seq<nat>, M: nat, W: nat)
    ensures |SortedInput(tables, us, M, W)| == |PaddedBag(tables, us, M, W)|
  {
  }

  lemma SameFactor(a: nat, b: nat, m: nat)
    requires m > 0 && a * m == b * m
    ensures a == b
  {
  }

  lemma Fillable(v: RowVector, N: nat, W: nat)
    requires W > 0 && RowShape(v.rows, N * W)
    ensures v.Filterable(W) && Ids64(v.rows)
  {
    DivModUnique(N * W, W, N, 0);
  }

  /**
   * Pad, sort, expand, filter, truncate. It returns the intersection rows of
   * the expansion; when no sentinel can be mistaken for a tuple it succeeds
   * exactly on input within the caps, and its result is the parties'
   * relational join.
   */
  method ExecutePrivateJoinInMemory(N: nat, M: nat, W: nat, perParty: PlainTables, ghost us: seq<nat>)
    returns (r: Result<seq<PlainRow>>)
    requires Sizes(perParty, us, N, M)
    ensures r.Success? <==> WithinCaps(perParty, N, M, W) && ContractHolds(perParty, us, M, W)
    ensures r.Success? ==> forall row: PlainRow ::
              multiset(r.value)[row] == if row.inter then multiset(ExpandedRows(perParty, us, M, W))[row] else 0
    ensures SentinelFree(PaddedBag(perParty, us, M, W)) ==>
              && (r.Success? <==> WithinCaps(perParty, N, M, W))
              && (r.Success? ==> forall row: PlainRow :: multiset(r.value)[row] == PlainMultiplicity(perParty, W, row))
  {
    hide Sizes, TablesOk, Power, SortPadded, PaddedBag, PlainExpand, WindowStarts, WindowsOk, SentinelFree, PlainMultiplicity,
         RowShape, Tagged, Bag64;
    if N < 2 {
      return Failure("executePrivateJoinInMemory: N must be >= 2");
    }
    if M < 1 {
      return Failure("executePrivateJoinInMemory: M must be >= 1");
    }
    if W < 1 {
      return Failure("executePrivateJoinInMemory: payloadW must be >= 1");
    }
    if |perParty| != N {
      return Failure("executePrivateJoinInMemory: perParty.size() != N");
    }
    SizesUniverse(perParty, us, N, M);
    var bag :- PadAndAggregate(N, M, W, perParty, us);
    var vec := new SortVector(bag);
    SortedShape(perParty, us, M, W, N);
    Bag64Tagged(SortedInput(perParty, us, M, W), W);
    if WithinCaps(perParty, N, M, W) {
      if ContractHolds(perParty, us, M, W) {
        ExpandedShape(perParty, us, M, W, N, N * W);
      }
      if SentinelFree(PaddedBag(perParty, us, M, W)) {
        PlainJoinIsRelational(perParty, us, M, W, N);
      }
    }
    vec.ObliviousBitonicSort();
    var expanded :- CrossProductExpand(vec.xs, N, M, W);
    var rows := new RowVector(expanded);
    Fillable(rows, N, W);
    // The filter's shape checks never fire on an expansion.
    var kept := rows.FilterAndTruncate(W);
    assert kept.Success?;
    r := Success(rows.rows);
  }

  lemma SizesUniverse(tables: PlainTables, us: seq<nat>, N: nat, M: nat)
    requires Sizes(tables, us, N, M)
    ensures IsUniverse(us, tables)
  {
  }
}

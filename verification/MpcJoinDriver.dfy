/** The phases of the in-memory SP-blind join put together. */
module MpcJoinDriver {
  import opened Outcomes
  import opened Words
  import opened Shares
  import opened PaddedSort
  import opened Counting
  import opened MpcSort
  import opened JoinModel
  import opened JoinTheorem
  import opened MpcJoin
  import JoinProof

  ghost predicate CanPay(bag: TripleBag, start: nat, cost: nat) {
    cost == 0 || start + cost <= |bag.triples|
  }

  // ----------------------------------------------------------------------
  // Expansion over all windows

  lemma ExpandCostProduct(windows: nat, N: nat, M: nat)
    requires N > 0
    ensures RowCost(windows, RowCost(Power(M, N), N - 1)) == ExpandCost(windows, N, M)
  {
    hide Power, RowCost;
    RowCostProduct(Power(M, N), N - 1);
    RowCostProduct(windows, RowCost(Power(M, N), N - 1));
    Associate(windows, Power(M, N), N - 1);
  }

  lemma Associate(a: nat, b: nat, c: nat)
    ensures a * (b * c) == a * b * c
  {
  }

  lemma NextWindow(s: seq<Tuple>, start: nat, N: nat, M: nat, pb: nat)
    requires N * M > 0 && start + N * M <= |s|
    ensures Expand(s[start..], N, M, pb)
         == ExpandWindow(s[start..start + N * M], N, M, pb) + Expand(s[start + N * M..], N, M, pb)
  {
    assert s[start..][..N * M] == s[start..start + N * M];
    assert s[start..][N * M..] == s[start + N * M..];
  }

  lemma OpenSlice(s: seq<SharedElem>, a: nat, b: nat)
    requires a <= b <= |s|
    ensures OpenAll(s[a..b]) == OpenAll(s)[a..b]
  {
  }

  method ExpandAllWindows(sortedBag: seq<SharedElem>, N: nat, M: nat, partyIdxBits: nat, bag: TripleBag,
                          windowCount: nat, ghost n: nat, ghost B: nat)
    returns (r: Result<seq<MpcJoinRow>>)
    requires N > 0 && M > 0 && |sortedBag| == windowCount * (N * M) && AllFit(sortedBag, n, 1 + B)
    requires partyIdxBits <= 64 && bag.Honest(n)
    modifies bag
    ensures r.Success? <==> CanPay(bag, old(bag.index), ExpandCost(windowCount, N, M))
    ensures r.Success? ==> bag.index == old(bag.index) + ExpandCost(windowCount, N, M)
    ensures r.Success? ==> forall i :: 0 <= i < |r.value| ==> r.value[i].Fits(n)
    ensures r.Success? ==> Map(r.value, OpenRow()) == Expand(OpenAll(sortedBag), N, M, partyIdxBits)
  {
    hide Expand, ExpandWindow, ExpandCost, OpenAll, OpenRow, Power, RowCost, Map, AllFit;
    ghost var s, perWindow := OpenAll(sortedBag), RowCost(Power(M, N), N - 1);
    var out: seq<MpcJoinRow> := [];
    var start := 0;
    ExpandStarts(s, N, M, partyIdxBits, perWindow);
    for w := 0 to windowCount
      invariant start == w * (N * M) <= |sortedBag|
      invariant bag.index == old(bag.index) + RowCost(w, perWindow)
      invariant w > 0 && perWindow > 0 ==> bag.index <= |bag.triples|
      invariant forall i :: 0 <= i < |out| ==> out[i].Fits(n)
      invariant Map(out, OpenRow()) + Expand(s[start..], N, M, partyIdxBits) == Expand(s, N, M, partyIdxBits)
    {
      WindowFits(w, windowCount, N * M);
      RowCostGrows(w + 1, windowCount, perWindow);
      RowCostStep(w, perWindow);
      ExpandCostProduct(windowCount, N, M);
      PayWindow(windowCount, N, M);
      var rows :- MpcExpandWindow(sortedBag, start, N, M, partyIdxBits, bag, n, B);
      OpenSlice(sortedBag, start, start + N * M);
      NextWindow(s, start, N, M, partyIdxBits);
      MapConcat(out, rows, OpenRow());
      Reassociate(Map(out, OpenRow()), Map(rows, OpenRow()), Expand(s[start + N * M..], N, M, partyIdxBits));
      out := out + rows;
      start := start + N * M;
    }
    ExpandCostProduct(windowCount, N, M);
    PayWindow(windowCount, N, M);
    ExpandEnds(s[start..], N, M, partyIdxBits);
    r := Success(out);
  }

  lemma ExpandStarts(s: seq<Tuple>, N: nat, M: nat, pb: nat, c: nat)
    ensures var none: seq<MpcJoinRow> := [];
            Map(none, OpenRow()) + Expand(s[0..], N, M, pb) == Expand(s, N, M, pb)
    ensures RowCost(0, c) == 0
  {
    assert s[0..] == s;
  }

  lemma ExpandEnds(s: seq<Tuple>, N: nat, M: nat, pb: nat)
    requires s == []
    ensures Expand(s, N, M, pb) == []
  {
  }

  lemma WindowFits(w: nat, windows: nat, size: nat)
    requires w < windows
    ensures w * size + size == (w + 1) * size <= windows * size
  {
    MulMonotone(size, w + 1, windows);
  }

  lemma PayWindow(windows: nat, N: nat, M: nat)
    requires N > 0 && M > 0
    ensures RowCost(Power(M, N), N - 1) > 0 <==> N > 1
    ensures windows > 0 && N > 1 ==> ExpandCost(windows, N, M) >= RowCost(Power(M, N), N - 1) > 0
    ensures N == 1 || windows == 0 ==> ExpandCost(windows, N, M) == 0
  {
    RowCostProduct(Power(M, N), N - 1);
    PowerPositive(M, N);
    ExpandCostProduct(windows, N, M);
    hide Power, ExpandCost;
    if N > 1 {
      MulMonotone(Power(M, N), 1, N - 1);
      if windows > 0 {
        RowCostGrows(1, windows, RowCost(Power(M, N), N - 1));
        RowCostStep(0, RowCost(Power(M, N), N - 1));
      }
    }
  }

  lemma Reassociate<T>(a: seq<T>, b: seq<T>, c: seq<T>)
    ensures a + (b + c) == (a + b) + c
  {
  }

  ghost predicate Expandable(sortedBag: seq<SharedElem>, N: nat, M: nat, B: nat) {
    && N > 0 && M > 0 && |sortedBag| % (N * M) == 0 && Power(M, N) <= 0x100_0000_0000
    && forall i :: 0 <= i < |sortedBag| ==> |sortedBag[i].payload| == 1 + B
  }

  ghost predicate ElemsFit(s: seq<SharedElem>, n: nat) {
    forall i :: 0 <= i < |s| ==> s[i].Fits(n, |s[i].payload|)
  }

  /** Checks the shape, then expands window by window. */
  method MpcCrossProductExpand(sortedBag: seq<SharedElem>, N: nat, M: nat, partyIdxBits: nat, rowDataBits: nat,
                               bag: TripleBag, ghost n: nat)
    returns (r: Result<seq<MpcJoinRow>>)
    requires ElemsFit(sortedBag, n) && partyIdxBits <= 64 && bag.Honest(n)
    modifies bag
    ensures r.Success? ==> Expandable(sortedBag, N, M, rowDataBits)
    ensures Expandable(sortedBag, N, M, rowDataBits) ==>
              (r.Success? <==> CanPay(bag, old(bag.index), ExpandCost(|sortedBag| / (N * M), N, M)))
    ensures r.Success? ==> bag.index == old(bag.index) + ExpandCost(|sortedBag| / (N * M), N, M)
    ensures r.Success? ==> forall i :: 0 <= i < |r.value| ==> r.value[i].Fits(n)
    ensures r.Success? ==> Map(r.value, OpenRow()) == Expand(OpenAll(sortedBag), N, M, partyIdxBits)
  {
    hide Expand, ExpandCost, OpenAll, OpenRow, Power, Map;
    if N == 0 || M == 0 {
      return Failure("mpcCrossProductExpand: N and M must be >= 1");
    }
    MulMonotone(M, 1, N);
    if |sortedBag| % (N * M) != 0 {
      return Failure("mpcCrossProductExpand: bag size not a multiple of N*M");
    }
    if Power(M, N) > MAX_COMBOS {
      return Failure("mpcCrossProductExpand: M^N exceeds 2^40");
    }
    var windowCount := |sortedBag| / (N * M);
    for i := 0 to |sortedBag|
      invariant forall k :: 0 <= k < i ==> |sortedBag[k].payload| == 1 + rowDataBits
    {
      if |sortedBag[i].payload| != 1 + rowDataBits {
        return Failure("mpcCrossProductExpand: tuple has wrong payload size");
      }
    }
    ExactDivision(|sortedBag|, N * M);
    r := ExpandAllWindows(sortedBag, N, M, partyIdxBits, bag, windowCount, n, rowDataBits);
  }

  lemma ExactDivision(a: nat, b: nat)
    requires b > 0 && a % b == 0
    ensures a == (a / b) * b
  {
  }

  // ----------------------------------------------------------------------
  // The filter

  function FilterCost(numRows: nat, N: nat, rowDataBits: nat): nat {
    SortTripleCost(numRows, 64 + N * rowDataBits + 1)
  }

  method EncodeRow(row: MpcJoinRow, ghost n: nat) returns (e: SharedElem)
    requires row.Fits(n)
    ensures e.Fits(n, 64 + |row.joinedPayload| + 1)
    ensures OpenElem(e) == Encode()(OpenRow()(row))
  {
    var N := row.id[0].N();
    var key := Zeros(64, N)[0 := NotShared(row.isIntersection)];
    var payload := row.id + row.joinedPayload + [row.isIntersection];
    RankKey(Open(key), !row.isIntersection.Open());
    FromNatOfToNat(Open(row.id));
    assert Open(payload) == Open(row.id) + Open(row.joinedPayload) + [row.isIntersection.Open()];
    e := SharedElem(key, payload);
  }

  lemma RankKey(key: Bits, b: bool)
    requires |key| == 64 && key[0] == b && forall i :: 1 <= i < 64 ==> !key[i]
    ensures ToNat(key) == Bit(b)
  {
    assert key[1..] == Repeat(false, 63);
    ToNatZeros(63);
  }

  method DecodeRow(e: SharedElem, width: nat, ghost n: nat) returns (row: MpcJoinRow)
    requires e.Fits(n, 64 + width + 1)
    ensures row.Fits(n) && OpenRow()(row) == Decode()(OpenElem(e))
  {
    row := MpcJoinRow(e.payload[..64], e.payload[64..64 + width], e.payload[64 + width]);
    assert Open(e.payload)[..64] == Open(e.payload[..64]);
    assert Open(e.payload)[64..64 + width] == Open(e.payload[64..64 + width]);
  }

  ghost predicate RowsFit(rows: seq<MpcJoinRow>, n: nat) {
    forall i :: 0 <= i < |rows| ==> rows[i].Fits(n)
  }

  /** Encode, sort by NOT isIntersection, decode. */
  method MpcFilterIntersection(rows: seq<MpcJoinRow>, N: nat, rowDataBits: nat, bag: TripleBag, ghost n: nat)
    returns (r: Result<seq<MpcJoinRow>>)
    requires RowsFit(rows, n) && bag.Honest(n) && |rows| <= 0x8000_0000_0000_0000
    modifies bag
    ensures r.Success? ==> forall i :: 0 <= i < |rows| ==> |rows[i].joinedPayload| == N * rowDataBits
    ensures (forall i :: 0 <= i < |rows| ==> |rows[i].joinedPayload| == N * rowDataBits) ==>
              (r.Success? <==> |rows| <= 1 || old(bag.index) + FilterCost(|rows|, N, rowDataBits) <= |bag.triples|)
    ensures r.Success? ==> bag.index == old(bag.index) + FilterCost(|rows|, N, rowDataBits)
    ensures r.Success? ==> RowsFit(r.value, n)
    ensures r.Success? ==> Map(r.value, OpenRow()) == Filter(Map(rows, OpenRow()), N * rowDataBits)
  {
    ghost var width := N * rowDataBits;
    ghost var w := 64 + width + 1;
    var encoded: seq<SharedElem> := [];
    hide Encode, Decode, OpenRow, OpenElem, SortTripleCost;
    for i := 0 to |rows|
      invariant |encoded| == i && AllFit(encoded, n, w) && bag.index == old(bag.index)
      invariant forall k :: 0 <= k < i ==> |rows[k].joinedPayload| == width
      invariant forall k :: 0 <= k < i ==> OpenElem(encoded[k]) == Encode()(OpenRow()(rows[k]))
    {
      if |rows[i].joinedPayload| != N * rowDataBits {
        return Failure("mpcFilterIntersection: joinedPayload size mismatch");
      }
      var e := EncodeRow(rows[i], n);
      encoded := encoded + [e];
    }
    var vec := new SharedVector(encoded);
    EncodedAll(encoded, rows);
    var _ :- vec.MpcBitonicSort(bag, n, w);
    SortedEmpty(|rows|, w);
    var elems := vec.xs;
    ghost var sorted, spent := OpenAll(elems), bag.index;
    var out: seq<MpcJoinRow> := [];
    for i := 0 to |elems|
      invariant |out| == i && RowsFit(out, n) && bag.index == spent
      invariant forall k :: 0 <= k < i ==> OpenRow()(out[k]) == Decode()(sorted[k])
    {
      var row := DecodeRow(elems[i], N * rowDataBits, n);
      out := out + [row];
    }
    OpenedRows(out, Map(sorted, Decode()));
    r := Success(out);
  }

  lemma EncodedAll(encoded: seq<SharedElem>, rows: seq<MpcJoinRow>)
    requires |encoded| == |rows|
    requires forall k :: 0 <= k < |rows| ==> OpenElem(encoded[k]) == Encode()(OpenRow()(rows[k]))
    ensures OpenAll(encoded) == Map(Map(rows, OpenRow()), Encode())
  {
  }

  lemma SortedEmpty(len: nat, w: nat)
    ensures len <= 1 ==> SortTripleCost(len, w) == 0
  {
  }

  // ----------------------------------------------------------------------
  // The driver

  ghost predicate InputsFit(perParty: seq<seq<SharedRow>>, n: nat) {
    forall p :: 0 <= p < |perParty| ==> forall i :: 0 <= i < |perParty[p]| ==> perParty[p][i].Fits(n)
  }

  /** The shape checks the driver makes before it spends a triple. */
  ghost predicate ShapeOk(perParty: seq<seq<SharedRow>>, M: nat, partyIdxBits: nat, rowDataBits: nat)
    requires perParty != [] && M > 0
  {
    && |perParty[0]| % M == 0 && partyIdxBits <= 32
    && forall p :: 0 <= p < |perParty| ==>
         |perParty[p]| == |perParty[0]| && forall i :: 0 <= i < |perParty[p]| ==> |perParty[p][i].rowData| == rowDataBits
  }

  method PartyTuples(rows: seq<SharedRow>, p: nat, partyIdxBits: nat, rowDataBits: nat, ghost n: nat)
    returns (r: Result<seq<SharedElem>>)
    requires forall i :: 0 <= i < |rows| ==> rows[i].Fits(n)
    requires rows != []
    ensures r.Success?
       <==> partyIdxBits <= 32 && forall i :: 0 <= i < |rows| ==> |rows[i].rowData| == rowDataBits
    ensures r.Success? ==> |r.value| == |rows| && AllFit(r.value, n, 1 + rowDataBits)
    ensures r.Success? ==> OpenAll(r.value) == Map(Map(rows, OpenInput()), ToTuple(partyIdxBits, p))
  {
    hide ToTuple, OpenInput, OpenElem, CompositeKey;
    var out: seq<SharedElem> := [];
    for i := 0 to |rows|
      invariant |out| == i && AllFit(out, n, 1 + rowDataBits)
      invariant i > 0 ==> partyIdxBits <= 32
      invariant forall k :: 0 <= k < i ==> |rows[k].rowData| == rowDataBits
      invariant forall k :: 0 <= k < i ==> OpenElem(out[k]) == ToTuple(partyIdxBits, p)(OpenInput()(rows[k]))
    {
      if |rows[i].rowData| != rowDataBits {
        return Failure("mpcExecutePrivateJoinInMemory: rowData size mismatch");
      }
      var key :- MakeCompositeKey(rows[i].id, partyIdxBits, p, n);
      TupleOpens(rows[i], key, partyIdxBits, p, n);
      out := out + [SharedElem(key, [rows[i].isReal] + rows[i].rowData)];
    }
    r := Success(out);
  }

  lemma TupleOpens(row: SharedRow, key: Shared, pb: nat, p: nat, n: nat)
    requires row.Fits(n) && |key| == 64 && Shaped(key, n) && pb <= 64 && Value(key) == CompositeKey(Value(row.id), pb, p)
    ensures var e := SharedElem(key, [row.isReal] + row.rowData);
            e.Fits(n, 1 + |row.rowData|) && OpenElem(e) == ToTuple(pb, p)(OpenInput()(row))
  {
    hide ToNat, SharedBit.Open, CompositeKey;
    OpenCons(row.isReal, row.rowData);
  }

  method CheckCounts(perParty: seq<seq<SharedRow>>, perPartyCount: nat) returns (r: Result<()>)
    ensures r.Success? <==> forall p :: 0 <= p < |perParty| ==> |perParty[p]| == perPartyCount
  {
    for i := 0 to |perParty|
      invariant forall p :: 0 <= p < i ==> |perParty[p]| == perPartyCount
    {
      if |perParty[i]| != perPartyCount {
        return Failure("mpcExecutePrivateJoinInMemory: a party has the wrong number of tuples");
      }
    }
    r := Success(());
  }

  method Aggregate(perParty: seq<seq<SharedRow>>, M: nat, partyIdxBits: nat, rowDataBits: nat, ghost n: nat)
    returns (r: Result<seq<SharedElem>>)
    requires perParty != [] && perParty[0] != [] && M > 0 && InputsFit(perParty, n)
    ensures r.Success? <==> ShapeOk(perParty, M, partyIdxBits, rowDataBits)
    ensures r.Success? ==> AllFit(r.value, n, 1 + rowDataBits) && |r.value| == |perParty| * |perParty[0]|
    ensures r.Success? ==> OpenAll(r.value) == Bag(OpenTables(perParty), partyIdxBits, |perParty|)
  {
    var perPartyCount := |perParty[0]|;
    if perPartyCount % M != 0 {
      return Failure("mpcExecutePrivateJoinInMemory: per-party count not divisible by M");
    }
    var _ :- CheckCounts(perParty, perPartyCount);
    ghost var tables := OpenTables(perParty);
    hide OpenAll, Bag, OpenInput, ToTuple, NatProduct;
    BagStarts(tables, partyIdxBits);
    NatProductStep(0, perPartyCount);
    var bag: seq<SharedElem> := [];
    for p := 0 to |perParty|
      invariant AllFit(bag, n, 1 + rowDataBits) && |bag| == NatProduct(p, perPartyCount)
      invariant p > 0 ==> partyIdxBits <= 32
      invariant forall q :: 0 <= q < p ==> forall i :: 0 <= i < |perParty[q]| ==> |perParty[q][i].rowData| == rowDataBits
      invariant partyIdxBits <= 32 ==> OpenAll(bag) == Bag(tables, partyIdxBits, p)
    {
      var tuples :- PartyTuples(perParty[p], p, partyIdxBits, rowDataBits, n);
      NatProductStep(p, perPartyCount);
      NextParty(bag, tuples, tables, partyIdxBits, p);
      bag := bag + tuples;
    }
    NatProductIs(|perParty|, perPartyCount);
    r := Success(bag);
  }

  lemma BagStarts(tables: Tables, pb: nat)
    ensures OpenAll([]) == []
    ensures pb <= 64 ==> Bag(tables, pb, 0) == []
  {
  }

  lemma NextParty(bag: seq<SharedElem>, tuples: seq<SharedElem>, tables: Tables, pb: nat, p: nat)
    requires pb <= 64 && p < |tables| && OpenAll(bag) == Bag(tables, pb, p)
    requires OpenAll(tuples) == Map(tables[p], ToTuple(pb, p))
    ensures OpenAll(bag + tuples) == Bag(tables, pb, p + 1)
  {
    assert OpenAll(bag + tuples) == OpenAll(bag) + OpenAll(tuples);
  }

  /** Triples the caller is told to provide. */
  function JoinCost(N: nat, M: nat, rowDataBits: nat, universeSize: nat): nat {
    if N == 0 || M == 0 || universeSize == 0 then 0
    else
      SortTripleCost(N * M * universeSize, 1 + rowDataBits)
      + ExpandCost(universeSize, N, M)
      + FilterCost(universeSize * Power(M, N), N, rowDataBits)
  }

  lemma {:induction false} ExpandLength(s: seq<Tuple>, N: nat, M: nat, pb: nat, windows: nat)
    requires N > 0 && M > 0 && |s| == windows * (N * M)
    ensures |Expand(s, N, M, pb)| == windows * Power(M, N)
    decreases windows
  {
    hide Expand, ExpandWindow, Power;
    MulMonotone(M, 1, N);
    if windows > 0 {
      SplitSize(windows, N * M);
      SplitSize(windows, Power(M, N));
      FirstWindow(s, N, M, pb);
      ExpandLength(s[N * M..], N, M, pb, windows - 1);
      WindowLength(s[..N * M], N, M, pb);
    } else {
      NoWindow(s, N, M, pb);
    }
  }

  lemma NoWindow(s: seq<Tuple>, N: nat, M: nat, pb: nat)
    requires |s| < N * M
    ensures Expand(s, N, M, pb) == []
  {
  }

  lemma FirstWindow(s: seq<Tuple>, N: nat, M: nat, pb: nat)
    requires 0 < N * M <= |s|
    ensures Expand(s, N, M, pb) == ExpandWindow(s[..N * M], N, M, pb) + Expand(s[N * M..], N, M, pb)
  {
  }

  lemma WindowLength(win: seq<Tuple>, N: nat, M: nat, pb: nat)
    requires M > 0 && |win| == N * M
    ensures |ExpandWindow(win, N, M, pb)| == Power(M, N)
  {
    hide Choices;
    ChoicesSize(Split(win, N, M), M);
  }

  lemma {:induction false} ExpandWidth(s: seq<Tuple>, N: nat, M: nat, pb: nat, B: nat, windows: nat)
    requires N > 0 && M > 0 && |s| == windows * (N * M) && JoinProof.Wide(s, B)
    ensures forall i :: 0 <= i < |Expand(s, N, M, pb)| ==> |Expand(s, N, M, pb)[i].data| == N * B
    decreases windows
  {
    MulMonotone(M, 1, N);
    if windows > 0 {
      SplitSize(windows, N * M);
      ExpandWidth(s[N * M..], N, M, pb, B, windows - 1);
      WindowWidth(s[..N * M], N, M, pb, B);
    }
  }

  lemma WindowWidth(win: seq<Tuple>, N: nat, M: nat, pb: nat, B: nat)
    requires N > 0 && M > 0 && |win| == N * M && JoinProof.Wide(win, B)
    ensures forall i :: 0 <= i < |ExpandWindow(win, N, M, pb)| ==> |ExpandWindow(win, N, M, pb)[i].data| == N * B
  {
    var cs := Choices(Split(win, N, M));
    forall c | 0 <= c < |cs| ensures |ToRow(pb)(cs[c]).data| == N * B {
      JoinProof.ChoiceMember(win, N, M, c, B);
      JoinProof.ConcatSize(cs[c], B);
    }
  }

  /** The expanded rows are as many and as wide as the filter expects. */
  lemma ExpandedShape(elems: seq<SharedElem>, rows: seq<MpcJoinRow>, N: nat, M: nat, pb: nat, B: nat, windows: nat,
                      n: nat)
    requires N > 0 && M > 0 && |elems| == windows * (N * M) && AllFit(elems, n, 1 + B)
    requires Map(rows, OpenRow()) == Expand(OpenAll(elems), N, M, pb)
    ensures |rows| == windows * Power(M, N)
    ensures forall i :: 0 <= i < |rows| ==> |rows[i].joinedPayload| == N * B
  {
    hide Expand, Power;
    ExpandLength(OpenAll(elems), N, M, pb, windows);
    ExpandWidth(OpenAll(elems), N, M, pb, B, windows);
    forall i | 0 <= i < |rows| ensures |rows[i].joinedPayload| == N * B {
      assert OpenRow()(rows[i]) == Expand(OpenAll(elems), N, M, pb)[i];
    }
  }

  lemma SortCostPositive(n: nat, w: nat)
    requires n > 1
    ensures SortTripleCost(n, w) > 0
  {
    var p := NextPowerOfTwo(n);
    assert |MergeSchedule(0, p, true)| > 0;
    assert |SortSchedule(0, p, true)| > 0;
    hide CompareSwapCount, SortSchedule;
    ScheduleCount(n);
    CountOfPadded(n);
    MulMonotone(CompareSwapCount(p), 1, StepCost(w));
  }

  lemma UniverseSize(N: nat, M: nat, len: nat)
    requires N > 0 && M > 0 && len % M == 0
    ensures N * len == (len / M) * (N * M)
  {
    var u := len / M;
    assert len == M * u;
    assert N * (M * u) == u * (N * M);
  }

  lemma BagArithmetic(size: nat, N: nat, M: nat, u: nat)
    requires N > 0 && M > 0 && size == u * (N * M)
    ensures N * M > 0 && size % (N * M) == 0 && size / (N * M) == u && N * M * u == size
  {
    MulMonotone(M, 1, N);
    DivModUnique(size, N * M, u, 0);
  }

  lemma JoinCostParts(N: nat, M: nat, B: nat, u: nat)
    requires N > 0 && M > 0 && u > 0
    ensures JoinCost(N, M, B, u)
         == SortTripleCost(N * M * u, 1 + B) + ExpandCost(u, N, M) + FilterCost(u * Power(M, N), N, B)
  {
  }

  /** When the driver accepts its input; the last conjunct is the size of the triple bag. */
  ghost predicate Accepts(perParty: seq<seq<SharedRow>>, N: nat, M: nat, partyIdxBits: nat, rowDataBits: nat,
                          bag: TripleBag, start: nat)
    requires M > 0
  {
    && |perParty| == N
    && (N == 0 || perParty[0] == [] ||
        (&& ShapeOk(perParty, M, partyIdxBits, rowDataBits)
         && Power(M, N) <= 0x100_0000_0000
         && CanPay(bag, start, JoinCost(N, M, rowDataBits, Div(|perParty[0]|, M)))))
  }

  /** Sort, expand, filter: the phases after the bag is built. */
  method RunPhases(elems: seq<SharedElem>, N: nat, M: nat, partyIdxBits: nat, rowDataBits: nat, bag: TripleBag,
                   ghost universe: nat, ghost n: nat)
    returns (r: Result<seq<MpcJoinRow>>)
    requires N > 0 && M > 0 && universe > 0 && partyIdxBits <= 32 && bag.Honest(n)
    requires AllFit(elems, n, 1 + rowDataBits) && |elems| == universe * (N * M)
    requires |elems| <= 0x8000_0000_0000_0000
    requires Power(M, N) <= MAX_COMBOS ==> universe * Power(M, N) <= 0x8000_0000_0000_0000
    modifies bag
    ensures r.Success?
       <==> Power(M, N) <= MAX_COMBOS && CanPay(bag, old(bag.index), JoinCost(N, M, rowDataBits, universe))
    ensures r.Success? ==> bag.index == old(bag.index) + JoinCost(N, M, rowDataBits, universe)
    ensures r.Success? ==> RowsFit(r.value, n)
    ensures r.Success? ==> Map(r.value, OpenRow()) == Phases(OpenAll(elems), N, M, partyIdxBits, rowDataBits)
  {
    hide OpenAll, OpenRow, Expand, Filter, SortPadded, SortTripleCost, ExpandCost, FilterCost, Power, Split, JoinCost;
    BagArithmetic(|elems|, N, M, universe);
    JoinCostParts(N, M, rowDataBits, universe);
    if |elems| > 1 { SortCostPositive(|elems|, 1 + rowDataBits); }
    SortedEmpty(|elems|, 1 + rowDataBits);
    var vec := new SharedVector(elems);
    var _ :- vec.MpcBitonicSort(bag, n, 1 + rowDataBits);
    var sortedElems := vec.xs;
    var expanded :- MpcCrossProductExpand(sortedElems, N, M, partyIdxBits, rowDataBits, bag, n);
    ExpandedShape(sortedElems, expanded, N, M, partyIdxBits, rowDataBits, universe, n);
    FilterCostSign(universe * Power(M, N), N, rowDataBits);
    r := MpcFilterIntersection(expanded, N, rowDataBits, bag, n);
  }

  lemma FilterCostSign(rows: nat, N: nat, rowDataBits: nat)
    ensures rows > 1 ==> FilterCost(rows, N, rowDataBits) > 0
    ensures rows <= 1 ==> FilterCost(rows, N, rowDataBits) == 0
  {
    if rows > 1 {
      SortCostPositive(rows, 64 + N * rowDataBits + 1);
    }
  }

  /**
   * What the driver sorts has at most 2^63 elements, so padding to a power of
   * two stays in 64 bits. The expanded rows count only below the cap on
   * combinations; above it the expander refuses first.
   */
  ghost predicate Paddable(parties: nat, perParty: nat, windows: nat, combinations: nat) {
    && parties * perParty <= 0x8000_0000_0000_0000
    && (combinations <= MAX_COMBOS ==> windows * combinations <= 0x8000_0000_0000_0000)
  }

  /**
   * The end-to-end driver. It succeeds exactly when the input has the right
   * shape and the bag holds the declared number of triples, and then spends
   * exactly that many. Under the padding contract for the universe `ts`, the
   * opened result is the relational join.
   */
  method MpcExecutePrivateJoinInMemory(N: nat, M: nat, partyIdxBits: nat, rowDataBits: nat,
                                       perParty: seq<seq<SharedRow>>, bag: TripleBag, ghost n: nat, ghost ts: seq<nat>)
    returns (r: Result<seq<MpcJoinRow>>)
    requires M > 0 && InputsFit(perParty, n) && bag.Honest(n)
    requires perParty != [] ==> Paddable(|perParty|, |perParty[0]|, Div(|perParty[0]|, M), Power(M, N))
    modifies bag
    ensures r.Success? <==> Accepts(perParty, N, M, partyIdxBits, rowDataBits, bag, old(bag.index))
    ensures r.Success? && (N == 0 || perParty[0] == []) ==> r.value == [] && bag.index == old(bag.index)
    ensures r.Success? && N > 0 && perParty[0] != [] ==>
              && bag.index == old(bag.index) + JoinCost(N, M, rowDataBits, Div(|perParty[0]|, M))
              && RowsFit(r.value, n) && partyIdxBits <= 32
              && Map(r.value, OpenRow()) == Join(N, M, partyIdxBits, rowDataBits, OpenTables(perParty))
    ensures r.Success? && N > 0 && perParty[0] != []
              && PadContract(OpenTables(perParty), N, M, partyIdxBits, rowDataBits, ts)
              && SentinelFree(Bag(OpenTables(perParty), partyIdxBits, N)) ==>
              var rows := Map(r.value, OpenRow());
              && |rows| == |ts| * Power(M, N) && InterFirst(rows)
              && forall row: JoinRow :: row.inter ==>
                   multiset(rows)[row] == JoinMultiplicity(OpenTables(perParty), partyIdxBits, rowDataBits, row)
  {
    hide OpenRow, OpenAll, Bag, OpenTables, Power, Phases, JoinCost, JoinMultiplicity;
    if |perParty| != N {
      return Failure("mpcExecutePrivateJoinInMemory: perParty size mismatch");
    }
    if |perParty| == 0 || |perParty[0]| == 0 {
      return Success([]);
    }
    var elems :- Aggregate(perParty, M, partyIdxBits, rowDataBits, n);
    UniverseSize(N, M, |perParty[0]|);
    assert |perParty[0]| / M > 0;
    ghost var tables := OpenTables(perParty);
    r := RunPhases(elems, N, M, partyIdxBits, rowDataBits, bag, |perParty[0]| / M, n);
    if r.Success? {
      if PadContract(tables, N, M, partyIdxBits, rowDataBits, ts) && SentinelFree(Bag(tables, partyIdxBits, N)) {
        JoinIsRelational(tables, N, M, partyIdxBits, rowDataBits, ts);
      }
    }
  }
}

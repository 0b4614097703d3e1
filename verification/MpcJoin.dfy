/** The in-memory SP-blind join on shares. */
module MpcJoin {
  import opened Outcomes
  import opened Words
  import opened Shares
  import opened Compare
  import opened Network
  import opened Counting
  import opened MpcSort
  import opened JoinModel
  import JoinProof

  datatype SharedRow = SharedRow(id: Shared, isReal: SharedBit, rowData: Shared) {
    ghost predicate Fits(n: nat) {
      Word(id, n) && isReal.N() == n && Shaped(rowData, n)
    }
  }

  datatype MpcJoinRow = MpcJoinRow(id: Shared, joinedPayload: Shared, isIntersection: SharedBit) {
    ghost predicate Fits(n: nat) {
      Word(id, n) && Shaped(joinedPayload, n) && isIntersection.N() == n
    }
  }

  function OpenInput(): SharedRow -> InputRow {
    (r: SharedRow) => InputRow(Value(r.id), r.isReal.Open(), Open(r.rowData))
  }

  function OpenTables(perParty: seq<seq<SharedRow>>): (t: Tables)
    ensures |t| == |perParty|
    ensures forall p :: 0 <= p < |perParty| ==> t[p] == Map(perParty[p], OpenInput())
  {
    seq(|perParty|, p requires 0 <= p < |perParty| => Map(perParty[p], OpenInput()))
  }

  function OpenRow(): MpcJoinRow -> JoinRow {
    (r: MpcJoinRow) => JoinRow(Value(r.id), Open(r.joinedPayload), r.isIntersection.Open())
  }

  // ----------------------------------------------------------------------
  // Composite keys

  /** Low bits: the public party index, held by party 0. High bits: the id, its top bits dropped. */
  method MakeCompositeKey(id: Shared, partyIdxBits: nat, partyIdx: nat, ghost n: nat) returns (r: Result<Shared>)
    requires Word(id, n)
    ensures r.Success? <==> partyIdxBits <= 32
    ensures r.Success? ==> Word(r.value, n)
    ensures r.Success? ==> Value(r.value) == CompositeKey(Value(id), partyIdxBits, partyIdx)
    ensures r.Success? ==> var low := Pow2(partyIdxBits);
                           Value(r.value) == partyIdx % low + low * (Value(id) % Pow2(64 - partyIdxBits))
  {
    if partyIdxBits > 32 {
      return Failure("makeCompositeKey: partyIdxBits too large");
    }
    hide LowWritten, IdPlaced;
    var N := id[0].N();
    var out := Zeros(64, N);
    var rest := partyIdx;
    LowStarts(out, partyIdxBits, partyIdx);
    for i := 0 to partyIdxBits
      invariant |out| == 64 && Shaped(out, N)
      invariant LowWritten(out, partyIdxBits, partyIdx, rest, i)
    {
      LowNext(out, partyIdxBits, partyIdx, rest, i, Public(N, rest % 2 == 1));
      out := out[i := Public(N, rest % 2 == 1)];
      rest := rest / 2;
    }
    IdStarts(out, id, partyIdxBits, partyIdx, rest);
    for i := 0 to 64 - partyIdxBits
      invariant |out| == 64 && Shaped(out, N)
      invariant IdPlaced(out, id, partyIdxBits, partyIdx, i)
    {
      IdNext(out, id, partyIdxBits, partyIdx, i);
      out := out[i + partyIdxBits := id[i]];
    }
    KeyDone(out, id, partyIdxBits, partyIdx);
    r := Success(out);
  }

  /** The low i bits of the party index are written; `rest` holds the others. */
  ghost predicate LowWritten(out: Shared, pb: nat, p: nat, rest: nat, i: nat) {
    i <= pb <= |out| && Open(out)[..i] + FromNat(rest, pb - i) == FromNat(p, pb)
  }

  /** The party index is in the low bits, and i bits of the id above it. */
  ghost predicate IdPlaced(out: Shared, id: Shared, pb: nat, p: nat, i: nat) {
    && |out| == |id| == 64 && pb + i <= 64
    && Open(out)[..pb] == FromNat(p, pb)
    && forall k :: 0 <= k < i ==> out[k + pb].Open() == id[k].Open()
  }

  lemma LowStarts(out: Shared, pb: nat, p: nat)
    requires pb <= |out|
    ensures LowWritten(out, pb, p, p, 0)
  {
    assert Open(out)[..0] + FromNat(p, pb) == FromNat(p, pb);
  }

  lemma LowNext(out: Shared, pb: nat, p: nat, rest: nat, i: nat, b: SharedBit)
    requires LowWritten(out, pb, p, rest, i) && i < pb && b.Open() == (rest % 2 == 1)
    ensures LowWritten(out[i := b], pb, p, rest / 2, i + 1)
  {
    hide SharedBit.Open;
    var before := Open(out)[..i];
    assert Open(out[i := b])[..i + 1] == before + [rest % 2 == 1];
    Regroup(before, rest % 2 == 1, FromNat(rest / 2, pb - i - 1));
  }

  lemma IdStarts(out: Shared, id: Shared, pb: nat, p: nat, rest: nat)
    requires LowWritten(out, pb, p, rest, pb) && |out| == |id| == 64
    ensures IdPlaced(out, id, pb, p, 0)
  {
    assert Open(out)[..pb] + [] == Open(out)[..pb];
  }

  lemma IdNext(out: Shared, id: Shared, pb: nat, p: nat, i: nat)
    requires IdPlaced(out, id, pb, p, i) && pb + i < 64
    ensures IdPlaced(out[i + pb := id[i]], id, pb, p, i + 1)
  {
    hide SharedBit.Open, FromNat;
    assert Open(out[i + pb := id[i]])[..pb] == Open(out)[..pb];
  }

  lemma KeyDone(out: Shared, id: Shared, pb: nat, p: nat)
    requires pb <= 64 && IdPlaced(out, id, pb, p, 64 - pb)
    ensures Value(out) == CompositeKey(Value(id), pb, p)
  {
    hide SharedBit.Open, FromNat, ToNat;
    CompositeBits(Open(out), Open(id), pb, p);
  }

  lemma CompositeBits(out: Bits, id: Bits, pb: nat, p: nat)
    requires |out| == |id| == 64 && pb <= 64 && out[..pb] == FromNat(p, pb)
    requires forall k :: 0 <= k < 64 - pb ==> out[k + pb] == id[k]
    ensures ToNat(out) == CompositeKey(ToNat(id), pb, p)
  {
    hide ToNat, Pow2;
    assert out[pb..] == id[..64 - pb];
    ToNatSplit(out, pb);
    ToNatSplit(id, 64 - pb);
    FromNatValue(p, pb);
  }

  /** The id part of a composite key, shifted down, zero-filled. */
  method ExtractId(composite: Shared, partyIdxBits: nat, ghost n: nat) returns (out: Shared)
    requires Word(composite, n) && partyIdxBits <= 64
    ensures Word(out, n) && Value(out) == IdPart(Value(composite), partyIdxBits) == Value(composite) / Pow2(partyIdxBits)
  {
    var N := composite[0].N();
    out := Zeros(64, N);
    for i := 0 to 64 - partyIdxBits
      invariant |out| == 64 && Shaped(out, N)
      invariant forall k :: 0 <= k < 64 ==>
                  out[k].Open() == if k < i then composite[k + partyIdxBits].Open() else false
    {
      out := out[i := composite[i + partyIdxBits]];
    }
    ShiftedDown(Open(out), Open(composite), partyIdxBits);
  }

  lemma ShiftedDown(out: Bits, key: Bits, pb: nat)
    requires |out| == |key| == 64 && pb <= 64
    requires forall k :: 0 <= k < 64 ==> out[k] == if k < 64 - pb then key[k + pb] else false
    ensures ToNat(out) == IdPart(ToNat(key), pb)
  {
    hide ToNat, Pow2;
    ToNatSplit(key, pb);
    assert out == key[pb..] + Repeat(false, pb);
    ToNatConcat(key[pb..], Repeat(false, pb));
    ToNatZeros(pb);
  }

  /** Left fold of AND; throws on the empty list. */
  method SecureAndChain(bits: Shared, bag: TripleBag, ghost n: nat) returns (r: Result<SharedBit>)
    requires Shaped(bits, n) && bag.Honest(n)
    modifies bag
    ensures r.Success? <==> bits != [] && (|bits| == 1 || old(bag.index) + |bits| - 1 <= |bag.triples|)
    ensures r.Success? ==> bag.index == old(bag.index) + |bits| - 1
    ensures r.Success? ==> r.value.N() == n && (r.value.Open() <==> AllTrue(Open(bits)))
  {
    if |bits| == 0 {
      return Failure("secureAndChain: empty input");
    }
    hide AllTrue, Open, SharedBit.Open;
    var acc := bits[0];
    AllTrueFirst(bits);
    for i := 1 to |bits|
      invariant acc.N() == n && bag.index == old(bag.index) + i - 1
      invariant i > 1 ==> bag.index <= |bag.triples|
      invariant acc.Open() <==> AllTrue(Open(bits)[..i])
    {
      acc :- bag.And(acc, bits[i]);
      AllTrueStep(bits, i);
    }
    assert Open(bits)[..|bits|] == Open(bits);
    r := Success(acc);
  }

  lemma AllTrueFirst(bits: Shared)
    requires bits != []
    ensures AllTrue(Open(bits)[..1]) <==> bits[0].Open()
  {
    hide SharedBit.Open;
    assert Open(bits)[..1][0] == bits[0].Open();
  }

  lemma AllTrueStep(bits: Shared, i: nat)
    requires i < |bits|
    ensures AllTrue(Open(bits)[..i + 1]) <==> AllTrue(Open(bits)[..i]) && bits[i].Open()
  {
    hide SharedBit.Open;
    var a, b := Open(bits)[..i], Open(bits)[..i + 1];
    assert b == a + [bits[i].Open()];
    if AllTrue(b) {
      assert b[i] == bits[i].Open();
      assert forall k :: 0 <= k < i ==> a[k] == b[k];
    }
  }

  // ----------------------------------------------------------------------
  // Window ends

  function WindowEndsCost(n: nat): nat {
    if n <= 1 then 0 else (n - 1) * EQUAL_COST
  }

  /** Bit i says whether position i is the last of its id. */
  method MpcWindowEnds(sorted: seq<SharedElem>, partyIdxBits: nat, bag: TripleBag, ghost n: nat, ghost w: nat)
    returns (r: Result<Shared>)
    requires AllFit(sorted, n, w) && bag.Honest(n) && partyIdxBits <= 64
    modifies bag
    ensures r.Success? <==> |sorted| <= 1 || old(bag.index) + WindowEndsCost(|sorted|) <= |bag.triples|
    ensures r.Success? ==> bag.index == old(bag.index) + WindowEndsCost(|sorted|)
    ensures r.Success? ==> |r.value| == |sorted| && Shaped(r.value, n)
    ensures r.Success? ==> forall i :: 0 <= i < |sorted| ==>
              r.value[i].Open() == (i + 1 == |sorted| ||
                IdPart(Value(sorted[i].key), partyIdxBits) != IdPart(Value(sorted[i + 1].key), partyIdxBits))
  {
    var out: Shared := [];
    if |sorted| == 0 {
      return Success(out);
    }
    hide IdPart, Value, ToNat;
    for i := 0 to |sorted| - 1
      invariant |out| == i && Shaped(out, n)
      invariant bag.index == old(bag.index) + i * EQUAL_COST && (i > 0 ==> bag.index <= |bag.triples|)
      invariant forall k :: 0 <= k < i ==>
                  (out[k].Open() <==> IdPart(Value(sorted[k].key), partyIdxBits) != IdPart(Value(sorted[k + 1].key), partyIdxBits))
    {
      var a := ExtractId(sorted[i].key, partyIdxBits, n);
      var b := ExtractId(sorted[i + 1].key, partyIdxBits, n);
      var eq :- SecureEqual(a, b, bag);
      out := out + [NotShared(eq)];
    }
    r := Success(out + [Public(sorted[0].key[0].N(), true)]);
  }

  // ----------------------------------------------------------------------
  // Cross-product expansion

  function ExpandCost(windows: nat, N: nat, M: nat): nat {
    if N <= 1 then 0 else windows * Power(M, N) * (N - 1)
  }

  lemma {:induction false} ConcatSnoc(v: seq<Tuple>, x: Tuple)
    requires x.payload != []
    ensures ConcatData(v + [x]) == ConcatData(v) + x.payload[1..]
  {
    if v == [] {
      assert [x][1..] == [];
    } else {
      assert (v + [x])[1..] == v[1..] + [x];
      ConcatSnoc(v[1..], x);
    }
  }

  /** Copies the picked tuples' data and collects their real flags. */
  method GatherRow(sortedBag: seq<SharedElem>, start: nat, N: nat, M: nat, digits: seq<nat>,
                   ghost n: nat, ghost B: nat)
    returns (joined: Shared, isReals: Shared)
    requires N > 0 && M > 0 && start + N * M <= |sortedBag| && AllFit(sortedBag, n, 1 + B)
    requires |digits| == N && forall p :: 0 <= p < N ==> digits[p] < M
    ensures Shaped(joined, n) && Shaped(isReals, n) && |isReals| == N
    ensures var v := Pick(Split(OpenAll(sortedBag[start..start + N * M]), N, M), digits);
            Open(joined) == ConcatData(v) && (AllTrue(Open(isReals)) <==> AllReal(v))
  {
    hide Split, ToNat, SharedBit.Open, Pick, OpenAll, Open, ConcatData, AllTrue, AllReal;
    ghost var v := Pick(Split(OpenAll(sortedBag[start..start + N * M]), N, M), digits);
    joined, isReals := [], [];
    GatherStarts(v);
    for p := 0 to N
      invariant Shaped(joined, n) && Shaped(isReals, n) && |isReals| == p
      invariant Open(joined) == ConcatData(v[..p])
      invariant forall k :: 0 <= k < p ==> v[k].payload != [] && isReals[k].Open() == v[k].payload[0]
    {
      GatherStep(sortedBag, start, N, M, digits, p, n, B);
      var src := start + p * M + digits[p];
      var e := sortedBag[src];
      OpenConcat(joined, e.payload[1..]);
      joined := joined + e.payload[1..];
      isReals := isReals + [e.payload[0]];
    }
    assert v[..N] == v;
    RealFlags(isReals, v);
  }

  lemma GatherStarts(v: seq<Tuple>)
    ensures Open([]) == [] && ConcatData(v[..0]) == []
  {
  }

  /** The tuple the counter picks for party p, and what it adds to the joined data. */
  lemma GatherStep(sortedBag: seq<SharedElem>, start: nat, N: nat, M: nat, digits: seq<nat>, p: nat, n: nat, B: nat)
    requires N > 0 && M > 0 && start + N * M <= |sortedBag| && AllFit(sortedBag, n, 1 + B)
    requires |digits| == N && (forall p :: 0 <= p < N ==> digits[p] < M) && p < N
    ensures start + p * M + digits[p] < |sortedBag|
    ensures var v := Pick(Split(OpenAll(sortedBag[start..start + N * M]), N, M), digits);
            var w := sortedBag[start + p * M + digits[p]].payload;
            && |w| == 1 + B && Shaped(w, n) && |v[p].payload| == 1 + B && v[p].payload[0] == w[0].Open()
            && ConcatData(v[..p + 1]) == ConcatData(v[..p]) + Open(w[1..])
  {
    hide Split, ToNat, SharedBit.Open, ConcatData;
    var slice := sortedBag[start..start + N * M];
    var win := OpenAll(slice);
    var v := Pick(Split(win, N, M), digits);
    JoinProof.SplitMembers(win, N, M, p, digits[p]);
    var e := sortedBag[start + p * M + digits[p]];
    assert slice[p * M + digits[p]] == e;
    assert v[p] == OpenElem(e);
    ConcatSnoc(v[..p], v[p]);
    assert v[..p + 1] == v[..p] + [v[p]];
    TailOpens(e.payload);
  }

  lemma RealFlags(isReals: Shared, v: seq<Tuple>)
    requires |isReals| == |v|
    requires forall k :: 0 <= k < |v| ==> v[k].payload != [] && isReals[k].Open() == v[k].payload[0]
    ensures AllTrue(Open(isReals)) <==> AllReal(v)
  {
    hide SharedBit.Open;
    assert forall k :: 0 <= k < |v| ==> Open(isReals)[k] == v[k].payload[0];
  }

  lemma TailOpens(w: Shared)
    requires w != []
    ensures Open(w[1..]) == Open(w)[1..]
  {
  }

  lemma PickedFirst(sortedBag: seq<SharedElem>, start: nat, N: nat, M: nat, digits: seq<nat>, win: seq<Tuple>, combo: nat,
                    n: nat, B: nat)
    requires N > 0 && M > 0 && start + N * M <= |sortedBag| && AllFit(sortedBag, n, 1 + B)
    requires win == OpenAll(sortedBag[start..start + N * M])
    requires digits == Digits(combo, N, M) && combo < |Choices(Split(win, N, M))|
    ensures forall p :: 0 <= p < N ==> digits[p] < M
    ensures Choices(Split(win, N, M))[combo] == Pick(Split(win, N, M), digits)
    ensures start + 0 * M + digits[0] < |sortedBag|
    ensures Pick(Split(win, N, M), digits)[0].key == Value(sortedBag[start + 0 * M + digits[0]].key)
  {
    hide Split, Digits, Choices, ToNat, Open;
    ChoiceAt(Split(win, N, M), M, combo);
    JoinProof.SplitMembers(win, N, M, 0, digits[0]);
    assert sortedBag[start..start + N * M][0 * M + digits[0]] == sortedBag[start + 0 * M + digits[0]];
  }

  /** One window: every combination of the counter, in order. */
  method MpcExpandWindow(sortedBag: seq<SharedElem>, start: nat, N: nat, M: nat, partyIdxBits: nat, bag: TripleBag,
                         ghost n: nat, ghost B: nat)
    returns (r: Result<seq<MpcJoinRow>>)
    requires N > 0 && M > 0 && start + N * M <= |sortedBag| && AllFit(sortedBag, n, 1 + B)
    requires partyIdxBits <= 64 && bag.Honest(n)
    modifies bag
    ensures r.Success? <==> N == 1 || old(bag.index) + RowCost(Power(M, N), N - 1) <= |bag.triples|
    ensures r.Success? ==> bag.index == old(bag.index) + RowCost(Power(M, N), N - 1)
    ensures r.Success? ==> forall i :: 0 <= i < |r.value| ==> r.value[i].Fits(n)
    ensures r.Success? ==>
              Map(r.value, OpenRow()) == ExpandWindow(OpenAll(sortedBag[start..start + N * M]), N, M, partyIdxBits)
  {
    hide ExpandWindow, Split, Choices, Digits, Power, ToRow, IdPart, OpenAll, OpenRow, RowCost, Map, AllFit;
    ghost var win := OpenAll(sortedBag[start..start + N * M]);
    ghost var rows := ExpandWindow(win, N, M, partyIdxBits);
    WindowRows(win, N, M, partyIdxBits);
    var out: seq<MpcJoinRow> := [];
    var digits := seq(N, _ => 0);
    WalkStarts(digits, N, M);
    PowerPositive(M, N);
    for combo := 0 to Power(M, N)
      invariant |out| == combo && digits == Digits(combo, N, M)
      invariant bag.index == old(bag.index) + RowCost(combo, N - 1)
      invariant combo > 0 && N > 1 ==> bag.index <= |bag.triples|
      invariant forall i :: 0 <= i < combo ==> out[i].Fits(n) && OpenRow()(out[i]) == rows[i]
    {
      RowCostGrows(combo + 1, Power(M, N), N - 1);
      RowCostStep(combo, N - 1);
      var row :- BuildRow(sortedBag, start, N, M, partyIdxBits, digits, win, combo, bag, n, B);
      out := out + [row];
      digits := Increment(digits, M);
      NextDigits(combo, N, M);
    }
    OpenedRows(out, rows);
    r := Success(out);
  }

  lemma WindowRows(win: seq<Tuple>, N: nat, M: nat, pb: nat)
    requires |win| == N * M
    ensures var rows, choices := ExpandWindow(win, N, M, pb), Choices(Split(win, N, M));
            && |rows| == |choices| == Power(M, N)
            && forall c :: 0 <= c < |choices| ==> rows[c] == ToRow(pb)(choices[c])
  {
    ChoicesSize(Split(win, N, M), M);
  }

  lemma WalkStarts(digits: seq<nat>, n: nat, m: nat)
    requires |digits| == n > 0 && forall p :: 0 <= p < n ==> digits[p] == 0
    ensures digits == Digits(0, n, m) && RowCost(0, n - 1) == 0
  {
  }

  lemma OpenedRows(out: seq<MpcJoinRow>, rows: seq<JoinRow>)
    requires |out| == |rows| && forall i :: 0 <= i < |out| ==> OpenRow()(out[i]) == rows[i]
    ensures Map(out, OpenRow()) == rows
  {
  }

  lemma NextDigits(c: nat, n: nat, m: nat)
    ensures Digits(c + 1, n, m) == Successor(Digits(c, n, m), m)
  {
  }

  method BuildRow(sortedBag: seq<SharedElem>, start: nat, N: nat, M: nat, partyIdxBits: nat, digits: seq<nat>,
                  ghost win: seq<Tuple>, ghost combo: nat, bag: TripleBag, ghost n: nat, ghost B: nat)
    returns (r: Result<MpcJoinRow>)
    requires N > 0 && M > 0 && start + N * M <= |sortedBag| && AllFit(sortedBag, n, 1 + B)
    requires partyIdxBits <= 64 && bag.Honest(n)
    requires win == OpenAll(sortedBag[start..start + N * M])
    requires digits == Digits(combo, N, M) && combo < |Choices(Split(win, N, M))|
    modifies bag
    ensures r.Success? <==> N == 1 || old(bag.index) + N - 1 <= |bag.triples|
    ensures r.Success? ==> bag.index == old(bag.index) + N - 1 && r.value.Fits(n)
    ensures r.Success? ==> OpenRow()(r.value) == ToRow(partyIdxBits)(Choices(Split(win, N, M))[combo])
  {
    hide Split, Digits, Choices, IdPart, OpenAll, Pick, ConcatData, AllTrue, AllReal, Open, SharedBit.Open, ToNat;
    PickedFirst(sortedBag, start, N, M, digits, win, combo, n, B);
    var id := ExtractId(sortedBag[start + 0 * M + digits[0]].key, partyIdxBits, n);
    var joined, isReals := GatherRow(sortedBag, start, N, M, digits, n, B);
    var inter :- SecureAndChain(isReals, bag, n);
    r := Success(MpcJoinRow(id, joined, inter));
  }
}

/** The end-to-end statement about the SP-blind join. */
module JoinTheorem {
  import opened Words
  import opened Network
  import opened PaddedSort
  import opened Counting
  import opened JoinModel
  import opened JoinLayout
  import opened JoinProof

  // ----------------------------------------------------------------------
  // What the bag holds

  /** A party's tuple for (t, payload) occurs in the bag as often as its rows supply it. */
  lemma {:induction false} BagCounts(tables: Tables, pb: nat, n: nat, t: nat, p: nat, data: Bits)
    requires pb <= 64 && n <= |tables| && n <= Pow2(pb) && p < Pow2(pb)
    ensures Count(Bag(tables, pb, n), Is(Supply(Key(t, p, pb), [true] + data)))
         == if p < n then Count(tables[p], Supplies(pb, t, data)) else 0
  {
    hide Pow2, Bag, ToTuple, Count, Is, Supplies;
    BagUnfolds(tables, pb, n);
    if n == 0 {
      CountNothing(Is(Supply(Key(t, p, pb), [true] + data)));
    } else {
      var q := n - 1;
      var want := Is(Supply(Key(t, p, pb), [true] + data));
      var tuples := Map(tables[q], ToTuple(pb, q));
      BagCounts(tables, pb, q, t, p, data);
      CountConcat(Bag(tables, pb, q), tuples, want);
      TupleCounts(tables[q], pb, q, t, p, data);
    }
  }

  lemma CountNothing(f: Tuple -> bool)
    ensures Count([], f) == 0
  {
  }

  lemma TupleCounts(rows: seq<InputRow>, pb: nat, q: nat, t: nat, p: nat, data: Bits)
    requires pb <= 64 && q < Pow2(pb) && p < Pow2(pb)
    ensures Count(Map(rows, ToTuple(pb, q)), Is(Supply(Key(t, p, pb), [true] + data)))
         == if p == q then Count(rows, Supplies(pb, t, data)) else 0
  {
    var want := Is(Supply(Key(t, p, pb), [true] + data));
    forall i | 0 <= i < |rows|
      ensures want(ToTuple(pb, q)(rows[i])) == (p == q && Supplies(pb, t, data)(rows[i]))
    {
      TupleMatches(rows[i], pb, q, t, p, data);
    }
    if p == q {
      CountMap(rows, ToTuple(pb, q), want, Supplies(pb, t, data));
    } else {
      CountNone(Map(rows, ToTuple(pb, q)), want);
    }
  }

  lemma TupleMatches(r: InputRow, pb: nat, q: nat, t: nat, p: nat, data: Bits)
    requires pb <= 64 && q < Pow2(pb) && p < Pow2(pb)
    ensures ToTuple(pb, q)(r) == Supply(Key(t, p, pb), [true] + data) <==> p == q && Supplies(pb, t, data)(r)
  {
    CompositeIsKey(r.id, q, pb);
    KeyInjective(Tid(r.id, pb), q, t, p, pb);
    assert ([r.isReal] + r.data)[0] == r.isReal && ([r.isReal] + r.data)[1..] == r.data;
    assert ([true] + data)[0] && ([true] + data)[1..] == data;
  }

  ghost predicate Shape(s: seq<Tuple>, B: nat, limit: nat) {
    forall i :: 0 <= i < |s| ==> s[i].key <= limit && |s[i].payload| == 1 + B
  }

  lemma TupleShape(rows: seq<InputRow>, pb: nat, q: nat, B: nat)
    requires pb <= 64 && q < Pow2(pb) && forall i :: 0 <= i < |rows| ==> |rows[i].data| == B
    ensures Shape(Map(rows, ToTuple(pb, q)), B, if q + 1 < Pow2(pb) then MAX_KEY - 1 else MAX_KEY)
  {
    forall i | 0 <= i < |rows|
      ensures ToTuple(pb, q)(rows[i]).key <= if q + 1 < Pow2(pb) then MAX_KEY - 1 else MAX_KEY
    {
      CompositeIsKey(rows[i].id, q, pb);
    }
  }

  /** Keys fit 64 bits, and stay below the sentinel's while a party index is spare. */
  lemma {:induction false} BagShape(tables: Tables, pb: nat, B: nat, n: nat)
    requires pb <= 64 && n <= |tables| && n <= Pow2(pb)
    requires forall p :: 0 <= p < n ==> forall i :: 0 <= i < |tables[p]| ==> |tables[p][i].data| == B
    ensures Shape(Bag(tables, pb, n), B, if n < Pow2(pb) then MAX_KEY - 1 else MAX_KEY)
    ensures Keys64(Bag(tables, pb, n)) && Wide(Bag(tables, pb, n), B)
  {
    hide Pow2, Bag, ToTuple;
    BagUnfolds(tables, pb, n);
    if n > 0 {
      BagShape(tables, pb, B, n - 1);
      TupleShape(tables[n - 1], pb, n - 1, B);
    }
  }

  /** A spare party index means no composite key is all ones, so no sentinel can be mistaken. */
  lemma SpareIndexIsSentinelFree(tables: Tables, N: nat, M: nat, pb: nat, B: nat, ts: seq<nat>)
    requires PadContract(tables, N, M, pb, B, ts) && N < Pow2(pb)
    ensures SentinelFree(Bag(tables, pb, N))
  {
    BagShape(tables, pb, B, N);
  }

  // ----------------------------------------------------------------------
  // The filter

  ghost predicate Encodable(rows: seq<JoinRow>, width: nat) {
    forall i :: 0 <= i < |rows| ==> rows[i].id <= MAX_KEY && |rows[i].data| == width
  }

  lemma DecodeEncode(r: JoinRow)
    requires r.id <= MAX_KEY
    ensures Decode()(Encode()(r)) == r
    ensures Encode()(r) == Elem(if r.inter then 0 else 1, FromNat(r.id, 64) + r.data + [r.inter])
  {
    hide ToNat, FromNat, Pow2;
    var bits := FromNat(r.id, 64);
    var e := Encode()(r);
    assert e.payload == bits + r.data + [r.inter];
    assert e.payload[..64] == bits;
    assert e.payload[64..|e.payload| - 1] == r.data;
    FromNatValue(r.id, 64);
    Pow2At64();
  }

  /** Intersection rows come first. */
  ghost predicate InterFirst(rows: seq<JoinRow>) {
    forall i, j :: 0 <= i < j < |rows| ==> rows[j].inter ==> rows[i].inter
  }

  /** The filter only reorders, and brings the intersection rows to the front. */
  lemma FilterMovesInterFirst(rows: seq<JoinRow>, width: nat)
    requires Encodable(rows, width)
    ensures multiset(Filter(rows, width)) == multiset(rows)
    ensures InterFirst(Filter(rows, width))
  {
    var encoded := Map(rows, Encode());
    var sorted := SortPadded(false, encoded, Repeat(false, 64 + width + 1));
    forall i | 0 <= i < |rows| ensures encoded[i].key < MAX_KEY && Map(encoded, Decode())[i] == rows[i] {
      DecodeEncode(rows[i]);
    }
    assert Map(encoded, Decode()) == rows;
    SortPaddedPermutes(false, encoded, Repeat(false, 64 + width + 1));
    MapPermuted(sorted, encoded, Decode());
    SortPaddedSorts(false, encoded, Repeat(false, 64 + width + 1));
    forall i | 0 <= i < |sorted| ensures sorted[i].key == Bit(!Decode()(sorted[i]).inter) {
      assert sorted[i] in multiset(encoded);
      var k :| 0 <= k < |encoded| && encoded[k] == sorted[i];
      DecodeEncode(rows[k]);
    }
  }

  // ----------------------------------------------------------------------
  // The rows that reach the filter

  lemma {:induction false} ExpandEncodable(s: seq<Tuple>, ts: seq<nat>, N: nat, M: nat, pb: nat, B: nat, d: nat)
    requires 0 < N && 0 < M && Wide(s, B) && Keys64(s) && d == N * B
    requires Map(s, KeyOf()) == Layout(ts, N, M, pb)
    ensures Encodable(Expand(s, N, M, pb), d)
    decreases |ts|
  {
    hide Layout, Expand, ExpandWindow, Encodable;
    if ts == [] {
      NothingEncodable(s, N, M, pb, d);
    } else {
      ExpandUnfolds(s, ts, N, M, pb);
      SplitLayout(s, ts, N, M, pb);
      WideParts(s, N * M, B);
      ExpandEncodable(s[N * M..], ts[1..], N, M, pb, B, d);
      WindowEncodable(s[..N * M], N, M, pb, B);
      BothEncodable(ExpandWindow(s[..N * M], N, M, pb), Expand(s[N * M..], N, M, pb), d);
    }
  }

  lemma NothingEncodable(s: seq<Tuple>, N: nat, M: nat, pb: nat, d: nat)
    requires N > 0 && M > 0 && Map(s, KeyOf()) == Layout([], N, M, pb)
    ensures Encodable(Expand(s, N, M, pb), d)
  {
    assert s == [];
  }

  lemma BothEncodable(a: seq<JoinRow>, b: seq<JoinRow>, d: nat)
    requires Encodable(a, d) && Encodable(b, d)
    ensures Encodable(a + b, d)
  {
  }

  lemma WindowEncodable(win: seq<Tuple>, N: nat, M: nat, pb: nat, B: nat)
    requires 0 < N && 0 < M && |win| == N * M && Wide(win, B) && Keys64(win)
    ensures Encodable(ExpandWindow(win, N, M, pb), N * B)
  {
    var cs := Choices(Split(win, N, M));
    forall c | 0 <= c < |cs|
      ensures ToRow(pb)(cs[c]).id <= MAX_KEY && |ToRow(pb)(cs[c]).data| == N * B
    {
      ChoiceMember(win, N, M, c, B);
      ConcatSize(cs[c], B);
      IdPartSmaller(cs[c][0].key, pb);
    }
  }

  lemma IdPartSmaller(key: nat, pb: nat)
    ensures IdPart(key, pb) <= key
  {
    hide Pow2;
    QuotientBounds(key, Pow2(pb));
  }

  // ----------------------------------------------------------------------
  // The theorem

  lemma HitsAreSuppliers(tables: Tables, N: nat, pb: nat, B: nat, s: seq<Tuple>, row: JoinRow)
    requires pb <= 64 && |tables| == N <= Pow2(pb) && |row.data| == N * B
    requires multiset(s) == multiset(Bag(tables, pb, N))
    ensures Hits(s, row, N, B, pb) == Suppliers(tables, pb, B, row)
  {
    var parts := Split(row.data, N, B);
    forall p | 0 <= p < N ensures Hits(s, row, N, B, pb)[p] == Suppliers(tables, pb, B, row)[p] {
      CountPermuted(s, Bag(tables, pb, N), Is(Supply(Key(row.id, p, pb), [true] + parts[p])));
      BagCounts(tables, pb, N, row.id, p, parts[p]);
    }
  }

  /** Before the filter: the expanded rows, from any ascending permutation of the bag. */
  lemma ExpandIsRelational(tables: Tables, N: nat, M: nat, pb: nat, B: nat, ts: seq<nat>, s: seq<Tuple>, d: nat)
    requires PadContract(tables, N, M, pb, B, ts) && d == N * B
    requires Sorted(true, s) && multiset(s) == multiset(Bag(tables, pb, N))
    ensures |Expand(s, N, M, pb)| == |ts| * Power(M, N)
    ensures Encodable(Expand(s, N, M, pb), d)
    ensures forall row: JoinRow :: row.inter ==>
              multiset(Expand(s, N, M, pb))[row] == JoinMultiplicity(tables, pb, B, row)
  {
    hide Expand, Layout, Bag, Pow2, Hits, Suppliers, Product, Power;
    SortedBagLayout(tables, N, M, pb, B, ts, s);
    BagShape(tables, pb, B, N);
    forall i | 0 <= i < |s| ensures |s[i].payload| == 1 + B && s[i].key <= MAX_KEY {
      assert s[i] in multiset(Bag(tables, pb, N));
    }
    ExpandSize(s, ts, N, M, pb);
    ExpandEncodable(s, ts, N, M, pb, B, d);
    forall row: JoinRow | row.inter
      ensures multiset(Expand(s, N, M, pb))[row] == JoinMultiplicity(tables, pb, B, row)
    {
      CountIs(Expand(s, N, M, pb), row);
      ExpandCounts(s, ts, N, M, pb, B, row);
      if |row.data| == N * B {
        HitsAreSuppliers(tables, N, pb, B, s, row);
      }
    }
  }

  /**
   * The join returns |universe| * M^N rows, the intersection rows first, and
   * each possible intersection row exactly as often as the relational join of
   * the parties' real rows contains it.
   */
  lemma JoinIsRelational(tables: Tables, N: nat, M: nat, pb: nat, B: nat, ts: seq<nat>)
    requires PadContract(tables, N, M, pb, B, ts) && SentinelFree(Bag(tables, pb, N))
    ensures |Join(N, M, pb, B, tables)| == |ts| * Power(M, N)
    ensures InterFirst(Join(N, M, pb, B, tables))
    ensures forall row: JoinRow :: row.inter ==>
              multiset(Join(N, M, pb, B, tables))[row] == JoinMultiplicity(tables, pb, B, row)
  {
    hide Filter, Expand, Layout, Bag, Pow2, Power, JoinMultiplicity, SortPadded;
    var pad := Repeat(false, 1 + B);
    var s := SortPadded(false, Bag(tables, pb, N), pad);
    BagShape(tables, pb, B, N);
    SortPaddedSorts(false, Bag(tables, pb, N), pad);
    SortPaddedPermutes(false, Bag(tables, pb, N), pad);
    ExpandIsRelational(tables, N, M, pb, B, ts, s, N * B);
    FilterMovesInterFirst(Expand(s, N, M, pb), N * B);
    assert |multiset(Join(N, M, pb, B, tables))| == |multiset(Expand(s, N, M, pb))|;
  }
}

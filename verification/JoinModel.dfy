/**
 * The SP-blind join on opened values: composite keys, padded sort, index-based
 * expansion, and the sort on NOT isIntersection.
 */
module JoinModel {
  import opened Words
  import opened Network
  import opened PaddedSort
  import opened Counting

  datatype InputRow = InputRow(id: nat, isReal: bool, data: Bits)
  datatype JoinRow = JoinRow(id: nat, data: Bits, inter: bool)

  /** The cap on the combinations M^N of a window. */
  const MAX_COMBOS: nat := 0x100_0000_0000

  type Tuple = Elem<Bits>
  type Tables = seq<seq<InputRow>>

  // ----------------------------------------------------------------------
  // The pipeline

  /** The id bits a composite key keeps: all but the top `pb`. */
  function Tid(id: nat, pb: nat): nat
    requires pb <= 64
  {
    id % Pow2(64 - pb)
  }

  function CompositeKey(id: nat, pb: nat, p: nat): nat
    requires pb <= 64
  {
    p % Pow2(pb) + Pow2(pb) * Tid(id, pb)
  }

  /** A row as a sort element: composite key, then the real flag and the data. */
  function ToTuple(pb: nat, p: nat): InputRow -> Tuple
    requires pb <= 64
  {
    (r: InputRow) => Elem(CompositeKey(r.id, pb, p), [r.isReal] + r.data)
  }

  /** The bag of the first `n` parties' tuples. */
  function Bag(tables: Tables, pb: nat, n: nat): seq<Tuple>
    requires pb <= 64 && n <= |tables|
  {
    if n == 0 then [] else Bag(tables, pb, n - 1) + Map(tables[n - 1], ToTuple(pb, n - 1))
  }

  function ConcatData(v: seq<Tuple>): Bits {
    if v == [] then [] else (if v[0].payload == [] then [] else v[0].payload[1..]) + ConcatData(v[1..])
  }

  predicate AllReal(v: seq<Tuple>) {
    forall p :: 0 <= p < |v| ==> v[p].payload != [] && v[p].payload[0]
  }

  /** The id part of a composite key. */
  function IdPart(key: nat, pb: nat): nat {
    Div(key, Pow2(pb))
  }

  /** One output row: the id of the first tuple, all parties' data, the AND of the flags. */
  function ToRow(pb: nat): seq<Tuple> -> JoinRow {
    (v: seq<Tuple>) => JoinRow(if v == [] then 0 else IdPart(v[0].key, pb), ConcatData(v), AllReal(v))
  }

  /** Cut `s` into `n` groups of `m`. */
  function Split<T>(s: seq<T>, n: nat, m: nat): (g: seq<seq<T>>)
    requires |s| == n * m
    ensures |g| == n
    ensures Groups(g, m)
    decreases n
  {
    if n == 0 then []
    else
      SplitSize(n, m);
      [s[..m]] + Split(s[m..], n - 1, m)
  }

  lemma SplitSize(n: nat, m: nat)
    requires n > 0
    ensures n * m == m + (n - 1) * m
  {
  }

  function ExpandWindow(win: seq<Tuple>, N: nat, M: nat, pb: nat): seq<JoinRow>
    requires |win| == N * M
  {
    Map(Choices(Split(win, N, M)), ToRow(pb))
  }

  /** Window by window; the sorted bag is a whole number of windows of N*M tuples. */
  function Expand(s: seq<Tuple>, N: nat, M: nat, pb: nat): seq<JoinRow>
    decreases |s|
  {
    if N * M == 0 || |s| < N * M then []
    else ExpandWindow(s[..N * M], N, M, pb) + Expand(s[N * M..], N, M, pb)
  }

  /** A join row as a sort element: NOT isIntersection is the key. */
  function Encode(): JoinRow -> Tuple {
    (r: JoinRow) => Elem(Bit(!r.inter), FromNat(r.id, 64) + r.data + [r.inter])
  }

  function Decode(): Tuple -> JoinRow {
    (e: Tuple) => if |e.payload| < 65 then JoinRow(0, [], false)
                  else JoinRow(ToNat(e.payload[..64]), e.payload[64..|e.payload| - 1], e.payload[|e.payload| - 1])
  }

  function Filter(rows: seq<JoinRow>, width: nat): seq<JoinRow> {
    Map(SortPadded(false, Map(rows, Encode()), Repeat(false, 64 + width + 1)), Decode())
  }

  lemma {:induction false} BagSize(tables: Tables, pb: nat, n: nat, len: nat)
    requires pb <= 64 && n <= |tables|
    requires forall p :: 0 <= p < |tables| ==> |tables[p]| == len
    ensures |Bag(tables, pb, n)| == n * len
  {
    if n > 0 {
      BagSize(tables, pb, n - 1, len);
      SplitSize(n, len);
    }
  }

  /** Sort, expand, filter. */
  function Phases(bag: seq<Tuple>, N: nat, M: nat, pb: nat, B: nat): seq<JoinRow> {
    var sorted := SortPadded(false, bag, Repeat(false, 1 + B));
    Filter(Expand(sorted, N, M, pb), N * B)
  }

  function Join(N: nat, M: nat, pb: nat, B: nat, tables: Tables): seq<JoinRow>
    requires pb <= 64 && N <= |tables|
  {
    Phases(Bag(tables, pb, N), N, M, pb, B)
  }

  // ----------------------------------------------------------------------
  // The relational join

  /** The rows of one party that can supply `data` for id `t`. */
  function Supplies(pb: nat, t: nat, data: Bits): InputRow -> bool
    requires pb <= 64
  {
    (r: InputRow) => r.isReal && r.id % Pow2(64 - pb) == t && r.data == data
  }

  /** For each party, how many of its real rows supply that party's part of `row`. */
  function Suppliers(tables: Tables, pb: nat, B: nat, row: JoinRow): (ns: seq<nat>)
    requires pb <= 64 && |row.data| == |tables| * B
    ensures |ns| == |tables|
  {
    var parts := Split(row.data, |tables|, B);
    seq(|tables|, p requires 0 <= p < |tables| => Count(tables[p], Supplies(pb, row.id, parts[p])))
  }

  /**
   * The multiplicity of `row` in the equi-join of the parties' real rows on
   * the kept id bits: one joined row per choice of a row from every party.
   */
  function JoinMultiplicity(tables: Tables, pb: nat, B: nat, row: JoinRow): nat
    requires pb <= 64
  {
    if |row.data| == |tables| * B then Product(Suppliers(tables, pb, B, row)) else 0
  }

  function Times<T>(x: T, m: nat): (s: seq<T>)
    ensures |s| == m
    ensures forall i :: 0 <= i < m ==> s[i] == x
  {
    Repeat(x, m)
  }

  /** Each id of the universe, M times. */
  function EachTimes(ts: seq<nat>, M: nat): seq<nat> {
    if ts == [] then [] else Times(ts[0], M) + EachTimes(ts[1..], M)
  }

  function TidOf(pb: nat): InputRow -> nat
    requires pb <= 64
  {
    (r: InputRow) => Tid(r.id, pb)
  }

  ghost predicate Increasing(ts: seq<nat>) {
    forall i, j :: 0 <= i < j < |ts| ==> ts[i] < ts[j]
  }

  /** Insertion into an ascending list without repetitions. */
  function Insert(us: seq<nat>, u: nat): (t: seq<nat>)
    ensures forall x :: x in t <==> x == u || x in us
  {
    if us == [] then [u]
    else if u < us[0] then [u] + us
    else if u == us[0] then us
    else
      var rest := Insert(us[1..], u);
      assert us == [us[0]] + us[1..];
      [us[0]] + rest
  }

  lemma {:induction false} InsertIncreasing(us: seq<nat>, u: nat)
    requires Increasing(us)
    ensures Increasing(Insert(us, u))
  {
    if us != [] && u > us[0] {
      assert Increasing(us[1..]);
      InsertIncreasing(us[1..], u);
      var rest := Insert(us[1..], u);
      forall j | 0 <= j < |rest| ensures us[0] < rest[j] {
        assert rest[j] in rest;
        if rest[j] != u {
          var k :| 0 <= k < |us[1..]| && us[1..][k] == rest[j];
          assert us[k + 1] == rest[j];
        }
      }
    }
  }

  lemma {:induction false} SameElements(us: seq<nat>, vs: seq<nat>)
    requires Increasing(us) && Increasing(vs) && forall u :: u in us <==> u in vs
    ensures us == vs
  {
    assert us != [] ==> us[0] in vs;
    assert vs != [] ==> vs[0] in us;
    if us != [] && vs != [] {
      assert us[0] == vs[0];
      assert us == [us[0]] + us[1..] && vs == [vs[0]] + vs[1..];
      forall u ensures u in us[1..] <==> u in vs[1..] {
        assert us[0] !in us[1..] && vs[0] !in vs[1..];
        assert u in us <==> u == us[0] || u in us[1..];
        assert u in vs <==> u == vs[0] || u in vs[1..];
      }
      SameElements(us[1..], vs[1..]);
    }
  }

  /**
   * The caller's padding contract: every party brings exactly M tuples for
   * each id of the universe `ts`, and the party index fits its bits.
   */
  ghost predicate PadContract(tables: Tables, N: nat, M: nat, pb: nat, B: nat, ts: seq<nat>) {
    && pb <= 64 && |tables| == N > 0 && M > 0 && N <= Pow2(pb) && Increasing(ts)
    && forall p :: 0 <= p < N ==>
         && multiset(Map(tables[p], TidOf(pb))) == multiset(EachTimes(ts, M))
         && forall i :: 0 <= i < |tables[p]| ==> |tables[p][i].data| == B
  }
}

/** The plaintext pipeline computes the relational join. */
module PlainTheorem {
  import opened Words
  import opened Network
  import opened PaddedSort
  import opened Counting
  import opened ObliviousSort
  import opened JoinModel
  import opened PlainModel
  import JoinLayout

  function KeyOf(): SortElement -> nat {
    (e: SortElement) => e.key
  }

  // ----------------------------------------------------------------------
  // Where the ids are

  lemma {:induction false} EachTimesSize(us: seq<nat>, m: nat)
    ensures |EachTimes(us, m)| == |us| * m
  {
    if us != [] {
      EachTimesSize(us[1..], m);
      SplitSize(|us|, m);
    }
  }

  lemma {:induction false} EachTimesOne(us: seq<nat>, m: nat, i: nat)
    requires m > 0 && i < |EachTimes(us, m)|
    ensures i / m < |us| && EachTimes(us, m)[i] == us[i / m]
    decreases us
  {
    hide EachTimes;
    EachTimesSome(us, m);
    JoinLayout.EachTimesUnfolds(us, m);
    DivByCount(i, m);
    if i >= m {
      EachTimesOne(us[1..], m, i - m);
    }
  }

  lemma EachTimesSome(us: seq<nat>, m: nat)
    requires |EachTimes(us, m)| > 0
    ensures us != []
  {
  }

  lemma DivByCount(i: nat, m: nat)
    requires m > 0
    ensures i / m == if i < m then 0 else (i - m) / m + 1
  {
    if i < m {
      DivModUnique(i, m, 0, i);
    } else {
      DivModUnique(i, m, (i - m) / m + 1, (i - m) % m);
    }
  }

  lemma EachTimesAt(us: seq<nat>, m: nat)
    requires m > 0
    ensures |EachTimes(us, m)| == |us| * m
    ensures forall i :: 0 <= i < |EachTimes(us, m)| ==> i / m < |us| && EachTimes(us, m)[i] == us[i / m]
  {
    EachTimesSize(us, m);
    forall i | 0 <= i < |EachTimes(us, m)| ensures i / m < |us| && EachTimes(us, m)[i] == us[i / m] {
      EachTimesOne(us, m, i);
    }
  }

  lemma EachTimesSorted(us: seq<nat>, m: nat)
    requires m > 0 && Increasing(us)
    ensures JoinLayout.SortedKeys(EachTimes(us, m))
  {
    hide EachTimes;
    EachTimesAt(us, m);
    forall i, j | 0 <= i < j < |us| * m ensures EachTimes(us, m)[i] <= EachTimes(us, m)[j] {
      DivMonotone(i, j, m);
    }
  }

  lemma DivMonotone(i: nat, j: nat, m: nat)
    requires m > 0 && i <= j
    ensures i / m <= j / m
  {
    if j / m < i / m {
      MulMonotone(m, j / m + 1, i / m);
    }
  }

  lemma {:induction false} IdTuplesKeys(tables: PlainTables, u: nat, M: nat, W: nat, n: nat)
    requires n <= |tables|
    ensures |IdTuples(tables, u, M, W, n)| == n * M
    ensures Map(IdTuples(tables, u, M, W, n), KeyOf()) == Times(u, n * M)
  {
    if n > 0 {
      IdTuplesKeys(tables, u, M, W, n - 1);
      SplitSize(n, M);
      var a: seq<SortElement>, b: seq<SortElement> := IdTuples(tables, u, M, W, n - 1), PartyTuples(tables[n - 1], u, n - 1, M, W);
      forall i | 0 <= i < n * M ensures (a + b)[i].key == u {
        if i < |a| {
          assert Map(a, KeyOf())[i] == u;
        }
      }
    }
  }

  lemma {:induction false} BagKeys(tables: PlainTables, us: seq<nat>, M: nat, W: nat)
    ensures Map(PaddedBag(tables, us, M, W), KeyOf()) == EachTimes(us, |tables| * M)
  {
    if us != [] {
      IdTuplesKeys(tables, us[0], M, W, |tables|);
      BagKeys(tables, us[1..], M, W);
      MapConcat(IdTuples(tables, us[0], M, W, |tables|), PaddedBag(tables, us[1..], M, W), KeyOf());
    }
  }

  /** The vector lists each id of `us` m times, in order. */
  ghost predicate Laid(s: seq<SortElement>, us: seq<nat>, m: nat) {
    && m > 0 && Increasing(us) && |s| == |us| * m
    && forall i :: 0 <= i < |s| ==> i / m < |us| && s[i].key == us[i / m]
  }

  lemma SortedIsLaid(tables: PlainTables, us: seq<nat>, M: nat, W: nat, s: seq<SortElement>)
    requires tables != [] && M > 0 && Increasing(us)
    requires Sorted(true, s) && multiset(s) == multiset(PaddedBag(tables, us, M, W))
    ensures Laid(s, us, |tables| * M)
  {
    hide PaddedBag, EachTimes, Laid, Map, Increasing;
    var m, keys := |tables| * M, Map(s, KeyOf());
    MulMonotone(M, 1, |tables|);
    BagKeys(tables, us, M, W);
    MapPermuted(s, PaddedBag(tables, us, M, W), KeyOf());
    EachTimesSorted(us, m);
    KeysSorted(s);
    JoinLayout.SortedUnique(keys, EachTimes(us, m));
    LaidByKeys(s, us, m);
  }

  lemma KeysSorted(s: seq<SortElement>)
    requires Sorted(true, s)
    ensures JoinLayout.SortedKeys(Map(s, KeyOf()))
  {
  }

  lemma LaidByKeys(s: seq<SortElement>, us: seq<nat>, m: nat)
    requires m > 0 && Increasing(us) && Map(s, KeyOf()) == EachTimes(us, m)
    ensures Laid(s, us, m)
  {
    hide EachTimes;
    var keys := Map(s, KeyOf());
    EachTimesAt(us, m);
    forall i | 0 <= i < |s| ensures i / m < |us| && s[i].key == us[i / m] {
      assert keys[i] == s[i].key;
    }
  }

  lemma StepDivision(n: nat, m: nat)
    requires m > 0
    ensures n % m == 0 ==> (n + m) / m == n / m + 1 == (n + m - 1) / m + 1 && n / m * m == n
    ensures n % m != 0 ==> n > 0 && (n + m) / m == (n + m - 1) / m && (n - 1) / m == n / m
    ensures n > 0 && n % m == 0 ==> (n - 1) / m == n / m - 1
  {
    var q, r := n / m, n % m;
    assert n == q * m + r;
    DivModUnique(n + m, m, q + 1, r);
    if r == 0 {
      DivModUnique(n + m - 1, m, q, m - 1);
      if n > 0 {
        DivModUnique(n - 1, m, q - 1, m - 1);
      }
    } else {
      DivModUnique(n + m - 1, m, q + 1, r - 1);
      DivModUnique(n - 1, m, q, r - 1);
    }
  }

  ghost predicate Multiples(starts: seq<nat>, m: nat, k: nat) {
    |starts| == k && forall w :: 0 <= w < k ==> starts[w] == w * m
  }

  lemma NewIdAt(s: seq<SortElement>, us: seq<nat>, m: nat, i: nat)
    requires Laid(s, us, m) && i < |s|
    ensures i == 0 || s[i].key != s[i - 1].key <==> IsMultiple(i, m)
  {
    StepDivision(i, m);
    if i == 0 {
      DivModUnique(0, m, 0, 0);
    } else if i % m == 0 {
      assert s[i].key == us[i / m] && s[i - 1].key == us[i / m - 1];
    } else {
      assert s[i].key == us[i / m] && s[i - 1].key == us[i / m];
    }
  }

  lemma StartsStep(s: seq<SortElement>, i: nat)
    requires i < |s|
    ensures WindowStarts(s[..i + 1])
         == WindowStarts(s[..i]) + if i == 0 || s[i].key != s[i - 1].key then [i] else []
  {
    assert s[..i + 1][..i] == s[..i];
  }

  lemma LaidSize(s: seq<SortElement>, us: seq<nat>, m: nat)
    requires Laid(s, us, m)
    ensures m > 0 && |s| == |us| * m
  {
  }

  lemma {:induction false} StartsUpTo(s: seq<SortElement>, us: seq<nat>, m: nat, n: nat)
    requires Laid(s, us, m) && n <= |s|
    ensures m > 0 && Multiples(WindowStarts(s[..n]), m, Windows(n, m))
    decreases n
  {
    hide WindowStarts, Laid, Windows, IsMultiple, Multiples;
    LaidSize(s, us, m);
    if n == 0 {
      NoStarts(s, m);
      NoWindows(m);
    } else {
      var before := WindowStarts(s[..n - 1]);
      StartsUpTo(s, us, m, n - 1);
      StartsStep(s, n - 1);
      NewIdAt(s, us, m, n - 1);
      NextMultiple(before, m, n - 1);
      assert before + [] == before;
    }
  }

  lemma NoStarts(s: seq<SortElement>, m: nat)
    ensures Multiples(WindowStarts(s[..0]), m, 0)
  {
  }

  /** The windows of m positions that start before position n. */
  function Windows(n: nat, m: nat): nat
    requires m > 0
  {
    Div(n + m - 1, m)
  }

  predicate IsMultiple(n: nat, m: nat)
    requires m > 0
  {
    n % m == 0
  }

  lemma NoWindows(m: nat)
    requires m > 0
    ensures Windows(0, m) == 0
  {
    DivModUnique(m - 1, m, 0, m - 1);
  }

  lemma NextWindow(n: nat, m: nat)
    requires m > 0
    ensures Windows(n + 1, m) == Windows(n, m) + if IsMultiple(n, m) then 1 else 0
    ensures IsMultiple(n, m) ==> n == Windows(n, m) * m
  {
    StepDivision(n, m);
  }

  lemma NextMultiple(starts: seq<nat>, m: nat, n: nat)
    requires m > 0 && Multiples(starts, m, Windows(n, m))
    ensures Multiples(if IsMultiple(n, m) then starts + [n] else starts, m, Windows(n + 1, m))
  {
    hide Windows, IsMultiple;
    NextWindow(n, m);
  }

  lemma CeilOfMultiple(k: nat, m: nat)
    requires m > 0
    ensures Windows(k * m, m) == k
  {
    DivModUnique(k * m + m - 1, m, k, m - 1);
  }

  lemma WindowBounds(w: nat, k: nat, m: nat)
    requires w < k
    ensures w * m + m == (w + 1) * m <= k * m
  {
    MulMonotone(m, w + 1, k);
  }

  /** One window per id, and it holds exactly that id's tuples. */
  lemma WindowsLaid(s: seq<SortElement>, us: seq<nat>, m: nat)
    requires Laid(s, us, m)
    ensures |WindowStarts(s)| == |us|
    ensures forall w :: 0 <= w < |us| ==> w * m + m <= |s| && WindowAt(s, w) == s[w * m..w * m + m]
  {
    hide WindowStarts, Laid, Windows;
    LaidSize(s, us, m);
    assert s[..|s|] == s;
    StartsUpTo(s, us, m, |s|);
    CeilOfMultiple(|us|, m);
    forall w | 0 <= w < |us| ensures w * m + m <= |s| && WindowAt(s, w) == s[w * m..w * m + m] {
      WindowBounds(w, |us|, m);
    }
  }

  /** Nothing outside window w has its id. */
  lemma OutsideWindow(s: seq<SortElement>, us: seq<nat>, m: nat, w: nat, i: nat)
    requires Laid(s, us, m) && w < |us| && i < |s|
    ensures s[i].key == us[w] <==> w * m <= i < w * m + m
  {
    var q := i / m;
    assert s[i].key == us[q];
    assert i == q * m + i % m;
    if q < w {
      WindowBounds(q, w, m);
    } else if w < q {
      WindowBounds(w, q, m);
    }
  }

  lemma CountMiddle(s: seq<SortElement>, a: nat, b: nat, f: SortElement -> bool)
    requires a <= b <= |s|
    requires forall i :: 0 <= i < |s| && f(s[i]) ==> a <= i < b
    ensures Count(s, f) == Count(s[a..b], f)
  {
    hide Count;
    assert s == s[..a] + (s[a..b] + s[b..]);
    CountConcat(s[..a], s[a..b] + s[b..], f);
    CountConcat(s[a..b], s[b..], f);
    CountNone(s[..a], f);
    forall i | 0 <= i < |s[b..]| ensures !f(s[b..][i]) {
      assert s[b..][i] == s[b + i];
    }
    CountNone(s[b..], f);
  }

  lemma WindowHasAll(s: seq<SortElement>, us: seq<nat>, m: nat, w: nat, f: SortElement -> bool)
    requires Laid(s, us, m) && w < |us|
    requires forall e :: f(e) ==> e.key == us[w]
    ensures w * m + m <= |s| && Count(s[w * m..w * m + m], f) == Count(s, f)
  {
    WindowBounds(w, |us|, m);
    forall i | 0 <= i < |s| && f(s[i]) ensures w * m <= i < w * m + m {
      OutsideWindow(s, us, m, w, i);
    }
    CountMiddle(s, w * m, w * m + m, f);
  }

  // ----------------------------------------------------------------------
  // What the bag holds

  /** Party p's place for id u. */
  function Slot(u: nat, p: nat): SortElement -> bool {
    (e: SortElement) => e.key == u && MetaParty(Meta(e)) == p
  }

  /** A real tuple of party p for id u that carries `data`. */
  function Supplier(u: nat, p: nat, W: nat, data: seq<Block>): SortElement -> bool {
    (e: SortElement) => e.key == u && MetaParty(Meta(e)) == p && MetaReal(Meta(e)) && DataPart(W)(e) == data
  }

  /** The party's input meets the caps the padding checks. */
  ghost predicate TableOk(table: seq<PlainInput>, M: nat, W: nat) {
    && (forall i :: 0 <= i < |table| ==> |table[i].data| == W)
    && forall u :: |RowsFor(table, u)| <= M
  }

  ghost predicate TablesOk(tables: PlainTables, M: nat, W: nat) {
    forall p :: 0 <= p < |tables| ==> TableOk(tables[p], M, W)
  }

  lemma PadTupleMeta(rows: seq<PlainInput>, u: nat, p: nat, r: nat, W: nat)
    requires p < U32 && r < U32
    ensures var e := PadTuple(rows, u, p, r, W);
            && e.key == u && MetaParty(Meta(e)) == p && (MetaReal(Meta(e)) <==> r < |rows|)
            && (r < |rows| && |rows[r].data| == W ==> DataPart(W)(e) == rows[r].data)
            && (r < |rows| ==> |e.payload| == 1 + |rows[r].data|) && (r >= |rows| ==> |e.payload| == 1 + W)
  {
    UnpackTupleMeta(p, r, r < |rows|);
  }

  lemma {:induction false} CountAligned<S, T>(a: seq<S>, b: seq<T>, f: S -> bool, g: T -> bool)
    requires |a| >= |b|
    requires forall i :: 0 <= i < |b| ==> f(a[i]) == g(b[i])
    requires forall i :: |b| <= i < |a| ==> !f(a[i])
    ensures Count(a, f) == Count(b, g)
  {
    if b == [] {
      CountNone(a, f);
    } else {
      assert forall i :: 0 <= i < |b[1..]| ==> f(a[1..][i]) == g(b[1..][i]) by {
        assert forall i :: 0 <= i < |b[1..]| ==> a[1..][i] == a[i + 1] && b[1..][i] == b[i + 1];
      }
      assert forall i :: |b[1..]| <= i < |a[1..]| ==> a[1..][i] == a[i + 1];
      CountAligned(a[1..], b[1..], f, g);
    }
  }

  function CarriesData(data: seq<Block>): PlainInput -> bool {
    (r: PlainInput) => r.data == data
  }

  lemma {:induction false} CountEvery<T>(s: seq<T>, f: T -> bool)
    requires forall i :: 0 <= i < |s| ==> f(s[i])
    ensures Count(s, f) == |s|
  {
    if s != [] {
      assert forall i :: 0 <= i < |s[1..]| ==> s[1..][i] == s[i + 1];
      CountEvery(s[1..], f);
    }
  }

  lemma PartyCounts(table: seq<PlainInput>, u: nat, p: nat, M: nat, W: nat, data: seq<Block>)
    requires TableOk(table, M, W) && p < U32 && M < U32
    ensures Count(PartyTuples(table, u, p, M, W), Slot(u, p)) == M
    ensures Count(PartyTuples(table, u, p, M, W), Supplier(u, p, W, data)) == Count(table, SuppliesPlain(u, data))
  {
    var rows, s := RowsFor(table, u), PartyTuples(table, u, p, M, W);
    SelectCount(table, HasId(u));
    forall r | 0 <= r < M
      ensures s[r] == PadTuple(rows, u, p, r, W) && Slot(u, p)(s[r])
      ensures Supplier(u, p, W, data)(s[r]) == (r < |rows| && rows[r].data == data)
    {
      PadTupleMeta(rows, u, p, r, W);
    }
    hide PadTuple, Select, Count, MetaParty, MetaReal, Meta;
    CountEvery(s, Slot(u, p));
    CountAligned(s, rows, Supplier(u, p, W, data), CarriesData(data));
    CountSelect(table, HasId(u), CarriesData(data), SuppliesPlain(u, data));
  }

  /** Only party p's tuples can meet a condition on party p. */
  lemma {:induction false} IdTuplesCount(tables: PlainTables, u: nat, M: nat, W: nat, n: nat, p: nat, f: SortElement -> bool)
    requires n <= |tables| && |tables| <= U32 && M < U32
    requires forall e :: f(e) ==> Slot(u, p)(e)
    ensures Count(IdTuples(tables, u, M, W, n), f)
         == if p < n then Count(PartyTuples(tables[p], u, p, M, W), f) else 0
  {
    hide IdTuples, PartyTuples, Count;
    IdTuplesUnfold(tables, u, M, W, n, f);
    if n > 0 {
      IdTuplesCount(tables, u, M, W, n - 1, p, f);
      var last := PartyTuples(tables[n - 1], u, n - 1, M, W);
      CountConcat(IdTuples(tables, u, M, W, n - 1), last, f);
      if p != n - 1 {
        OtherParty(tables[n - 1], u, n - 1, p, M, W, f);
      }
    }
  }

  lemma IdTuplesUnfold(tables: PlainTables, u: nat, M: nat, W: nat, n: nat, f: SortElement -> bool)
    requires n <= |tables|
    ensures IdTuples(tables, u, M, W, n)
         == if n == 0 then [] else IdTuples(tables, u, M, W, n - 1) + PartyTuples(tables[n - 1], u, n - 1, M, W)
    ensures Count([], f) == 0
  {
  }

  lemma OtherParty(table: seq<PlainInput>, u: nat, q: nat, p: nat, M: nat, W: nat, f: SortElement -> bool)
    requires q < U32 && M < U32 && p != q
    requires forall e :: f(e) ==> Slot(u, p)(e)
    ensures Count(PartyTuples(table, u, q, M, W), f) == 0
  {
    var tuples := PartyTuples(table, u, q, M, W);
    forall r | 0 <= r < M ensures !f(tuples[r]) {
      PadTupleMeta(RowsFor(table, u), u, q, r, W);
    }
    CountNone(tuples, f);
  }

  lemma {:induction false} BagCount(tables: PlainTables, us: seq<nat>, M: nat, W: nat, u: nat, f: SortElement -> bool)
    requires Increasing(us)
    requires forall e :: f(e) ==> e.key == u
    ensures Count(PaddedBag(tables, us, M, W), f) == if u in us then Count(IdTuples(tables, u, M, W, |tables|), f) else 0
  {
    if us != [] {
      var here := IdTuples(tables, us[0], M, W, |tables|);
      BagCount(tables, us[1..], M, W, u, f);
      CountConcat(here, PaddedBag(tables, us[1..], M, W), f);
      if us[0] == u {
        assert u !in us[1..];
      } else {
        IdTuplesKeys(tables, us[0], M, W, |tables|);
        forall i | 0 <= i < |here| ensures !f(here[i]) {
          assert Map(here, KeyOf())[i] == us[0];
        }
        CountNone(here, f);
        assert u in us <==> u in us[1..];
      }
    }
  }

  /** In the padded bag each party has M places per id, and supplies what its table holds. */
  lemma BagHolds(tables: PlainTables, us: seq<nat>, M: nat, W: nat, u: nat, p: nat, data: seq<Block>)
    requires Increasing(us) && TablesOk(tables, M, W) && p < |tables| <= U32 && M < U32
    ensures Count(PaddedBag(tables, us, M, W), Slot(u, p)) == if u in us then M else 0
    ensures Count(PaddedBag(tables, us, M, W), Supplier(u, p, W, data))
         == if u in us then Count(tables[p], SuppliesPlain(u, data)) else 0
  {
    BagCount(tables, us, M, W, u, Slot(u, p));
    BagCount(tables, us, M, W, u, Supplier(u, p, W, data));
    IdTuplesCount(tables, u, M, W, |tables|, p, Slot(u, p));
    IdTuplesCount(tables, u, M, W, |tables|, p, Supplier(u, p, W, data));
    PartyCounts(tables[p], u, p, M, W, data);
  }

  // ----------------------------------------------------------------------
  // One window's rows

  lemma {:induction false} FlattenPlaces<T>(parts: seq<seq<T>>, W: nat, p: nat, i: nat)
    requires (forall q :: 0 <= q < |parts| ==> |parts[q]| == W) && p < |parts| && i < W
    ensures p * W + i < |Flatten(parts)| && Flatten(parts)[p * W + i] == parts[p][i]
    decreases p
  {
    FlattenParts(parts[1..], [], W);
    if p > 0 {
      FlattenPlaces(parts[1..], W, p - 1, i);
      SplitSize(p, W);
    }
  }

  /** Any combination's row: block i of party p at p W + i, an intersection row exactly when every tuple is flagged real. */
  lemma PlainRowPlaces(v: seq<SortElement>, u: nat, W: nat, p: nat, i: nat)
    requires LongEnough(v, W) && p < |v| && i < W
    ensures var row := ToPlainRow(u, W)(v);
            && row.id == u && |row.data| == |v| * W && p * W + i < |row.data| && row.data[p * W + i] == v[p].payload[1 + i]
            && (row.inter <==> forall q :: 0 <= q < |v| ==> v[q].payload[0] / 0x1_0000_0000_0000_0000 % 256 != 0)
  {
    hide Flatten;
    var parts := Map(v, DataPart(W));
    FlattenParts(parts, [], W);
    FlattenPlaces(parts, W, p, i);
    assert forall q :: 0 <= q < |v| ==> IsReal()(v[q]) == (v[q].payload[0] / 0x1_0000_0000_0000_0000 % 256 != 0);
  }

  lemma {:induction false} FlattenParts<T>(parts: seq<seq<T>>, data: seq<T>, W: nat)
    requires forall p :: 0 <= p < |parts| ==> |parts[p]| == W
    ensures |Flatten(parts)| == |parts| * W
    ensures |data| == |parts| * W ==> (Flatten(parts) == data <==> parts == Split(data, |parts|, W))
  {
    if parts != [] {
      SplitSize(|parts|, W);
      if |data| == |parts| * W {
        var head, tail := parts[0], Flatten(parts[1..]);
        FlattenParts(parts[1..], data[W..], W);
        assert data == data[..W] + data[W..];
        assert (head + tail)[..W] == head && (head + tail)[W..] == tail;
        assert parts == [head] + parts[1..];
        var split := Split(data, |parts|, W);
        assert split == [data[..W]] + split[1..];
      } else {
        FlattenParts(parts[1..], Flatten(parts[1..]), W);
      }
    }
  }

  /** A real tuple whose data is `data`. */
  function Brings(W: nat, data: seq<Block>): SortElement -> bool {
    (e: SortElement) => MetaReal(Meta(e)) && DataPart(W)(e) == data
  }

  function Wanted(row: PlainRow, N: nat, W: nat): (qs: seq<SortElement -> bool>)
    requires |row.data| == N * W
    ensures |qs| == N
  {
    var parts := Split(row.data, N, W);
    seq(N, p requires 0 <= p < N => Brings(W, parts[p]))
  }

  lemma RowMatches(v: seq<SortElement>, row: PlainRow, u: nat, W: nat)
    requires LongEnough(v, W) && row.inter
    ensures ToPlainRow(u, W)(v) == row
       <==> u == row.id && |row.data| == |v| * W && AllOf(Wanted(row, |v|, W))(v)
  {
    var parts := Map(v, DataPart(W));
    FlattenParts(parts, row.data, W);
    if |row.data| == |v| * W {
      var split, qs := Split(row.data, |v|, W), Wanted(row, |v|, W);
      if AllOf(qs)(v) {
        forall p | 0 <= p < |v| ensures IsReal()(v[p]) && parts[p] == split[p] {
          assert qs[p](v[p]);
        }
        assert parts == split;
      }
      if AllRealTuples(v) && parts == split {
        forall p | 0 <= p < |v| ensures qs[p](v[p]) {
          assert IsReal()(v[p]) && parts[p] == split[p];
        }
      }
    }
  }

  lemma ChoiceMember(win: seq<SortElement>, N: nat, M: nat, c: nat)
    requires M > 0 && (forall p :: 0 <= p < N ==> |ByParty(win, N)[p]| == M) && c < |Choices(ByParty(win, N))|
    ensures var v := Choices(ByParty(win, N))[c]; |v| == N && forall p :: 0 <= p < N ==> v[p] in win
  {
    var groups := ByParty(win, N);
    ChoiceAt(groups, M, c);
    var ds, v := Digits(c, N, M), Choices(groups)[c];
    forall p | 0 <= p < N ensures v[p] in win {
      SelectCount(win, OfParty(p));
      assert v[p] == groups[p][ds[p]];
    }
  }

  /** How many tuples of each party supply their part of `row`. */
  function SupplierCounts(s: seq<SortElement>, row: PlainRow, N: nat, W: nat): (ns: seq<nat>)
    requires |row.data| == N * W
    ensures |ns| == N
  {
    var parts := Split(row.data, N, W);
    seq(N, p requires 0 <= p < N => Count(s, Supplier(row.id, p, W, parts[p])))
  }

  lemma GroupsSupply(win: seq<SortElement>, row: PlainRow, N: nat, W: nat)
    requires |row.data| == N * W && forall i :: 0 <= i < |win| ==> win[i].key == row.id
    ensures CountEach(ByParty(win, N), Wanted(row, N, W)) == SupplierCounts(win, row, N, W)
  {
    var parts := Split(row.data, N, W);
    forall p | 0 <= p < N
      ensures Count(ByParty(win, N)[p], Wanted(row, N, W)[p]) == Count(win, Supplier(row.id, p, W, parts[p]))
    {
      forall i | 0 <= i < |win|
        ensures Supplier(row.id, p, W, parts[p])(win[i]) == (OfParty(p)(win[i]) && Brings(W, parts[p])(win[i]))
      {
        assert win[i].key == row.id;
      }
      CountSelect(win, OfParty(p), Brings(W, parts[p]), Supplier(row.id, p, W, parts[p]));
    }
  }

  lemma ChoiceOk(win: seq<SortElement>, N: nat, M: nat, W: nat, c: nat)
    requires WindowOk(win, N, M, W) && M > 0 && c < |Choices(ByParty(win, N))|
    ensures var v := Choices(ByParty(win, N))[c]; |v| == N && LongEnough(v, W)
  {
    hide Choices;
    ChoiceMember(win, N, M, c);
  }

  lemma WindowCountsRow(win: seq<SortElement>, u: nat, N: nat, M: nat, W: nat, row: PlainRow)
    requires WindowOk(win, N, M, W) && M > 0 && win != [] && row.inter
    requires forall i :: 0 <= i < |win| ==> win[i].key == u
    ensures Count(PlainWindow(win, N, W), Is(row))
         == if u == row.id && |row.data| == N * W then Product(SupplierCounts(win, row, N, W)) else 0
  {
    hide WindowOk, ByParty, Choices, Wanted, SupplierCounts, Product, LongEnough;
    var groups := ByParty(win, N);
    var cs := Choices(groups);
    forall c | 0 <= c < |cs|
      ensures ToPlainRow(u, W)(cs[c]) == row
         <==> u == row.id && |row.data| == N * W && AllOf(Wanted(row, N, W))(cs[c])
    {
      ChoiceOk(win, N, M, W, c);
      RowMatches(cs[c], row, u, W);
    }
    if u == row.id && |row.data| == N * W {
      var qs := Wanted(row, N, W);
      CountMap(cs, ToPlainRow(u, W), Is(row), AllOf(qs));
      CountChoices(groups, qs);
      GroupsSupply(win, row, N, W);
    } else {
      CountNone(Map(cs, ToPlainRow(u, W)), Is(row));
    }
  }

  // ----------------------------------------------------------------------
  // All windows

  ghost predicate WideBag(s: seq<SortElement>, N: nat, W: nat) {
    forall i :: 0 <= i < |s| ==> MetaParty(Meta(s[i])) < N && |s[i].payload| == 1 + W
  }

  lemma {:induction false} IdTuplesWide(tables: PlainTables, u: nat, M: nat, W: nat, n: nat)
    requires n <= |tables| <= U32 && M < U32 && TablesOk(tables, M, W)
    ensures WideBag(IdTuples(tables, u, M, W, n), |tables|, W)
  {
    if n > 0 {
      IdTuplesWide(tables, u, M, W, n - 1);
      var rows, last := RowsFor(tables[n - 1], u), PartyTuples(tables[n - 1], u, n - 1, M, W);
      SelectCount(tables[n - 1], HasId(u));
      forall r | 0 <= r < M ensures MetaParty(Meta(last[r])) < |tables| && |last[r].payload| == 1 + W {
        PadTupleMeta(rows, u, n - 1, r, W);
        assert r < |rows| ==> rows[r] in tables[n - 1];
      }
    }
  }

  lemma {:induction false} BagWide(tables: PlainTables, us: seq<nat>, M: nat, W: nat)
    requires |tables| <= U32 && M < U32 && TablesOk(tables, M, W)
    ensures WideBag(PaddedBag(tables, us, M, W), |tables|, W)
  {
    if us != [] {
      IdTuplesWide(tables, us[0], M, W, |tables|);
      BagWide(tables, us[1..], M, W);
    }
  }

  lemma WidePermuted(s: seq<SortElement>, t: seq<SortElement>, N: nat, W: nat)
    requires multiset(s) == multiset(t) && WideBag(t, N, W)
    ensures WideBag(s, N, W)
  {
    forall i | 0 <= i < |s| ensures MetaParty(Meta(s[i])) < N && |s[i].payload| == 1 + W {
      assert s[i] in multiset(s);
      assert s[i] in t;
    }
  }

  /** `s` is an ascending arrangement of the padded bag. */
  ghost predicate SortedBag(s: seq<SortElement>, tables: PlainTables, us: seq<nat>, M: nat, W: nat) {
    && 0 < |tables| < U32 && 0 < M < U32 && TablesOk(tables, M, W) && IsUniverse(us, tables)
    && Sorted(true, s) && multiset(s) == multiset(PaddedBag(tables, us, M, W))
  }

  /** The expander's checks never fire on padded input. */
  lemma PaddedWindowsOk(s: seq<SortElement>, tables: PlainTables, us: seq<nat>, M: nat, W: nat)
    requires SortedBag(s, tables, us, M, W)
    ensures Laid(s, us, |tables| * M) && |WindowStarts(s)| == |us|
    ensures WindowsOk(s, |tables|, M, W, |us|)
  {
    hide PaddedBag, WindowStarts, Laid;
    var N := |tables|;
    SortedIsLaid(tables, us, M, W, s);
    WindowsLaid(s, us, N * M);
    BagWide(tables, us, M, W);
    WidePermuted(s, PaddedBag(tables, us, M, W), N, W);
    forall w | 0 <= w < |us| ensures WindowOk(WindowAt(s, w), N, M, W) {
      WindowIsOk(s, tables, us, M, W, w);
    }
  }

  lemma GroupSize(s: seq<SortElement>, tables: PlainTables, us: seq<nat>, M: nat, W: nat, w: nat, m: nat, p: nat)
    requires SortedBag(s, tables, us, M, W) && m == |tables| * M && Laid(s, us, m) && w < |us| && p < |tables|
    requires w * m + m <= |s|
    ensures |Select(s[w * m..w * m + m], OfParty(p))| == M
  {
    hide Laid, PaddedBag, TablesOk, Select, Count;
    var win := s[w * m..w * m + m];
    forall i | 0 <= i < m ensures win[i].key == us[w] {
      OutsideWindow(s, us, m, w, w * m + i);
    }
    SelectCount(win, OfParty(p));
    CountSame(win, OfParty(p), Slot(us[w], p));
    WindowHasAll(s, us, m, w, Slot(us[w], p));
    CountPermuted(s, PaddedBag(tables, us, M, W), Slot(us[w], p));
    IncreasingUniverse(us, tables);
    hide IsUniverse;
    BagHolds(tables, us, M, W, us[w], p, []);
  }

  lemma WindowIsOk(s: seq<SortElement>, tables: PlainTables, us: seq<nat>, M: nat, W: nat, w: nat)
    requires SortedBag(s, tables, us, M, W) && Laid(s, us, |tables| * M) && w < |us| && WideBag(s, |tables|, W)
    requires w * (|tables| * M) + |tables| * M <= |s|
    ensures WindowOk(s[w * (|tables| * M)..w * (|tables| * M) + |tables| * M], |tables|, M, W)
  {
    assert M > 0;
    hide Laid, SortedBag;
    var m := |tables| * M;
    var a := w * m;
    assert a == w * (|tables| * M);
    var win := s[a..a + m];
    var groups := ByParty(win, |tables|);
    forall p | 0 <= p < |tables| ensures |groups[p]| == M {
      GroupSize(s, tables, us, M, W, w, m, p);
    }
    assert forall i :: 0 <= i < m ==> win[i] == s[a + i];
    forall c | 0 <= c < |Choices(groups)| ensures LongEnough(Choices(groups)[c], W) {
      hide Choices;
      ChoiceMember(win, |tables|, M, c);
    }
    hide Choices, ByParty;
    assert WindowOk(win, |tables|, M, W);
  }

  lemma IncreasingUniverse(us: seq<nat>, tables: PlainTables)
    requires IsUniverse(us, tables)
    ensures Increasing(us)
  {
  }

  lemma WindowSupplies(s: seq<SortElement>, us: seq<nat>, m: nat, w: nat, row: PlainRow, N: nat, W: nat)
    requires Laid(s, us, m) && w < |us| && us[w] == row.id && |row.data| == N * W
    requires w * m + m <= |s|
    ensures SupplierCounts(s[w * m..w * m + m], row, N, W) == SupplierCounts(s, row, N, W)
  {
    hide Laid, Count, Split;
    var parts := Split(row.data, N, W);
    forall p | 0 <= p < N
      ensures Count(s[w * m..w * m + m], Supplier(row.id, p, W, parts[p])) == Count(s, Supplier(row.id, p, W, parts[p]))
    {
      WindowHasAll(s, us, m, w, Supplier(row.id, p, W, parts[p]));
    }
  }

  /** The product of the supplies, for a row of the right width. */
  function RowTotal(s: seq<SortElement>, row: PlainRow, N: nat, W: nat): nat {
    if |row.data| == N * W then Product(SupplierCounts(s, row, N, W)) else 0
  }

  lemma WindowYields(s: seq<SortElement>, us: seq<nat>, N: nat, M: nat, W: nat, row: PlainRow, w: nat)
    requires N > 0 && M > 0 && Laid(s, us, N * M) && w < |us| == |WindowStarts(s)| && row.inter
    requires WindowOk(WindowAt(s, w), N, M, W)
    ensures Count(PlainWindow(WindowAt(s, w), N, W), Is(row))
         == if us[w] == row.id then RowTotal(s, row, N, W) else 0
  {
    hide SupplierCounts, Product, PlainWindow, WindowStarts, WindowOk, Laid;
    var m := N * M;
    WindowsLaid(s, us, m);
    var win := WindowAt(s, w);
    assert win == s[w * m..w * m + m];
    forall i | 0 <= i < |win| ensures win[i].key == us[w] {
      OutsideWindow(s, us, m, w, w * m + i);
    }
    WindowCountsRow(win, us[w], N, M, W, row);
    if us[w] == row.id && |row.data| == N * W {
      WindowSupplies(s, us, m, w, row, N, W);
    }
  }

  /** Only the window with the row's id yields it. */
  lemma {:induction false} ExpandCounts(s: seq<SortElement>, us: seq<nat>, N: nat, M: nat, W: nat, row: PlainRow, k: nat)
    requires N > 0 && M > 0 && Laid(s, us, N * M) && k <= |us| == |WindowStarts(s)| && row.inter
    requires WindowsOk(s, N, M, W, |us|)
    ensures Count(PlainExpand(s, N, W, k), Is(row))
         == if row.id in us[..k] then RowTotal(s, row, N, W) else 0
  {
    if k > 0 {
      hide RowTotal, PlainWindow, WindowStarts, WindowOk, Laid;
      ExpandCounts(s, us, N, M, W, row, k - 1);
      CountConcat(PlainExpand(s, N, W, k - 1), PlainWindow(WindowAt(s, k - 1), N, W), Is(row));
      WindowYields(s, us, N, M, W, row, k - 1);
      LastOf(us, k, row.id, s, N * M);
    }
  }

  lemma LastOf(us: seq<nat>, k: nat, u: nat, s: seq<SortElement>, m: nat)
    requires 0 < k <= |us| && Laid(s, us, m)
    ensures u in us[..k] <==> u == us[k - 1] || u in us[..k - 1]
    ensures us[k - 1] !in us[..k - 1]
  {
    assert us[..k] == us[..k - 1] + [us[k - 1]];
  }

  /** A sorted padded bag supplies exactly what the tables do. */
  lemma BagSupplies(s: seq<SortElement>, tables: PlainTables, us: seq<nat>, M: nat, W: nat, row: PlainRow)
    requires SortedBag(s, tables, us, M, W) && |row.data| == |tables| * W
    ensures row.id in us ==> SupplierCounts(s, row, |tables|, W) == PlainSuppliers(tables, W, row)
    ensures row.id !in us ==> Product(PlainSuppliers(tables, W, row)) == 0
  {
    var N := |tables|;
    var parts := Split(row.data, N, W);
    if row.id in us {
      forall p | 0 <= p < N
        ensures Count(s, Supplier(row.id, p, W, parts[p])) == Count(tables[p], SuppliesPlain(row.id, parts[p]))
      {
        hide PaddedBag, Count;
        CountPermuted(s, PaddedBag(tables, us, M, W), Supplier(row.id, p, W, parts[p]));
        BagHolds(tables, us, M, W, row.id, p, parts[p]);
      }
    } else {
      CountNone(tables[0], SuppliesPlain(row.id, parts[0]));
      ProductZero(PlainSuppliers(tables, W, row), 0);
    }
  }

  lemma ExpandIsRelational(s: seq<SortElement>, tables: PlainTables, us: seq<nat>, M: nat, W: nat, row: PlainRow)
    requires SortedBag(s, tables, us, M, W) && row.inter
    ensures |WindowStarts(s)| == |us|
    ensures multiset(PlainExpand(s, |tables|, W, |us|))[row] == PlainMultiplicity(tables, W, row)
  {
    hide PlainExpand, SupplierCounts, Product, PlainSuppliers, WindowStarts, Laid, PaddedBag, IsUniverse;
    PaddedWindowsOk(s, tables, us, M, W);
    ExpandCounts(s, us, |tables|, M, W, row, |us|);
    CountIs(PlainExpand(s, |tables|, W, |us|), row);
    assert us[..|us|] == us;
    if |row.data| == |tables| * W {
      BagSupplies(s, tables, us, M, W, row);
    }
  }

  // ----------------------------------------------------------------------
  // The filter

  ghost predicate Ids64(rows: seq<PlainRow>) {
    forall i :: 0 <= i < |rows| ==> rows[i].id < U64
  }

  lemma DecodeEncode(r: PlainRow)
    requires r.id < U64
    ensures DecodeRow()(EncodeRow()(r)) == r
    ensures EncodeRow()(r) == if r.inter then Elem(0, [r.id + 0x1_0000_0000_0000_0000] + r.data) else Elem(1, [r.id] + r.data)
  {
    DivModUnique(r.id + U64 * Bit(r.inter), U64, Bit(r.inter), r.id);
  }

  lemma EncodedRanks(rows: seq<PlainRow>)
    ensures SentinelFree(Map(rows, EncodeRow()))
  {
  }

  /** Filtering permutes the rows and puts the intersection rows first. */
  lemma FilterSorts(rows: seq<PlainRow>)
    requires Ids64(rows)
    ensures multiset(FilterRows(rows)) == multiset(rows)
    ensures forall i, j :: 0 <= i < j < |rows| && FilterRows(rows)[j].inter ==> FilterRows(rows)[i].inter
  {
    var encoded := Map(rows, EncodeRow());
    var sorted := SortPadded(true, encoded, ZeroPayload(encoded));
    hide SortPadded, Sort;
    EncodedRanks(rows);
    SortPaddedSorts(true, encoded, ZeroPayload(encoded));
    SortPaddedPermutes(true, encoded, ZeroPayload(encoded));
    MapPermuted(sorted, encoded, DecodeRow());
    forall i | 0 <= i < |rows| ensures Map(encoded, DecodeRow())[i] == rows[i] {
      DecodeEncode(rows[i]);
    }
    assert Map(encoded, DecodeRow()) == rows;
    forall i | 0 <= i < |sorted| ensures sorted[i].key == Bit(!FilterRows(rows)[i].inter) {
      assert sorted[i] in multiset(encoded);
      var r :| r in rows && sorted[i] == EncodeRow()(r);
      DecodeEncode(r);
    }
  }

  lemma {:induction false} InterPrefix(t: seq<PlainRow>, k: nat)
    requires k == Count(t, IsInter()) && forall i, j :: 0 <= i < j < |t| && t[j].inter ==> t[i].inter
    ensures k <= |t| && Select(t, IsInter()) == t[..k]
  {
    hide Count, Select;
    InterUnfolds(t);
    if t != [] {
      var rest := t[1..];
      forall i, j | 0 <= i < j < |rest| && rest[j].inter ensures rest[i].inter {
        assert rest[i] == t[i + 1] && rest[j] == t[j + 1];
      }
      InterPrefix(rest, Count(rest, IsInter()));
      if !t[0].inter {
        CountNone(rest, IsInter());
      } else {
        assert t[..k] == [t[0]] + rest[..k - 1];
      }
    }
  }

  lemma InterUnfolds(t: seq<PlainRow>)
    ensures Count(t, IsInter()) == if t == [] then 0 else Bit(t[0].inter) + Count(t[1..], IsInter())
    ensures Select(t, IsInter())
         == if t == [] then [] else (if t[0].inter then [t[0]] else []) + Select(t[1..], IsInter())
  {
  }

  /** Filtering and truncating to the count leaves exactly the intersection rows. */
  lemma FilterAndTruncateKeeps(rows: seq<PlainRow>)
    requires Ids64(rows)
    ensures var k := Count(FilterRows(rows), IsInter());
            && k == Count(rows, IsInter()) <= |rows|
            && forall row: PlainRow ::
                 multiset(FilterRows(rows)[..k])[row] == if row.inter then multiset(rows)[row] else 0
  {
    hide FilterRows;
    var t := FilterRows(rows);
    var k := Count(t, IsInter());
    FilterSorts(rows);
    CountPermuted(t, rows, IsInter());
    InterPrefix(t, k);
    forall row: PlainRow ensures multiset(t[..k])[row] == if row.inter then multiset(rows)[row] else 0 {
      CountIs(t[..k], row);
      if row.inter {
        CountSelect(t, IsInter(), Is(row), Is(row));
        CountIs(t, row);
      } else {
        SelectCount(t, IsInter());
        CountNone(t[..k], Is(row));
      }
    }
  }
}

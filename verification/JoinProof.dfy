/** The SP-blind join computes the relational join, on every padded input. */
module JoinProof {
  import opened Words
  import opened Network
  import opened Counting
  import opened JoinModel
  import opened JoinLayout

  // ----------------------------------------------------------------------
  // One row against one choice of tuples

  ghost predicate Wide(s: seq<Tuple>, B: nat) {
    forall i :: 0 <= i < |s| ==> |s[i].payload| == 1 + B
  }

  lemma {:induction false} ConcatSize(v: seq<Tuple>, B: nat)
    requires Wide(v, B)
    ensures |ConcatData(v)| == |v| * B
  {
    if v != [] {
      ConcatSize(v[1..], B);
      SplitSize(|v|, B);
    }
  }

  lemma {:induction false} ConcatPlaces(v: seq<Tuple>, B: nat, p: nat, i: nat)
    requires Wide(v, B) && p < |v| && i < B
    ensures p * B + i < |ConcatData(v)| && ConcatData(v)[p * B + i] == v[p].payload[1 + i]
    decreases p
  {
    ConcatSize(v[1..], B);
    if p > 0 {
      ConcatPlaces(v[1..], B, p - 1, i);
      SplitSize(p, B);
    }
  }

  /** Any combination's row: the id part of the first key, bit i of party p at p B + i, the AND of the real flags. */
  lemma RowPlaces(v: seq<Tuple>, B: nat, pb: nat, p: nat, i: nat)
    requires Wide(v, B) && p < |v| && i < B
    ensures var row := ToRow(pb)(v);
            && row.id == v[0].key / Pow2(pb) && (row.inter <==> forall q :: 0 <= q < |v| ==> v[q].payload[0])
            && |row.data| == |v| * B && p * B + i < |row.data| && row.data[p * B + i] == v[p].payload[1 + i]
  {
    hide ConcatData;
    ConcatSize(v, B);
    ConcatPlaces(v, B, p, i);
  }

  /** The joined data is `data` exactly when each tuple brings its own part. */
  lemma {:induction false} ConcatParts(v: seq<Tuple>, data: Bits, B: nat)
    requires Wide(v, B) && |data| == |v| * B
    ensures ConcatData(v) == data
       <==> forall p :: 0 <= p < |v| ==> v[p].payload[1..] == Split(data, |v|, B)[p]
  {
    if v != [] {
      SplitSize(|v|, B);
      var parts := Split(data, |v|, B);
      assert parts[1..] == Split(data[B..], |v| - 1, B);
      ConcatParts(v[1..], data[B..], B);
      ConcatSize(v[1..], B);
      var head, tail := v[0].payload[1..], ConcatData(v[1..]);
      assert ConcatData(v) == head + tail;
      assert data == data[..B] + data[B..];
      if ConcatData(v) == data {
        assert head == ConcatData(v)[..B] && tail == ConcatData(v)[B..];
      }
      ConsForall(v, parts);
    }
  }

  lemma ConsForall(v: seq<Tuple>, parts: seq<Bits>)
    requires |v| == |parts| > 0 && forall p :: 0 <= p < |v| ==> v[p].payload != []
    ensures (forall p :: 0 <= p < |v| ==> v[p].payload[1..] == parts[p])
       <==> v[0].payload[1..] == parts[0] && forall p :: 0 <= p < |v[1..]| ==> v[1..][p].payload[1..] == parts[1..][p]
  {
    if forall p :: 0 <= p < |v[1..]| ==> v[1..][p].payload[1..] == parts[1..][p] {
      forall p | 1 <= p < |v| ensures v[p].payload[1..] == parts[p] {
        assert v[1..][p - 1].payload[1..] == parts[1..][p - 1];
      }
    }
    if forall p :: 0 <= p < |v| ==> v[p].payload[1..] == parts[p] {
      forall p | 0 <= p < |v[1..]| ensures v[1..][p].payload[1..] == parts[1..][p] {
        assert v[p + 1].payload[1..] == parts[p + 1];
      }
    }
  }

  function HasPayload(payload: Bits): Tuple -> bool {
    (e: Tuple) => e.payload == payload
  }

  /** What each party's tuple must carry to produce `row`. */
  function Wanted(row: JoinRow, N: nat, B: nat): (qs: seq<Tuple -> bool>)
    requires |row.data| == N * B
    ensures |qs| == N
  {
    var parts := Split(row.data, N, B);
    seq(N, p requires 0 <= p < N => HasPayload([true] + parts[p]))
  }

  lemma RowMatches(v: seq<Tuple>, row: JoinRow, t: nat, pb: nat, B: nat)
    requires Wide(v, B) && v != [] && IdPart(v[0].key, pb) == t
    requires row.inter && |row.data| == |v| * B
    ensures ToRow(pb)(v) == row <==> t == row.id && AllOf(Wanted(row, |v|, B))(v)
  {
    var parts, qs := Split(row.data, |v|, B), Wanted(row, |v|, B);
    ConcatParts(v, row.data, B);
    if AllReal(v) && ConcatData(v) == row.data {
      forall p | 0 <= p < |v| ensures qs[p](v[p]) {
        assert v[p].payload == [v[p].payload[0]] + v[p].payload[1..];
      }
    }
    if AllOf(qs)(v) {
      forall p | 0 <= p < |v| ensures v[p].payload == [true] + parts[p] {
        assert qs[p](v[p]);
      }
    }
  }

  /** A row with data of the wrong width is never produced. */
  lemma RowMismatch(v: seq<Tuple>, row: JoinRow, pb: nat, B: nat)
    requires Wide(v, B) && |row.data| != |v| * B
    ensures ToRow(pb)(v) != row
  {
    ConcatSize(v, B);
  }

  // ----------------------------------------------------------------------
  // One window

  lemma {:induction false} SplitMembers<T>(s: seq<T>, n: nat, m: nat, p: nat, d: nat)
    requires |s| == n * m && p < n && d < m
    ensures p * m + d < |s| && Split(s, n, m)[p][d] == s[p * m + d]
    decreases n
  {
    SplitSize(n, m);
    SplitUnfolds(s, n, m);
    hide Split;
    if p > 0 {
      SplitSize(p, m);
      SplitMembers(s[m..], n - 1, m, p - 1, d);
    }
  }

  lemma SplitUnfolds<T>(s: seq<T>, n: nat, m: nat)
    requires |s| == n * m && n > 0
    ensures m <= |s| && |s| - m == (n - 1) * m
    ensures Split(s, n, m) == [s[..m]] + Split(s[m..], n - 1, m)
  {
    SplitSize(n, m);
  }

  lemma ChoiceMember(win: seq<Tuple>, N: nat, M: nat, c: nat, B: nat)
    requires |win| == N * M && N > 0 && M > 0 && Wide(win, B)
    requires c < |Choices(Split(win, N, M))|
    ensures var v := Choices(Split(win, N, M))[c];
            |v| == N && Wide(v, B) && exists d :: 0 <= d < M && d < |win| && v[0] == win[d]
  {
    var groups := Split(win, N, M);
    ChoiceAt(groups, M, c);
    var ds := Digits(c, N, M);
    var v := Choices(groups)[c];
    forall p | 0 <= p < N ensures |v[p].payload| == 1 + B {
      SplitMembers(win, N, M, p, ds[p]);
    }
    SplitMembers(win, N, M, 0, ds[0]);
  }

  lemma WindowCountsRow(win: seq<Tuple>, t: nat, N: nat, M: nat, pb: nat, B: nat, row: JoinRow)
    requires |win| == N * M && N > 0 && M > 0 && Wide(win, B) && row.inter
    requires forall i :: 0 <= i < |win| ==> IdPart(win[i].key, pb) == t
    ensures Count(ExpandWindow(win, N, M, pb), Is(row))
         == if t == row.id && |row.data| == N * B
            then Product(CountEach(Split(win, N, M), Wanted(row, N, B)))
            else 0
  {
    var groups := Split(win, N, M);
    var cs := Choices(groups);
    if t == row.id && |row.data| == N * B {
      var qs := Wanted(row, N, B);
      forall c | 0 <= c < |cs| ensures Is(row)(ToRow(pb)(cs[c])) == AllOf(qs)(cs[c]) {
        ChoiceMember(win, N, M, c, B);
        RowMatches(cs[c], row, t, pb, B);
      }
      CountMap(cs, ToRow(pb), Is(row), AllOf(qs));
      CountChoices(groups, qs);
    } else {
      forall c | 0 <= c < |cs| ensures !Is(row)(Map(cs, ToRow(pb))[c]) {
        ChoiceMember(win, N, M, c, B);
        if |row.data| != N * B {
          RowMismatch(cs[c], row, pb, B);
        }
      }
      CountNone(Map(cs, ToRow(pb)), Is(row));
    }
  }

  // ----------------------------------------------------------------------
  // From groups to keys

  lemma {:induction false} SplitSnoc<T>(front: seq<T>, last: seq<T>, n: nat, m: nat)
    requires n > 0 && |front| == (n - 1) * m && |last| == m
    ensures |front + last| == n * m
    ensures Split(front + last, n, m) == Split(front, n - 1, m) + [last]
    decreases n
  {
    SplitSize(n, m);
    if n == 1 {
      assert front + last == last && last[..m] == last;
    } else {
      SplitSize(n - 1, m);
      SplitSnoc(front[m..], last, n - 1, m);
      assert (front + last)[m..] == front[m..] + last;
      assert (front + last)[..m] == front[..m];
    }
  }

  /** A tuple that supplies `payload` for key `k`. */
  function Supply(k: nat, payload: Bits): Tuple {
    Elem(k, payload)
  }

  lemma KeyedCount(s: seq<Tuple>, k: nat, k': nat, payload: Bits)
    requires forall i :: 0 <= i < |s| ==> s[i].key == k
    ensures Count(s, Is(Supply(k', payload))) == if k == k' then Count(s, HasPayload(payload)) else 0
  {
    if k == k' {
      CountSame(s, Is(Supply(k, payload)), HasPayload(payload));
    } else {
      CountNone(s, Is(Supply(k', payload)));
    }
  }

  lemma {:induction false} GroupHits(win: seq<Tuple>, t: nat, N: nat, M: nat, pb: nat, p: nat, payload: Bits)
    requires N <= Pow2(pb) && |win| == N * M && p < Pow2(pb)
    requires Map(win, KeyOf()) == WindowKeys(t, N, M, pb)
    ensures Count(win, Is(Supply(Key(t, p, pb), payload)))
         == if p < N then Count(Split(win, N, M)[p], HasPayload(payload)) else 0
    decreases N
  {
    if N > 0 {
      SplitSize(N, M);
      var cut := (N - 1) * M;
      var front, last := win[..cut], win[cut..];
      assert win == front + last;
      SplitSnoc(front, last, N, M);
      forall i | 0 <= i < |last| ensures last[i].key == Key(t, N - 1, pb) {
        assert Map(win, KeyOf())[cut + i] == last[i].key;
      }
      forall i | 0 <= i < cut ensures Map(front, KeyOf())[i] == WindowKeys(t, N - 1, M, pb)[i] {
        assert Map(win, KeyOf())[i] == front[i].key;
      }
      assert Map(front, KeyOf()) == WindowKeys(t, N - 1, M, pb);
      GroupHits(front, t, N - 1, M, pb, p, payload);
      CountConcat(front, last, Is(Supply(Key(t, p, pb), payload)));
      KeyedCount(last, Key(t, N - 1, pb), Key(t, p, pb), payload);
      KeyInjective(t, N - 1, t, p, pb);
    }
  }

  lemma WindowMisses(win: seq<Tuple>, t: nat, t': nat, N: nat, M: nat, pb: nat, p: nat, payload: Bits)
    requires N <= Pow2(pb) && p < Pow2(pb) && t != t'
    requires Map(win, KeyOf()) == WindowKeys(t, N, M, pb)
    ensures Count(win, Is(Supply(Key(t', p, pb), payload))) == 0
  {
    WindowKeysSorted(t, N, M, pb);
    forall i | 0 <= i < |win| ensures win[i].key != Key(t', p, pb) {
      assert win[i].key == Map(win, KeyOf())[i];
      assert IsWindowKey(win[i].key, t, N, pb);
      var q: nat :| q < N && win[i].key == Key(t, q, pb);
      KeyInjective(t, q, t', p, pb);
    }
    CountNone(win, Is(Supply(Key(t', p, pb), payload)));
  }

  /** How often each party's wanted tuple occurs in `s`. */
  function Hits(s: seq<Tuple>, row: JoinRow, N: nat, B: nat, pb: nat): (ns: seq<nat>)
    requires |row.data| == N * B
    ensures |ns| == N
  {
    var parts := Split(row.data, N, B);
    seq(N, p requires 0 <= p < N => Count(s, Is(Supply(Key(row.id, p, pb), [true] + parts[p]))))
  }

  lemma WindowHits(win: seq<Tuple>, t: nat, N: nat, M: nat, pb: nat, B: nat, row: JoinRow)
    requires N <= Pow2(pb) && |win| == N * M && |row.data| == N * B
    requires Map(win, KeyOf()) == WindowKeys(t, N, M, pb)
    ensures t == row.id ==> Hits(win, row, N, B, pb) == CountEach(Split(win, N, M), Wanted(row, N, B))
    ensures t != row.id ==> forall p :: 0 <= p < N ==> Hits(win, row, N, B, pb)[p] == 0
  {
    var parts := Split(row.data, N, B);
    forall p | 0 <= p < N
      ensures t == row.id ==> Hits(win, row, N, B, pb)[p] == CountEach(Split(win, N, M), Wanted(row, N, B))[p]
      ensures t != row.id ==> Hits(win, row, N, B, pb)[p] == 0
    {
      if t == row.id {
        GroupHits(win, t, N, M, pb, p, [true] + parts[p]);
      } else {
        WindowMisses(win, t, row.id, N, M, pb, p, [true] + parts[p]);
      }
    }
  }

  lemma HitsAdd(a: seq<Tuple>, b: seq<Tuple>, row: JoinRow, N: nat, B: nat, pb: nat)
    requires |row.data| == N * B
    ensures forall p :: 0 <= p < N ==>
              Hits(a + b, row, N, B, pb)[p] == Hits(a, row, N, B, pb)[p] + Hits(b, row, N, B, pb)[p]
  {
    var parts := Split(row.data, N, B);
    forall p | 0 <= p < N
      ensures Hits(a + b, row, N, B, pb)[p] == Hits(a, row, N, B, pb)[p] + Hits(b, row, N, B, pb)[p]
    {
      CountConcat(a, b, Is(Supply(Key(row.id, p, pb), [true] + parts[p])));
    }
  }

  lemma HitsOfNone(row: JoinRow, N: nat, B: nat, pb: nat)
    requires |row.data| == N * B
    ensures forall p :: 0 <= p < N ==> Hits([], row, N, B, pb)[p] == 0
  {
    hide Pow2, Split;
  }

  lemma {:induction false} NoHits(s: seq<Tuple>, ts: seq<nat>, N: nat, M: nat, pb: nat, B: nat, row: JoinRow)
    requires N <= Pow2(pb) && |row.data| == N * B && row.id !in ts
    requires Map(s, KeyOf()) == Layout(ts, N, M, pb)
    ensures forall p :: 0 <= p < N ==> Hits(s, row, N, B, pb)[p] == 0
  {
    hide Hits, Layout, Pow2;
    if ts == [] {
      NoLayoutNoRows(s, N, M, pb);
      HitsOfNone(row, N, B, pb);
    } else {
      SplitLayout(s, ts, N, M, pb);
      var win, rest := s[..N * M], s[N * M..];
      WindowHits(win, ts[0], N, M, pb, B, row);
      NoHits(rest, ts[1..], N, M, pb, B, row);
      HitsAdd(win, rest, row, N, B, pb);
      assert s == win + rest;
    }
  }

  lemma SplitLayout(s: seq<Tuple>, ts: seq<nat>, N: nat, M: nat, pb: nat)
    requires ts != [] && Map(s, KeyOf()) == Layout(ts, N, M, pb)
    ensures N * M <= |s|
    ensures Map(s[..N * M], KeyOf()) == WindowKeys(ts[0], N, M, pb)
    ensures Map(s[N * M..], KeyOf()) == Layout(ts[1..], N, M, pb)
  {
    var win, rest := WindowKeys(ts[0], N, M, pb), Layout(ts[1..], N, M, pb);
    assert |s| == |win + rest|;
    assert Map(s[..N * M], KeyOf()) == Map(s, KeyOf())[..N * M] == win;
    assert Map(s[N * M..], KeyOf()) == Map(s, KeyOf())[N * M..] == rest;
  }

  lemma WindowIds(win: seq<Tuple>, t: nat, N: nat, M: nat, pb: nat)
    requires N <= Pow2(pb) && Map(win, KeyOf()) == WindowKeys(t, N, M, pb)
    ensures forall i :: 0 <= i < |win| ==> IdPart(win[i].key, pb) == t
  {
    WindowKeysSorted(t, N, M, pb);
    forall i | 0 <= i < |win| ensures IdPart(win[i].key, pb) == t {
      assert win[i].key == Map(win, KeyOf())[i];
      assert IsWindowKey(win[i].key, t, N, pb);
      var q: nat :| q < N && win[i].key == Key(t, q, pb);
      KeyParts(t, q, pb);
    }
  }

  lemma ExpandUnfolds(s: seq<Tuple>, ts: seq<nat>, N: nat, M: nat, pb: nat)
    requires 0 < N && 0 < M && ts != [] && Map(s, KeyOf()) == Layout(ts, N, M, pb)
    ensures N * M <= |s|
    ensures Expand(s, N, M, pb) == ExpandWindow(s[..N * M], N, M, pb) + Expand(s[N * M..], N, M, pb)
    ensures |ExpandWindow(s[..N * M], N, M, pb)| == Power(M, N)
  {
    SplitLayout(s, ts, N, M, pb);
    assert N * M > 0 by { MulMonotone(M, 1, N); }
    ChoicesSize(Split(s[..N * M], N, M), M);
  }

  lemma NoLayoutNoRows(s: seq<Tuple>, N: nat, M: nat, pb: nat)
    requires Map(s, KeyOf()) == Layout([], N, M, pb)
    ensures s == [] && Expand(s, N, M, pb) == []
  {
    assert s == [];
  }

  lemma {:induction false} ExpandSize(s: seq<Tuple>, ts: seq<nat>, N: nat, M: nat, pb: nat)
    requires 0 < N && 0 < M && Map(s, KeyOf()) == Layout(ts, N, M, pb)
    ensures |Expand(s, N, M, pb)| == |ts| * Power(M, N)
    decreases |ts|
  {
    hide Layout, Expand, ExpandWindow, Power;
    if ts == [] {
      NoLayoutNoRows(s, N, M, pb);
    } else {
      ExpandUnfolds(s, ts, N, M, pb);
      SplitLayout(s, ts, N, M, pb);
      ExpandSize(s[N * M..], ts[1..], N, M, pb);
      SplitSize(|ts|, Power(M, N));
    }
  }

  /** The hits of the whole are those of the one window that has the row's id. */
  lemma HitsSplit(s: seq<Tuple>, ts: seq<nat>, N: nat, M: nat, pb: nat, B: nat, row: JoinRow)
    requires 0 < N <= Pow2(pb) && ts != [] && Increasing(ts) && |row.data| == N * B
    requires Map(s, KeyOf()) == Layout(ts, N, M, pb)
    ensures N * M <= |s|
    ensures ts[0] == row.id ==> Hits(s, row, N, B, pb) == CountEach(Split(s[..N * M], N, M), Wanted(row, N, B))
    ensures ts[0] == row.id ==> Product(Hits(s[N * M..], row, N, B, pb)) == 0
    ensures ts[0] != row.id ==> Hits(s, row, N, B, pb) == Hits(s[N * M..], row, N, B, pb)
  {
    hide Layout, WindowKeys, Hits, Split, Pow2, Product, Count;
    SplitLayout(s, ts, N, M, pb);
    var win, rest := s[..N * M], s[N * M..];
    assert s == win + rest;
    HitsAdd(win, rest, row, N, B, pb);
    WindowHits(win, ts[0], N, M, pb, B, row);
    var all, here, there := Hits(s, row, N, B, pb), Hits(win, row, N, B, pb), Hits(rest, row, N, B, pb);
    if ts[0] == row.id {
      assert row.id !in ts[1..];
      NoHits(rest, ts[1..], N, M, pb, B, row);
      SumWithZeros(all, here, there);
      ProductZero(there, 0);
    } else {
      SumWithZeros(all, there, here);
    }
  }

  lemma SumWithZeros(c: seq<nat>, a: seq<nat>, z: seq<nat>)
    requires |c| == |a| == |z|
    requires forall p :: 0 <= p < |c| ==> c[p] == a[p] + z[p] && z[p] == 0
    ensures c == a
  {
  }

  lemma ExpandCountsNothing(s: seq<Tuple>, N: nat, M: nat, pb: nat, B: nat, row: JoinRow)
    requires 0 < N <= Pow2(pb) && M > 0 && Map(s, KeyOf()) == Layout([], N, M, pb)
    ensures Count(Expand(s, N, M, pb), Is(row))
         == if |row.data| == N * B then Product(Hits(s, row, N, B, pb)) else 0
  {
    assert s == [];
    assert N * M > 0 by { MulMonotone(M, 1, N); }
    if |row.data| == N * B {
      NoHits(s, [], N, M, pb, B, row);
      ProductZero(Hits(s, row, N, B, pb), 0);
    }
  }

  /** Expansion yields each intersection row as often as the product of its parts' multiplicities. */
  lemma {:induction false} ExpandCounts(s: seq<Tuple>, ts: seq<nat>, N: nat, M: nat, pb: nat, B: nat, row: JoinRow)
    requires 0 < N <= Pow2(pb) && M > 0 && Increasing(ts) && Wide(s, B) && row.inter
    requires Map(s, KeyOf()) == Layout(ts, N, M, pb)
    ensures Count(Expand(s, N, M, pb), Is(row))
         == if |row.data| == N * B then Product(Hits(s, row, N, B, pb)) else 0
    decreases |ts|
  {
    if ts == [] {
      ExpandCountsNothing(s, N, M, pb, B, row);
    } else {
      hide *;
      ExpandUnfolds(s, ts, N, M, pb);
      SplitLayout(s, ts, N, M, pb);
      if |row.data| == N * B {
        HitsSplit(s, ts, N, M, pb, B, row);
      }
      var win, rest := s[..N * M], s[N * M..];
      WindowIds(win, ts[0], N, M, pb);
      WideParts(s, N * M, B);
      WindowCountsRow(win, ts[0], N, M, pb, B, row);
      IncreasingTail(ts);
      ExpandCounts(rest, ts[1..], N, M, pb, B, row);
      CountConcat(ExpandWindow(win, N, M, pb), Expand(rest, N, M, pb), Is(row));
    }
  }

  lemma WideParts(s: seq<Tuple>, k: nat, B: nat)
    requires k <= |s| && Wide(s, B)
    ensures Wide(s[..k], B) && Wide(s[k..], B)
  {
  }

  lemma IncreasingTail(ts: seq<nat>)
    requires ts != [] && Increasing(ts)
    ensures Increasing(ts[1..])
  {
  }
}

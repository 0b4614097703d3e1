/** After the sort, the bag is laid out window by window and party by party. */
module JoinLayout {
  import opened Words
  import opened Network
  import opened PaddedSort
  import opened Counting
  import opened JoinModel

  function Key(t: nat, p: nat, pb: nat): nat {
    p + Pow2(pb) * t
  }

  lemma KeyParts(t: nat, p: nat, pb: nat)
    requires p < Pow2(pb)
    ensures IdPart(Key(t, p, pb), pb) == t
    ensures Key(t, p, pb) % Pow2(pb) == p
  {
    DivModUnique(Key(t, p, pb), Pow2(pb), t, p);
  }

  lemma KeyInjective(t: nat, p: nat, t': nat, p': nat, pb: nat)
    requires p < Pow2(pb) && p' < Pow2(pb)
    ensures Key(t, p, pb) == Key(t', p', pb) <==> t == t' && p == p'
  {
    KeyParts(t, p, pb);
    KeyParts(t', p', pb);
  }

  lemma KeyOrder(t: nat, p: nat, t': nat, p': nat, pb: nat)
    requires p < Pow2(pb) && p' < Pow2(pb) && (t < t' || (t == t' && p <= p'))
    ensures Key(t, p, pb) <= Key(t', p', pb)
  {
    if t < t' {
      MulGap(Pow2(pb), t, t');
    }
  }

  lemma CompositeIsKey(id: nat, p: nat, pb: nat)
    requires pb <= 64 && p < Pow2(pb)
    ensures CompositeKey(id, pb, p) == Key(Tid(id, pb), p, pb) == p + Pow2(pb) * (id % Pow2(64 - pb))
    ensures CompositeKey(id, pb, p) <= MAX_KEY
    ensures CompositeKey(id, pb, p) == MAX_KEY ==> p == Pow2(pb) - 1
  {
    DivModUnique(p, Pow2(pb), 0, p);
    var d, t := Pow2(64 - pb), Tid(id, pb);
    Pow2Adds(pb, 64 - pb);
    Pow2At64();
    assert t <= d - 1;
    KeyBound(Pow2(pb), d, p, t);
  }

  lemma KeyBound(q: nat, d: nat, p: nat, t: nat)
    requires p < q && t < d
    ensures p + q * t <= q * d - 1
    ensures p + q * t == q * d - 1 ==> p == q - 1
  {
    MulGap(q, t, d);
  }

  // ----------------------------------------------------------------------
  // The layout

  /** M tuples of party 0, then M of party 1, and so on. */
  function WindowKeys(t: nat, N: nat, M: nat, pb: nat): (s: seq<nat>)
    ensures |s| == N * M
  {
    if N == 0 then []
    else
      SplitSize(N, M);
      WindowKeys(t, N - 1, M, pb) + Times(Key(t, N - 1, pb), M)
  }

  function Layout(ts: seq<nat>, N: nat, M: nat, pb: nat): seq<nat> {
    if ts == [] then [] else WindowKeys(ts[0], N, M, pb) + Layout(ts[1..], N, M, pb)
  }

  ghost predicate SortedKeys(s: seq<nat>) {
    forall i, j :: 0 <= i < j < |s| ==> s[i] <= s[j]
  }

  /** Sorted sequences with the same elements are equal. */
  lemma {:induction false} SortedUnique(a: seq<nat>, b: seq<nat>)
    requires SortedKeys(a) && SortedKeys(b) && multiset(a) == multiset(b)
    ensures a == b
    decreases |a|
  {
    if a == [] || b == [] {
      assert |multiset(a)| == |multiset(b)|;
    } else {
      SameHead(a, b);
      WithoutHead(a);
      WithoutHead(b);
      SortedUnique(a[1..], b[1..]);
      assert a == [a[0]] + a[1..] && b == [b[0]] + b[1..];
    }
  }

  lemma SameHead(a: seq<nat>, b: seq<nat>)
    requires SortedKeys(a) && SortedKeys(b) && multiset(a) == multiset(b) && a != [] && b != []
    ensures a[0] == b[0]
  {
    assert a[0] in multiset(b) && b[0] in multiset(a);
  }

  lemma WithoutHead(a: seq<nat>)
    requires SortedKeys(a) && a != []
    ensures SortedKeys(a[1..]) && multiset(a[1..]) == multiset(a) - multiset{a[0]}
  {
    hide SortedKeys;
    SortedTail(a);
    assert a == [a[0]] + a[1..];
  }

  lemma SortedTail(a: seq<nat>)
    requires SortedKeys(a) && a != []
    ensures SortedKeys(a[1..])
  {
  }

  ghost predicate IsWindowKey(x: nat, t: nat, N: nat, pb: nat) {
    exists p: nat :: p < N && x == Key(t, p, pb)
  }

  lemma {:induction false} WindowKeysSorted(t: nat, N: nat, M: nat, pb: nat)
    requires N <= Pow2(pb)
    ensures SortedKeys(WindowKeys(t, N, M, pb))
    ensures forall i :: 0 <= i < N * M ==> IsWindowKey(WindowKeys(t, N, M, pb)[i], t, N, pb)
  {
    if N > 0 {
      WindowKeysSorted(t, N - 1, M, pb);
      SplitSize(N, M);
      var s, front := WindowKeys(t, N, M, pb), WindowKeys(t, N - 1, M, pb);
      forall i | 0 <= i < N * M
        ensures IsWindowKey(s[i], t, N, pb) && s[i] <= Key(t, N - 1, pb)
      {
        if i < |front| {
          assert IsWindowKey(front[i], t, N - 1, pb);
          var p: nat :| p < N - 1 && front[i] == Key(t, p, pb);
          KeyOrder(t, p, t, N - 1, pb);
        } else {
          assert s[i] == Key(t, N - 1, pb);
        }
      }
    }
  }

  ghost predicate IsLayoutKey(x: nat, ts: seq<nat>, N: nat, pb: nat) {
    exists i :: 0 <= i < |ts| && IsWindowKey(x, ts[i], N, pb)
  }

  lemma WindowBelow(x: nat, y: nat, t: nat, t': nat, N: nat, pb: nat)
    requires N <= Pow2(pb) && t < t' && IsWindowKey(x, t, N, pb) && IsWindowKey(y, t', N, pb)
    ensures x <= y
  {
    var p: nat :| p < N && x == Key(t, p, pb);
    var q: nat :| q < N && y == Key(t', q, pb);
    KeyOrder(t, p, t', q, pb);
  }

  lemma {:induction false} LayoutSorted(ts: seq<nat>, N: nat, M: nat, pb: nat)
    requires N <= Pow2(pb) && Increasing(ts)
    ensures SortedKeys(Layout(ts, N, M, pb))
    ensures forall i :: 0 <= i < |Layout(ts, N, M, pb)| ==> IsLayoutKey(Layout(ts, N, M, pb)[i], ts, N, pb)
  {
    if ts != [] {
      var win, rest := WindowKeys(ts[0], N, M, pb), Layout(ts[1..], N, M, pb);
      WindowKeysSorted(ts[0], N, M, pb);
      LayoutSorted(ts[1..], N, M, pb);
      forall j | 0 <= j < |rest|
        ensures IsLayoutKey(rest[j], ts, N, pb)
        ensures forall i :: 0 <= i < |win| ==> win[i] <= rest[j]
      {
        var k :| 0 <= k < |ts[1..]| && IsWindowKey(rest[j], ts[1..][k], N, pb);
        assert IsWindowKey(rest[j], ts[k + 1], N, pb);
        forall i | 0 <= i < |win| ensures win[i] <= rest[j] {
          WindowBelow(win[i], rest[j], ts[0], ts[k + 1], N, pb);
        }
      }
    }
  }

  // ----------------------------------------------------------------------
  // The bag has the layout's keys

  function WithParty(p: nat, pb: nat): nat -> nat {
    (t: nat) => Key(t, p, pb)
  }

  function KeyOf(): Tuple -> nat {
    (e: Tuple) => e.key
  }

  /** The keys in the order the bag is built: party by party. */
  function PartyKeys(ts: seq<nat>, n: nat, M: nat, pb: nat): seq<nat> {
    if n == 0 then [] else PartyKeys(ts, n - 1, M, pb) + Map(EachTimes(ts, M), WithParty(n - 1, pb))
  }

  lemma WindowKeysUnfold(t: nat, n: nat, M: nat, pb: nat)
    ensures WindowKeys(t, n, M, pb) == if n == 0 then [] else WindowKeys(t, n - 1, M, pb) + Times(Key(t, n - 1, pb), M)
  {
    hide Key;
  }

  lemma EachTimesUnfolds(ts: seq<nat>, M: nat)
    requires ts != []
    ensures EachTimes(ts, M) == Times(ts[0], M) + EachTimes(ts[1..], M)
  {
  }

  lemma {:induction false} PartyKeysByWindow(ts: seq<nat>, n: nat, M: nat, pb: nat)
    requires ts != []
    ensures multiset(PartyKeys(ts, n, M, pb))
         == multiset(WindowKeys(ts[0], n, M, pb)) + multiset(PartyKeys(ts[1..], n, M, pb))
  {
    hide Key, EachTimes, PartyKeys, WindowKeys;
    PartyKeysUnfold(ts, n, M, pb);
    PartyKeysUnfold(ts[1..], n, M, pb);
    WindowKeysUnfold(ts[0], n, M, pb);
    EachTimesUnfolds(ts, M);
    if n > 0 {
      PartyKeysByWindow(ts, n - 1, M, pb);
      var f := WithParty(n - 1, pb);
      MapConcat(Times(ts[0], M), EachTimes(ts[1..], M), f);
      assert Map(Times(ts[0], M), f) == Times(Key(ts[0], n - 1, pb), M);
    }
  }

  lemma {:induction false} LayoutKeys(ts: seq<nat>, N: nat, M: nat, pb: nat)
    ensures multiset(Layout(ts, N, M, pb)) == multiset(PartyKeys(ts, N, M, pb))
  {
    if ts == [] {
      NoKeys(N, M, pb);
    } else {
      LayoutKeys(ts[1..], N, M, pb);
      PartyKeysByWindow(ts, N, M, pb);
    }
  }

  lemma {:induction false} NoKeys(n: nat, M: nat, pb: nat)
    ensures PartyKeys([], n, M, pb) == []
  {
    if n > 0 {
      NoKeys(n - 1, M, pb);
    }
  }

  lemma {:induction false} BagKeys(tables: Tables, N: nat, M: nat, pb: nat, B: nat, ts: seq<nat>, n: nat)
    requires PadContract(tables, N, M, pb, B, ts) && n <= N
    ensures multiset(Map(Bag(tables, pb, n), KeyOf())) == multiset(PartyKeys(ts, n, M, pb))
  {
    hide PadContract, Pow2, EachTimes, Bag, PartyKeys, Map, ToTuple, TidOf, WithParty, KeyOf;
    ContractParts(tables, N, M, pb, B, ts, n);
    BagUnfolds(tables, pb, n);
    PartyKeysUnfold(ts, n, M, pb);
    if n > 0 {
      var p := n - 1;
      BagKeys(tables, N, M, pb, B, ts, p);
      var tuples, tids := Map(tables[p], ToTuple(pb, p)), Map(tables[p], TidOf(pb));
      MapConcat(Bag(tables, pb, p), tuples, KeyOf());
      OnePartyKeys(tables[p], p, pb);
      MapPermuted(tids, EachTimes(ts, M), WithParty(p, pb));
    }
  }

  lemma ContractParts(tables: Tables, N: nat, M: nat, pb: nat, B: nat, ts: seq<nat>, n: nat)
    requires PadContract(tables, N, M, pb, B, ts) && n <= N
    ensures pb <= 64 && |tables| == N
    ensures n > 0 ==> n - 1 < Pow2(pb) && multiset(Map(tables[n - 1], TidOf(pb))) == multiset(EachTimes(ts, M))
  {
    hide Pow2, EachTimes, Map;
  }

  lemma BagUnfolds(tables: Tables, pb: nat, n: nat)
    requires pb <= 64 && n <= |tables|
    ensures Bag(tables, pb, n) == if n == 0 then [] else Bag(tables, pb, n - 1) + Map(tables[n - 1], ToTuple(pb, n - 1))
  {
  }

  lemma PartyKeysUnfold(ts: seq<nat>, n: nat, M: nat, pb: nat)
    ensures PartyKeys(ts, n, M, pb)
         == if n == 0 then [] else PartyKeys(ts, n - 1, M, pb) + Map(EachTimes(ts, M), WithParty(n - 1, pb))
  {
    hide EachTimes, WithParty;
  }

  lemma OnePartyKeys(table: seq<InputRow>, p: nat, pb: nat)
    requires pb <= 64 && p < Pow2(pb)
    ensures Map(Map(table, ToTuple(pb, p)), KeyOf()) == Map(Map(table, TidOf(pb)), WithParty(p, pb))
  {
    hide Pow2, Key, Tid, CompositeKey;
    var a, b := Map(Map(table, ToTuple(pb, p)), KeyOf()), Map(Map(table, TidOf(pb)), WithParty(p, pb));
    forall i | 0 <= i < |table| ensures a[i] == b[i] {
      CompositeIsKey(table[i].id, p, pb);
    }
  }

  lemma SortedBagKeys(s: seq<Tuple>)
    requires Sorted(true, s)
    ensures SortedKeys(Map(s, KeyOf()))
  {
  }

  /** Any ascending permutation of the padded bag has exactly the layout's keys. */
  lemma SortedBagLayout(tables: Tables, N: nat, M: nat, pb: nat, B: nat, ts: seq<nat>, s: seq<Tuple>)
    requires PadContract(tables, N, M, pb, B, ts)
    requires Sorted(true, s) && multiset(s) == multiset(Bag(tables, pb, N))
    ensures Map(s, KeyOf()) == Layout(ts, N, M, pb)
  {
    SortedBagKeys(s);
    LayoutSorted(ts, N, M, pb);
    MapPermuted(s, Bag(tables, pb, N), KeyOf());
    BagKeys(tables, N, M, pb, B, ts, N);
    LayoutKeys(ts, N, M, pb);
    SortedUnique(Map(s, KeyOf()), Layout(ts, N, M, pb));
  }
}

/**
 * The network as the program runs it: comparators applied one after another
 * to windows of one vector. It computes `Network.Merge` and `Network.Sort`
 * on the window and leaves the rest alone.
 */
module InPlace {
  import opened Network

  function CompareAt<P>(tie: bool, asc: bool, s: seq<Elem<P>>, i: nat, j: nat): (t: seq<Elem<P>>)
    requires i < j < |s|
    ensures |t| == |s|
  {
    if Exchanges(tie, asc, s[i].key, s[j].key) then s[i := s[j]][j := s[i]] else s
  }

  /** Ascending, strict inversions are exchanged; descending, ties too in the plaintext sort and only there. */
  lemma CompareAtExchanges<P>(tie: bool, asc: bool, s: seq<Elem<P>>, i: nat, j: nat)
    requires i < j < |s|
    ensures var swap := if asc then s[j].key < s[i].key else s[i].key < s[j].key || (tie && s[i].key == s[j].key);
            CompareAt(tie, asc, s, i, j) == if swap then s[i := s[j]][j := s[i]] else s
  {
  }

  /** The first `n` comparators of a row at distance `k`. */
  function RowUpTo<P>(tie: bool, asc: bool, s: seq<Elem<P>>, low: nat, k: nat, n: nat): (t: seq<Elem<P>>)
    requires n <= k && low + 2 * k <= |s|
    ensures |t| == |s|
  {
    if n == 0 then s else CompareAt(tie, asc, RowUpTo(tie, asc, s, low, k, n - 1), low + n - 1, low + n - 1 + k)
  }

  function MergeAt<P>(tie: bool, asc: bool, s: seq<Elem<P>>, low: nat, cnt: nat): (t: seq<Elem<P>>)
    requires PowerOfTwo(cnt) && low + cnt <= |s|
    ensures |t| == |s|
    decreases cnt
  {
    if cnt <= 1 then s
    else
      var k := cnt / 2;
      var s1 := RowUpTo(tie, asc, s, low, k, k);
      MergeAt(tie, asc, MergeAt(tie, asc, s1, low, k), low + k, k)
  }

  function SortAt<P>(tie: bool, asc: bool, s: seq<Elem<P>>, low: nat, cnt: nat): (t: seq<Elem<P>>)
    requires PowerOfTwo(cnt) && low + cnt <= |s|
    ensures |t| == |s|
    decreases cnt
  {
    if cnt <= 1 then s
    else
      var k := cnt / 2;
      MergeAt(tie, asc, SortAt(tie, false, SortAt(tie, true, s, low, k), low + k, k), low, cnt)
  }

  lemma RowUnfolds<P>(tie: bool, asc: bool, s: seq<Elem<P>>, low: nat, k: nat, n: nat)
    requires n <= k && low + 2 * k <= |s|
    ensures RowUpTo(tie, asc, s, low, k, n)
         == if n == 0 then s
            else CompareAt(tie, asc, RowUpTo(tie, asc, s, low, k, n - 1), low + n - 1, low + n - 1 + k)
  {
    hide CompareAt;
  }

  /** t is s with n entries of lo and of hi at distance k. */
  ghost predicate Filled<T>(t: seq<T>, s: seq<T>, lo: seq<T>, hi: seq<T>, low: nat, k: nat, n: nat) {
    && |t| == |s| && n <= k <= |lo| && k <= |hi|
    && forall m :: 0 <= m < |s| ==>
         t[m] == if low <= m < low + n then lo[m - low]
                 else if low + k <= m < low + k + n then hi[m - low - k]
                 else s[m]
  }

  lemma {:induction false} RowValue<P>(tie: bool, asc: bool, s: seq<Elem<P>>, low: nat, k: nat, n: nat)
    requires n <= k && low + 2 * k <= |s|
    ensures var a, b := s[low..low + k], s[low + k..low + 2 * k];
            Filled(RowUpTo(tie, asc, s, low, k, n), s, Lo(tie, asc, a, b), Hi(tie, asc, a, b), low, k, n)
  {
    hide RowUpTo, CompareAt, Lo, Hi;
    RowUnfolds(tie, asc, s, low, k, n);
    if n > 0 {
      hide Filled;
      RowValue(tie, asc, s, low, k, n - 1);
      RowStep(tie, asc, s, RowUpTo(tie, asc, s, low, k, n - 1), low, k, n - 1);
    }
  }

  /** One more comparator fills one more place of Lo and of Hi. */
  lemma RowStep<P>(tie: bool, asc: bool, s: seq<Elem<P>>, t: seq<Elem<P>>, low: nat, k: nat, n: nat)
    requires n < k && low + 2 * k <= |s| == |t|
    requires var a, b := s[low..low + k], s[low + k..low + 2 * k];
             Filled(t, s, Lo(tie, asc, a, b), Hi(tie, asc, a, b), low, k, n)
    ensures var a, b := s[low..low + k], s[low + k..low + 2 * k];
            Filled(CompareAt(tie, asc, t, low + n, low + n + k), s, Lo(tie, asc, a, b), Hi(tie, asc, a, b), low, k, n + 1)
  {
    hide Exchanges, Lo, Hi;
    var a, b := s[low..low + k], s[low + k..low + 2 * k];
    assert low + k + n == low + n + k;
    assert t[low + n] == s[low + n] == a[n] && t[low + n + k] == s[low + n + k] == b[n];
    RowEntries(tie, asc, a, b, n);
  }

  lemma RowEntries<P>(tie: bool, asc: bool, a: seq<Elem<P>>, b: seq<Elem<P>>, n: nat)
    requires n < |a| == |b|
    ensures Lo(tie, asc, a, b)[n] == if Exchanges(tie, asc, a[n].key, b[n].key) then b[n] else a[n]
    ensures Hi(tie, asc, a, b)[n] == if Exchanges(tie, asc, a[n].key, b[n].key) then a[n] else b[n]
  {
  }

  /** A row turns the window a + b into Lo + Hi. */
  lemma RowOnWindow<P>(tie: bool, asc: bool, p: seq<Elem<P>>, a: seq<Elem<P>>, b: seq<Elem<P>>, q: seq<Elem<P>>)
    requires |a| == |b|
    ensures RowUpTo(tie, asc, p + (a + b) + q, |p|, |a|, |a|) == p + Lo(tie, asc, a, b) + (Hi(tie, asc, a, b) + q)
  {
    hide RowUpTo, Exchanges, Lo, Hi, Filled;
    var k, s := |a|, p + (a + b) + q;
    assert s[|p|..|p| + k] == a && s[|p| + k..|p| + 2 * k] == b;
    RowValue(tie, asc, s, |p|, k, k);
    Spliced(RowUpTo(tie, asc, s, |p|, k, k), p, Lo(tie, asc, a, b), Hi(tie, asc, a, b), q, a + b);
  }

  lemma Spliced<T>(t: seq<T>, p: seq<T>, lo: seq<T>, hi: seq<T>, q: seq<T>, w: seq<T>)
    requires |lo| == |hi| && |w| == 2 * |lo|
    requires Filled(t, p + w + q, lo, hi, |p|, |lo|, |lo|)
    ensures t == p + lo + (hi + q)
  {
    var u := p + lo + (hi + q);
    forall m | 0 <= m < |t| ensures t[m] == u[m] {
      if m < |p| {
        assert (p + w + q)[m] == p[m];
      } else if m >= |p| + |w| {
        assert (p + w + q)[m] == q[m - |p| - |w|];
      }
    }
  }

  lemma Regroup<T>(p: seq<T>, a: seq<T>, b: seq<T>, q: seq<T>)
    ensures p + a + (b + q) == (p + a) + b + q
    ensures (p + a) + b + q == p + (a + b) + q
  {
  }

  lemma MergeUnfolds<P>(tie: bool, asc: bool, w: seq<Elem<P>>)
    requires PowerOfTwo(|w|) && |w| > 1
    ensures var k := |w| / 2;
            && |w| == 2 * k && PowerOfTwo(k)
            && Merge(tie, asc, w) == Merge(tie, asc, Lo(tie, asc, w[..k], w[k..]))
                                   + Merge(tie, asc, Hi(tie, asc, w[..k], w[k..]))
  {
  }

  lemma MergeAtUnfolds<P>(tie: bool, asc: bool, s: seq<Elem<P>>, low: nat, cnt: nat)
    requires PowerOfTwo(cnt) && cnt > 1 && low + cnt <= |s|
    ensures var k := cnt / 2;
            && low + 2 * k <= |s| && PowerOfTwo(k)
            && MergeAt(tie, asc, s, low, cnt)
               == MergeAt(tie, asc, MergeAt(tie, asc, RowUpTo(tie, asc, s, low, k, k), low, k), low + k, k)
  {
  }

  lemma SortAtUnfolds<P>(tie: bool, asc: bool, s: seq<Elem<P>>, low: nat, cnt: nat)
    requires PowerOfTwo(cnt) && cnt > 1 && low + cnt <= |s|
    ensures var k := cnt / 2;
            && cnt == 2 * k && PowerOfTwo(k)
            && SortAt(tie, asc, s, low, cnt)
               == MergeAt(tie, asc, SortAt(tie, false, SortAt(tie, true, s, low, k), low + k, k), low, cnt)
  {
  }

  lemma MergeOfOne<P>(tie: bool, asc: bool, s: seq<Elem<P>>, low: nat, w: seq<Elem<P>>)
    requires PowerOfTwo(|w|) && low + |w| <= |s|
    ensures |w| <= 1 ==> |w| == 1 && MergeAt(tie, asc, s, low, |w|) == s && Merge(tie, asc, w) == w
    ensures |w| <= 1 ==> SortAt(tie, asc, s, low, |w|) == s && Sort(tie, asc, w) == w
  {
  }

  lemma {:induction false} MergeAtMerges<P>(tie: bool, asc: bool, p: seq<Elem<P>>, w: seq<Elem<P>>, q: seq<Elem<P>>)
    requires PowerOfTwo(|w|)
    ensures MergeAt(tie, asc, p + w + q, |p|, |w|) == p + Merge(tie, asc, w) + q
    decreases |w|
  {
    hide *;
    MergeOfOne(tie, asc, p + w + q, |p|, w);
    if |w| > 1 {
      MergeUnfolds(tie, asc, w);
      MergeAtUnfolds(tie, asc, p + w + q, |p|, |w|);
      var k := |w| / 2;
      var lo, hi := Lo(tie, asc, w[..k], w[k..]), Hi(tie, asc, w[..k], w[k..]);
      var lo', hi' := Merge(tie, asc, lo), Merge(tie, asc, hi);
      assert w == w[..k] + w[k..];
      RowOnWindow(tie, asc, p, w[..k], w[k..], q);
      MergeAtMerges(tie, asc, p, lo, hi + q);
      Regroup(p, lo', hi, q);
      MergeAtMerges(tie, asc, p + lo', hi, q);
      Regroup(p, lo', hi', q);
    }
  }

  lemma SortUnfolds<P>(tie: bool, asc: bool, w: seq<Elem<P>>)
    requires PowerOfTwo(|w|) && |w| > 1
    ensures var k := |w| / 2;
            && |w| == 2 * k && PowerOfTwo(k)
            && Sort(tie, asc, w) == Merge(tie, asc, Sort(tie, true, w[..k]) + Sort(tie, false, w[k..]))
  {
    hide Merge;
  }

  lemma {:induction false} SortAtSorts<P>(tie: bool, asc: bool, p: seq<Elem<P>>, w: seq<Elem<P>>, q: seq<Elem<P>>)
    requires PowerOfTwo(|w|)
    ensures SortAt(tie, asc, p + w + q, |p|, |w|) == p + Sort(tie, asc, w) + q
    decreases |w|
  {
    hide *;
    MergeOfOne(tie, asc, p + w + q, |p|, w);
    if |w| > 1 {
      SortUnfolds(tie, asc, w);
      SortAtUnfolds(tie, asc, p + w + q, |p|, |w|);
      var k := |w| / 2;
      var a, b := w[..k], w[k..];
      var up, down := Sort(tie, true, a), Sort(tie, false, b);
      assert w == a + b;
      Regroup(p, a, b, q);
      SortAtSorts(tie, true, p, a, b + q);
      Regroup(p, up, b, q);
      SortAtSorts(tie, false, p + up, b, q);
      Regroup(p, up, down, q);
      MergeAtMerges(tie, asc, p, up + down, q);
    }
  }

  lemma SortAtWhole<P>(tie: bool, s: seq<Elem<P>>)
    requires PowerOfTwo(|s|)
    ensures SortAt(tie, true, s, 0, |s|) == Sort(tie, true, s)
  {
    hide SortAt, Sort;
    SortAtSorts(tie, true, [], s, []);
    assert [] + s + [] == s;
    assert [] + Sort(tie, true, s) + [] == Sort(tie, true, s);
  }
}

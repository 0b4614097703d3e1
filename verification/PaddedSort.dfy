/** Sorting any length by padding to a power of two with sentinels, and the size of the network. */
module PaddedSort {
  import opened Words
  import opened Network

  function NextPowerOfTwo(n: nat): (p: nat)
    ensures PowerOfTwo(p) && p >= n
    ensures n > 1 ==> p < 2 * n
  {
    if n <= 1 then 1
    else
      var p := NextPowerOfTwo((n + 1) / 2);
      DoublePower(p);
      2 * p
  }

  lemma DoublePower(p: nat)
    requires PowerOfTwo(p)
    ensures PowerOfTwo(2 * p)
  {
  }

  lemma {:induction false} PowerOfTwoGap(p: nat, q: nat)
    requires PowerOfTwo(p) && PowerOfTwo(q) && p < q
    ensures 2 * p <= q
  {
    if p > 1 {
      PowerOfTwoGap(p / 2, q / 2);
    }
  }

  lemma NextPowerOfTwoUnique(n: nat, p: nat)
    requires PowerOfTwo(p) && n <= p && (p == 1 || p < 2 * n)
    ensures p == NextPowerOfTwo(n)
  {
    var q := NextPowerOfTwo(n);
    if p < q {
      PowerOfTwoGap(p, q);
    } else if q < p {
      PowerOfTwoGap(q, p);
    }
  }

  /** The doubling loop on 64-bit words. It only stops for n up to 2^63. */
  method NextPow2(n: nat) returns (p: nat)
    requires n <= 0x8000_0000_0000_0000
    ensures p == NextPowerOfTwo(n)
  {
    if n <= 1 {
      return 1;
    }
    p := 1;
    while p < n
      invariant PowerOfTwo(p) && p < 2 * n
      decreases n - p
    {
      p := p * 2 % 0x1_0000_0000_0000_0000;
    }
    NextPowerOfTwoUnique(n, p);
  }

  function Pads<P>(n: nat, pad: P): (s: seq<Elem<P>>)
    ensures n > 0 ==> |s| == NextPowerOfTwo(n) - n
    ensures forall i :: 0 <= i < |s| ==> s[i] == Elem(MAX_KEY, pad)
  {
    Repeat(Elem(MAX_KEY, pad), NextPowerOfTwo(n) - n)
  }

  lemma PadsAre<P>(n: nat, pad: P)
    requires n > 0
    ensures Pads(n, pad) == Repeat(Elem(MAX_KEY, pad), NextPowerOfTwo(n) - n)
  {
  }

  /** Pad with sentinels carrying `pad`, sort ascending, cut back to the old length. */
  function SortPadded<P>(tie: bool, xs: seq<Elem<P>>, pad: P): (s: seq<Elem<P>>)
    ensures |s| == |xs|
  {
    if |xs| <= 1 then xs else Sort(tie, true, xs + Pads(|xs|, pad))[..|xs|]
  }

  lemma SortPaddedUnfolds<P>(tie: bool, xs: seq<Elem<P>>, pad: P)
    requires |xs| > 1
    ensures SortPadded(tie, xs, pad) == Sort(tie, true, xs + Pads(|xs|, pad))[..|xs|]
  {
  }

  lemma SortPaddedShort<P>(tie: bool, xs: seq<Elem<P>>, pad: P)
    requires |xs| <= 1
    ensures SortPadded(tie, xs, pad) == xs
  {
  }

  ghost predicate Keys64<P>(xs: seq<Elem<P>>) {
    forall i :: 0 <= i < |xs| ==> xs[i].key <= MAX_KEY
  }

  /** No sentinel is added, or no key can be mistaken for one. */
  ghost predicate SentinelFree<P>(xs: seq<Elem<P>>) {
    |xs| <= 1 || PowerOfTwo(|xs|) || forall i :: 0 <= i < |xs| ==> xs[i].key < MAX_KEY
  }

  lemma SortPaddedSorts<P>(tie: bool, xs: seq<Elem<P>>, pad: P)
    ensures Sorted(true, SortPadded(tie, xs, pad))
  {
    hide SortPadded, Sort, Pads, NextPowerOfTwo, PowerOfTwo;
    if |xs| <= 1 {
      SortPaddedShort(tie, xs, pad);
    } else {
      SortPaddedUnfolds(tie, xs, pad);
      SortSorts(tie, true, xs + Pads(|xs|, pad));
    }
  }

  lemma {:induction false} CountAll<T>(s: seq<T>, x: T)
    requires forall i :: 0 <= i < |s| ==> s[i] == x
    ensures multiset(s)[x] == |s|
  {
    if s != [] {
      CountAll(s[1..], x);
      MultisetCons(s);
    }
  }

  /** If every element of xs is below x in key, x can only sit behind them. */
  lemma SentinelsLast<P>(ys: seq<Elem<P>>, n: nat, x: Elem<P>)
    requires n <= |ys| && Sorted(true, ys)
    requires multiset(ys)[x] == |ys| - n
    requires forall i :: 0 <= i < |ys| ==> ys[i].key < x.key || ys[i] == x
    ensures forall i :: n <= i < |ys| ==> ys[i] == x
  {
    var front, back := ys[..n], ys[n..];
    assert ys == front + back;
    assert multiset(ys)[x] == multiset(front)[x] + multiset(back)[x];
    if x in multiset(front) {
      var i :| 0 <= i < n && ys[i] == x;
      assert forall j :: 0 <= j < |back| ==> back[j] == x;
      CountAll(back, x);
      assert false;
    }
    CountFull(back, x);
  }

  lemma {:induction false} CountFull<T>(s: seq<T>, x: T)
    ensures multiset(s)[x] <= |s|
    ensures multiset(s)[x] == |s| ==> forall i :: 0 <= i < |s| ==> s[i] == x
  {
    if s != [] {
      CountFull(s[1..], x);
      MultisetCons(s);
    }
  }

  /** Sorted, with as many sentinels as places to strip: the tail is the sentinels. */
  lemma StripSentinels<P>(xs: seq<Elem<P>>, pads: seq<Elem<P>>, ys: seq<Elem<P>>, x: Elem<P>)
    requires multiset(ys) == multiset(xs + pads) && Sorted(true, ys) && |ys| == |xs| + |pads|
    requires forall i :: 0 <= i < |xs| ==> xs[i].key < x.key
    requires forall i :: 0 <= i < |pads| ==> pads[i] == x
    ensures multiset(ys[..|xs|]) == multiset(xs)
  {
    var n := |xs|;
    CountAll(pads, x);
    assert x !in xs;
    forall i | 0 <= i < |ys| ensures ys[i].key < x.key || ys[i] == x {
      assert ys[i] in multiset(xs + pads);
    }
    SentinelsLast(ys, n, x);
    assert ys[n..] == pads;
    assert ys == ys[..n] + pads;
    SameRest(multiset(ys[..n]), multiset(xs), multiset(pads));
  }

  /** Stripping removes the sentinels and nothing else. */
  lemma SortPaddedPermutes<P>(tie: bool, xs: seq<Elem<P>>, pad: P)
    requires Keys64(xs) && SentinelFree(xs)
    ensures multiset(SortPadded(tie, xs, pad)) == multiset(xs)
  {
    hide SortPadded, Sort, Pads, NextPowerOfTwo, PowerOfTwo;
    if |xs| <= 1 {
      SortPaddedShort(tie, xs, pad);
    } else {
      SortPaddedUnfolds(tie, xs, pad);
      var pads := Pads(|xs|, pad);
      var ys := Sort(tie, true, xs + pads);
      SortPermutes(tie, true, xs + pads);
      if PowerOfTwo(|xs|) {
        NextPowerOfTwoUnique(|xs|, |xs|);
        assert xs + pads == xs;
        SameLength(ys, xs);
        assert ys[..|xs|] == ys;
      } else {
        SortSorts(tie, true, xs + pads);
        StripSentinels(xs, pads, ys, Elem(MAX_KEY, pad));
      }
    }
  }

  lemma SameRest<T>(a: multiset<T>, b: multiset<T>, c: multiset<T>)
    requires a + c == b + c
    ensures a == b
  {
    assert a == (a + c) - c && b == (b + c) - c;
  }

  // ----------------------------------------------------------------------
  // Why the guard is needed: for every length that needs padding, some input
  // with a key of 2^64-1 loses a row to a sentinel.

  /** A largest last element never leaves its place in an ascending merge. */
  lemma {:induction false} MergeKeepsLast<P>(tie: bool, xs: seq<Elem<P>>)
    requires PowerOfTwo(|xs|)
    requires forall i :: 0 <= i < |xs| ==> xs[i].key <= xs[|xs| - 1].key
    ensures Merge(tie, true, xs)[|xs| - 1] == xs[|xs| - 1]
    decreases |xs|
  {
    if |xs| > 1 {
      var k := |xs| / 2;
      var hi := Hi(tie, true, xs[..k], xs[k..]);
      assert hi[k - 1] == xs[|xs| - 1];
      MergeKeepsLast(tie, hi);
    }
  }

  /** One row with the sentinel's key and n-1 rows with key 0. */
  function LosingInput<P>(n: nat, row: P, rest: P): (xs: seq<Elem<P>>)
    requires n >= 1
    ensures |xs| == n && Keys64(xs)
  {
    [Elem(MAX_KEY, row)] + Repeat(Elem(0, rest), n - 1)
  }

  lemma SortedDownEndsLow<P>(ys: seq<Elem<P>>, x: Elem<P>)
    requires ys != [] && Sorted(false, ys) && x in multiset(ys)
    ensures ys[|ys| - 1].key <= x.key
  {
    var i :| 0 <= i < |ys| && ys[i] == x;
  }

  lemma SortedUpEndsHigh<P>(ys: seq<Elem<P>>, x: Elem<P>)
    requires ys != [] && Sorted(true, ys) && x in multiset(ys)
    ensures ys[|ys| - 1].key >= x.key
  {
    var i :| 0 <= i < |ys| && ys[i] == x;
  }

  /** An up half ending in the largest key meets a down half ending in key 0. */
  lemma LosingMerge<P>(tie: bool, up: seq<Elem<P>>, down: seq<Elem<P>>)
    requires |up| == |down| && PowerOfTwo(|up|) && Keys64(up) && Keys64(down)
    requires up[|up| - 1].key == MAX_KEY && down[|up| - 1].key == 0
    ensures Merge(tie, true, up + down)[2 * |up| - 1] == up[|up| - 1]
  {
    var k := |up|;
    var hi := Hi(tie, true, up, down);
    assert (up + down)[..k] == up && (up + down)[k..] == down;
    assert hi[k - 1] == up[k - 1];
    MergeKeepsLast(tie, hi);
  }

  lemma LosingFirstHalf<P>(tie: bool, xs: seq<Elem<P>>, x: Elem<P>, zero: Elem<P>)
    requires PowerOfTwo(|xs|) && xs[0] == x && x.key == MAX_KEY && zero.key == 0
    requires forall i :: 1 <= i < |xs| ==> xs[i] == zero
    ensures Sort(tie, true, xs)[|xs| - 1] == x
  {
    hide Sort;
    var up := Sort(tie, true, xs);
    SortSorts(tie, true, xs);
    SortPermutes(tie, true, xs);
    SameLength(up, xs);
    assert xs[0] in multiset(xs);
    SortedUpEndsHigh(up, x);
    assert up[|xs| - 1] in multiset(up);
  }

  lemma SameLength<T>(a: seq<T>, b: seq<T>)
    requires multiset(a) == multiset(b)
    ensures |a| == |b|
  {
    assert |multiset(a)| == |multiset(b)|;
  }

  lemma LosingSecondHalf<P>(tie: bool, xs: seq<Elem<P>>)
    requires PowerOfTwo(|xs|) && xs[0].key == 0
    ensures Sort(tie, false, xs)[|xs| - 1].key == 0
  {
    SortSorts(tie, false, xs);
    SortPermutes(tie, false, xs);
    assert xs[0] in multiset(xs);
    SortedDownEndsLow(Sort(tie, false, xs), xs[0]);
  }

  lemma SortKeeps64<P>(tie: bool, asc: bool, xs: seq<Elem<P>>)
    requires PowerOfTwo(|xs|) && Keys64(xs)
    ensures Keys64(Sort(tie, asc, xs))
  {
    SortPermutes(tie, asc, xs);
    var ys := Sort(tie, asc, xs);
    forall i | 0 <= i < |ys| ensures ys[i].key <= MAX_KEY {
      assert ys[i] in multiset(xs);
    }
  }

  lemma SortUnfolds<P>(tie: bool, asc: bool, xs: seq<Elem<P>>)
    requires PowerOfTwo(|xs|) && |xs| > 1
    ensures var k := |xs| / 2;
            Sort(tie, asc, xs) == Merge(tie, asc, Sort(tie, true, xs[..k]) + Sort(tie, false, xs[k..]))
  {
  }

  lemma LosingHalves<P>(n: nat, xs: seq<Elem<P>>, row: P, rest: P, pad: P)
    requires n > 1 && !PowerOfTwo(n) && xs == LosingInput(n, row, rest) + Pads(n, pad)
    ensures var k := NextPowerOfTwo(n) / 2;
            && |xs| == 2 * k && PowerOfTwo(k) && Keys64(xs[..k]) && Keys64(xs[k..])
            && xs[0] == Elem(MAX_KEY, row) && xs[k] == Elem(0, rest)
            && forall i :: 1 <= i < k ==> xs[..k][i] == Elem(0, rest)
  {
    var p := NextPowerOfTwo(n);
    assert p / 2 < n < p;
  }

  /** The row with key 2^64-1 is carried to the very last padded place, behind a sentinel. */
  lemma LosingRoute<P>(tie: bool, n: nat, row: P, rest: P, pad: P)
    requires n > 1 && !PowerOfTwo(n)
    ensures var p := NextPowerOfTwo(n);
            Sort(tie, true, LosingInput(n, row, rest) + Pads(n, pad))[p - 1] == Elem(MAX_KEY, row)
  {
    hide Sort, Pads, LosingInput, NextPowerOfTwo, Merge;
    var k := NextPowerOfTwo(n) / 2;
    var xs := LosingInput(n, row, rest) + Pads(n, pad);
    LosingHalves(n, xs, row, rest, pad);
    var first, second := xs[..k], xs[k..];
    LosingFirstHalf(tie, first, Elem(MAX_KEY, row), Elem(0, rest));
    LosingSecondHalf(tie, second);
    SortKeeps64(tie, true, first);
    SortKeeps64(tie, false, second);
    LosingMerge(tie, Sort(tie, true, first), Sort(tie, false, second));
    SortUnfolds(tie, true, xs);
  }

  /** An element occurring once in ys is missing from any prefix that leaves it out. */
  lemma CutAway<T>(ys: seq<T>, n: nat, i: nat, x: T)
    requires n <= i < |ys| && ys[i] == x && multiset(ys)[x] == 1
    ensures x !in multiset(ys[..n])
  {
    assert ys == ys[..n] + ys[n..];
    assert x == ys[n..][i - n];
    assert x in multiset(ys[n..]);
  }

  lemma LosesOnce<P>(n: nat, row: P, rest: P, pad: P)
    requires n > 1 && row != pad
    ensures multiset(LosingInput(n, row, rest) + Pads(n, pad))[Elem(MAX_KEY, row)] == 1
  {
    var all := LosingInput(n, row, rest) + Pads(n, pad);
    MultisetCons(all);
    assert forall i :: 1 <= i < |all| ==> all[i] == Elem(0, rest) || all[i] == Elem(MAX_KEY, pad);
  }

  lemma LosingInputLoses<P>(tie: bool, n: nat, row: P, rest: P, pad: P)
    requires n > 1 && !PowerOfTwo(n) && row != pad
    ensures multiset(SortPadded(tie, LosingInput(n, row, rest), pad)) != multiset(LosingInput(n, row, rest))
  {
    hide Sort, Pads, LosingInput, NextPowerOfTwo, SortPadded, PowerOfTwo;
    var x, xs := Elem(MAX_KEY, row), LosingInput(n, row, rest);
    PaddedSize(n, xs, pad);
    var all := xs + Pads(n, pad);
    LosesOnce(n, row, rest, pad);
    LosingRoute(tie, n, row, rest, pad);
    SortPermutes(tie, true, all);
    CutAway(Sort(tie, true, all), n, NextPowerOfTwo(n) - 1, x);
    SortPaddedUnfolds(tie, xs, pad);
    LosingFirst(n, row, rest);
  }

  lemma PaddedSize<P>(n: nat, xs: seq<Elem<P>>, pad: P)
    requires n > 1 && |xs| == n && !PowerOfTwo(n)
    ensures |xs + Pads(n, pad)| == NextPowerOfTwo(n) > n && PowerOfTwo(NextPowerOfTwo(n))
  {
  }

  lemma LosingFirst<P>(n: nat, row: P, rest: P)
    requires n >= 1
    ensures Elem(MAX_KEY, row) in multiset(LosingInput(n, row, rest))
  {
    assert LosingInput(n, row, rest)[0] == Elem(MAX_KEY, row);
  }

  /**
   * The padded sort returns a permutation of every 64-bit-keyed input of
   * length n exactly when no padding is needed.
   */
  lemma PermutesEveryInputIff<P(!new)>(tie: bool, n: nat, row: P, pad: P)
    requires row != pad
    ensures (forall xs: seq<Elem<P>> :: |xs| == n && Keys64(xs) ==>
               multiset(SortPadded(tie, xs, pad)) == multiset(xs))
       <==> n <= 1 || PowerOfTwo(n)
  {
    if n <= 1 || PowerOfTwo(n) {
      forall xs: seq<Elem<P>> | |xs| == n && Keys64(xs)
        ensures multiset(SortPadded(tie, xs, pad)) == multiset(xs)
      {
        SortPaddedPermutes(tie, xs, pad);
      }
    } else {
      LosingInputLoses(tie, n, row, row, pad);
      assert |LosingInput(n, row, row)| == n && Keys64(LosingInput(n, row, row));
    }
  }

  // ----------------------------------------------------------------------
  // The schedule of comparators depends on the length alone

  datatype Comparator = Comparator(i: nat, j: nat, asc: bool)

  function RowSchedule(low: nat, k: nat, n: nat, asc: bool): (s: seq<Comparator>)
    ensures |s| == n
  {
    seq(n, i requires 0 <= i < n => Comparator(low + i, low + i + k, asc))
  }

  function MergeSchedule(low: nat, cnt: nat, asc: bool): seq<Comparator>
    decreases cnt
  {
    if cnt <= 1 then []
    else
      var k := cnt / 2;
      RowSchedule(low, k, k, asc) + MergeSchedule(low, k, asc) + MergeSchedule(low + k, k, asc)
  }

  function SortSchedule(low: nat, cnt: nat, asc: bool): seq<Comparator>
    decreases cnt
  {
    if cnt <= 1 then []
    else
      var k := cnt / 2;
      SortSchedule(low, k, true) + SortSchedule(low + k, k, false) + MergeSchedule(low, cnt, asc)
  }

  /** The record of comparators after a merge that started with the record `t`. */
  function TouchMerge(t: seq<Comparator>, low: nat, cnt: nat, asc: bool): seq<Comparator>
    decreases cnt
  {
    if cnt <= 1 then t
    else
      var k := cnt / 2;
      TouchMerge(TouchMerge(t + RowSchedule(low, k, k, asc), low, k, asc), low + k, k, asc)
  }

  function TouchSort(t: seq<Comparator>, low: nat, cnt: nat, asc: bool): seq<Comparator>
    decreases cnt
  {
    if cnt <= 1 then t
    else
      var k := cnt / 2;
      TouchMerge(TouchSort(TouchSort(t, low, k, true), low + k, k, false), low, cnt, asc)
  }

  lemma {:induction false} TouchMergeAppends(t: seq<Comparator>, low: nat, cnt: nat, asc: bool)
    ensures TouchMerge(t, low, cnt, asc) == t + MergeSchedule(low, cnt, asc)
    decreases cnt
  {
    if cnt > 1 {
      var k := cnt / 2;
      var r := RowSchedule(low, k, k, asc);
      TouchMergeAppends(t + r, low, k, asc);
      TouchMergeAppends(t + r + MergeSchedule(low, k, asc), low + k, k, asc);
      Concat4(t, r, MergeSchedule(low, k, asc), MergeSchedule(low + k, k, asc));
    }
  }

  lemma {:induction false} TouchSortAppends(t: seq<Comparator>, low: nat, cnt: nat, asc: bool)
    ensures TouchSort(t, low, cnt, asc) == t + SortSchedule(low, cnt, asc)
    decreases cnt
  {
    if cnt > 1 {
      var k := cnt / 2;
      var a, b := SortSchedule(low, k, true), SortSchedule(low + k, k, false);
      TouchSortAppends(t, low, k, true);
      TouchSortAppends(t + a, low + k, k, false);
      TouchMergeAppends(t + a + b, low, cnt, asc);
      Concat4(t, a, b, MergeSchedule(low, cnt, asc));
    }
  }

  lemma Concat4<T>(a: seq<T>, b: seq<T>, c: seq<T>, d: seq<T>)
    ensures a + b + c + d == a + (b + c + d)
  {
  }

  /** The program's ceil(log2) loop, as a function. */
  function CeilLog2(n: nat): nat {
    if n <= 1 then 0 else 1 + CeilLog2((n + 1) / 2)
  }

  /** The closed form the program declares for a power of two. */
  function ClosedForm(p: nat): nat {
    p / 2 * CeilLog2(p) * (CeilLog2(p) + 1) / 2
  }

  function CompareSwapCount(n: nat): nat {
    if n <= 1 then 0 else ClosedForm(NextPowerOfTwo(n))
  }

  lemma Unfold(low: nat, p: nat, asc: bool)
    requires PowerOfTwo(p) && p > 1
    ensures p == 2 * (p / 2) && PowerOfTwo(p / 2)
    ensures CeilLog2(p) == CeilLog2(p / 2) + 1
    ensures |MergeSchedule(low, p, asc)|
         == p / 2 + |MergeSchedule(low, p / 2, asc)| + |MergeSchedule(low + p / 2, p / 2, asc)|
    ensures |SortSchedule(low, p, asc)|
         == |SortSchedule(low, p / 2, true)| + |SortSchedule(low + p / 2, p / 2, false)| + |MergeSchedule(low, p, asc)|
  {
  }

  /** p l */
  function Flat(p: nat, l: nat): int {
    p * l
  }

  /** p l (l + 1) */
  function Quad(p: nat, l: nat): int {
    p * (l * (l + 1))
  }

  lemma Single(low: nat, asc: bool)
    ensures SortSchedule(low, 1, asc) == [] && MergeSchedule(low, 1, asc) == [] && CeilLog2(1) == 0
    ensures Quad(1, 0) == Flat(1, 0) == 0 && !PowerOfTwo(0)
  {
  }

  lemma {:induction false} MergeScheduleSize(low: nat, p: nat, asc: bool)
    requires PowerOfTwo(p)
    ensures 2 * |MergeSchedule(low, p, asc)| == Flat(p, CeilLog2(p))
    decreases p
  {
    hide *;
    Single(low, asc);
    if p > 1 {
      Unfold(low, p, asc);
      var h := p / 2;
      MergeScheduleSize(low, h, asc);
      MergeScheduleSize(low + h, h, asc);
      MergeStep(h, CeilLog2(h));
    }
  }

  lemma MergeStep(h: nat, l: nat)
    ensures Flat(2 * h, l + 1) == 2 * Flat(h, l) + 2 * h
  {
  }

  lemma {:induction false} SortScheduleSize(low: nat, p: nat, asc: bool)
    requires PowerOfTwo(p)
    ensures 4 * |SortSchedule(low, p, asc)| == Quad(p, CeilLog2(p))
    decreases p
  {
    hide *;
    Single(low, asc);
    if p > 1 {
      Unfold(low, p, asc);
      var h := p / 2;
      SortScheduleSize(low, h, true);
      SortScheduleSize(low + h, h, false);
      MergeScheduleSize(low, p, asc);
      SumStep(h, CeilLog2(h), |SortSchedule(low, h, true)|, |SortSchedule(low + h, h, false)|,
              |MergeSchedule(low, p, asc)|);
    }
  }

  lemma SumStep(h: nat, l: nat, s: nat, s': nat, m: nat)
    requires 4 * s == 4 * s' == Quad(h, l)
    requires 2 * m == Flat(2 * h, l + 1)
    ensures 4 * (s + s' + m) == Quad(2 * h, l + 1)
  {
    var t := l * (l + 1);
    assert (l + 1) * (l + 2) == t + 2 * (l + 1);
    assert 2 * h * (t + 2 * (l + 1)) == 2 * (h * t) + 2 * (2 * h * (l + 1));
  }

  /** The number of comparators is exactly the declared closed form. */
  lemma ScheduleCount(n: nat)
    requires n > 1
    ensures |SortSchedule(0, NextPowerOfTwo(n), true)| == CompareSwapCount(n)
  {
    hide *;
    var p := NextPowerOfTwo(n);
    SortScheduleSize(0, p, true);
    CountUnfolds(n);
    ClosedFormExact(p, |SortSchedule(0, p, true)|);
  }

  lemma NothingToCompare(n: nat)
    requires n <= 1
    ensures CompareSwapCount(n) == 0
  {
  }

  lemma CountUnfolds(n: nat)
    requires n > 1
    ensures CompareSwapCount(n) == ClosedForm(NextPowerOfTwo(n))
    ensures NextPowerOfTwo(n) % 2 == 0
  {
  }

  lemma ClosedFormExact(p: nat, size: nat)
    requires p % 2 == 0
    requires 4 * size == Quad(p, CeilLog2(p))
    ensures size == ClosedForm(p)
  {
    hide CeilLog2;
    var h, l := p / 2, CeilLog2(p);
    assert p == 2 * h;
    assert h * l * (l + 1) == h * (l * (l + 1));
    assert p * (l * (l + 1)) == 2 * (h * (l * (l + 1)));
  }

  lemma CountOfPadded(n: nat)
    ensures CompareSwapCount(NextPowerOfTwo(n)) == CompareSwapCount(n)
  {
    hide ClosedForm;
    NextPowerOfTwoUnique(NextPowerOfTwo(n), NextPowerOfTwo(n));
  }
}

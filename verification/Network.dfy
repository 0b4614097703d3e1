/** The bitonic sorting network as a function on sequences, and the proof that it sorts. */
module Network {
  import opened Words

  datatype Elem<P> = Elem(key: nat, payload: P)

  predicate PowerOfTwo(n: nat) {
    n == 1 || (n > 1 && n % 2 == 0 && PowerOfTwo(n / 2))
  }

  /**
   * Whether a comparator exchanges its inputs. In a descending stage the
   * plaintext sort exchanges ties (`tie`), the shared sort does not.
   */
  predicate Exchanges(tie: bool, asc: bool, a: nat, b: nat) {
    if asc then b < a else if tie then a <= b else a < b
  }

  /** What a row of comparators leaves in the lower half, element by element. */
  function Lo<P>(tie: bool, asc: bool, a: seq<Elem<P>>, b: seq<Elem<P>>): (s: seq<Elem<P>>)
    requires |a| == |b|
    ensures |s| == |a|
  {
    seq(|a|, i requires 0 <= i < |a| => if Exchanges(tie, asc, a[i].key, b[i].key) then b[i] else a[i])
  }

  function Hi<P>(tie: bool, asc: bool, a: seq<Elem<P>>, b: seq<Elem<P>>): (s: seq<Elem<P>>)
    requires |a| == |b|
    ensures |s| == |a|
  {
    seq(|a|, i requires 0 <= i < |a| => if Exchanges(tie, asc, a[i].key, b[i].key) then a[i] else b[i])
  }

  function Merge<P>(tie: bool, asc: bool, xs: seq<Elem<P>>): (s: seq<Elem<P>>)
    requires PowerOfTwo(|xs|)
    ensures |s| == |xs|
    decreases |xs|
  {
    if |xs| == 1 then xs
    else
      var k := |xs| / 2;
      Merge(tie, asc, Lo(tie, asc, xs[..k], xs[k..])) + Merge(tie, asc, Hi(tie, asc, xs[..k], xs[k..]))
  }

  function Sort<P>(tie: bool, asc: bool, xs: seq<Elem<P>>): (s: seq<Elem<P>>)
    requires PowerOfTwo(|xs|)
    ensures |s| == |xs|
    decreases |xs|
  {
    if |xs| == 1 then xs
    else
      var k := |xs| / 2;
      Merge(tie, asc, Sort(tie, true, xs[..k]) + Sort(tie, false, xs[k..]))
  }

  ghost predicate Sorted<P>(asc: bool, xs: seq<Elem<P>>) {
    forall i, j :: 0 <= i < j < |xs| ==> if asc then xs[i].key <= xs[j].key else xs[j].key <= xs[i].key
  }

  // ----------------------------------------------------------------------
  // The network permutes its input

  lemma MultisetCons<T>(s: seq<T>)
    requires s != []
    ensures multiset(s) == multiset{s[0]} + multiset(s[1..])
  {
    assert s == [s[0]] + s[1..];
  }

  lemma Shuffled<T>(lo: seq<T>, hi: seq<T>, a: seq<T>, b: seq<T>)
    requires lo != [] && hi != [] && a != [] && b != []
    requires (lo[0] == a[0] && hi[0] == b[0]) || (lo[0] == b[0] && hi[0] == a[0])
    requires multiset(lo[1..]) + multiset(hi[1..]) == multiset(a[1..]) + multiset(b[1..])
    ensures multiset(lo) + multiset(hi) == multiset(a) + multiset(b)
  {
    MultisetCons(a);
    MultisetCons(b);
    MultisetCons(lo);
    MultisetCons(hi);
    assert multiset(lo) + multiset(hi)
        == (multiset{lo[0]} + multiset{hi[0]}) + (multiset(lo[1..]) + multiset(hi[1..]));
    assert multiset(a) + multiset(b)
        == (multiset{a[0]} + multiset{b[0]}) + (multiset(a[1..]) + multiset(b[1..]));
  }

  lemma {:induction false} RowPermutes<P>(tie: bool, asc: bool, a: seq<Elem<P>>, b: seq<Elem<P>>)
    requires |a| == |b|
    ensures multiset(Lo(tie, asc, a, b)) + multiset(Hi(tie, asc, a, b)) == multiset(a) + multiset(b)
  {
    if a != [] {
      RowPermutes(tie, asc, a[1..], b[1..]);
      var lo, hi := Lo(tie, asc, a, b), Hi(tie, asc, a, b);
      assert lo[1..] == Lo(tie, asc, a[1..], b[1..]);
      assert hi[1..] == Hi(tie, asc, a[1..], b[1..]);
      Shuffled(lo, hi, a, b);
    }
  }

  lemma {:induction false} MergePermutes<P>(tie: bool, asc: bool, xs: seq<Elem<P>>)
    requires PowerOfTwo(|xs|)
    ensures multiset(Merge(tie, asc, xs)) == multiset(xs)
    decreases |xs|
  {
    hide Merge, Sort, Lo, Hi;
    NetworkUnfolds(tie, asc, xs);
    if |xs| > 1 {
      var k := |xs| / 2;
      RowPermutes(tie, asc, xs[..k], xs[k..]);
      MergePermutes(tie, asc, Lo(tie, asc, xs[..k], xs[k..]));
      MergePermutes(tie, asc, Hi(tie, asc, xs[..k], xs[k..]));
      assert xs == xs[..k] + xs[k..];
    }
  }

  lemma NetworkUnfolds<P>(tie: bool, asc: bool, xs: seq<Elem<P>>)
    requires PowerOfTwo(|xs|)
    ensures |xs| == 1 ==> Merge(tie, asc, xs) == xs && Sort(tie, asc, xs) == xs
    ensures var k := |xs| / 2; |xs| > 1 ==>
              && |xs| == 2 * k && PowerOfTwo(k)
              && Merge(tie, asc, xs)
                 == Merge(tie, asc, Lo(tie, asc, xs[..k], xs[k..])) + Merge(tie, asc, Hi(tie, asc, xs[..k], xs[k..]))
              && Sort(tie, asc, xs) == Merge(tie, asc, Sort(tie, true, xs[..k]) + Sort(tie, false, xs[k..]))
  {
    hide Lo, Hi;
  }

  lemma {:induction false} SortPermutes<P>(tie: bool, asc: bool, xs: seq<Elem<P>>)
    requires PowerOfTwo(|xs|)
    ensures multiset(Sort(tie, asc, xs)) == multiset(xs)
    decreases |xs|
  {
    hide Merge, Sort;
    NetworkUnfolds(tie, asc, xs);
    if |xs| > 1 {
      var k := |xs| / 2;
      SortPermutes(tie, true, xs[..k]);
      SortPermutes(tie, false, xs[k..]);
      MergePermutes(tie, asc, Sort(tie, true, xs[..k]) + Sort(tie, false, xs[k..]));
      assert xs == xs[..k] + xs[k..];
    }
  }

  // ----------------------------------------------------------------------
  // The network on truth values: comparators become AND and OR

  function And(a: Bits, b: Bits): (s: Bits)
    requires |a| == |b|
    ensures |s| == |a|
  {
    seq(|a|, i requires 0 <= i < |a| => a[i] && b[i])
  }

  function Or(a: Bits, b: Bits): (s: Bits)
    requires |a| == |b|
    ensures |s| == |a|
  {
    seq(|a|, i requires 0 <= i < |a| => a[i] || b[i])
  }

  function Merge01(asc: bool, s: Bits): (t: Bits)
    requires PowerOfTwo(|s|)
    ensures |t| == |s|
    decreases |s|
  {
    if |s| == 1 then s
    else
      var k := |s| / 2;
      var small, large := And(s[..k], s[k..]), Or(s[..k], s[k..]);
      if asc then Merge01(asc, small) + Merge01(asc, large) else Merge01(asc, large) + Merge01(asc, small)
  }

  /** Which elements reach the threshold `t`. */
  function Reach<P>(t: nat, xs: seq<Elem<P>>): (s: Bits)
    ensures |s| == |xs|
    ensures forall i :: 0 <= i < |xs| ==> s[i] == (xs[i].key >= t)
  {
    seq(|xs|, i requires 0 <= i < |xs| => xs[i].key >= t)
  }

  lemma ReachRow<P>(t: nat, tie: bool, asc: bool, a: seq<Elem<P>>, b: seq<Elem<P>>)
    requires |a| == |b|
    ensures Reach(t, Lo(tie, asc, a, b)) == if asc then And(Reach(t, a), Reach(t, b)) else Or(Reach(t, a), Reach(t, b))
    ensures Reach(t, Hi(tie, asc, a, b)) == if asc then Or(Reach(t, a), Reach(t, b)) else And(Reach(t, a), Reach(t, b))
  {
  }

  lemma ReachConcat<P>(t: nat, a: seq<Elem<P>>, b: seq<Elem<P>>)
    ensures Reach(t, a + b) == Reach(t, a) + Reach(t, b)
  {
  }

  /** Thresholding commutes with merging. */
  lemma {:induction false} ReachMerge<P>(t: nat, tie: bool, asc: bool, xs: seq<Elem<P>>)
    requires PowerOfTwo(|xs|)
    ensures Reach(t, Merge(tie, asc, xs)) == Merge01(asc, Reach(t, xs))
    decreases |xs|
  {
    if |xs| > 1 {
      var k := |xs| / 2;
      var a, b := xs[..k], xs[k..];
      assert Reach(t, xs)[..k] == Reach(t, a) && Reach(t, xs)[k..] == Reach(t, b);
      ReachRow(t, tie, asc, a, b);
      ReachMerge(t, tie, asc, Lo(tie, asc, a, b));
      ReachMerge(t, tie, asc, Hi(tie, asc, a, b));
      ReachConcat(t, Merge(tie, asc, Lo(tie, asc, a, b)), Merge(tie, asc, Hi(tie, asc, a, b)));
    }
  }

  /** A cyclic bitonic pattern: `s` is true exactly on [p, q), or exactly off it. */
  ghost predicate Arc(s: Bits, p: nat, q: nat, off: bool) {
    p <= q <= |s| && forall i :: 0 <= i < |s| ==> s[i] == ((p <= i < q) != off)
  }

  ghost predicate Constant(s: Bits, v: bool) {
    forall i :: 0 <= i < |s| ==> s[i] == v
  }

  ghost predicate Sorted01(asc: bool, s: Bits) {
    forall i, j :: 0 <= i < j < |s| ==> if asc then s[i] ==> s[j] else s[j] ==> s[i]
  }

  ghost predicate Bitonic(s: Bits) {
    exists p, q, off :: Arc(s, p, q, off)
  }

  /** The half-cleaner: both halves stay bitonic and one of them is constant. */
  lemma HalfClean(s: Bits, k: nat)
    requires |s| == 2 * k && Bitonic(s)
    ensures Bitonic(And(s[..k], s[k..])) && Bitonic(Or(s[..k], s[k..]))
    ensures Constant(And(s[..k], s[k..]), false) || Constant(Or(s[..k], s[k..]), true)
  {
    var p: nat, q: nat, off :| Arc(s, p, q, off);
    if q <= k {
      HalfCleanOneSide(s, k, p, q, off, p, q);
    } else if p >= k {
      HalfCleanOneSide(s, k, p, q, off, p - k, q - k);
    } else {
      HalfCleanAcross(s, k, p, q, off);
    }
  }

  lemma HalfCleanOneSide(s: Bits, k: nat, p: nat, q: nat, off: bool, p': nat, q': nat)
    requires |s| == 2 * k && Arc(s, p, q, off)
    requires (q <= k && p' == p && q' == q) || (p >= k && p' == p - k && q' == q - k)
    ensures if off then Arc(And(s[..k], s[k..]), p', q', true) && Arc(Or(s[..k], s[k..]), 0, 0, true)
            else Arc(And(s[..k], s[k..]), 0, 0, false) && Arc(Or(s[..k], s[k..]), p', q', false)
  {
  }

  lemma HalfCleanAcross(s: Bits, k: nat, p: nat, q: nat, off: bool)
    requires |s| == 2 * k && Arc(s, p, q, off) && p < k < q
    ensures Bitonic(And(s[..k], s[k..])) && Bitonic(Or(s[..k], s[k..]))
    ensures Constant(And(s[..k], s[k..]), false) || Constant(Or(s[..k], s[k..]), true)
  {
    var small, large := And(s[..k], s[k..]), Or(s[..k], s[k..]);
    if q - k <= p {
      assert if off then Arc(small, q - k, p, false) && Arc(large, 0, 0, true)
             else Arc(small, 0, 0, false) && Arc(large, q - k, p, true);
    } else {
      assert if off then Arc(small, 0, 0, false) && Arc(large, p, q - k, true)
             else Arc(small, p, q - k, false) && Arc(large, 0, 0, true);
    }
  }

  lemma {:induction false} MergeConstant(asc: bool, s: Bits, v: bool)
    requires PowerOfTwo(|s|) && Constant(s, v)
    ensures Constant(Merge01(asc, s), v)
    decreases |s|
  {
    if |s| > 1 {
      var k := |s| / 2;
      MergeConstant(asc, And(s[..k], s[k..]), v);
      MergeConstant(asc, Or(s[..k], s[k..]), v);
    }
  }

  lemma ConcatSorted(asc: bool, a: Bits, b: Bits)
    requires Sorted01(asc, a) && Sorted01(asc, b)
    requires Constant(a, !asc) || Constant(b, asc)
    ensures Sorted01(asc, a + b)
  {
  }

  lemma {:induction false} MergeSorts01(asc: bool, s: Bits)
    requires PowerOfTwo(|s|) && Bitonic(s)
    ensures Sorted01(asc, Merge01(asc, s))
    decreases |s|
  {
    if |s| > 1 {
      var k := |s| / 2;
      var small, large := And(s[..k], s[k..]), Or(s[..k], s[k..]);
      HalfClean(s, k);
      MergeSorts01(asc, small);
      MergeSorts01(asc, large);
      if Constant(small, false) {
        MergeConstant(asc, small, false);
      } else {
        MergeConstant(asc, large, true);
      }
      if asc {
        ConcatSorted(asc, Merge01(asc, small), Merge01(asc, large));
      } else {
        ConcatSorted(asc, Merge01(asc, large), Merge01(asc, small));
      }
    }
  }

  // ----------------------------------------------------------------------
  // From truth values back to keys

  lemma SortedReaches<P>(asc: bool, t: nat, xs: seq<Elem<P>>)
    requires Sorted(asc, xs)
    ensures Sorted01(asc, Reach(t, xs))
  {
  }

  lemma ReachesSorted<P>(asc: bool, xs: seq<Elem<P>>)
    requires forall t: nat :: Sorted01(asc, Reach(t, xs))
    ensures Sorted(asc, xs)
  {
    forall i, j | 0 <= i < j < |xs|
      ensures if asc then xs[i].key <= xs[j].key else xs[j].key <= xs[i].key
    {
      var t := if asc then xs[i].key else xs[j].key;
      assert Sorted01(asc, Reach(t, xs));
      assert Reach(t, xs)[i] == (xs[i].key >= t) && Reach(t, xs)[j] == (xs[j].key >= t);
    }
  }

  /** Where a sorted truth sequence steps from one value to the other. */
  lemma {:induction false} StepPoint(asc: bool, s: Bits) returns (p: nat)
    requires Sorted01(asc, s)
    ensures p <= |s|
    ensures forall i :: 0 <= i < |s| ==> s[i] == ((i < p) != asc)
  {
    p := 0;
    while p < |s| && s[p] == !asc
      invariant p <= |s|
      invariant forall i :: 0 <= i < p ==> s[i] == !asc
    {
      p := p + 1;
    }
  }

  lemma UpThenDown(a: Bits, b: Bits)
    requires Sorted01(true, a) && Sorted01(false, b)
    ensures Bitonic(a + b)
  {
    var p := StepPoint(true, a);
    var q := StepPoint(false, b);
    assert Arc(a + b, p, |a| + q, false);
  }

  /** The bitonic network sorts, in either direction and under either tie rule. */
  lemma {:induction false} SortSorts<P>(tie: bool, asc: bool, xs: seq<Elem<P>>)
    requires PowerOfTwo(|xs|)
    ensures Sorted(asc, Sort(tie, asc, xs))
    decreases |xs|
  {
    if |xs| > 1 {
      var k := |xs| / 2;
      var up, down := Sort(tie, true, xs[..k]), Sort(tie, false, xs[k..]);
      SortSorts(tie, true, xs[..k]);
      SortSorts(tie, false, xs[k..]);
      forall t: nat ensures Sorted01(asc, Reach(t, Sort(tie, asc, xs))) {
        SortedReaches(true, t, up);
        SortedReaches(false, t, down);
        UpThenDown(Reach(t, up), Reach(t, down));
        ReachConcat(t, up, down);
        MergeSorts01(asc, Reach(t, up + down));
        ReachMerge(t, tie, asc, up + down);
      }
      ReachesSorted(asc, Sort(tie, asc, xs));
    }
  }
}

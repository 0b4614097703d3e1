/** Comparison circuits on shared 64-bit words. */
module Compare {
  import opened Outcomes
  import opened Words
  import opened Shares

  const LESS_THAN_COST: nat := 64 * 4
  const EQUAL_COST: nat := 63

  predicate Word(w: Shared, n: nat) {
    n >= 1 && |w| == 64 && Shaped(w, n)
  }

  /** Adding a low bit keeps the order unless the high parts agree. */
  lemma LessByHighBits(a: Bits, b: Bits)
    requires |a| == |b| > 0
    ensures ToNat(a) < ToNat(b)
       <==> ToNat(a[1..]) < ToNat(b[1..]) || (a[1..] == b[1..] && !a[0] && b[0])
  {
    ToNatInjective(a[1..], b[1..]);
  }

  lemma TailStep(a: Bits, i: nat)
    requires i < |a|
    ensures a[i..][0] == a[i] && a[i..][1..] == a[i + 1..] && a[i..] == [a[i]] + a[i + 1..]
  {
  }

  /** One round of the comparison on opened values. */
  lemma LessRound(x: Bits, y: Bits, i: nat)
    requires |x| == |y| && i < |x|
    ensures var first := x[i] != y[i] && x[i + 1..] == y[i + 1..];
            && (ToNat(x[i..]) < ToNat(y[i..]) <==> ToNat(x[i + 1..]) < ToNat(y[i + 1..]) || (first && y[i]))
            && (x[i..] != y[i..] <==> x[i + 1..] != y[i + 1..] || first)
  {
    TailStep(x, i);
    TailStep(y, i);
    LessByHighBits(x[i..], y[i..]);
    if x[i..] == y[i..] {
      assert x[i] == x[i..][0] == y[i..][0] == y[i];
      assert x[i + 1..] == y[i + 1..];
    }
  }

  /**
   * Walks the bits from the top; the first position where x and y differ
   * decides. Each bit takes four triples.
   */
  method SecureLessThan(x: Shared, y: Shared, bag: TripleBag) returns (r: Result<SharedBit>)
    requires |x| == |y| == 64
    requires Word(x, x[0].N()) && Word(y, y[0].N()) && bag.Honest(x[0].N())
    modifies bag
    ensures r.Success? <==> x[0].N() == y[0].N() && old(bag.index) + LESS_THAN_COST <= |bag.triples|
    ensures r.Success? ==> bag.index == old(bag.index) + LESS_THAN_COST
    ensures r.Success? ==> r.value.N() == x[0].N() && (r.value.Open() <==> Value(x) < Value(y))
  {
    var n := x[0].N();
    if n != y[0].N() {
      return Failure("secureLessThan: N mismatch");
    }
    var result, decided := Zero(n), Zero(n);
    var i := 64;
    while i > 0
      invariant 0 <= i <= 64
      invariant result.N() == decided.N() == n
      invariant bag.index == old(bag.index) + 4 * (64 - i)
      invariant i < 64 ==> bag.index <= |bag.triples|
      invariant result.Open() <==> ToNat(Open(x)[i..]) < ToNat(Open(y)[i..])
      invariant decided.Open() <==> Open(x)[i..] != Open(y)[i..]
    {
      i := i - 1;
      LessRound(Open(x), Open(y), i);
      var diff := XorShared(x[i], y[i]);
      var first :- bag.And(diff, NotShared(decided));
      var contrib :- bag.And(first, y[i]);
      result :- bag.Or(result, contrib);
      decided :- bag.Or(decided, first);
    }
    assert Open(x)[0..] == Open(x) && Open(y)[0..] == Open(y);
    r := Success(result);
  }

  // ----------------------------------------------------------------------
  // Equality: an AND tree over the 64 agreement bits

  predicate AllTrue(s: Bits) {
    forall i :: 0 <= i < |s| ==> s[i]
  }

  /** One level of the tree: neighbours are multiplied, an odd last bit is carried over. */
  function Pairwise(s: Bits): (t: Bits)
    ensures |t| == (|s| + 1) / 2
  {
    if |s| < 2 then s else [s[0] && s[1]] + Pairwise(s[2..])
  }

  lemma {:induction false} PairwiseKeeps(s: Bits)
    ensures AllTrue(Pairwise(s)) <==> AllTrue(s)
  {
    if |s| >= 2 {
      PairwiseKeeps(s[2..]);
      var t := Pairwise(s);
      assert t[1..] == Pairwise(s[2..]);
      assert AllTrue(t) <==> t[0] && AllTrue(t[1..]) by { AllTrueSplit(t, 1); }
      assert AllTrue(s) <==> s[0] && s[1] && AllTrue(s[2..]) by { AllTrueSplit(s, 2); }
    }
  }

  lemma AllTrueSplit(s: Bits, k: nat)
    requires k <= |s|
    ensures AllTrue(s) <==> AllTrue(s[..k]) && AllTrue(s[k..])
  {
    if AllTrue(s[..k]) && AllTrue(s[k..]) {
      forall i | 0 <= i < |s| ensures s[i] {
        if i < k { assert s[..k][i]; } else { assert s[k..][i - k]; }
      }
    }
  }

  lemma PairwiseSnoc(s: Bits, i: nat)
    requires i + 1 < |s| && i % 2 == 0
    ensures Pairwise(s[..i + 2]) == Pairwise(s[..i]) + [s[i] && s[i + 1]]
    decreases i
  {
    hide Pairwise;
    PairwiseUnfolds(s[..i + 2]);
    PairwiseUnfolds(s[..i]);
    if i == 0 {
      assert s[..2][2..] == [];
      PairwiseUnfolds([]);
    } else {
      PairwiseSnoc(s[2..], i - 2);
      assert s[..i + 2][2..] == s[2..][..i];
      assert s[..i][2..] == s[2..][..i - 2];
    }
  }

  lemma PairwiseOdd(s: Bits)
    requires |s| % 2 == 1
    ensures Pairwise(s) == Pairwise(s[..|s| - 1]) + [s[|s| - 1]]
  {
    hide Pairwise;
    var n := |s| - 1;
    PairwiseUnfolds(s);
    PairwiseUnfolds(s[..n]);
    if |s| > 1 {
      PairwiseOdd(s[2..]);
      assert s[2..][..n - 2] == s[..n][2..] && s[2..][n - 2] == s[n];
    }
  }

  lemma PairwiseUnfolds(s: Bits)
    ensures Pairwise(s) == if |s| < 2 then s else [s[0] && s[1]] + Pairwise(s[2..])
  {
  }

  /** One level of the AND tree, in the loop form of the program. */
  method AndLevel(level: Shared, n: nat, bag: TripleBag) returns (r: Result<Shared>)
    requires |level| > 1 && Shaped(level, n) && bag.Honest(n)
    modifies bag
    ensures r.Success? <==> old(bag.index) + |level| / 2 <= |bag.triples|
    ensures r.Success? ==> bag.index == old(bag.index) + |level| / 2
    ensures r.Success? ==> Shaped(r.value, n) && Open(r.value) == Pairwise(Open(level))
  {
    hide Pairwise, SharedBit.Open;
    var next: Shared := [];
    var i := 0;
    PairwiseUnfolds([]);
    assert Open(level)[..0] == [] && Open(next) == [];
    while i + 1 < |level|
      invariant 0 <= i <= |level| && i % 2 == 0
      invariant bag.index == old(bag.index) + i / 2
      invariant i > 0 ==> bag.index <= |bag.triples|
      invariant Shaped(next, n)
      invariant Open(next) == Pairwise(Open(level)[..i])
    {
      var both :- bag.And(level[i], level[i + 1]);
      PairwiseSnoc(Open(level), i);
      OpenConcat(next, [both]);
      next := next + [both];
      i := i + 2;
    }
    if i < |level| {
      PairwiseOdd(Open(level));
      OpenConcat(next, [level[i]]);
      next := next + [level[i]];
    } else {
      assert Open(level)[..i] == Open(level);
    }
    r := Success(next);
  }

  method SecureEqual(x: Shared, y: Shared, bag: TripleBag) returns (r: Result<SharedBit>)
    requires |x| == |y| == 64
    requires Word(x, x[0].N()) && Word(y, y[0].N()) && bag.Honest(x[0].N())
    modifies bag
    ensures r.Success? <==> x[0].N() == y[0].N() && old(bag.index) + EQUAL_COST <= |bag.triples|
    ensures r.Success? ==> bag.index == old(bag.index) + EQUAL_COST
    ensures r.Success? ==> r.value.N() == x[0].N() && (r.value.Open() <==> Value(x) == Value(y))
  {
    var n := x[0].N();
    if n != y[0].N() {
      return Failure("secureEqual: N mismatch");
    }
    var level: Shared := [];
    for i := 0 to 64
      invariant |level| == i && Shaped(level, n)
      invariant forall k :: 0 <= k < i ==> (level[k].Open() <==> x[k].Open() == y[k].Open())
    {
      level := level + [NotShared(XorShared(x[i], y[i]))];
    }
    AllAgree(x, y, level);
    while |level| > 1
      invariant 1 <= |level| <= 64 && Shaped(level, n)
      invariant bag.index == old(bag.index) + (64 - |level|)
      invariant |level| < 64 ==> bag.index <= |bag.triples|
      invariant AllTrue(Open(level)) <==> Value(x) == Value(y)
    {
      PairwiseKeeps(Open(level));
      level :- AndLevel(level, n, bag);
    }
    assert AllTrue(Open(level)) <==> Open(level)[0];
    r := Success(level[0]);
  }

  lemma AllAgree(x: Shared, y: Shared, level: Shared)
    requires |x| == |y| == |level|
    requires forall k :: 0 <= k < |x| ==> (level[k].Open() <==> x[k].Open() == y[k].Open())
    ensures AllTrue(Open(level)) <==> Value(x) == Value(y)
  {
    ToNatInjective(Open(x), Open(y));
    if AllTrue(Open(level)) {
      forall k | 0 <= k < |x| ensures Open(x)[k] == Open(y)[k] {
        assert Open(level)[k];
      }
      assert Open(x) == Open(y);
    }
  }
}

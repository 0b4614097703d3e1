/** The bitonic sort on secret-shared elements. */
module MpcSort {
  import opened Outcomes
  import opened Words
  import opened Shares
  import opened Compare
  import opened Network
  import opened PaddedSort
  import opened InPlace

  datatype SharedElem = SharedElem(key: Shared, payload: Shared) {
    ghost predicate Fits(n: nat, w: nat) {
      Word(key, n) && |payload| == w && Shaped(payload, n)
    }
  }

  /** What the parties would see if they opened the element. */
  function OpenElem(e: SharedElem): Elem<Bits> {
    Elem(Value(e.key), Open(e.payload))
  }

  function OpenAll(s: seq<SharedElem>): (t: seq<Elem<Bits>>)
    ensures |t| == |s|
    ensures forall i :: 0 <= i < |s| ==> t[i] == OpenElem(s[i])
  {
    seq(|s|, i requires 0 <= i < |s| => OpenElem(s[i]))
  }

  ghost predicate AllFit(s: seq<SharedElem>, n: nat, w: nat) {
    forall i :: 0 <= i < |s| ==> s[i].Fits(n, w)
  }

  function SwapCost(payloadBits: nat): nat {
    64 + payloadBits
  }

  /** Triples for one compare-and-swap. */
  function StepCost(payloadBits: nat): nat {
    LESS_THAN_COST + SwapCost(payloadBits)
  }

  function SortTripleCost(n: nat, payloadBits: nat): nat {
    if n <= 1 then 0 else NatProduct(CompareSwapCount(NextPowerOfTwo(n)), StepCost(payloadBits))
  }

  // ----------------------------------------------------------------------
  // Costs of rows, merges and sorts, at c triples a comparator

  function RowCost(k: nat, c: nat): nat {
    if k == 0 then 0 else RowCost(k - 1, c) + c
  }

  function MergeCost(cnt: nat, c: nat): nat {
    if cnt <= 1 then 0 else RowCost(cnt / 2, c) + MergeCost(cnt / 2, c) + MergeCost(cnt / 2, c)
  }

  function SortCost(cnt: nat, c: nat): nat {
    if cnt <= 1 then 0 else SortCost(cnt / 2, c) + SortCost(cnt / 2, c) + MergeCost(cnt, c)
  }

  lemma {:induction false} RowCostProduct(k: nat, c: nat)
    ensures RowCost(k, c) == k * c
  {
    if k > 0 {
      RowCostProduct(k - 1, c);
    }
  }

  lemma RowCostAdds(a: nat, b: nat, c: nat)
    ensures RowCost(a + b, c) == RowCost(a, c) + RowCost(b, c)
  {
    hide RowCost;
    RowCostProduct(a + b, c);
    RowCostProduct(a, c);
    RowCostProduct(b, c);
  }

  lemma RowCostStep(k: nat, c: nat)
    ensures RowCost(k + 1, c) == RowCost(k, c) + c
  {
  }

  lemma {:induction false} MergeCostSchedule(low: nat, cnt: nat, asc: bool, c: nat)
    ensures MergeCost(cnt, c) == RowCost(|MergeSchedule(low, cnt, asc)|, c)
    decreases cnt
  {
    if cnt > 1 {
      var k := cnt / 2;
      var m, m' := |MergeSchedule(low, k, asc)|, |MergeSchedule(low + k, k, asc)|;
      assert |MergeSchedule(low, cnt, asc)| == k + m + m';
      MergeCostSchedule(low, k, asc, c);
      MergeCostSchedule(low + k, k, asc, c);
      RowCostAdds(k + m, m', c);
      RowCostAdds(k, m, c);
    }
  }

  lemma SortCostUnfolds(low: nat, cnt: nat, asc: bool, c: nat)
    ensures cnt <= 1 ==> SortCost(cnt, c) == 0 == RowCost(0, c) && SortSchedule(low, cnt, asc) == []
    ensures var k := cnt / 2; cnt > 1 ==>
              && SortCost(cnt, c) == SortCost(k, c) + SortCost(k, c) + MergeCost(cnt, c)
              && SortSchedule(low, cnt, asc)
                 == SortSchedule(low, k, true) + SortSchedule(low + k, k, false) + MergeSchedule(low, cnt, asc)
  {
    hide MergeCost, MergeSchedule;
  }

  lemma {:induction false} SortCostSchedule(low: nat, cnt: nat, asc: bool, c: nat)
    ensures SortCost(cnt, c) == RowCost(|SortSchedule(low, cnt, asc)|, c)
    decreases cnt
  {
    hide SortCost, SortSchedule, MergeCost, MergeSchedule, RowCost;
    SortCostUnfolds(low, cnt, asc, c);
    if cnt > 1 {
      var k := cnt / 2;
      var a, b, m := |SortSchedule(low, k, true)|, |SortSchedule(low + k, k, false)|, |MergeSchedule(low, cnt, asc)|;
      SortCostSchedule(low, k, true, c);
      SortCostSchedule(low + k, k, false, c);
      MergeCostSchedule(low, cnt, asc, c);
      RowCostAdds(a + b, m, c);
      RowCostAdds(a, b, c);
    }
  }

  /** The declared cost is what the network spends. */
  lemma DeclaredCost(n: nat, payloadBits: nat)
    requires n > 1
    ensures SortTripleCost(n, payloadBits) == SortCost(NextPowerOfTwo(n), StepCost(payloadBits))
  {
    hide SortCost, RowCost, CompareSwapCount, SortSchedule;
    var p, c := NextPowerOfTwo(n), StepCost(payloadBits);
    SortCostSchedule(0, p, true, c);
    ScheduleCount(n);
    CountOfPadded(n);
    RowCostProduct(CompareSwapCount(n), c);
  }

  lemma NothingToSort(n: nat, payloadBits: nat)
    requires n <= 1
    ensures SortTripleCost(n, payloadBits) == 0
  {
  }

  lemma MergeCostUnfolds(cnt: nat, c: nat)
    ensures cnt > 1 ==> MergeCost(cnt, c) == RowCost(cnt / 2, c) + MergeCost(cnt / 2, c) + MergeCost(cnt / 2, c)
    ensures cnt <= 1 ==> MergeCost(cnt, c) == 0
    ensures MergeCost(1, c) == 0 && RowCost(0, c) == 0
  {
  }

  // ----------------------------------------------------------------------
  // Conditional swap

  /** Per bit: maskedDiff = selector AND (x XOR y), then both sides absorb it. */
  method SwapBits(x: Shared, y: Shared, selector: SharedBit, bag: TripleBag) returns (r: Result<(Shared, Shared)>)
    requires |x| == |y| && Shaped(x, selector.N()) && Shaped(y, selector.N()) && bag.Honest(selector.N())
    modifies bag
    ensures r.Success? <==> |x| == 0 || old(bag.index) + |x| <= |bag.triples|
    ensures r.Success? ==> bag.index == old(bag.index) + |x|
    ensures r.Success? ==> |r.value.0| == |r.value.1| == |x|
    ensures r.Success? ==> Shaped(r.value.0, selector.N()) && Shaped(r.value.1, selector.N())
    ensures r.Success? ==> Open(r.value.0) == if selector.Open() then Open(y) else Open(x)
    ensures r.Success? ==> Open(r.value.1) == if selector.Open() then Open(x) else Open(y)
  {
    var x', y': Shared := [], [];
    for i := 0 to |x|
      invariant |x'| == |y'| == i && Shaped(x', selector.N()) && Shaped(y', selector.N())
      invariant bag.index == old(bag.index) + i && (i > 0 ==> bag.index <= |bag.triples|)
      invariant forall m :: 0 <= m < i ==>
                  && x'[m].Open() == (if selector.Open() then y[m].Open() else x[m].Open())
                  && y'[m].Open() == (if selector.Open() then x[m].Open() else y[m].Open())
    {
      var diff := XorShared(x[i], y[i]);
      var maskedDiff :- bag.And(selector, diff);
      x' := x' + [XorShared(x[i], maskedDiff)];
      y' := y' + [XorShared(y[i], maskedDiff)];
    }
    assert Open(x') == (if selector.Open() then Open(y) else Open(x));
    assert Open(y') == (if selector.Open() then Open(x) else Open(y));
    r := Success((x', y'));
  }

  method ConditionalSwap(a: SharedElem, b: SharedElem, selector: SharedBit, bag: TripleBag)
    returns (r: Result<(SharedElem, SharedElem)>)
    requires a.Fits(selector.N(), |a.payload|) && b.Fits(selector.N(), |b.payload|) && bag.Honest(selector.N())
    modifies bag
    ensures r.Success?
       <==> |a.payload| == |b.payload| && old(bag.index) + SwapCost(|a.payload|) <= |bag.triples|
    ensures r.Success? ==> bag.index == old(bag.index) + SwapCost(|a.payload|)
    ensures r.Success? ==> r.value.0.Fits(selector.N(), |a.payload|) && r.value.1.Fits(selector.N(), |a.payload|)
    ensures r.Success? ==> OpenElem(r.value.0) == if selector.Open() then OpenElem(b) else OpenElem(a)
    ensures r.Success? ==> OpenElem(r.value.1) == if selector.Open() then OpenElem(a) else OpenElem(b)
  {
    if |a.payload| != |b.payload| {
      return Failure("conditionalSwap: payload size mismatch");
    }
    var keys :- SwapBits(a.key, b.key, selector, bag);
    var payloads :- SwapBits(a.payload, b.payload, selector, bag);
    r := Success((SharedElem(keys.0, payloads.0), SharedElem(keys.1, payloads.1)));
  }

  // ----------------------------------------------------------------------
  // The sort

  /** One element's place in the vector changes; the others do not. */
  lemma OpenUpdate(s: seq<SharedElem>, i: nat, j: nat, x: SharedElem, y: SharedElem)
    requires i < j < |s|
    ensures OpenAll(s[i := x][j := y]) == OpenAll(s)[i := OpenElem(x)][j := OpenElem(y)]
  {
  }

  class SharedVector {
    var xs: seq<SharedElem>

    constructor (xs: seq<SharedElem>)
      ensures this.xs == xs
    {
      this.xs := xs;
    }

    /** Swaps only on a strict inversion, in either direction. */
    method CompareAndSwap(i: nat, j: nat, ascending: bool, bag: TripleBag, ghost n: nat, ghost w: nat)
      returns (r: Result<()>)
      requires i < j < |xs| && AllFit(xs, n, w) && bag.Honest(n)
      modifies this, bag
      ensures r.Success? <==> old(bag.index) + StepCost(w) <= |bag.triples|
      ensures r.Success? ==> bag.index == old(bag.index) + StepCost(w) && AllFit(xs, n, w)
      ensures r.Success? ==> OpenAll(xs) == CompareAt(false, ascending, OpenAll(old(xs)), i, j)
    {
      var a, b := xs[i], xs[j];
      var selector;
      if ascending {
        selector :- SecureLessThan(b.key, a.key, bag);
      } else {
        selector :- SecureLessThan(a.key, b.key, bag);
      }
      var swapped :- ConditionalSwap(a, b, selector, bag);
      OpenUpdate(xs, i, j, swapped.0, swapped.1);
      assert OpenAll(xs)[i := OpenElem(a)][j := OpenElem(b)] == OpenAll(xs);
      xs := xs[i := swapped.0][j := swapped.1];
      r := Success(());
    }

    method CompareRow(low: nat, k: nat, ascending: bool, bag: TripleBag, ghost n: nat, ghost w: nat)
      returns (r: Result<()>)
      requires low + 2 * k <= |xs| && AllFit(xs, n, w) && bag.Honest(n)
      modifies this, bag
      ensures r.Success? <==> k == 0 || old(bag.index) + RowCost(k, StepCost(w)) <= |bag.triples|
      ensures r.Success? ==> bag.index == old(bag.index) + RowCost(k, StepCost(w)) && AllFit(xs, n, w)
      ensures r.Success? ==> OpenAll(xs) == RowUpTo(false, ascending, OpenAll(old(xs)), low, k, k)
    {
      hide StepCost, OpenAll, CompareAt;
      for i := low to low + k
        invariant |xs| == |old(xs)| && AllFit(xs, n, w)
        invariant bag.index == old(bag.index) + RowCost(i - low, StepCost(w))
        invariant i > low ==> bag.index <= |bag.triples|
        invariant OpenAll(xs) == RowUpTo(false, ascending, OpenAll(old(xs)), low, k, i - low)
      {
        RowCostGrows(i - low + 1, k, StepCost(w));
        var _ :- CompareAndSwap(i, i + k, ascending, bag, n, w);
      }
      r := Success(());
    }

    method BitonicMerge(low: nat, cnt: nat, ascending: bool, bag: TripleBag, ghost n: nat, ghost w: nat)
      returns (r: Result<()>)
      requires PowerOfTwo(cnt) && low + cnt <= |xs| && AllFit(xs, n, w) && bag.Honest(n)
      modifies this, bag
      ensures r.Success? <==> cnt <= 1 || old(bag.index) + MergeCost(cnt, StepCost(w)) <= |bag.triples|
      ensures r.Success? ==> bag.index == old(bag.index) + MergeCost(cnt, StepCost(w)) && AllFit(xs, n, w)
      ensures r.Success? ==> OpenAll(xs) == MergeAt(false, ascending, OpenAll(old(xs)), low, cnt)
      decreases cnt
    {
      hide MergeAt, RowUpTo, MergeCost, RowCost, StepCost, OpenAll, AllFit, TripleBag.Honest;
      MergeCostUnfolds(cnt, StepCost(w));
      if cnt <= 1 {
        MergeOfOne(false, ascending, OpenAll(xs), low, OpenAll(xs)[low..low + cnt]);
        return Success(());
      }
      MergeAtUnfolds(false, ascending, OpenAll(xs), low, cnt);
      var k := cnt / 2;
      var _ :- CompareRow(low, k, ascending, bag, n, w);
      var _ :- BitonicMerge(low, k, ascending, bag, n, w);
      r := BitonicMerge(low + k, k, ascending, bag, n, w);
    }

    method BitonicSortHelper(low: nat, cnt: nat, ascending: bool, bag: TripleBag, ghost n: nat, ghost w: nat)
      returns (r: Result<()>)
      requires PowerOfTwo(cnt) && low + cnt <= |xs| && AllFit(xs, n, w) && bag.Honest(n)
      modifies this, bag
      ensures r.Success? <==> cnt <= 1 || old(bag.index) + SortCost(cnt, StepCost(w)) <= |bag.triples|
      ensures r.Success? ==> bag.index == old(bag.index) + SortCost(cnt, StepCost(w)) && AllFit(xs, n, w)
      ensures r.Success? ==> OpenAll(xs) == SortAt(false, ascending, OpenAll(old(xs)), low, cnt)
      decreases cnt
    {
      if cnt <= 1 {
        return Success(());
      }
      hide MergeAt, MergeCost, OpenAll, StepCost;
      var k := cnt / 2;
      var _ :- BitonicSortHelper(low, k, true, bag, n, w);
      var _ :- BitonicSortHelper(low + k, k, false, bag, n, w);
      r := BitonicMerge(low, cnt, ascending, bag, n, w);
    }

    /** Appends all-ones keys, held by party 0, with zero payloads. */
    method PadWithSentinels(padded: nat, ghost n: nat, ghost w: nat)
      requires xs != [] && padded == NextPowerOfTwo(|xs|) && AllFit(xs, n, w)
      modifies this
      ensures |xs| == padded && AllFit(xs, n, w)
      ensures OpenAll(xs) == OpenAll(old(xs)) + Pads(|old(xs)|, Repeat(false, w))
    {
      var N := xs[0].key[0].N();
      var sentinel := SharedElem(Repeat(Public(N, true), 64), Zeros(|xs[0].payload|, N));
      SentinelOpens(N, w);
      PaddedOpens(xs, sentinel, padded - |xs|, w);
      xs := xs + Repeat(sentinel, padded - |xs|);
    }

    /** Pads, sorts in place, strips the tail. */
    method MpcBitonicSort(bag: TripleBag, ghost n: nat, ghost w: nat) returns (r: Result<()>)
      requires |xs| <= 0x8000_0000_0000_0000 && AllFit(xs, n, w) && bag.Honest(n)
      modifies this, bag
      ensures r.Success? <==> |old(xs)| <= 1 || old(bag.index) + SortTripleCost(|old(xs)|, w) <= |bag.triples|
      ensures r.Success? ==> bag.index == old(bag.index) + SortTripleCost(|old(xs)|, w)
      ensures r.Success? ==> |xs| == |old(xs)| && AllFit(xs, n, w)
      ensures r.Success? ==> OpenAll(xs) == SortPadded(false, OpenAll(old(xs)), Repeat(false, w))
    {
      hide SortPadded, SortTripleCost, SortCost, NextPowerOfTwo, PowerOfTwo, Pads, Sort, SortAt, OpenAll, AllFit;
      var len := |xs|;
      if len <= 1 {
        SortPaddedShort(false, OpenAll(xs), Repeat(false, w));
        NothingToSort(len, w);
        return Success(());
      }
      DeclaredCost(len, w);
      SortPaddedUnfolds(false, OpenAll(xs), Repeat(false, w));
      var padded := NextPow2(len);
      PadWithSentinels(padded, n, w);
      SortAtWhole(false, OpenAll(xs));
      var _ :- BitonicSortHelper(0, padded, true, bag, n, w);
      OpenPrefix(xs, len, n, w);
      xs := xs[..len];
      r := Success(());
    }
  }

  lemma OpenPrefix(xs: seq<SharedElem>, len: nat, n: nat, w: nat)
    requires len <= |xs| && AllFit(xs, n, w)
    ensures OpenAll(xs[..len]) == OpenAll(xs)[..len] && AllFit(xs[..len], n, w)
  {
  }

  lemma {:induction false} RowCostGrows(a: nat, b: nat, c: nat)
    requires a <= b
    ensures RowCost(a, c) <= RowCost(b, c)
    decreases b
  {
    if a < b {
      RowCostGrows(a, b - 1, c);
    }
  }

  lemma SentinelOpens(n: nat, w: nat)
    requires n >= 1
    ensures OpenElem(SharedElem(Repeat(Public(n, true), 64), Zeros(w, n))) == Elem(MAX_KEY, Repeat(false, w))
  {
    assert Open(Repeat(Public(n, true), 64)) == Repeat(true, 64);
    ToNatOnes(64);
    Pow2At64();
  }

  lemma PaddedOpens(xs: seq<SharedElem>, sentinel: SharedElem, count: nat, w: nat)
    requires xs != [] && OpenElem(sentinel) == Elem(MAX_KEY, Repeat(false, w))
    requires count == NextPowerOfTwo(|xs|) - |xs|
    ensures OpenAll(xs + Repeat(sentinel, count)) == OpenAll(xs) + Pads(|xs|, Repeat(false, w))
  {
    hide OpenElem, NextPowerOfTwo, ToNat, Open;
    var pads := Repeat(sentinel, count);
    assert OpenAll(pads) == Pads(|xs|, Repeat(false, w));
    hide Pads;
    assert OpenAll(xs + pads) == OpenAll(xs) + OpenAll(pads);
  }
}

/** The plaintext bitonic sort, in place on a vector that is padded and cut back. */
module ObliviousSort {
  import opened Words
  import opened Network
  import opened PaddedSort
  import opened InPlace

  /** A 16-byte block, read as a little-endian number. */
  type Block = nat

  type SortElement = Elem<seq<Block>>

  /** The zero payload a sentinel gets: as wide as the first row's. */
  function ZeroPayload(xs: seq<SortElement>): seq<Block> {
    if xs == [] then [] else Repeat(0, |xs[0].payload|)
  }

  /** The vector being sorted, with the counter the sort bumps and the comparators it has touched. */
  class SortVector {
    var xs: seq<SortElement>
    var compareCount: nat
    ghost var touched: seq<Comparator>

    ghost predicate Counted()
      reads this
    {
      compareCount == |touched|
    }

    constructor (xs: seq<SortElement>)
      ensures this.xs == xs && touched == [] && Counted()
    {
      this.xs := xs;
      compareCount := 0;
      touched := [];
    }

    /** Swaps when "xs[j] before xs[i]" agrees with the direction, so ties swap when descending. */
    method CompareAndSwap(i: nat, j: nat, ascending: bool)
      requires i < j < |xs|
      modifies this`xs
      ensures xs == CompareAt(true, ascending, old(xs), i, j)
    {
      var iGreater := xs[j].key < xs[i].key;
      var shouldSwap := iGreater == ascending;
      if shouldSwap {
        xs := xs[i := xs[j]][j := xs[i]];
      }
    }

    /** One row of comparators at distance k. */
    method CompareRow(low: nat, k: nat, ascending: bool)
      requires Counted() && low + 2 * k <= |xs|
      modifies this
      ensures Counted()
      ensures xs == RowUpTo(true, ascending, old(xs), low, k, k)
      ensures touched == old(touched) + RowSchedule(low, k, k, ascending)
    {
      for i := low to low + k
        invariant Counted()
        invariant xs == RowUpTo(true, ascending, old(xs), low, k, i - low)
        invariant touched == old(touched) + RowSchedule(low, k, i - low, ascending)
      {
        CompareAndSwap(i, i + k, ascending);
        compareCount := compareCount + 1;
        touched := touched + [Comparator(i, i + k, ascending)];
        assert RowSchedule(low, k, i + 1 - low, ascending)
            == RowSchedule(low, k, i - low, ascending) + [Comparator(i, i + k, ascending)];
      }
    }

    method BitonicMerge(low: nat, cnt: nat, ascending: bool)
      requires Counted() && PowerOfTwo(cnt) && low + cnt <= |xs|
      modifies this
      ensures Counted()
      ensures xs == MergeAt(true, ascending, old(xs), low, cnt)
      ensures touched == TouchMerge(old(touched), low, cnt, ascending)
      decreases cnt
    {
      if cnt <= 1 {
        return;
      }
      hide RowUpTo, RowSchedule;
      var k := cnt / 2;
      CompareRow(low, k, ascending);
      BitonicMerge(low, k, ascending);
      BitonicMerge(low + k, k, ascending);
    }

    method BitonicSortHelper(low: nat, cnt: nat, ascending: bool)
      requires Counted() && PowerOfTwo(cnt) && low + cnt <= |xs|
      modifies this
      ensures Counted()
      ensures xs == SortAt(true, ascending, old(xs), low, cnt)
      ensures touched == TouchSort(old(touched), low, cnt, ascending)
      decreases cnt
    {
      if cnt <= 1 {
        return;
      }
      hide MergeAt, TouchMerge;
      var k := cnt / 2;
      BitonicSortHelper(low, k, true);
      BitonicSortHelper(low + k, k, false);
      BitonicMerge(low, cnt, ascending);
    }

    /**
     * Grows the vector with sentinels, sorts it in place, and shrinks it back.
     * The comparators touched depend on the length alone.
     */
    method ObliviousBitonicSort()
      requires |xs| <= 0x8000_0000_0000_0000
      modifies this
      ensures xs == SortPadded(true, old(xs), ZeroPayload(old(xs)))
      ensures touched == if |xs| <= 1 then [] else SortSchedule(0, NextPowerOfTwo(|xs|), true)
      ensures compareCount == CompareSwapCount(|xs|)
    {
      hide SortPadded, Sort, SortAt, Pads, NextPowerOfTwo, PowerOfTwo, SortSchedule, TouchSort, CompareSwapCount, ZeroPayload;
      var n := |xs|;
      compareCount, touched := 0, [];
      if n <= 1 {
        SortPaddedShort(true, xs, ZeroPayload(xs));
        NothingToCompare(n);
        return;
      }
      SortPaddedUnfolds(true, xs, ZeroPayload(xs));
      PadsAre(n, ZeroPayload(xs));
      var paddedN := NextPow2(n);
      var sentinel := Elem(MAX_KEY, ZeroPayload(xs));
      xs := xs + Repeat(sentinel, paddedN - n);
      SortAtWhole(true, xs);
      ScheduleCount(n);
      TouchSortAppends([], 0, paddedN, true);
      BitonicSortHelper(0, paddedN, true);
      xs := xs[..n];
    }
  }
}

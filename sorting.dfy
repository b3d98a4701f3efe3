/**
 * The quicksort that orders a vector of values from low to high and carries
 * a parallel vector of indices along, so that after sorting the index next
 * to each value is still the one that was next to it before. It partitions
 * around the middle element with two scans that meet (Hoare's scheme),
 * swapping values and indices together, then sorts both sides recursively.
 */
module Sorting {

  /** The position of the pivot: the midpoint of `left` and `right`, rounded
      down. The C++ division truncates; for a non-negative sum that is the
      same as Dafny's. */
  function Mid(left: int, right: int): (m: int)
    requires 0 <= left && 0 <= right
    ensures left <= right ==> left <= m <= right
    ensures right < left ==> right <= m <= left
  {
    (left + right) / 2
  }

  /** The (value, index) pairs, position by position. */
  function Pairs(values: seq<real>, ids: seq<int>): (p: seq<(real, int)>)
    requires |values| == |ids|
    ensures |p| == |values|
    ensures forall k :: 0 <= k < |p| ==> p[k] == (values[k], ids[k])
  {
    seq(|values|, k requires 0 <= k < |values| => (values[k], ids[k]))
  }

  /** The values at positions `lo` to `hi` (inclusive) are non-decreasing. */
  ghost predicate SortedBetween(a: seq<real>, lo: int, hi: int)
  {
    forall p, q :: 0 <= lo <= p < q <= hi < |a| ==> a[p] <= a[q]
  }

  /** `a` and `b` arise from `a0` and `b0` by moving (value, index) pairs
      around inside positions `lo` to `hi`: the same pairs overall, and
      nothing outside the range changed. */
  ghost predicate Rearranged(a: seq<real>, b: seq<int>, a0: seq<real>, b0: seq<int>, lo: int, hi: int)
  {
    && |a| == |b| == |a0| == |b0|
    && multiset(Pairs(a, b)) == multiset(Pairs(a0, b0))
    && forall k :: 0 <= k < |a| && !(lo <= k <= hi) ==> a[k] == a0[k] && b[k] == b0[k]
  }

  /** Every value at positions `lo` to `hi` is at most `pivot`. */
  ghost predicate AllAtMost(a: seq<real>, lo: int, hi: int, pivot: real)
  {
    forall k :: lo <= k <= hi && 0 <= k < |a| ==> a[k] <= pivot
  }

  /** Every value at positions `lo` to `hi` is at least `pivot`. */
  ghost predicate AllAtLeast(a: seq<real>, lo: int, hi: int, pivot: real)
  {
    forall k :: lo <= k <= hi && 0 <= k < |a| ==> pivot <= a[k]
  }

  // ---------------------------------------------------------------------
  // Rearrangements

  lemma RearrangedTrans(a: seq<real>, b: seq<int>, a1: seq<real>, b1: seq<int>,
                        a0: seq<real>, b0: seq<int>, lo: int, hi: int)
    requires Rearranged(a, b, a1, b1, lo, hi) && Rearranged(a1, b1, a0, b0, lo, hi)
    ensures Rearranged(a, b, a0, b0, lo, hi)
  {
  }

  /** A rearrangement inside a smaller range is one inside a larger range. */
  lemma RearrangedWiden(a: seq<real>, b: seq<int>, a0: seq<real>, b0: seq<int>,
                        lo: int, hi: int, lo': int, hi': int)
    requires Rearranged(a, b, a0, b0, lo', hi') && lo <= lo' && hi' <= hi
    ensures Rearranged(a, b, a0, b0, lo, hi)
  {
  }

  /** Swapping the pairs at two positions inside the range rearranges it. */
  lemma SwapRearranges(a: seq<real>, b: seq<int>, i: int, j: int, lo: int, hi: int)
    requires |a| == |b| && lo <= i <= hi && lo <= j <= hi && 0 <= i < |a| && 0 <= j < |a|
    ensures Rearranged(a[i := a[j]][j := a[i]], b[i := b[j]][j := b[i]], a, b, lo, hi)
  {
    var p := Pairs(a, b);
    var q := Pairs(a[i := a[j]][j := a[i]], b[i := b[j]][j := b[i]]);
    assert q == p[i := p[j]][j := p[i]];
  }

  /** A rearrangement of `lo` to `hi` keeps the multiset of pairs inside that
      range. */
  lemma RearrangedRange(a: seq<real>, b: seq<int>, a0: seq<real>, b0: seq<int>, lo: int, hi: int)
    requires Rearranged(a, b, a0, b0, lo, hi) && 0 <= lo <= hi + 1 <= |a|
    ensures multiset(Pairs(a, b)[lo..hi + 1]) == multiset(Pairs(a0, b0)[lo..hi + 1])
  {
    var p, p0 := Pairs(a, b), Pairs(a0, b0);
    assert p == p[..lo] + p[lo..hi + 1] + p[hi + 1..];
    assert p0 == p0[..lo] + p0[lo..hi + 1] + p0[hi + 1..];
    assert p[..lo] == p0[..lo];
    assert p[hi + 1..] == p0[hi + 1..];
    assert multiset(p) == multiset(p[..lo]) + multiset(p[lo..hi + 1]) + multiset(p[hi + 1..]);
    assert multiset(p0) == multiset(p0[..lo]) + multiset(p0[lo..hi + 1]) + multiset(p0[hi + 1..]);
    assert multiset(p[lo..hi + 1]) == multiset(p) - multiset(p[..lo]) - multiset(p[hi + 1..]);
    assert multiset(p0[lo..hi + 1]) == multiset(p0) - multiset(p0[..lo]) - multiset(p0[hi + 1..]);
  }

  /** After a rearrangement of `lo` to `hi`, each value in the range was
      somewhere in the range before. */
  lemma RearrangedValueFrom(a: seq<real>, b: seq<int>, a0: seq<real>, b0: seq<int>, lo: int, hi: int, k: int)
    requires Rearranged(a, b, a0, b0, lo, hi) && 0 <= lo <= k <= hi < |a|
    ensures exists k' :: lo <= k' <= hi && a[k] == a0[k']
  {
    RearrangedRange(a, b, a0, b0, lo, hi);
    var p, p0 := Pairs(a, b)[lo..hi + 1], Pairs(a0, b0)[lo..hi + 1];
    assert p[k - lo] == (a[k], b[k]);
    assert (a[k], b[k]) in multiset(p0);
    var n :| 0 <= n < |p0| && p0[n] == (a[k], b[k]);
    assert a[k] == a0[lo + n];
  }

  /** A rearrangement of `lo` to `hi` keeps an upper bound on the values of
      a range that contains it or is disjoint from it. */
  lemma RearrangedKeepsAtMost(a: seq<real>, b: seq<int>, a0: seq<real>, b0: seq<int>,
                              lo: int, hi: int, from: int, to: int, pivot: real)
    requires Rearranged(a, b, a0, b0, lo, hi) && 0 <= lo && hi < |a|
    requires (from <= lo && hi <= to) || hi < from || to < lo
    requires AllAtMost(a0, from, to, pivot)
    ensures AllAtMost(a, from, to, pivot)
  {
    forall k | from <= k <= to && 0 <= k < |a|
      ensures a[k] <= pivot
    {
      if lo <= k <= hi {
        RearrangedValueFrom(a, b, a0, b0, lo, hi, k);
      }
    }
  }

  /** The same for a lower bound. */
  lemma RearrangedKeepsAtLeast(a: seq<real>, b: seq<int>, a0: seq<real>, b0: seq<int>,
                               lo: int, hi: int, from: int, to: int, pivot: real)
    requires Rearranged(a, b, a0, b0, lo, hi) && 0 <= lo && hi < |a|
    requires (from <= lo && hi <= to) || hi < from || to < lo
    requires AllAtLeast(a0, from, to, pivot)
    ensures AllAtLeast(a, from, to, pivot)
  {
    forall k | from <= k <= to && 0 <= k < |a|
      ensures pivot <= a[k]
    {
      if lo <= k <= hi {
        RearrangedValueFrom(a, b, a0, b0, lo, hi, k);
      }
    }
  }

  /** Two sorted sides around a pivot make a sorted whole: positions below
      `i` hold at most the pivot, positions above `j` at least the pivot,
      and `j < i`. */
  lemma SidesSorted(a: seq<real>, left: int, right: int, i: int, j: int, pivot: real)
    requires 0 <= left <= i && j <= right < |a| && j < i
    requires AllAtMost(a, left, i - 1, pivot) && AllAtLeast(a, j + 1, right, pivot)
    requires SortedBetween(a, left, j) && SortedBetween(a, i, right)
    ensures SortedBetween(a, left, right)
  {
    forall p, q | left <= p < q <= right
      ensures a[p] <= a[q]
    {
      if p < i && j < q {
        assert a[p] <= pivot <= a[q];
      }
    }
  }

  // ---------------------------------------------------------------------
  // The algorithm

  /** Swaps the values and the indices at positions `i` and `j`. */
  method Swap(arr: array<real>, indices: array<int>, i: int, j: int)
    requires 0 <= i < arr.Length && 0 <= j < arr.Length && arr.Length == indices.Length
    modifies arr, indices
    ensures arr[..] == old(arr[..])[i := old(arr[j])][j := old(arr[i])]
    ensures indices[..] == old(indices[..])[i := old(indices[j])][j := old(indices[i])]
  {
    var tmp1 := arr[i];
    arr[i] := arr[j];
    arr[j] := tmp1;
    var tmp2 := indices[i];
    indices[i] := indices[j];
    indices[j] := tmp2;
  }

  /** `while (arr[i] < pivot) i++`: the first position from `i` whose value
      is at least the pivot. Such a position must exist up to `right`; it
      stops the scan inside the vector. */
  method ScanUp(arr: array<real>, i: int, right: int, pivot: real) returns (stop: int)
    requires 0 <= i <= right < arr.Length
    requires exists k :: i <= k <= right && pivot <= arr[k]
    ensures i <= stop <= right && pivot <= arr[stop]
    ensures forall k :: i <= k < stop ==> arr[k] < pivot
  {
    stop := i;
    while arr[stop] < pivot
      invariant i <= stop <= right
      invariant forall k :: i <= k < stop ==> arr[k] < pivot
      invariant exists k :: stop <= k <= right && pivot <= arr[k]
      decreases right - stop
    {
      stop := stop + 1;
    }
  }

  /** `while (arr[j] > pivot) j--`: the first position down from `j` whose
      value is at most the pivot, which must exist down to `left`. */
  method ScanDown(arr: array<real>, j: int, left: int, pivot: real) returns (stop: int)
    requires 0 <= left <= j < arr.Length
    requires exists k :: left <= k <= j && arr[k] <= pivot
    ensures left <= stop <= j && arr[stop] <= pivot
    ensures forall k :: stop < k <= j ==> pivot < arr[k]
  {
    stop := j;
    while arr[stop] > pivot
      invariant left <= stop <= j
      invariant forall k :: stop < k <= j ==> pivot < arr[k]
      invariant exists k :: left <= k <= stop && arr[k] <= pivot
      decreases stop
    {
      stop := stop - 1;
    }
  }

  /** The state of the partition between rounds: the pairs have only moved
      inside the range; everything below `i` is at most the pivot and
      everything above `j` at least the pivot; while the scans have not
      crossed, each has a value ahead that will stop it; and until the first
      swap the pivot is still in the middle. */
  ghost predicate Partitioned(a: seq<real>, b: seq<int>, a0: seq<real>, b0: seq<int>,
                              left: int, right: int, i: int, j: int, pivot: real)
  {
    && 0 <= left < |a| && 0 <= right < |a|
    && Rearranged(a, b, a0, b0, left, right)
    && AllAtMost(a, left, i - 1, pivot) && AllAtLeast(a, j + 1, right, pivot)
    && (right < left ==> i == left && j == right)
    && (left <= right ==> left <= i <= j + 2 && j <= right)
    && (left <= right ==> (i == left && j == right && a[Mid(left, right)] == pivot) || (left < i && j < right))
    && (i <= j ==> exists k :: i <= k <= right && pivot <= a[k])
    && (i <= j ==> exists k :: left <= k <= j && a[k] <= pivot)
  }

  lemma PartitionedStart(a: seq<real>, b: seq<int>, left: int, right: int)
    requires |a| == |b| && 0 <= left < |a| && 0 <= right < |a|
    ensures Partitioned(a, b, a, b, left, right, left, right, a[Mid(left, right)])
  {
    var m := Mid(left, right);
    if left <= right {
      assert left <= m <= right && a[m] <= a[m];
    }
  }

  /** Where the two scans of a round stop, starting from `i0` and `j0`: `i`
      is the first value from `i0` up that is at least the pivot, `j` the
      first from `j0` down that is at most the pivot. They stop at most one
      place past each other, and in the first round on either side of the
      middle. */
  lemma ScansStop(a: seq<real>, b: seq<int>, a0: seq<real>, b0: seq<int>,
                  left: int, right: int, i0: int, j0: int, i: int, j: int, pivot: real)
    requires Partitioned(a, b, a0, b0, left, right, i0, j0, pivot) && i0 <= j0
    requires i0 <= i <= right && pivot <= a[i] && forall k :: i0 <= k < i ==> a[k] < pivot
    requires left <= j <= j0 && a[j] <= pivot && forall k :: j < k <= j0 ==> pivot < a[k]
    ensures i <= j0 + 1 && i - 1 <= j
    ensures AllAtMost(a, left, i - 1, pivot) && AllAtLeast(a, j + 1, right, pivot)
    ensures i0 == left && j0 == right ==> i <= Mid(left, right) <= j
  {
    if j0 + 1 <= right {
      assert pivot <= a[j0 + 1];
    }
    if left <= i - 1 {
      assert a[i - 1] <= pivot;
    }
  }

  /** A round whose scans have not crossed swaps the pairs where they stop
      and moves both past them. */
  lemma SwapRound(a: seq<real>, b: seq<int>, a': seq<real>, b': seq<int>, a0: seq<real>, b0: seq<int>,
                  left: int, right: int, i0: int, j0: int, i: int, j: int, pivot: real)
    requires Partitioned(a, b, a0, b0, left, right, i0, j0, pivot) && i0 <= j0
    requires i0 <= i <= j <= j0 && a[j] <= pivot <= a[i]
    requires AllAtMost(a, left, i - 1, pivot) && AllAtLeast(a, j + 1, right, pivot)
    requires a' == a[i := a[j]][j := a[i]] && b' == b[i := b[j]][j := b[i]]
    ensures Partitioned(a', b', a0, b0, left, right, i + 1, j - 1, pivot)
  {
    SwapRearranges(a, b, i, j, left, right);
    RearrangedTrans(a', b', a, b, a0, b0, left, right);
    assert a'[i] <= pivot <= a'[j];
    if i + 1 <= j - 1 {
      assert i + 1 <= j <= right && pivot <= a'[j];
      assert left <= i <= j - 1 && a'[i] <= pivot;
    }
  }

  /** A round whose scans have crossed ends the partition. */
  lemma CrossRound(a: seq<real>, b: seq<int>, a0: seq<real>, b0: seq<int>,
                   left: int, right: int, i0: int, j0: int, i: int, j: int, pivot: real)
    requires Partitioned(a, b, a0, b0, left, right, i0, j0, pivot) && i0 <= j0
    requires i0 <= i && j <= j0 && j < i && i <= j0 + 1 && i - 1 <= j
    requires i0 == left && j0 == right ==> i <= Mid(left, right) <= j
    requires AllAtMost(a, left, i - 1, pivot) && AllAtLeast(a, j + 1, right, pivot)
    ensures Partitioned(a, b, a0, b0, left, right, i, j, pivot)
  {
  }

  /** The partition step: scans up from `left` past values below the pivot
      and down from `right` past values above it, swaps the pairs where both
      scans stop, and repeats until the scans cross. Afterwards everything
      below `i` is at most the pivot, everything above `j` at least the
      pivot, and when the range is not empty both scans have moved, so each
      side is smaller than the range. */
  method Partition(arr: array<real>, indices: array<int>, left: int, right: int)
    returns (i: int, j: int, pivot: real)
    requires arr.Length == indices.Length
    requires 0 <= left < arr.Length && 0 <= right < arr.Length
    modifies arr, indices
    ensures pivot == old(arr[Mid(left, right)])
    ensures Rearranged(arr[..], indices[..], old(arr[..]), old(indices[..]), left, right)
    ensures right < left ==> i == left && j == right
    ensures left <= right ==> left < i <= right + 1 && left - 1 <= j < right && j < i
    ensures AllAtMost(arr[..], left, i - 1, pivot) && AllAtLeast(arr[..], j + 1, right, pivot)
  {
    i, j := left, right;
    pivot := arr[Mid(left, right)];
    ghost var a0, b0 := arr[..], indices[..];
    PartitionedStart(a0, b0, left, right);
    while i <= j
      invariant Partitioned(arr[..], indices[..], a0, b0, left, right, i, j, pivot)
      decreases j - i + 2
    {
      ghost var i0, j0 := i, j;
      i := ScanUp(arr, i, right, pivot);
      j := ScanDown(arr, j, left, pivot);
      ScansStop(arr[..], indices[..], a0, b0, left, right, i0, j0, i, j, pivot);
      if i <= j {
        ghost var a1, b1 := arr[..], indices[..];
        Swap(arr, indices, i, j);
        SwapRound(a1, b1, arr[..], indices[..], a0, b0, left, right, i0, j0, i, j, pivot);
        i := i + 1;
        j := j - 1;
      } else {
        CrossRound(arr[..], indices[..], a0, b0, left, right, i0, j0, i, j, pivot);
      }
    }
  }

  /** `quickSort(arr, indices, left, right)`: sorts the values at positions
      `left` to `right` from low to high, moving each index along with its
      value, and leaves every other position alone. */
  method QuickSort(arr: array<real>, indices: array<int>, left: int, right: int)
    requires arr.Length == indices.Length
    requires 0 <= left < arr.Length && 0 <= right < arr.Length
    modifies arr, indices
    ensures SortedBetween(arr[..], left, right)
    ensures Rearranged(arr[..], indices[..], old(arr[..]), old(indices[..]), left, right)
    decreases right - left
  {
    var i, j, pivot := Partition(arr, indices, left, right);
    ghost var a1, b1 := arr[..], indices[..];
    if left < j {
      QuickSort(arr, indices, left, j);
      RearrangedKeepsAtMost(arr[..], indices[..], a1, b1, left, j, left, i - 1, pivot);
      RearrangedKeepsAtLeast(arr[..], indices[..], a1, b1, left, j, j + 1, right, pivot);
      RearrangedWiden(arr[..], indices[..], a1, b1, left, right, left, j);
      RearrangedTrans(arr[..], indices[..], a1, b1, old(arr[..]), old(indices[..]), left, right);
    }
    ghost var a2, b2 := arr[..], indices[..];
    if i < right {
      QuickSort(arr, indices, i, right);
      RearrangedKeepsAtMost(arr[..], indices[..], a2, b2, i, right, left, i - 1, pivot);
      RearrangedKeepsAtLeast(arr[..], indices[..], a2, b2, i, right, j + 1, right, pivot);
      RearrangedWiden(arr[..], indices[..], a2, b2, left, right, i, right);
      RearrangedTrans(arr[..], indices[..], a2, b2, old(arr[..]), old(indices[..]), left, right);
    }
    SidesSorted(arr[..], left, right, i, j, pivot);
  }

  // ---------------------------------------------------------------------
  // An example

  /** Three distinct pairs in sorted order can only be arranged one way. */
  lemma SortedThreePairs(a: seq<real>, b: seq<int>)
    requires |a| == |b| == 3 && SortedBetween(a, 0, 2)
    requires multiset(Pairs(a, b)) == multiset(Pairs([3.0, 1.0, 2.0], [10, 20, 30]))
    ensures a == [1.0, 2.0, 3.0] && b == [20, 30, 10]
  {
    var p := Pairs(a, b);
    var p0 := Pairs([3.0, 1.0, 2.0], [10, 20, 30]);
    assert p0 == [(3.0, 10), (1.0, 20), (2.0, 30)];
    assert p == [p[0], p[1], p[2]];
    var m := multiset(p);
    assert m == multiset{(3.0, 10), (1.0, 20), (2.0, 30)};
    assert m == multiset{p[0], p[1], p[2]};
    assert a[0] <= a[1] <= a[2];
  }

  /** Sorting the values 3, 1, 2 with the indices 10, 20, 30 gives the
      values 1, 2, 3 with the indices 20, 30, 10. */
  method QuickSortExample() returns (values: seq<real>, ids: seq<int>)
    ensures values == [1.0, 2.0, 3.0] && ids == [20, 30, 10]
  {
    var arr := new real[3] [3.0, 1.0, 2.0];
    var indices := new int[3] [10, 20, 30];
    assert arr[..] == [3.0, 1.0, 2.0] && indices[..] == [10, 20, 30];
    QuickSort(arr, indices, 0, 2);
    values, ids := arr[..], indices[..];
    SortedThreePairs(values, ids);
  }
}

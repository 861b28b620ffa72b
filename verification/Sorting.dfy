/** The profiler's in-place quicksort. */
module Sorting {
  import opened RealSums

  ghost predicate Sorted(s: seq<real>) {
    forall i, j :: 0 <= i < j < |s| ==> s[i] <= s[j]
  }

  /** Outside slots lo..hi (hi included) nothing has changed, and the values are the same overall. */
  ghost predicate Rearranges(s: seq<real>, t: seq<real>, lo: int, hi: int) {
    && |t| == |s|
    && (forall k :: 0 <= k < |s| && !(lo <= k <= hi) ==> t[k] == s[k])
    && multiset(s) == multiset(t)
  }

  lemma SplitInThree(s: seq<real>, lo: int, hi: int)
    requires 0 <= lo <= hi + 1 <= |s|
    ensures multiset(s) == multiset(s[lo..hi + 1]) + (multiset(s[..lo]) + multiset(s[hi + 1..]))
  {
    assert s == s[..lo] + s[lo..hi + 1] + s[hi + 1..];
  }

  lemma InsideIsSame(s: seq<real>, t: seq<real>, lo: int, hi: int)
    requires 0 <= lo <= hi + 1 <= |s| && Rearranges(s, t, lo, hi)
    ensures multiset(s[lo..hi + 1]) == multiset(t[lo..hi + 1])
  {
    var a, b := s[..lo], s[hi + 1..];
    assert t[..lo] == a && t[hi + 1..] == b;
    SplitInThree(s, lo, hi);
    SplitInThree(t, lo, hi);
    CancelMultiset(multiset(s[lo..hi + 1]), multiset(t[lo..hi + 1]), multiset(a) + multiset(b));
  }

  /** A bound on the values inside survives any rearrangement. */
  lemma BoundsSurvive(s: seq<real>, t: seq<real>, lo: int, hi: int, pivot: real)
    requires 0 <= lo <= hi + 1 <= |s| && Rearranges(s, t, lo, hi)
    ensures (forall k :: lo <= k <= hi ==> s[k] < pivot) ==> forall k :: lo <= k <= hi ==> t[k] < pivot
    ensures (forall k :: lo <= k <= hi ==> s[k] >= pivot) ==> forall k :: lo <= k <= hi ==> t[k] >= pivot
  {
    InsideIsSame(s, t, lo, hi);
    forall k | lo <= k <= hi
      ensures exists j :: lo <= j <= hi && s[j] == t[k]
    {
      assert t[lo..hi + 1][k - lo] in multiset(t[lo..hi + 1]);
      assert t[k] in s[lo..hi + 1];
    }
  }

  ghost function Swapped(s: seq<real>, i: int, j: int): seq<real>
    requires 0 <= i < |s| && 0 <= j < |s|
  {
    s[i := s[j]][j := s[i]]
  }

  lemma SwapRearranges(s0: seq<real>, s: seq<real>, i: int, j: int, lo: int, hi: int)
    requires 0 <= lo <= i <= hi < |s| && lo <= j <= hi && Rearranges(s0, s, lo, hi)
    ensures Rearranges(s0, Swapped(s, i, j), lo, hi)
  {
    assert multiset(Swapped(s, i, j)) == multiset(s);
  }

  lemma RearrangesTwice(s: seq<real>, t: seq<real>, u: seq<real>, lo: int, hi: int, lo': int, hi': int)
    requires lo <= lo' && hi' <= hi
    requires Rearranges(s, t, lo, hi) && Rearranges(t, u, lo', hi')
    ensures Rearranges(s, u, lo, hi)
  {
  }

  /** Lomuto's invariant: slots lo..i lie under the pivot, slots i+1..j-1 do not, and the pivot
      waits in slot `hi`. */
  ghost predicate Parting(s: seq<real>, lo: int, hi: int, i: int, j: int, pivot: real) {
    && 0 <= lo <= i + 1 <= j <= hi < |s| && s[hi] == pivot
    && (forall k :: lo <= k <= i ==> s[k] < pivot)
    && (forall k :: i < k < j ==> pivot <= s[k])
  }

  lemma PartingStep(s: seq<real>, lo: int, hi: int, i: int, j: int, pivot: real)
    requires Parting(s, lo, hi, i, j, pivot) && j < hi
    ensures if s[j] < pivot then Parting(Swapped(s, i + 1, j), lo, hi, i + 1, j + 1, pivot)
            else Parting(s, lo, hi, i, j + 1, pivot)
  {
  }

  /** Slot `p` separates smaller values from the rest. */
  ghost predicate Parted(s: seq<real>, lo: int, hi: int, p: int) {
    && 0 <= lo <= p <= hi < |s|
    && (forall k :: lo <= k < p ==> s[k] < s[p])
    && (forall k :: p < k <= hi ==> s[p] <= s[k])
  }

  lemma PartingEnd(s: seq<real>, lo: int, hi: int, i: int, pivot: real)
    requires Parting(s, lo, hi, i, hi, pivot)
    ensures Parted(Swapped(s, i + 1, hi), lo, hi, i + 1)
  {
  }

  method SwapSlots(a: array<real>, i: int, j: int)
    requires 0 <= i < a.Length && 0 <= j < a.Length
    modifies a
    ensures a[..] == Swapped(old(a[..]), i, j)
  {
    a[i], a[j] := a[j], a[i];
  }

  ghost predicate PartitionInv(s0: seq<real>, s: seq<real>, lo: int, hi: int, i: int, j: int, pivot: real) {
    Parting(s, lo, hi, i, j, pivot) && Rearranges(s0, s, lo, hi)
  }

  lemma PartitionStep(s0: seq<real>, s: seq<real>, lo: int, hi: int, i: int, j: int, pivot: real)
    requires PartitionInv(s0, s, lo, hi, i, j, pivot) && j < hi
    ensures if s[j] < pivot then PartitionInv(s0, Swapped(s, i + 1, j), lo, hi, i + 1, j + 1, pivot)
            else PartitionInv(s0, s, lo, hi, i, j + 1, pivot)
  {
    PartingStep(s, lo, hi, i, j, pivot);
    SwapRearranges(s0, s, i + 1, j, lo, hi);
  }

  lemma PartitionEnd(s0: seq<real>, s: seq<real>, lo: int, hi: int, i: int, pivot: real)
    requires PartitionInv(s0, s, lo, hi, i, hi, pivot)
    ensures Rearranges(s0, Swapped(s, i + 1, hi), lo, hi) && Parted(Swapped(s, i + 1, hi), lo, hi, i + 1)
  {
    PartingEnd(s, lo, hi, i, pivot);
    SwapRearranges(s0, s, i + 1, hi, lo, hi);
  }

  lemma PartitionStart(s0: seq<real>, lo: int, hi: int)
    requires 0 <= lo < hi < |s0|
    ensures PartitionInv(s0, s0, lo, hi, lo - 1, lo, s0[hi])
  {
  }

  method Partition(a: array<real>, lo: int, hi: int) returns (p: int)
    requires 0 <= lo < hi < a.Length
    modifies a
    ensures Rearranges(old(a[..]), a[..], lo, hi) && Parted(a[..], lo, hi, p)
  {
    ghost var s0 := a[..];
    var pivot := a[hi];
    var i := lo - 1;
    PartitionStart(s0, lo, hi);
    for j := lo to hi
      invariant PartitionInv(s0, a[..], lo, hi, i, j, pivot)
    {
      ghost var s := a[..];
      PartitionStep(s0, s, lo, hi, i, j, pivot);
      if a[j] < pivot {
        i := i + 1;
        SwapSlots(a, i, j);
      }
    }
    PartitionEnd(s0, a[..], lo, hi, i, pivot);
    SwapSlots(a, i + 1, hi);
    p := i + 1;
  }

  ghost predicate SortedBetween(s: seq<real>, lo: int, hi: int)
    requires 0 <= lo && hi < |s|
  {
    forall i, j :: lo <= i < j <= hi ==> s[i] <= s[j]
  }

  lemma SortedInThree(s: seq<real>, lo: int, p: int, hi: int)
    requires 0 <= lo <= p <= hi < |s|
    requires forall i, j :: lo <= i < j <= p - 1 ==> s[i] <= s[j]
    requires forall i, j :: p + 1 <= i < j <= hi ==> s[i] <= s[j]
    requires forall k :: lo <= k < p ==> s[k] < s[p]
    requires forall k :: p < k <= hi ==> s[p] <= s[k]
    ensures forall i, j :: lo <= i < j <= hi ==> s[i] <= s[j]
  {
  }

  /** Sorting both sides of a partition sorts the whole. */
  lemma SortedAround(s0: seq<real>, s1: seq<real>, s2: seq<real>, s3: seq<real>, lo: int, hi: int, p: int)
    requires Rearranges(s0, s1, lo, hi) && Parted(s1, lo, hi, p)
    requires Rearranges(s1, s2, lo, p - 1) && SortedBetween(s2, lo, p - 1)
    requires Rearranges(s2, s3, p + 1, hi) && SortedBetween(s3, p + 1, hi)
    ensures Rearranges(s0, s3, lo, hi) && SortedBetween(s3, lo, hi)
  {
    RearrangesTwice(s0, s1, s2, lo, hi, lo, p - 1);
    RearrangesTwice(s0, s2, s3, lo, hi, p + 1, hi);
    BoundsSurvive(s1, s2, lo, p - 1, s1[p]);
    BoundsSurvive(s2, s3, p + 1, hi, s1[p]);
    SortedInThree(s3, lo, p, hi);
  }

  method QuickSort(a: array<real>, lo: int, hi: int)
    requires 0 <= lo <= hi + 1 <= a.Length
    modifies a
    ensures Rearranges(old(a[..]), a[..], lo, hi) && SortedBetween(a[..], lo, hi)
    decreases hi - lo + 1
  {
    if lo < hi {
      var p := Partition(a, lo, hi);
      ghost var s1 := a[..];
      QuickSort(a, lo, p - 1);
      ghost var s2 := a[..];
      QuickSort(a, p + 1, hi);
      SortedAround(old(a[..]), s1, s2, a[..], lo, hi, p);
    }
  }
}

/** The price-level heap of the order book simulator and the `container/heap` operations that
    drive it. `Less` orders by descending price, so the root carries the highest price. */
module PriceHeaps {

  datatype PriceLevel = PriceLevel(price: real, quantity: real, orders: int)

  // ----- the heap order on a sequence -----

  ghost predicate Edge(s: seq<PriceLevel>, k: int)
    requires 1 <= k < |s|
  {
    s[(k - 1) / 2].price >= s[k].price
  }

  ghost predicate HeapOrdered(s: seq<PriceLevel>) {
    forall k :: 1 <= k < |s| ==> Edge(s, k)
  }

  /** The root of a heap carries the greatest price. */
  lemma {:induction false} RootIsMax(s: seq<PriceLevel>, k: nat)
    requires HeapOrdered(s) && k < |s|
    ensures s[0].price >= s[k].price
    decreases k
  {
    if k > 0 {
      assert Edge(s, k);
      RootIsMax(s, (k - 1) / 2);
    }
  }

  ghost function Swapped(s: seq<PriceLevel>, i: nat, j: nat): seq<PriceLevel>
    requires i < |s| && j < |s|
  {
    s[i := s[j]][j := s[i]]
  }

  lemma SwapKeepsMultiset(s: seq<PriceLevel>, i: nat, j: nat)
    requires i < |s| && j < |s|
    ensures multiset(Swapped(s, i, j)) == multiset(s)
  {
  }

  /** The heap order on the first `n` slots. */
  ghost predicate OrderedBelow(s: seq<PriceLevel>, n: int)
    requires 0 <= n <= |s|
  {
    forall k :: 1 <= k < n ==> Edge(s, k)
  }

  /** Sifting up inside the first `n` slots: every edge holds but the one above `j`, and the
      children of `j` are no dearer than its parent. */
  ghost predicate UpInv(s: seq<PriceLevel>, n: int, j: int)
    requires 0 <= j < n <= |s|
  {
    && (forall k :: 1 <= k < n && k != j ==> Edge(s, k))
    && (forall k :: 1 <= k < n && (k - 1) / 2 == j && j > 0 ==> s[(j - 1) / 2].price >= s[k].price)
  }

  lemma UpStep(s: seq<PriceLevel>, n: int, j: int)
    requires 1 <= j < n <= |s| && UpInv(s, n, j) && s[j].price > s[(j - 1) / 2].price
    ensures UpInv(Swapped(s, (j - 1) / 2, j), n, (j - 1) / 2)
  {
    var i := (j - 1) / 2;
    var t := Swapped(s, i, j);
    forall k | 1 <= k < n && k != i
      ensures Edge(t, k)
    {
      if k != j {
        assert Edge(s, k);
      }
    }
    forall k | 1 <= k < n && (k - 1) / 2 == i && i > 0
      ensures t[(i - 1) / 2].price >= t[k].price
    {
      assert Edge(s, i);
      if k != j {
        assert Edge(s, k);
      }
    }
  }

  /** Sifting down inside the first `n` slots, started at `i0` and now at `i`. Only edges whose
      upper end is at or above slot `lo` are promised: `lo` is 0 for a removal, and the slot
      being sifted while the heap is being built. */
  ghost predicate DownInv(s: seq<PriceLevel>, n: int, lo: int, i0: int, i: int)
    requires 0 <= n <= |s|
  {
    && 0 <= lo <= i0 <= i
    && (forall k :: 1 <= k < n && (k - 1) / 2 >= lo && (k - 1) / 2 != i && k != i0 ==> Edge(s, k))
    && (i != i0 && i0 > 0 && (i0 - 1) / 2 >= lo && i0 < n ==> Edge(s, i0))
    && (forall k :: 1 <= k < n && (k - 1) / 2 == i && i > 0 && (i - 1) / 2 >= lo ==> s[(i - 1) / 2].price >= s[k].price)
  }

  lemma DownStep(s: seq<PriceLevel>, n: int, lo: int, i0: int, i: int, j: int)
    requires 0 <= n <= |s| && DownInv(s, n, lo, i0, i)
    requires 1 <= j < n && (j - 1) / 2 == i && s[j].price > s[i].price
    requires forall k :: 1 <= k < n && (k - 1) / 2 == i ==> s[j].price >= s[k].price
    ensures DownInv(Swapped(s, i, j), n, lo, i0, j)
  {
    var t := Swapped(s, i, j);
    assert i < j;
    forall k | 1 <= k < n && (k - 1) / 2 >= lo && (k - 1) / 2 != j && k != i0
      ensures Edge(t, k)
    {
      if k != i && (k - 1) / 2 != i {
        assert Edge(s, k);
      }
    }
    forall k | 1 <= k < n && (k - 1) / 2 == j && j > 0 && (j - 1) / 2 >= lo
      ensures t[(j - 1) / 2].price >= t[k].price
    {
      assert Edge(s, k);
    }
  }

  /** Exchanging slot `i` with the last one leaves a heap that only slot `i` can disturb. */
  lemma SwapOutInv(s: seq<PriceLevel>, i: nat)
    requires HeapOrdered(s) && i < |s| - 1
    ensures DownInv(Swapped(s, i, |s| - 1), |s| - 1, 0, i, i)
  {
    var n := |s| - 1;
    var t := Swapped(s, i, n);
    forall k | 1 <= k < n && (k - 1) / 2 != i && k != i
      ensures Edge(t, k)
    {
      assert Edge(s, k);
    }
    forall k | 1 <= k < n && (k - 1) / 2 == i && i > 0
      ensures t[(i - 1) / 2].price >= t[k].price
    {
      assert Edge(s, k) && Edge(s, i);
    }
  }

  class PriceHeap {
    var levels: seq<PriceLevel>

    constructor ()
      ensures levels == []
    {
      levels := [];
    }

    predicate Less(i: nat, j: nat)
      requires i < |levels| && j < |levels|
      reads this
    {
      levels[i].price > levels[j].price
    }

    method Swap(i: nat, j: nat)
      requires i < |levels| && j < |levels|
      modifies this
      ensures levels == Swapped(old(levels), i, j)
      ensures multiset(levels) == multiset(old(levels))
    {
      SwapKeepsMultiset(levels, i, j);
      levels := levels[i := levels[j]][j := levels[i]];
    }

    method Up(start: nat, ghost n: nat)
      requires start < n <= |levels| && UpInv(levels, n, start)
      modifies this
      ensures |levels| == |old(levels)| && OrderedBelow(levels, n)
      ensures levels[n..] == old(levels)[n..]
      ensures multiset(levels) == multiset(old(levels))
    {
      var j := start;
      while true
        invariant |levels| == |old(levels)| && 0 <= j < n && UpInv(levels, n, j)
        invariant levels[n..] == old(levels)[n..]
        invariant multiset(levels) == multiset(old(levels))
        decreases j
      {
        var i := if j == 0 then 0 else (j - 1) / 2;
        if i == j || !Less(j, i) {
          return;
        }
        UpStep(levels, n, j);
        Swap(i, j);
        j := i;
      }
    }

    /** `moved` is false exactly when nothing was exchanged. */
    method Down(i0: nat, n: nat, ghost lo: nat) returns (moved: bool)
      requires n <= |levels| && DownInv(levels, n, lo, i0, i0)
      modifies this
      ensures multiset(levels) == multiset(old(levels)) && |levels| == |old(levels)|
      ensures levels[n..] == old(levels)[n..]
      ensures !moved ==> levels == old(levels)
      ensures forall k :: 1 <= k < n && (k - 1) / 2 >= lo && k != i0 ==> Edge(levels, k)
      ensures moved && 0 < i0 < n && (i0 - 1) / 2 >= lo ==> Edge(levels, i0)
    {
      var i := i0;
      while true
        invariant |levels| == |old(levels)| && DownInv(levels, n, lo, i0, i)
        invariant multiset(levels) == multiset(old(levels))
        invariant levels[n..] == old(levels)[n..]
        invariant i == i0 ==> levels == old(levels)
        decreases n - i
      {
        var j1 := 2 * i + 1;
        if j1 >= n {
          break;
        }
        var j := j1;
        var j2 := j1 + 1;
        if j2 < n && Less(j2, j1) {
          j := j2;
        }
        if !Less(j, i) {
          break;
        }
        DownStep(levels, n, lo, i0, i, j);
        Swap(i, j);
        i := j;
      }
      moved := i > i0;
    }

    method Init()
      modifies this
      ensures HeapOrdered(levels)
      ensures multiset(levels) == multiset(old(levels))
    {
      var n := |levels|;
      var i := n / 2 - 1;
      while i >= 0
        invariant -1 <= i < n / 2 || n < 2
        invariant |levels| == n && i >= -1
        invariant multiset(levels) == multiset(old(levels))
        invariant forall k :: 1 <= k < n && (k - 1) / 2 > i ==> Edge(levels, k)
      {
        var _ := Down(i, n, i);
        i := i - 1;
      }
    }

    method Push(level: PriceLevel)
      requires HeapOrdered(levels)
      modifies this
      ensures HeapOrdered(levels)
      ensures multiset(levels) == multiset(old(levels)) + multiset{level}
    {
      forall k | 1 <= k < |levels|
        ensures Edge(levels + [level], k)
      {
        assert Edge(levels, k);
      }
      levels := levels + [level];
      Up(|levels| - 1, |levels|);
    }

    /** `PriceHeap.Pop`: takes the last slot off the slice. */
    method DropLast() returns (item: PriceLevel)
      requires levels != [] && OrderedBelow(levels, |levels| - 1)
      modifies this
      ensures item == old(levels)[|old(levels)| - 1] && levels == old(levels)[..|old(levels)| - 1]
      ensures multiset(old(levels)) == multiset(levels) + multiset{item}
      ensures HeapOrdered(levels)
    {
      var n := |levels|;
      item := levels[n - 1];
      assert levels == levels[..n - 1] + [item];
      var kept := levels[..n - 1];
      forall k | 1 <= k < |kept|
        ensures Edge(kept, k)
      {
        assert Edge(levels, k);
      }
      levels := kept;
    }

    method Pop() returns (top: PriceLevel)
      requires HeapOrdered(levels) && levels != []
      modifies this
      ensures HeapOrdered(levels)
      ensures top == old(levels)[0]
      ensures multiset(old(levels)) == multiset(levels) + multiset{top}
      ensures |levels| == |old(levels)| - 1
    {
      var n := |levels| - 1;
      forall k | 1 <= k < n && (k - 1) / 2 != 0
        ensures Edge(Swapped(levels, 0, n), k)
      {
        assert Edge(levels, k);
      }
      Swap(0, n);
      var _ := Down(0, n, 0);
      top := DropLast();
    }

    method Remove(i: nat) returns (gone: PriceLevel)
      requires HeapOrdered(levels) && i < |levels|
      modifies this
      ensures HeapOrdered(levels)
      ensures gone == old(levels)[i]
      ensures multiset(old(levels)) == multiset(levels) + multiset{gone}
    {
      var n := |levels| - 1;
      if n != i {
        SwapOutInv(levels, i);
        Swap(i, n);
        var moved := Down(i, n, 0);
        if !moved {
          Up(i, n);
        }
      }
      gone := DropLast();
    }
  }
}

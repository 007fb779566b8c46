/** `nonceHeap` together with the operations of Go's `container/heap` that the
    transaction list applies to it: sift-up, sift-down, push, pop,
    remove-at-index and heapify on one slice. */
module Heaps {
  import opened Models
  import opened Sorting

  function Parent(k: nat): nat
    requires k > 0
  {
    (k - 1) / 2
  }

  // Every edge among the first n slots whose parent slot is at least lo is in order.
  ghost predicate Ordered(a: seq<uint64>, lo: nat, n: nat)
    requires n <= |a|
  {
    forall k {:trigger Parent(k)} :: 0 < k < n && lo <= Parent(k) ==> a[Parent(k)] <= a[k]
  }

  ghost predicate IsHeap(a: seq<uint64>) {
    Ordered(a, 0, |a|)
  }

  // Slot i may be out of order with its parent and with its children. Every other edge is
  // in order, and i's children already fit under i's parent.
  ghost predicate OrderedBut(a: seq<uint64>, lo: nat, n: nat, i: nat)
    requires n <= |a|
  {
    && (forall k {:trigger Parent(k)} :: 0 < k < n && lo <= Parent(k) && Parent(k) != i && k != i ==> a[Parent(k)] <= a[k])
    && (forall k {:trigger Parent(k)} :: 0 < k < n && 0 < i < n && Parent(k) == i && lo <= Parent(i) ==> a[Parent(i)] <= a[k])
  }

  // Slot i is in order with its children.
  ghost predicate OrderedBelow(a: seq<uint64>, n: nat, i: nat)
    requires n <= |a|
  {
    forall k {:trigger Parent(k)} :: 0 < k < n && Parent(k) == i ==> a[i] <= a[k]
  }

  ghost predicate SortedNonces(a: seq<uint64>) {
    forall i, j :: 0 <= i < j < |a| ==> a[i] <= a[j]
  }

  function Swapped(a: seq<uint64>, i: nat, j: nat): seq<uint64>
    requires i < |a| && j < |a|
  {
    a[i := a[j]][j := a[i]]
  }

  lemma SwapKeepsElements(a: seq<uint64>, i: nat, j: nat)
    requires i < |a| && j < |a|
    ensures multiset(Swapped(a, i, j)) == multiset(a)
  {
  }

  // down's loop invariant: i has sunk from i0, and only i can still be too large for its children.
  ghost predicate Sinking(a: seq<uint64>, lo: nat, n: nat, i0: nat, i: nat)
    requires n <= |a|
  {
    && i0 <= i <= n
    && (i > i0 ==> i < n && a[Parent(i)] <= a[i])
    && (i > i0 > 0 && lo <= Parent(i0) ==> a[Parent(i0)] <= a[i0])
    && (forall k {:trigger Parent(k)} :: 0 < k < n && lo <= Parent(k) && Parent(k) != i && k != i0 ==> a[Parent(k)] <= a[k])
    && (forall k {:trigger Parent(k)} :: 0 < k < n && 0 < i < n && Parent(k) == i && lo <= Parent(i) ==> a[Parent(i)] <= a[k])
  }

  // The child down compares with: the right one only when it is strictly smaller.
  predicate SmallerChild(a: seq<uint64>, n: nat, i: nat, j: nat)
    requires n <= |a|
  {
    var left := 2 * i + 1;
    left < n && j == if left + 1 < n && a[left + 1] < a[left] then left + 1 else left
  }

  lemma SmallerChildIsLeast(a: seq<uint64>, n: nat, i: nat, j: nat, k: nat)
    requires n <= |a| && SmallerChild(a, n, i, j)
    requires 0 < k < n && Parent(k) == i
    ensures 0 < j < n && Parent(j) == i && a[j] <= a[k]
  {
    assert k == 2 * i + 1 || k == 2 * i + 2;
  }

  lemma SinkStep(a: seq<uint64>, lo: nat, n: nat, i0: nat, i: nat, j: nat)
    requires n <= |a| && lo <= i0 && Sinking(a, lo, n, i0, i)
    requires SmallerChild(a, n, i, j) && a[j] < a[i]
    ensures i < j < n && Sinking(Swapped(a, i, j), lo, n, i0, j)
    ensures Swapped(a, i, j)[n..] == a[n..]
  {
    SmallerChildIsLeast(a, n, i, j, 2 * i + 1);
    var b := Swapped(a, i, j);
    assert b[i] == a[j] && b[j] == a[i];
    forall k | 0 < k < n && lo <= Parent(k) && Parent(k) != j && k != i0
      ensures b[Parent(k)] <= b[k]
    {
      if Parent(k) == i {
        SmallerChildIsLeast(a, n, i, j, k);
      } else if k == i {
        assert a[Parent(i)] <= a[j];
      }
    }
    forall k | 0 < k < n && Parent(k) == j
      ensures b[Parent(j)] <= b[k]
    {
      assert b[k] == a[k] && a[j] <= a[k];
    }
  }

  lemma SinkDone(a: seq<uint64>, lo: nat, n: nat, i0: nat, i: nat)
    requires n <= |a| && Sinking(a, lo, n, i0, i)
    requires forall j: nat :: SmallerChild(a, n, i, j) ==> a[i] <= a[j]
    ensures forall k {:trigger Parent(k)} :: 0 < k < n && lo <= Parent(k) && k != i0 ==> a[Parent(k)] <= a[k]
  {
    forall k | 0 < k < n && Parent(k) == i
      ensures a[i] <= a[k]
    {
      var left := 2 * i + 1;
      var j := if left + 1 < n && a[left + 1] < a[left] then left + 1 else left;
      assert SmallerChild(a, n, i, j);
      SmallerChildIsLeast(a, n, i, j, k);
    }
  }

  // up's step: the moved element may now be too small one level higher.
  lemma RiseStep(a: seq<uint64>, n: nat, i: nat, j: nat)
    requires n <= |a| && 0 < j < n && i == Parent(j) && a[j] < a[i]
    requires OrderedBut(a, 0, n, j) && OrderedBelow(a, n, j)
    ensures OrderedBut(Swapped(a, i, j), 0, n, i) && OrderedBelow(Swapped(a, i, j), n, i)
    ensures Swapped(a, i, j)[n..] == a[n..]
  {
    var b := Swapped(a, i, j);
    forall k | 0 < k < n && Parent(k) == i
      ensures b[i] <= b[k] && (i > 0 ==> b[Parent(i)] <= b[k])
    {
      assert k != j ==> a[i] <= a[k];
    }
    forall k | 0 < k < n && Parent(k) != i && k != i
      ensures b[Parent(k)] <= b[k]
    {
      if Parent(k) == j {
        assert a[i] <= a[k];
      }
    }
  }

  // The root of a heap is a minimum.
  lemma {:induction false} RootIsMinimum(a: seq<uint64>, k: nat)
    requires IsHeap(a) && k < |a|
    ensures a[0] <= a[k]
  {
    if k > 0 {
      RootIsMinimum(a, Parent(k));
    }
  }

  // Moving the last element into slot i only disturbs the edges at i.
  lemma RemovalHole(a: seq<uint64>, i: nat)
    requires IsHeap(a) && i < |a| - 1
    ensures OrderedBut(Swapped(a, i, |a| - 1), 0, |a| - 1, i)
  {
    var n := |a| - 1;
    forall k | 0 < k < n && 0 < i && Parent(k) == i
      ensures a[Parent(i)] <= a[k]
    {
      assert a[Parent(i)] <= a[i];
    }
  }

  // The same elements, and the same slots from n on.
  ghost predicate SameBelow(a: seq<uint64>, b: seq<uint64>, n: nat) {
    |a| == |b| && n <= |a| && multiset(a) == multiset(b) && a[n..] == b[n..]
  }

  lemma SwapStaysBelow(a: seq<uint64>, b: seq<uint64>, n: nat, i: nat, j: nat)
    requires SameBelow(a, b, n) && i < n && j < n
    ensures SameBelow(Swapped(a, i, j), b, n)
  {
    SwapKeepsElements(a, i, j);
    assert Swapped(a, i, j)[n..] == a[n..];
  }

  class NonceHeap {
    var data: seq<uint64>

    constructor ()
      ensures data == []
    {
      data := [];
    }

    method Swap(i: nat, j: nat)
      requires i < |data| && j < |data|
      modifies this
      ensures data == Swapped(old(data), i, j)
      ensures multiset(data) == multiset(old(data))
    {
      SwapKeepsElements(data, i, j);
      data := data[i := data[j]][j := data[i]];
    }

    // up(h, j0), on the first n slots.
    method Up(j0: nat, ghost n: nat)
      requires j0 < n <= |data| && OrderedBut(data, 0, n, j0) && OrderedBelow(data, n, j0)
      modifies this
      ensures |data| == |old(data)| && Ordered(data, 0, n)
      ensures multiset(data) == multiset(old(data)) && data[n..] == old(data)[n..]
    {
      var j: nat := j0;
      while true
        invariant j < n <= |data| && |data| == |old(data)|
        invariant OrderedBut(data, 0, n, j) && OrderedBelow(data, n, j)
        invariant multiset(data) == multiset(old(data)) && data[n..] == old(data)[n..]
        decreases j
      {
        var i: nat := if j == 0 then 0 else (j - 1) / 2;
        if i == j || !(data[j] < data[i]) {
          break;
        }
        RiseStep(data, n, i, j);
        Swap(i, j);
        j := i;
      }
    }

    // down(h, i0, n); lo is the slot above which nothing is claimed yet.
    method Down(i0: nat, n: nat, ghost lo: nat) returns (moved: bool)
      requires lo <= i0 <= n <= |data| && OrderedBut(data, lo, n, i0)
      modifies this
      ensures |data| == |old(data)|
      ensures multiset(data) == multiset(old(data)) && data[n..] == old(data)[n..]
      ensures forall k {:trigger Parent(k)} :: 0 < k < n && lo <= Parent(k) && k != i0 ==> data[Parent(k)] <= data[k]
      ensures moved ==> i0 < n && (i0 > 0 && lo <= Parent(i0) ==> data[Parent(i0)] <= data[i0])
      ensures !moved ==> data == old(data)
    {
      var i: nat := i0;
      while true
        invariant SameBelow(data, old(data), n) && Sinking(data, lo, n, i0, i)
        invariant i == i0 ==> data == old(data)
        decreases n - i
      {
        var j1 := 2 * i + 1;
        if j1 >= n {
          break;
        }
        var j: nat := j1;
        var j2 := j1 + 1;
        if j2 < n && data[j2] < data[j1] {
          j := j2;
        }
        assert SmallerChild(data, n, i, j);
        if !(data[j] < data[i]) {
          break;
        }
        SinkStep(data, lo, n, i0, i, j);
        SwapStaysBelow(data, old(data), n, i, j);
        Swap(i, j);
        i := j;
      }
      SinkDone(data, lo, n, i0, i);
      return i > i0;
    }

    // heap.Init
    method Init()
      modifies this
      ensures IsHeap(data) && multiset(data) == multiset(old(data)) && |data| == |old(data)|
    {
      var n := |data|;
      var i: int := n / 2 - 1;
      while i >= 0
        invariant -1 <= i < n || n == 0
        invariant -1 <= i && 2 * (i + 1) <= n
        invariant |data| == n && multiset(data) == multiset(old(data))
        invariant forall k {:trigger Parent(k)} :: 0 < k < n && i + 1 <= Parent(k) ==> data[Parent(k)] <= data[k]
      {
        var _ := Down(i, n, i);
        i := i - 1;
      }
    }

    // heap.Push
    method Push(x: uint64)
      requires IsHeap(data)
      modifies this
      ensures IsHeap(data) && multiset(data) == multiset(old(data)) + multiset{x}
    {
      data := data + [x];
      Up(|data| - 1, |data|);
    }

    // nonceHeap.Pop: cut off the last slot.
    method DropLast() returns (x: uint64)
      requires |data| > 0 && Ordered(data, 0, |data| - 1)
      modifies this
      ensures x == old(data)[|old(data)| - 1] && data == old(data)[..|old(data)| - 1]
      ensures multiset(data) == multiset(old(data)) - multiset{x} && IsHeap(data)
    {
      var n := |data| - 1;
      assert data == data[..n] + [data[n]];
      x := data[n];
      data := data[..n];
    }

    // heap.Pop
    method Pop() returns (x: uint64)
      requires IsHeap(data) && |data| > 0
      modifies this
      ensures IsHeap(data) && x == old(data)[0]
      ensures multiset(data) == multiset(old(data)) - multiset{x} && |data| == |old(data)| - 1
    {
      var n := |data| - 1;
      Swap(0, n);
      var _ := Down(0, n, 0);
      x := DropLast();
    }

    // The repair inside heap.Remove: sink slot i, and raise it if it did not sink.
    method Settle(i: nat, n: nat)
      requires i < n < |data| && OrderedBut(data, 0, n, i)
      modifies this
      ensures |data| == |old(data)| && Ordered(data, 0, n) && data[n] == old(data)[n]
      ensures multiset(data) == multiset(old(data))
    {
      assert data[n..][0] == data[n];
      var moved := Down(i, n, 0);
      assert data[n..][0] == data[n];
      if !moved {
        Up(i, n);
        assert data[n..][0] == data[n];
      }
    }

    // What heap.Remove does before it cuts the last slot off.
    method MoveToEnd(i: nat, n: nat)
      requires IsHeap(data) && i < n == |data| - 1
      modifies this
      ensures |data| == |old(data)| && Ordered(data, 0, n) && data[n] == old(data)[i]
      ensures multiset(data) == multiset(old(data))
    {
      RemovalHole(data, i);
      Swap(i, n);
      Settle(i, n);
    }

    // heap.Remove
    method RemoveAt(i: nat) returns (x: uint64)
      requires IsHeap(data) && i < |data|
      modifies this
      ensures IsHeap(data) && x == old(data)[i]
      ensures multiset(data) == multiset(old(data)) - multiset{x} && |data| == |old(data)| - 1
    {
      var n := |data| - 1;
      if n != i {
        MoveToEnd(i, n);
      }
      x := DropLast();
    }

    // sort.Sort
    method Sort()
      modifies this
      ensures multiset(data) == multiset(old(data)) && |data| == |old(data)|
      ensures SortedNonces(data)
    {
      var less := (x: uint64, y: uint64) => x < y;
      SortBySorts(data, less);
      data := SortBy(data, less);
    }

    // Keep the first n slots: (*h)[:n].
    method Truncate(n: nat)
      requires n <= |data|
      modifies this
      ensures data == old(data)[..n]
    {
      data := data[..n];
    }

    // make([]uint64, 0, n)
    method Clear()
      modifies this
      ensures data == []
    {
      data := [];
    }

    method Append(x: uint64)
      modifies this
      ensures data == old(data) + [x]
    {
      data := data + [x];
    }
  }
}

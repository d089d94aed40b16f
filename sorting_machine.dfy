/*
 * SortingMachine5a: a sorting machine kept as a queue of entries while in
 * insertion mode and as an array heap (heap sort's embedding of a complete
 * binary tree in an array) while in extraction mode. Entries are integers
 * ordered by <=, which stands for the machine's total preorder.
 */
module SortingMachine {

  // ---------------------------------------------------------------------------
  // The complete binary tree embedded in an array: node i has children 2i+1
  // and 2i+2, and the subtree rooted at top holds top and its descendants.
  // ---------------------------------------------------------------------------

  /** Index i lies in the subtree rooted at index top. */
  predicate InSubtree(top: nat, i: nat)
    decreases i
  {
    i == top || (i > top && InSubtree(top, (i - 1) / 2))
  }

  /**
   * SUBTREE_IS_HEAP(a, top, last): every node of the subtree rooted at top,
   * taken only through index last, is <= each of its children within last.
   */
  ghost predicate HeapOrdered(a: seq<int>, top: nat, last: int)
  {
    forall i: nat {:trigger InSubtree(top, i)} :: InSubtree(top, i) && i <= last && last < |a| ==>
      (2 * i + 1 <= last ==> a[i] <= a[2 * i + 1]) && (2 * i + 2 <= last ==> a[i] <= a[2 * i + 2])
  }

  /** Every entry of the subtree rooted at top, through last, is at least v. */
  ghost predicate AtLeast(a: seq<int>, top: nat, last: int, v: int)
  {
    forall i: nat :: InSubtree(top, i) && i <= last && last < |a| ==> v <= a[i]
  }

  /** b agrees with a everywhere outside the subtree rooted at top (through last). */
  ghost predicate SameOutside(a: seq<int>, b: seq<int>, top: nat, last: int)
  {
    |a| == |b| && forall i: nat :: i < |a| && !(InSubtree(top, i) && i <= last) ==> a[i] == b[i]
  }

  /** b agrees with a on the subtree rooted at top (through last). */
  ghost predicate SameInside(a: seq<int>, b: seq<int>, top: nat, last: int)
  {
    |a| == |b| && forall i: nat :: InSubtree(top, i) && i <= last && i < |a| ==> a[i] == b[i]
  }

  /** isHeap: the recursive check the source performs, left subtree first. */
  function IsHeap(a: seq<int>, top: nat, last: int): bool
    requires last < |a|
    decreases |a| - top
  {
    var left := 2 * top + 1;
    if left <= last then
      var leftOk := a[top] <= a[left] && IsHeap(a, left, last);
      var right := left + 1;
      if leftOk && right <= last then a[top] <= a[right] && IsHeap(a, right, last) else leftOk
    else true
  }

  // ---------------------------------------------------------------------------
  // Facts about subtrees
  // ---------------------------------------------------------------------------

  lemma {:induction false} SubtreeAbove(top: nat, i: nat)
    requires InSubtree(top, i)
    ensures top <= i
  {
  }

  lemma ChildrenInSubtree(top: nat, i: nat)
    requires InSubtree(top, i)
    ensures InSubtree(top, 2 * i + 1) && InSubtree(top, 2 * i + 2)
  {
    assert (2 * i + 1 - 1) / 2 == i;
    assert (2 * i + 2 - 1) / 2 == i;
  }

  /** A node of a child's subtree is a node of the parent's subtree. */
  lemma {:induction false} ChildSubtreeInside(top: nat, child: nat, i: nat)
    requires child == 2 * top + 1 || child == 2 * top + 2
    requires InSubtree(child, i)
    ensures InSubtree(top, i)
    decreases i
  {
    if i != child {
      ChildSubtreeInside(top, child, (i - 1) / 2);
    }
  }

  /** A node of the subtree at top other than top lies under the left or the right child. */
  lemma {:induction false} SubtreeSplit(top: nat, i: nat)
    requires InSubtree(top, i) && i != top
    ensures InSubtree(2 * top + 1, i) || InSubtree(2 * top + 2, i)
    decreases i
  {
    var p := (i - 1) / 2;
    if p != top {
      SubtreeSplit(top, p);
    }
  }

  /** The subtrees of the two children do not overlap. */
  lemma {:induction false} SiblingsDisjoint(top: nat, i: nat)
    requires InSubtree(2 * top + 1, i)
    ensures !InSubtree(2 * top + 2, i)
    decreases i
  {
    if i != 2 * top + 1 {
      SiblingsDisjoint(top, (i - 1) / 2);
      SubtreeAbove(2 * top + 1, (i - 1) / 2);
    }
  }

  /** Every index lies in the subtree of the root. */
  lemma {:induction false} RootSubtreeHasAll(i: nat)
    ensures InSubtree(0, i)
    decreases i
  {
    if i > 0 {
      RootSubtreeHasAll((i - 1) / 2);
    }
  }

  // ---------------------------------------------------------------------------
  // Facts about heap order
  // ---------------------------------------------------------------------------

  /** A subtree that starts past last is trivially a heap. */
  lemma EmptySubtreeOrdered(a: seq<int>, top: nat, last: int)
    requires last < top
    ensures HeapOrdered(a, top, last)
  {
    forall i: nat | InSubtree(top, i) && i <= last && last < |a|
      ensures false
    {
      SubtreeAbove(top, i);
    }
  }

  /** The subtree of a child of a heap is a heap. */
  lemma ChildOrdered(a: seq<int>, top: nat, child: nat, last: int)
    requires child == 2 * top + 1 || child == 2 * top + 2
    requires HeapOrdered(a, top, last)
    ensures HeapOrdered(a, child, last)
  {
    forall i: nat | InSubtree(child, i) && i <= last && last < |a|
      ensures (2 * i + 1 <= last ==> a[i] <= a[2 * i + 1]) && (2 * i + 2 <= last ==> a[i] <= a[2 * i + 2])
    {
      ChildSubtreeInside(top, child, i);
    }
  }

  /** A heap stays a heap when its last index moves down. */
  lemma ShrunkOrdered(a: seq<int>, top: nat, last: int, last': int)
    requires HeapOrdered(a, top, last) && last' <= last < |a|
    ensures HeapOrdered(a, top, last')
  {
  }

  /** Two heaps under a root no greater than either child's root make a heap. */
  lemma JoinOrdered(a: seq<int>, top: nat, last: int)
    requires last < |a|
    requires HeapOrdered(a, 2 * top + 1, last) && HeapOrdered(a, 2 * top + 2, last)
    requires 2 * top + 1 <= last ==> a[top] <= a[2 * top + 1]
    requires 2 * top + 2 <= last ==> a[top] <= a[2 * top + 2]
    ensures HeapOrdered(a, top, last)
  {
    forall i: nat | InSubtree(top, i) && i <= last && last < |a|
      ensures (2 * i + 1 <= last ==> a[i] <= a[2 * i + 1]) && (2 * i + 2 <= last ==> a[i] <= a[2 * i + 2])
    {
      if i != top {
        SubtreeSplit(top, i);
      }
    }
  }

  /** Heap order reads only the subtree. */
  lemma OrderedFrame(a: seq<int>, b: seq<int>, top: nat, last: int)
    requires SameInside(a, b, top, last) && HeapOrdered(a, top, last)
    ensures HeapOrdered(b, top, last)
  {
    forall i: nat | InSubtree(top, i) && i <= last && last < |b|
      ensures (2 * i + 1 <= last ==> b[i] <= b[2 * i + 1]) && (2 * i + 2 <= last ==> b[i] <= b[2 * i + 2])
    {
      ChildrenInSubtree(top, i);
    }
  }

  /** The root of a heap is a minimum of its subtree. */
  lemma {:induction false} RootIsMinimum(a: seq<int>, top: nat, last: int, i: nat)
    requires HeapOrdered(a, top, last) && last < |a|
    requires InSubtree(top, i) && i <= last
    ensures a[top] <= a[i]
    decreases i
  {
    if i != top {
      var p := (i - 1) / 2;
      RootIsMinimum(a, top, last, p);
      assert i == 2 * p + 1 || i == 2 * p + 2;
    }
  }

  lemma RootBoundsSubtree(a: seq<int>, top: nat, last: int)
    requires HeapOrdered(a, top, last) && top <= last < |a|
    ensures AtLeast(a, top, last, a[top])
  {
    forall i: nat | InSubtree(top, i) && i <= last
      ensures a[top] <= a[i]
    {
      RootIsMinimum(a, top, last, i);
    }
  }

  /** The recursive check agrees with the heap-order definition. */
  lemma {:induction false} IsHeapIffOrdered(a: seq<int>, top: nat, last: int)
    requires last < |a|
    ensures IsHeap(a, top, last) <==> HeapOrdered(a, top, last)
    decreases |a| - top
  {
    var left, right := 2 * top + 1, 2 * top + 2;
    assert InSubtree(top, top);
    if left <= last {
      IsHeapIffOrdered(a, left, last);
      if right <= last {
        IsHeapIffOrdered(a, right, last);
      } else {
        EmptySubtreeOrdered(a, right, last);
      }
      if HeapOrdered(a, top, last) {
        ChildOrdered(a, top, left, last);
        ChildOrdered(a, top, right, last);
      }
      if IsHeap(a, top, last) {
        JoinOrdered(a, top, last);
      }
    } else {
      EmptySubtreeOrdered(a, left, last);
      EmptySubtreeOrdered(a, right, last);
      JoinOrdered(a, top, last);
    }
  }

  // ---------------------------------------------------------------------------
  // Entries of a subtree, as a multiset
  // ---------------------------------------------------------------------------

  /** SUBTREE_ARRAY_ENTRIES(a, top, last), counted over the indices below k. */
  ghost function SubtreeEntriesBelow(a: seq<int>, top: nat, last: int, k: nat): multiset<int>
    requires k <= |a|
  {
    if k == 0 then multiset{}
    else SubtreeEntriesBelow(a, top, last, k - 1) + (if InSubtree(top, k - 1) && k - 1 <= last then multiset{a[k - 1]} else multiset{})
  }

  /** The entries outside the subtree, counted over the indices below k. */
  ghost function OutsideEntriesBelow(a: seq<int>, top: nat, last: int, k: nat): multiset<int>
    requires k <= |a|
  {
    if k == 0 then multiset{}
    else OutsideEntriesBelow(a, top, last, k - 1) + (if InSubtree(top, k - 1) && k - 1 <= last then multiset{} else multiset{a[k - 1]})
  }

  ghost function SubtreeEntries(a: seq<int>, top: nat, last: int): multiset<int>
  {
    SubtreeEntriesBelow(a, top, last, |a|)
  }

  lemma {:induction false} EntriesSplit(a: seq<int>, top: nat, last: int, k: nat)
    requires k <= |a|
    ensures multiset(a[..k]) == SubtreeEntriesBelow(a, top, last, k) + OutsideEntriesBelow(a, top, last, k)
  {
    if k > 0 {
      EntriesSplit(a, top, last, k - 1);
      assert a[..k] == a[..k - 1] + [a[k - 1]];
    }
  }

  lemma {:induction false} OutsideEntriesFrame(a: seq<int>, b: seq<int>, top: nat, last: int, k: nat)
    requires SameOutside(a, b, top, last) && k <= |a|
    ensures OutsideEntriesBelow(a, top, last, k) == OutsideEntriesBelow(b, top, last, k)
  {
    if k > 0 {
      OutsideEntriesFrame(a, b, top, last, k - 1);
    }
  }

  lemma MultisetCancel(x: multiset<int>, y: multiset<int>, z: multiset<int>)
    requires x + z == y + z
    ensures x == y
  {
    forall e
      ensures x[e] == y[e]
    {
      assert (x + z)[e] == x[e] + z[e];
      assert (y + z)[e] == y[e] + z[e];
    }
  }

  /** A permutation that keeps everything outside the subtree keeps the subtree's entries. */
  lemma SubtreeEntriesKept(a: seq<int>, b: seq<int>, top: nat, last: int)
    requires SameOutside(a, b, top, last) && multiset(a) == multiset(b)
    ensures SubtreeEntries(a, top, last) == SubtreeEntries(b, top, last)
  {
    EntriesSplit(a, top, last, |a|);
    EntriesSplit(b, top, last, |b|);
    OutsideEntriesFrame(a, b, top, last, |a|);
    assert a[..|a|] == a;
    assert b[..|b|] == b;
    MultisetCancel(SubtreeEntries(a, top, last), SubtreeEntries(b, top, last), OutsideEntriesBelow(a, top, last, |a|));
  }

  // ---------------------------------------------------------------------------
  // Steps of siftDown and heapify, on sequence values
  // ---------------------------------------------------------------------------

  /** Exchanging two entries permutes the sequence. */
  lemma SwapPermutes(a: seq<int>, i: nat, j: nat)
    requires i < |a| && j < |a|
    ensures multiset(a[i := a[j]][j := a[i]]) == multiset(a)
  {
  }

  /** After the swap, the entry moved up is a lower bound of the child's subtree. */
  lemma SwappedChildBound(a0: seq<int>, a1: seq<int>, top: nat, child: nat, last: int)
    requires last < |a0|
    requires child == 2 * top + 1 || child == 2 * top + 2
    requires child <= last && HeapOrdered(a0, child, last) && a0[child] <= a0[top]
    requires a1 == a0[child := a0[top]][top := a0[child]]
    ensures AtLeast(a1, child, last, a0[child])
  {
    forall i: nat | InSubtree(child, i) && i <= last
      ensures a0[child] <= a1[i]
    {
      if i != child {
        SubtreeAbove(child, i);
        RootIsMinimum(a0, child, last, i);
      }
    }
  }

  /** The root lies outside the subtrees of its children. */
  lemma RootOutsideChild(top: nat, child: nat)
    requires child == 2 * top + 1 || child == 2 * top + 2
    ensures !InSubtree(child, top)
  {
    if InSubtree(child, top) {
      SubtreeAbove(child, top);
    }
  }

  /** The two children's subtrees are disjoint, in either order. */
  lemma SiblingsApart(top: nat, child: nat, other: nat, i: nat)
    requires (child == 2 * top + 1 && other == 2 * top + 2) || (child == 2 * top + 2 && other == 2 * top + 1)
    requires InSubtree(other, i)
    ensures !InSubtree(child, i)
  {
    if InSubtree(child, i) {
      if child == 2 * top + 1 {
        SiblingsDisjoint(top, i);
      } else {
        SiblingsDisjoint(top, i);
      }
    }
  }

  /** What changes only inside a child's subtree changes only inside the parent's. */
  lemma SameOutsideWidens(a: seq<int>, b: seq<int>, top: nat, child: nat, last: int)
    requires child == 2 * top + 1 || child == 2 * top + 2
    requires SameOutside(a, b, child, last)
    ensures SameOutside(a, b, top, last)
  {
    forall i: nat | i < |a| && !(InSubtree(top, i) && i <= last)
      ensures a[i] == b[i]
    {
      if InSubtree(child, i) && i <= last {
        ChildSubtreeInside(top, child, i);
      }
    }
  }

  /** What changes only inside one child's subtree leaves the other child's subtree alone. */
  lemma SiblingUntouched(a: seq<int>, b: seq<int>, top: nat, child: nat, other: nat, last: int)
    requires (child == 2 * top + 1 && other == 2 * top + 2) || (child == 2 * top + 2 && other == 2 * top + 1)
    requires SameOutside(a, b, child, last)
    ensures SameInside(a, b, other, last)
  {
    forall i: nat | InSubtree(other, i) && i <= last && i < |a|
      ensures a[i] == b[i]
    {
      SiblingsApart(top, child, other, i);
    }
  }

  /** The swap at top and child does not touch the sibling's subtree. */
  lemma SwapKeepsSibling(a0: seq<int>, a1: seq<int>, top: nat, child: nat, other: nat, last: int)
    requires (child == 2 * top + 1 && other == 2 * top + 2) || (child == 2 * top + 2 && other == 2 * top + 1)
    requires child < |a0| && top < |a0|
    requires a1 == a0[child := a0[top]][top := a0[child]]
    ensures SameInside(a0, a1, other, last)
  {
    forall i: nat | InSubtree(other, i) && i <= last && i < |a0|
      ensures a0[i] == a1[i]
    {
      SiblingsApart(top, child, other, i);
      RootOutsideChild(top, other);
    }
  }

  /** The swap followed by a change inside the child's subtree stays inside the parent's subtree. */
  lemma SwapStaysInside(a0: seq<int>, a1: seq<int>, a2: seq<int>, top: nat, child: nat, last: int)
    requires child == 2 * top + 1 || child == 2 * top + 2
    requires child <= last && last < |a0|
    requires a1 == a0[child := a0[top]][top := a0[child]]
    requires SameOutside(a1, a2, top, last)
    ensures SameOutside(a0, a2, top, last)
  {
    assert InSubtree(top, top);
    ChildrenInSubtree(top, top);
  }

  /** A lower bound of the parent's subtree bounds the child's subtree after the swap. */
  lemma ChildBoundFromParent(a0: seq<int>, a1: seq<int>, top: nat, child: nat, last: int, v: int)
    requires child == 2 * top + 1 || child == 2 * top + 2
    requires child <= last && last < |a0|
    requires a1 == a0[child := a0[top]][top := a0[child]]
    requires AtLeast(a0, top, last, v)
    ensures AtLeast(a1, child, last, v)
  {
    forall i: nat | InSubtree(child, i) && i <= last
      ensures v <= a1[i]
    {
      ChildSubtreeInside(top, child, i);
      assert InSubtree(top, top);
      RootOutsideChild(top, child);
    }
  }

  /** A lower bound of the whole subtree survives the swap and the sift below it. */
  lemma SwapDownBound(a0: seq<int>, a1: seq<int>, a2: seq<int>, top: nat, child: nat, other: nat, last: int, v: int)
    requires last < |a0|
    requires (child == 2 * top + 1 && other == 2 * top + 2) || (child == 2 * top + 2 && other == 2 * top + 1)
    requires child <= last
    requires a1 == a0[child := a0[top]][top := a0[child]]
    requires SameOutside(a1, a2, child, last) && AtLeast(a2, child, last, v)
    requires AtLeast(a0, top, last, v)
    ensures AtLeast(a2, top, last, v)
  {
    forall i: nat | InSubtree(top, i) && i <= last
      ensures v <= a2[i]
    {
      if i != top {
        SubtreeSplit(top, i);
        if InSubtree(other, i) {
          SiblingsApart(top, child, other, i);
          ChildSubtreeInside(top, other, i);
        }
      } else {
        RootOutsideChild(top, child);
      }
    }
  }

  /**
   * The root swapped with its smaller child, whose subtree was then sifted,
   * is a heap: a0 before the swap, a1 after it, a2 after the recursive siftDown.
   */
  lemma SwapDownOrdered(a0: seq<int>, a1: seq<int>, a2: seq<int>, top: nat, child: nat, other: nat, last: int)
    requires last < |a0|
    requires (child == 2 * top + 1 && other == 2 * top + 2) || (child == 2 * top + 2 && other == 2 * top + 1)
    requires child <= last
    requires HeapOrdered(a0, child, last) && HeapOrdered(a0, other, last)
    requires a0[child] <= a0[top]
    requires other <= last ==> a0[child] <= a0[other]
    requires a1 == a0[child := a0[top]][top := a0[child]]
    requires HeapOrdered(a2, child, last) && SameOutside(a1, a2, child, last)
    requires AtLeast(a1, child, last, a0[child]) ==> AtLeast(a2, child, last, a0[child])
    ensures HeapOrdered(a2, top, last)
  {
    SwappedChildBound(a0, a1, top, child, last);
    RootOutsideChild(top, child);
    assert a2[child] >= a2[top] by {
      assert InSubtree(child, child);
    }
    SwapKeepsSibling(a0, a1, top, child, other, last);
    OrderedFrame(a0, a1, other, last);
    SiblingUntouched(a1, a2, top, child, other, last);
    OrderedFrame(a1, a2, other, last);
    JoinOrdered(a2, top, last);
  }

  /** The swap and the sift below it change nothing outside the subtree and keep its lower bounds. */
  lemma SwapDownFrame(a0: seq<int>, a1: seq<int>, a2: seq<int>, top: nat, child: nat, other: nat, last: int)
    requires last < |a0|
    requires (child == 2 * top + 1 && other == 2 * top + 2) || (child == 2 * top + 2 && other == 2 * top + 1)
    requires child <= last
    requires a1 == a0[child := a0[top]][top := a0[child]]
    requires SameOutside(a1, a2, child, last)
    requires forall v :: AtLeast(a1, child, last, v) ==> AtLeast(a2, child, last, v)
    ensures SameOutside(a0, a2, top, last)
    ensures forall v :: AtLeast(a0, top, last, v) ==> AtLeast(a2, top, last, v)
  {
    SameOutsideWidens(a1, a2, top, child, last);
    SwapStaysInside(a0, a1, a2, top, child, last);
    forall v | AtLeast(a0, top, last, v)
      ensures AtLeast(a2, top, last, v)
    {
      ChildBoundFromParent(a0, a1, top, child, last, v);
      SwapDownBound(a0, a1, a2, top, child, other, last, v);
    }
  }

  /** A node whose children lie past last is a heap of one entry. */
  lemma LeafOrdered(a: seq<int>, top: nat, last: int)
    requires 2 * top + 1 > last && last < |a|
    ensures HeapOrdered(a, top, last)
  {
    EmptySubtreeOrdered(a, 2 * top + 1, last);
    EmptySubtreeOrdered(a, 2 * top + 2, last);
    JoinOrdered(a, top, last);
  }

  /** Heapifying both children and then sifting the root: the children's heaps and the frame. */
  lemma HeapifyChildren(a0: seq<int>, a1: seq<int>, a2: seq<int>, top: nat, last: int)
    requires last < |a0|
    requires SameOutside(a0, a1, 2 * top + 1, last) && HeapOrdered(a1, 2 * top + 1, last)
    requires SameOutside(a1, a2, 2 * top + 2, last) && HeapOrdered(a2, 2 * top + 2, last)
    ensures HeapOrdered(a2, 2 * top + 1, last)
    ensures SameOutside(a0, a2, top, last)
  {
    SiblingUntouched(a1, a2, top, 2 * top + 2, 2 * top + 1, last);
    OrderedFrame(a1, a2, 2 * top + 1, last);
    SameOutsideWidens(a0, a1, top, 2 * top + 1, last);
    SameOutsideWidens(a1, a2, top, 2 * top + 2, last);
  }

  /** The swap of top and child leaves both subtrees under child as they were. */
  lemma GrandchildrenKept(a0: seq<int>, a1: seq<int>, top: nat, child: nat, last: int)
    requires child == 2 * top + 1 || child == 2 * top + 2
    requires child <= last && last < |a0|
    requires a1 == a0[child := a0[top]][top := a0[child]]
    requires HeapOrdered(a0, child, last)
    ensures HeapOrdered(a1, 2 * child + 1, last) && HeapOrdered(a1, 2 * child + 2, last)
  {
    ChildOrdered(a0, child, 2 * child + 1, last);
    ChildOrdered(a0, child, 2 * child + 2, last);
    RootOutsideChild(child, 2 * child + 1);
    RootOutsideChild(child, 2 * child + 2);
    forall g: nat, i: nat | (g == 2 * child + 1 || g == 2 * child + 2) && InSubtree(g, i)
      ensures i != child && i != top
    {
      SubtreeAbove(g, i);
    }
    OrderedFrame(a0, a1, 2 * child + 1, last);
    OrderedFrame(a0, a1, 2 * child + 2, last);
  }

  // ---------------------------------------------------------------------------
  // The array operations
  // ---------------------------------------------------------------------------

  /** exchangeEntries: swaps a[i] and a[j] and changes nothing else. */
  method ExchangeEntries(a: array<int>, i: nat, j: nat)
    requires i < a.Length && j < a.Length
    modifies a
    ensures a[..] == old(a[..])[i := old(a[j])][j := old(a[i])]
    ensures multiset(a[..]) == multiset(old(a[..]))
  {
    var temp := a[i];
    a[i] := a[j];
    a[j] := temp;
    SwapPermutes(old(a[..]), i, j);
  }

  /**
   * siftDown: with heaps under both children of top, sifts the entry at top
   * down until the subtree rooted at top, through last, is a heap.
   */
  method SiftDown(a: array<int>, top: nat, last: int)
    requires last < a.Length
    requires HeapOrdered(a[..], 2 * top + 1, last) && HeapOrdered(a[..], 2 * top + 2, last)
    modifies a
    ensures HeapOrdered(a[..], top, last)
    ensures multiset(a[..]) == multiset(old(a[..]))
    ensures SubtreeEntries(a[..], top, last) == SubtreeEntries(old(a[..]), top, last)
    ensures SameOutside(old(a[..]), a[..], top, last)
    ensures forall v :: AtLeast(old(a[..]), top, last, v) ==> AtLeast(a[..], top, last, v)
    decreases a.Length - top, 1
  {
    var left := 2 * top + 1;
    var right := 2 * top + 2;
    if left <= last && right > last {
      if a[left] <= a[top] {
        ExchangeEntries(a, left, top);
        LeafOrdered(a[..], left, last);
        SwapDownOrdered(old(a[..]), a[..], a[..], top, left, right, last);
        SwapDownFrame(old(a[..]), a[..], a[..], top, left, right, last);
      } else {
        JoinOrdered(a[..], top, last);
      }
    } else if right <= last {
      if a[left] <= a[top] && a[left] <= a[right] {
        SiftDownInto(a, top, left, right, last);
      } else if a[right] <= a[top] && a[right] <= a[left] {
        SiftDownInto(a, top, right, left, last);
      } else {
        JoinOrdered(a[..], top, last);
      }
    } else {
      JoinOrdered(a[..], top, last);
    }
    SubtreeEntriesKept(old(a[..]), a[..], top, last);
  }

  /** One branch of siftDown: swap top with the given child and sift that child's subtree. */
  method SiftDownInto(a: array<int>, top: nat, child: nat, other: nat, last: int)
    requires last < a.Length
    requires (child == 2 * top + 1 && other == 2 * top + 2) || (child == 2 * top + 2 && other == 2 * top + 1)
    requires child <= last && other <= last
    requires HeapOrdered(a[..], child, last) && HeapOrdered(a[..], other, last)
    requires a[child] <= a[top] && a[child] <= a[other]
    modifies a
    ensures HeapOrdered(a[..], top, last)
    ensures multiset(a[..]) == multiset(old(a[..]))
    ensures SameOutside(old(a[..]), a[..], top, last)
    ensures forall v :: AtLeast(old(a[..]), top, last, v) ==> AtLeast(a[..], top, last, v)
    decreases a.Length - top, 0
  {
    ExchangeEntries(a, child, top);
    ghost var swapped := a[..];
    GrandchildrenKept(old(a[..]), swapped, top, child, last);
    SiftDown(a, child, last);
    SwapDownOrdered(old(a[..]), swapped, a[..], top, child, other, last);
    SwapDownFrame(old(a[..]), swapped, a[..], top, child, other, last);
  }

  lemma SameOutsideTrans(a: seq<int>, b: seq<int>, c: seq<int>, top: nat, last: int)
    requires SameOutside(a, b, top, last) && SameOutside(b, c, top, last)
    ensures SameOutside(a, c, top, last)
  {
  }

  /**
   * heapify: heapifies the subtrees of both children, then sifts top down;
   * the subtree rooted at top becomes a heap through the last index.
   */
  method Heapify(a: array<int>, top: nat)
    modifies a
    ensures HeapOrdered(a[..], top, a.Length - 1)
    ensures multiset(a[..]) == multiset(old(a[..]))
    ensures SameOutside(old(a[..]), a[..], top, a.Length - 1)
    decreases a.Length - top
  {
    var left := 2 * top + 1;
    var right := 2 * top + 2;
    if left < a.Length {
      Heapify(a, left);
    } else {
      EmptySubtreeOrdered(a[..], left, a.Length - 1);
    }
    ghost var afterLeft := a[..];
    if right < a.Length {
      Heapify(a, right);
    } else {
      EmptySubtreeOrdered(a[..], right, a.Length - 1);
    }
    HeapifyChildren(old(a[..]), afterLeft, a[..], top, a.Length - 1);
    ghost var beforeSift := a[..];
    SiftDown(a, top, a.Length - 1);
    SameOutsideTrans(old(a[..]), beforeSift, a[..], top, a.Length - 1);
  }

  /**
   * buildHeap: drains q into a new array in queue order, then heapifies it.
   * The second result is q after the call, which is left empty.
   */
  method BuildHeap(q: seq<int>) returns (heap: array<int>, drained: seq<int>)
    ensures fresh(heap) && heap.Length == |q|
    ensures HeapOrdered(heap[..], 0, heap.Length - 1)
    ensures multiset(heap[..]) == multiset(q)
    ensures drained == []
  {
    heap := new int[|q|];
    drained := q;
    var i := 0;
    while |drained| > 0
      invariant 0 <= i <= |q| && drained == q[i..]
      invariant heap[..i] == q[..i]
      decreases |drained|
    {
      heap[i] := drained[0];
      drained := drained[1..];
      i := i + 1;
    }
    assert heap[..] == q by {
      assert heap[..] == heap[..i];
      assert q == q[..i];
    }
    Heapify(heap, 0);
  }

  // ---------------------------------------------------------------------------
  // Facts removeFirst needs
  // ---------------------------------------------------------------------------

  /** The root of a heap over the first n entries is a minimum of those entries. */
  lemma HeapRootIsMinimum(s: seq<int>, n: nat)
    requires 0 < n <= |s| && HeapOrdered(s, 0, n - 1)
    ensures s[0] in multiset(s[..n])
    ensures forall x | x in multiset(s[..n]) :: s[0] <= x
  {
    assert s[..n][0] == s[0];
    forall x | x in multiset(s[..n])
      ensures s[0] <= x
    {
      var i :| 0 <= i < n && s[..n][i] == x;
      RootSubtreeHasAll(i);
      RootIsMinimum(s, 0, n - 1, i);
    }
  }

  /**
   * Moving the last entry of a heap of n entries to the root leaves heaps
   * under both children of the root, over the first n - 1 entries, which
   * hold the old entries less the old root.
   */
  lemma RootReplaced(s0: seq<int>, s1: seq<int>, n: nat)
    requires 0 < n <= |s0| && HeapOrdered(s0, 0, n - 1)
    requires s1 == if n - 1 > 0 then s0[0 := s0[n - 1]] else s0
    ensures HeapOrdered(s1, 1, n - 2) && HeapOrdered(s1, 2, n - 2)
    ensures multiset(s1[..n - 1]) == multiset(s0[..n]) - multiset{s0[0]}
  {
    ChildOrdered(s0, 0, 1, n - 1);
    ChildOrdered(s0, 0, 2, n - 1);
    ShrunkOrdered(s0, 1, n - 1, n - 2);
    ShrunkOrdered(s0, 2, n - 1, n - 2);
    RootOutsideChild(0, 1);
    RootOutsideChild(0, 2);
    OrderedFrame(s0, s1, 1, n - 2);
    OrderedFrame(s0, s1, 2, n - 2);
    if n > 1 {
      assert s0[..n] == [s0[0]] + s0[1..n - 1] + [s0[n - 1]];
      assert s1[..n - 1] == [s0[n - 1]] + s0[1..n - 1];
    }
  }

  /** A permutation that changes nothing from index k on permutes the first k entries. */
  lemma PrefixEntriesKept(s1: seq<int>, s2: seq<int>, k: nat)
    requires k <= |s1| && SameOutside(s1, s2, 0, k - 1) && multiset(s1) == multiset(s2)
    ensures multiset(s2[..k]) == multiset(s1[..k])
  {
    assert s1[k..] == s2[k..];
    assert s1 == s1[..k] + s1[k..];
    assert s2 == s2[..k] + s2[k..];
    MultisetCancel(multiset(s2[..k]), multiset(s1[..k]), multiset(s1[k..]));
  }

  /**
   * The array half of removeFirst on a heap of n entries: the last entry
   * moves to the root and is sifted down through the first n - 1 entries.
   */
  method ReplaceRootAndSift(a: array<int>, n: nat)
    requires 0 < n <= a.Length && HeapOrdered(a[..], 0, n - 1)
    modifies a
    ensures HeapOrdered(a[..], 0, n - 2)
    ensures multiset(a[..n - 1]) == multiset(old(a[..n])) - multiset{old(a[0])}
  {
    var lastIdx := n - 1;
    if lastIdx > 0 {
      a[0] := a[lastIdx];
    }
    ghost var replaced := a[..];
    RootReplaced(old(a[..]), replaced, n);
    if n - 1 > 0 {
      SiftDown(a, 0, n - 2);
      PrefixEntriesKept(replaced, a[..], n - 1);
    } else {
      EmptySubtreeOrdered(a[..], 0, n - 2);
    }
  }

  // ---------------------------------------------------------------------------
  // The machine
  // ---------------------------------------------------------------------------

  /**
   * SortingMachine5a. In insertion mode the entries wait in a queue; in
   * extraction mode they sit in heap[0, heapSize) in heap order.
   */
  class SortingMachine5a {
    var insertionMode: bool
    var entries: seq<int>
    var heap: array<int>
    var heapSize: int

    /** The representation convention. */
    ghost predicate Valid()
      reads this, heap
    {
      if insertionMode then heapSize == 0
      else entries == [] && 0 <= heapSize <= heap.Length && HeapOrdered(heap[..], 0, heapSize - 1)
    }

    /** The entries the machine holds. */
    ghost function Contents(): multiset<int>
      reads this, heap
      requires Valid()
    {
      if insertionMode then multiset(entries) else multiset(heap[..heapSize])
    }

    /**
     * conventionHolds: the convention checked with isHeap. The Java method
     * asserts each clause and returns true; r == false stands for the
     * assertion failure it reports.
     */
    function ConventionHolds(): (r: bool)
      reads this, heap
      ensures r <==> Valid()
    {
      if insertionMode then heapSize == 0
      else
        && entries == []
        && 0 <= heapSize <= heap.Length
        && (IsHeapIffOrdered(heap[..], 0, heapSize - 1); IsHeap(heap[..], 0, heapSize - 1))
    }

    /** A new, empty machine in insertion mode. */
    constructor ()
      ensures Valid() && insertionMode && entries == [] && heapSize == 0
      ensures Contents() == multiset{}
    {
      insertionMode := true;
      entries := [];
      heapSize := 0;
      heap := new int[0];
    }

    /** createNewRep: an empty queue, heap size 0, insertion mode; the heap array is not touched. */
    method CreateNewRep()
      modifies this
      ensures insertionMode && entries == [] && heapSize == 0 && heap == old(heap)
      ensures Valid() && Contents() == multiset{}
    {
      entries := [];
      heapSize := 0;
      insertionMode := true;
    }

    /** clear: back to the initial representation. */
    method Clear()
      modifies this
      ensures insertionMode && entries == [] && heapSize == 0 && heap == old(heap)
      ensures Valid() && Contents() == multiset{}
    {
      CreateNewRep();
    }

    /**
     * transferFrom: takes over the representation of source, sharing its
     * heap array, and gives source a new empty representation.
     */
    method TransferFrom(source: SortingMachine5a)
      requires source != this && source.Valid()
      modifies this, source
      ensures insertionMode == old(source.insertionMode) && entries == old(source.entries)
      ensures heap == old(source.heap) && heapSize == old(source.heapSize)
      ensures Valid() && Contents() == old(source.Contents())
      ensures source.insertionMode && source.entries == [] && source.heapSize == 0 && source.heap == heap
      ensures source.Valid() && source.Contents() == multiset{}
    {
      insertionMode := source.insertionMode;
      entries := source.entries;
      heap := source.heap;
      heapSize := source.heapSize;
      source.CreateNewRep();
    }

    /** add: enqueues x; only in insertion mode. */
    method Add(x: int)
      requires Valid() && insertionMode
      modifies this
      ensures Valid() && insertionMode
      ensures entries == old(entries) + [x] && heapSize == old(heapSize) && heap == old(heap)
      ensures Contents() == old(Contents()) + multiset{x}
    {
      entries := entries + [x];
    }

    /** changeToExtractionMode: the queued entries become a heap of the same size; the queue is emptied. */
    method ChangeToExtractionMode()
      requires Valid() && insertionMode
      modifies this
      ensures Valid() && !insertionMode
      ensures heapSize == |old(entries)| && entries == [] && fresh(heap)
      ensures Contents() == old(Contents())
    {
      insertionMode := false;
      heapSize := |entries|;
      heap, entries := BuildHeap(entries);
      assert heap[..heapSize] == heap[..];
    }

    /**
     * removeFirst: removes and returns the root of the heap, a minimum of the
     * contents; the last entry moves to the root and is sifted down.
     */
    method RemoveFirst() returns (first: int)
      requires Valid() && !insertionMode && Size() > 0
      modifies this, heap
      ensures Valid() && !insertionMode && heap == old(heap) && entries == old(entries)
      ensures heapSize == old(heapSize) - 1
      ensures first in old(Contents())
      ensures forall x | x in old(Contents()) :: first <= x
      ensures Contents() == old(Contents()) - multiset{first}
    {
      HeapRootIsMinimum(heap[..], heapSize);
      first := heap[0];
      ReplaceRootAndSift(heap, heapSize);
      heapSize := heapSize - 1;
    }

    /** size: the length of the queue in insertion mode, heapSize otherwise. */
    function Size(): (r: int)
      reads this, heap
      requires Valid()
      ensures r == |Contents()|
    {
      if !insertionMode then heapSize else |entries|
    }
  }
}

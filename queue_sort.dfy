/*
 * Insertion sort of a queue: insertInOrder puts one entry into a sorted
 * queue, and sort drains the queue entry by entry into a new sorted one.
 * Queues are sequences with the front at index 0; entries are integers
 * ordered by <=, which stands for the comparator's total preorder.
 */
module QueueSort {

  /** IS_SORTED: every entry is <= every later entry. */
  ghost predicate Sorted(q: seq<int>)
  {
    forall i, j :: 0 <= i < j < |q| ==> q[i] <= q[j]
  }

  /** The length of the longest prefix of q whose entries are all smaller than x. */
  function LeadingSmaller(q: seq<int>, x: int): (k: nat)
    ensures k <= |q|
    ensures forall i :: 0 <= i < k ==> q[i] < x
    ensures k < |q| ==> x <= q[k]
  {
    if |q| == 0 || x <= q[0] then 0 else 1 + LeadingSmaller(q[1..], x)
  }

  /**
   * insertInOrder: entries smaller than x move from q to a temporary queue,
   * then x, then the rest of q.
   */
  method InsertInOrder(q: seq<int>, x: int) returns (r: seq<int>)
    ensures r == q[..LeadingSmaller(q, x)] + [x] + q[LeadingSmaller(q, x)..]
  {
    var temp: seq<int> := [];
    var rest := q;
    while |rest| != 0 && x > rest[0]
      invariant |temp| <= LeadingSmaller(q, x)
      invariant temp == q[..|temp|] && rest == q[|temp|..]
      decreases |rest|
    {
      temp := temp + [rest[0]];
      rest := rest[1..];
    }
    temp := temp + [x];
    temp := temp + rest;
    r := temp;
  }

  /** The queue insertInOrder leaves is a permutation of q with x added. */
  lemma InsertPermutes(q: seq<int>, x: int, k: nat)
    requires k <= |q|
    ensures multiset(q[..k] + [x] + q[k..]) == multiset(q) + multiset{x}
  {
    assert q == q[..k] + q[k..];
  }

  /** Inserting after the entries smaller than x keeps a sorted queue sorted. */
  lemma InsertKeepsSorted(q: seq<int>, x: int)
    requires Sorted(q)
    ensures Sorted(q[..LeadingSmaller(q, x)] + [x] + q[LeadingSmaller(q, x)..])
  {
    var k := LeadingSmaller(q, x);
    var r := q[..k] + [x] + q[k..];
    forall i, j | 0 <= i < j < |r|
      ensures r[i] <= r[j]
    {
      if j == k {
        assert r[i] == q[i];
      } else if i == k {
        assert r[j] == q[j - 1];
        assert x <= q[k];
      } else if i < k && k < j {
        assert r[i] == q[i] && r[j] == q[j - 1];
      }
    }
  }

  /** The first entry of a nonempty sorted queue is at most every entry. */
  lemma FrontIsLeast(a: seq<int>, x: int)
    requires Sorted(a) && x in multiset(a)
    ensures a[0] <= x
  {
    var i :| 0 <= i < |a| && a[i] == x;
  }

  /** Two sorted queues with the same entries are equal. */
  lemma {:induction false} SortedUnique(a: seq<int>, b: seq<int>)
    requires Sorted(a) && Sorted(b) && multiset(a) == multiset(b)
    ensures a == b
    decreases |a|
  {
    assert |a| == |multiset(a)| && |b| == |multiset(b)|;
    if |a| > 0 {
      assert a[0] in multiset(a) && b[0] in multiset(b);
      FrontIsLeast(a, b[0]);
      FrontIsLeast(b, a[0]);
      FrontRemoved(a, b);
      SortedTail(a);
      SortedTail(b);
      SortedUnique(a[1..], b[1..]);
      assert a == [a[0]] + a[1..];
      assert b == [b[0]] + b[1..];
    }
  }

  lemma SortedTail(a: seq<int>)
    requires Sorted(a) && |a| > 0
    ensures Sorted(a[1..])
  {
    forall i, j | 0 <= i < j < |a| - 1
      ensures a[1..][i] <= a[1..][j]
    {
      assert a[1..][i] == a[i + 1] && a[1..][j] == a[j + 1];
    }
  }

  /** Equal multisets with equal front entries stay equal without them. */
  lemma FrontRemoved(a: seq<int>, b: seq<int>)
    requires |a| > 0 && |b| > 0 && a[0] == b[0] && multiset(a) == multiset(b)
    ensures multiset(a[1..]) == multiset(b[1..])
  {
    assert a == [a[0]] + a[1..];
    assert b == [b[0]] + b[1..];
    var x := a[0];
    assert multiset(a) == multiset{x} + multiset(a[1..]);
    assert multiset(b) == multiset{x} + multiset(b[1..]);
    forall e
      ensures multiset(a[1..])[e] == multiset(b[1..])[e]
    {
      assert (multiset{x} + multiset(a[1..]))[e] == multiset{x}[e] + multiset(a[1..])[e];
      assert (multiset{x} + multiset(b[1..]))[e] == multiset{x}[e] + multiset(b[1..])[e];
    }
  }

  /** sort: drains q front to back, inserting each entry in order into a new queue. */
  method Sort(q: seq<int>) returns (r: seq<int>)
    ensures Sorted(r) && multiset(r) == multiset(q)
  {
    var temp: seq<int> := [];
    var rest := q;
    while |rest| != 0
      invariant Sorted(temp)
      invariant multiset(temp) + multiset(rest) == multiset(q)
      invariant |temp| + |rest| == |q|
      decreases |rest|
    {
      var x := rest[0];
      assert rest == [x] + rest[1..];
      rest := rest[1..];
      InsertKeepsSorted(temp, x);
      InsertPermutes(temp, x, LeadingSmaller(temp, x));
      temp := InsertInOrder(temp, x);
    }
    r := temp;
  }

}

/*
 * A list with a cursor kept as a singly linked chain of nodes behind a
 * sentinel preFront. lastLeft points at the last node of the left part (the
 * sentinel when the left part is empty); leftLength and rightLength count
 * the entries on each side. The chain is described by the ghost sequence
 * nodes: nodes[0] is preFront and each node's next is the following one.
 */
module LinkedCursor {

  class Node {
    var data: int
    var next: Node?

    constructor (data: int, next: Node?)
      ensures this.data == data && this.next == next
    {
      this.data := data;
      this.next := next;
    }
  }

  /** The entries held by a run of nodes. */
  ghost function Entries(ns: seq<Node>): seq<int>
    reads set n | n in ns
  {
    if |ns| == 0 then [] else [ns[0].data] + Entries(ns[1..])
  }

  lemma {:induction false} EntriesSplit(ns: seq<Node>, k: nat)
    requires k <= |ns|
    ensures Entries(ns) == Entries(ns[..k]) + Entries(ns[k..])
    decreases k
  {
    if k > 0 {
      EntriesSplit(ns[1..], k - 1);
      assert ns[1..][..k - 1] == ns[..k][1..];
      assert ns[1..][k - 1..] == ns[k..];
    }
  }

  /** Moving the boundary one node left moves that node's entry from the left run to the right run. */
  lemma RetreatEntries(ns: seq<Node>, n: nat)
    requires 1 <= n < |ns|
    ensures Entries(ns[1..n + 1]) == Entries(ns[1..n]) + [ns[n].data]
    ensures Entries(ns[n..]) == [ns[n].data] + Entries(ns[n + 1..])
  {
    EntriesSplit(ns[1..n + 1], n - 1);
    assert ns[1..n + 1][..n - 1] == ns[1..n];
    assert ns[1..n + 1][n - 1..] == [ns[n]];
    assert ns[n..][1..] == ns[n + 1..];
  }

  class List {
    var preFront: Node
    var lastLeft: Node
    var leftLength: nat
    var rightLength: nat
    ghost var nodes: seq<Node>

    /** An empty list: the sentinel alone, with the cursor after it. */
    constructor ()
      ensures Valid() && Left() == [] && Right() == []
    {
      var sentinel := new Node(0, null);
      preFront := sentinel;
      lastLeft := sentinel;
      leftLength := 0;
      rightLength := 0;
      nodes := [sentinel];
    }

    /** The chain from preFront is nodes, linked in order, distinct, and the counts match. */
    ghost predicate Valid()
      reads this, set n | n in nodes
    {
      |nodes| == leftLength + rightLength + 1 &&
      nodes[0] == preFront && nodes[leftLength] == lastLeft &&
      (forall i :: 0 <= i < |nodes| - 1 ==> nodes[i].next == nodes[i + 1]) &&
      (forall i, j :: 0 <= i < j < |nodes| ==> nodes[i] != nodes[j])
    }

    /** The entries left of the cursor. */
    ghost function Left(): seq<int>
      requires Valid()
      reads this, set n | n in nodes
    {
      Entries(nodes[1..leftLength + 1])
    }

    /** The entries from the cursor on. */
    ghost function Right(): seq<int>
      requires Valid()
      reads this, set n | n in nodes
    {
      Entries(nodes[leftLength + 1..])
    }

    /**
     * retreat: walks from preFront to the node whose next is lastLeft, makes it
     * the new lastLeft, and moves one entry from the left count to the right.
     */
    method Retreat()
      requires Valid() && leftLength > 0
      modifies this
      ensures Valid() && nodes == old(nodes)
      ensures Left() + Right() == old(Left() + Right())
      ensures |Left()| == |old(Left())| - 1
      ensures Right() == [old(Left())[|old(Left())| - 1]] + old(Right())
    {
      var lastNode := preFront;
      ghost var k := 0;
      while lastNode.next != lastLeft
        invariant 0 <= k < leftLength && lastNode == nodes[k]
        decreases leftLength - k
      {
        assert lastNode.next == nodes[k + 1];
        lastNode := lastNode.next;
        k := k + 1;
      }
      assert nodes[k].next == nodes[k + 1];
      assert k == leftLength - 1;
      RetreatEntries(nodes, leftLength);
      lastLeft := lastNode;
      leftLength := leftLength - 1;
      rightLength := rightLength + 1;
    }
  }
}

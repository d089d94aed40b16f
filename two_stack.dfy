/*
 * A sequence kept as two stacks: the entries before the cursor sit in the
 * left stack with the entry nearest the cursor on top, and the entries from
 * the cursor on sit in the right stack with the entry at the cursor on top.
 * A stack is a sequence whose top is at index 0, so push is [x] + s and pop
 * takes s[0]. The represented sequence is rev(left) * right.
 */
module TwoStack {

  function Reverse(s: seq<int>): (r: seq<int>)
    ensures |r| == |s|
  {
    if |s| == 0 then [] else Reverse(s[1..]) + [s[0]]
  }

  /** The sequence the two stacks represent. */
  function Represented(left: seq<int>, right: seq<int>): seq<int>
  {
    Reverse(left) + right
  }

  // ---------------------------------------------------------------------------
  // Facts about the representation
  // ---------------------------------------------------------------------------

  lemma PushReversed(x: int, s: seq<int>)
    ensures Reverse([x] + s) == Reverse(s) + [x]
  {
    assert ([x] + s)[1..] == s;
  }

  /** Moving the top of the right stack onto the left stack keeps the represented sequence. */
  lemma MoveLeft(left: seq<int>, right: seq<int>)
    requires |right| > 0
    ensures Represented([right[0]] + left, right[1..]) == Represented(left, right)
  {
    PushReversed(right[0], left);
    assert right == [right[0]] + right[1..];
    assert Reverse(left) + [right[0]] + right[1..] == Reverse(left) + ([right[0]] + right[1..]);
  }

  /** Moving the top of the left stack onto the right stack keeps the represented sequence. */
  lemma MoveRight(left: seq<int>, right: seq<int>)
    requires |left| > 0
    ensures Represented(left[1..], [left[0]] + right) == Represented(left, right)
  {
    MoveLeft(left[1..], [left[0]] + right);
    assert [left[0]] + left[1..] == left;
    assert ([left[0]] + right)[1..] == right;
  }

  lemma {:induction false} ReverseConcat(a: seq<int>, b: seq<int>)
    ensures Reverse(a + b) == Reverse(b) + Reverse(a)
    decreases |a|
  {
    if |a| == 0 {
      assert a + b == b;
    } else {
      assert (a + b)[1..] == a[1..] + b;
      ReverseConcat(a[1..], b);
    }
  }

  lemma {:induction false} ReverseReverse(s: seq<int>)
    ensures Reverse(Reverse(s)) == s
    decreases |s|
  {
    if |s| > 0 {
      ReverseConcat(Reverse(s[1..]), [s[0]]);
      ReverseReverse(s[1..]);
      assert Reverse([s[0]]) == [s[0]];
      assert s == [s[0]] + s[1..];
    }
  }

  /** The length of the left stack fixes how the represented sequence is split. */
  lemma SplitDetermined(l1: seq<int>, r1: seq<int>, l2: seq<int>, r2: seq<int>)
    requires Represented(l1, r1) == Represented(l2, r2) && |l1| == |l2|
    ensures l1 == l2 && r1 == r2
  {
    var s := Represented(l1, r1);
    assert Reverse(l1) == s[..|l1|] == Reverse(l2);
    assert r1 == s[|l1|..] == r2;
    ReverseReverse(l1);
    ReverseReverse(l2);
  }

  // ---------------------------------------------------------------------------
  // setLengthOfLeftStack, three ways
  // ---------------------------------------------------------------------------

  /**
   * setLengthOfLeftStack (the two-loop version): moves entries right to left
   * while the left stack is too short, then left to right while it is too long.
   */
  method SetLengthOfLeftStack(leftStack: seq<int>, rightStack: seq<int>, newLeftLength: nat)
    returns (left: seq<int>, right: seq<int>)
    requires newLeftLength <= |leftStack| + |rightStack|
    ensures Represented(left, right) == Represented(leftStack, rightStack)
    ensures |left| == newLeftLength
  {
    left, right := leftStack, rightStack;
    while |left| < newLeftLength
      invariant Represented(left, right) == Represented(leftStack, rightStack)
      invariant |left| + |right| == |leftStack| + |rightStack|
      decreases newLeftLength - |left|
    {
      MoveLeft(left, right);
      var x := right[0];
      right := right[1..];
      left := [x] + left;
    }
    while |left| > newLeftLength
      invariant Represented(left, right) == Represented(leftStack, rightStack)
      invariant |left| >= newLeftLength
      decreases |left|
    {
      MoveRight(left, right);
      var x := left[0];
      left := left[1..];
      right := [x] + right;
    }
  }

  /** setLengthOfLeftStack2: the same loops in the other order, left to right first. */
  method SetLengthOfLeftStack2(leftStack: seq<int>, rightStack: seq<int>, newLeftLength: nat)
    returns (left: seq<int>, right: seq<int>)
    requires newLeftLength <= |leftStack| + |rightStack|
    ensures Represented(left, right) == Represented(leftStack, rightStack)
    ensures |left| == newLeftLength
  {
    left, right := leftStack, rightStack;
    while |left| > newLeftLength
      invariant Represented(left, right) == Represented(leftStack, rightStack)
      invariant |left| + |right| == |leftStack| + |rightStack|
      decreases |left|
    {
      MoveRight(left, right);
      right := [left[0]] + right;
      left := left[1..];
    }
    while |left| < newLeftLength
      invariant Represented(left, right) == Represented(leftStack, rightStack)
      invariant |left| + |right| == |leftStack| + |rightStack|
      invariant |left| <= newLeftLength
      decreases newLeftLength - |left|
    {
      MoveLeft(left, right);
      left := [right[0]] + left;
      right := right[1..];
    }
  }

  /** setLengthOfLeftStack, the recursive version: one entry per call. */
  method SetLengthOfLeftStackRec(leftStack: seq<int>, rightStack: seq<int>, newLeftLength: nat)
    returns (left: seq<int>, right: seq<int>)
    requires newLeftLength <= |leftStack| + |rightStack|
    ensures Represented(left, right) == Represented(leftStack, rightStack)
    ensures |left| == newLeftLength
    decreases if |leftStack| > newLeftLength then |leftStack| - newLeftLength else newLeftLength - |leftStack|
  {
    if |leftStack| == newLeftLength {
      left, right := leftStack, rightStack;
    } else if |leftStack| > newLeftLength {
      MoveRight(leftStack, rightStack);
      left, right := SetLengthOfLeftStackRec(leftStack[1..], [leftStack[0]] + rightStack, newLeftLength);
    } else {
      MoveLeft(leftStack, rightStack);
      left, right := SetLengthOfLeftStackRec([rightStack[0]] + leftStack, rightStack[1..], newLeftLength);
    }
  }

  // ---------------------------------------------------------------------------
  // Sequence3: a Sequence kept as two stacks
  // ---------------------------------------------------------------------------

  class Sequence3 {
    var left: seq<int>
    var right: seq<int>

    /** The sequence this object represents. */
    ghost function Contents(): seq<int>
      reads this
    {
      Represented(left, right)
    }

    constructor ()
      ensures Contents() == []
    {
      left := [];
      right := [];
    }

    /** add: moves the cursor to pos and pushes x on the left stack. */
    method Add(pos: nat, x: int)
      requires pos <= Length()
      modifies this
      ensures Contents() == old(Contents())[..pos] + [x] + old(Contents())[pos..]
      ensures |left| == pos + 1
    {
      left, right := SetLengthOfLeftStackRec(left, right, pos);
      PushReversed(x, left);
      left := [x] + left;
    }

    /** remove: moves the cursor to pos and pops the right stack. */
    method Remove(pos: nat) returns (x: int)
      requires pos < Length()
      modifies this
      ensures x == old(Contents())[pos]
      ensures Contents() == old(Contents())[..pos] + old(Contents())[pos + 1..]
      ensures |left| == pos
    {
      left, right := SetLengthOfLeftStackRec(left, right, pos);
      x := right[0];
      right := right[1..];
    }

    /** length: the sum of the stack lengths. */
    function Length(): (n: nat)
      reads this
      ensures n == |Contents()|
    {
      |left| + |right|
    }

    /** flip: the two stacks trade places, which reverses the sequence, with no loop. */
    method Flip()
      modifies this
      ensures left == old(right) && right == old(left)
      ensures Contents() == Reverse(old(Contents()))
    {
      var temp := left;
      left := right;
      right := temp;
      ReverseConcat(Reverse(right), left);
      ReverseReverse(right);
    }
  }
}

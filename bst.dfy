/*
 * Binary search trees of integers: search, removal of the smallest label and
 * removal of a given label. The ordering is compareTo on the labels, which
 * is < on int; a binary search tree has no duplicate labels.
 */
module SearchTrees {
  import opened BinaryTrees

  /** IS_BST: left labels are below the root, right labels above it, in every subtree. */
  ghost predicate IsBst(t: Tree<int>)
  {
    match t
    case Empty => true
    case Node(r, left, right) =>
      IsBst(left) && IsBst(right) &&
      (forall y :: y in Labels(left) ==> y < r) &&
      (forall y :: y in Labels(right) ==> r < y)
  }

  ghost predicate StrictlyIncreasing(s: seq<int>)
  {
    forall i, j :: 0 <= i < j < |s| ==> s[i] < s[j]
  }

  /** A concatenation around a pivot increases iff both sides do and the pivot separates them. */
  lemma ConcatIncreasing(a: seq<int>, r: int, b: seq<int>)
    ensures StrictlyIncreasing(a + [r] + b) <==>
      StrictlyIncreasing(a) && StrictlyIncreasing(b) &&
      (forall y :: y in a ==> y < r) && (forall y :: y in b ==> r < y)
  {
    var s := a + [r] + b;
    if StrictlyIncreasing(s) {
      forall i, j | 0 <= i < j < |a|
        ensures a[i] < a[j]
      {
        assert s[i] == a[i] && s[j] == a[j];
      }
      forall i, j | 0 <= i < j < |b|
        ensures b[i] < b[j]
      {
        assert s[|a| + 1 + i] == b[i] && s[|a| + 1 + j] == b[j];
      }
      forall y | y in a
        ensures y < r
      {
        var i :| 0 <= i < |a| && a[i] == y;
        assert s[i] == y && s[|a|] == r;
      }
      forall y | y in b
        ensures r < y
      {
        var j :| 0 <= j < |b| && b[j] == y;
        assert s[|a| + 1 + j] == y && s[|a|] == r;
      }
    }
    if StrictlyIncreasing(a) && StrictlyIncreasing(b) &&
      (forall y :: y in a ==> y < r) && (forall y :: y in b ==> r < y)
    {
      forall i, j | 0 <= i < j < |s|
        ensures s[i] < s[j]
      {
        if j < |a| {
          assert s[i] == a[i] && s[j] == a[j];
        } else if i > |a| {
          assert s[i] == b[i - |a| - 1] && s[j] == b[j - |a| - 1];
        } else {
          if i < |a| {
            assert s[i] == a[i] && a[i] in a;
          }
          if j > |a| {
            assert s[j] == b[j - |a| - 1] && b[j - |a| - 1] in b;
          }
        }
      }
    }
  }

  /** A tree is a binary search tree iff its in-order labels strictly increase. */
  lemma {:induction false} BstIffIncreasing(t: Tree<int>)
    ensures IsBst(t) <==> StrictlyIncreasing(InOrder(t))
  {
    match t
    case Empty =>
    case Node(r, left, right) =>
      BstIffIncreasing(left);
      BstIffIncreasing(right);
      LabelsInOrder(left);
      LabelsInOrder(right);
      ConcatIncreasing(InOrder(left), r, InOrder(right));
  }

  // ---------------------------------------------------------------------------
  // isInTree
  // ---------------------------------------------------------------------------

  /** isInTree: right if x is above the root, left if below, found on equality. */
  function BstIsInTree(t: Tree<int>, x: int): (found: bool)
    requires IsBst(t)
    ensures found <==> x in Labels(t)
  {
    match t
    case Empty => false
    case Node(root, left, right) =>
      if x > root then BstIsInTree(right, x)
      else if x < root then BstIsInTree(left, x)
      else true
  }

  /** On a binary search tree the ordered search agrees with the search of every node. */
  lemma BstSearchAgrees(t: Tree<int>, x: int)
    requires IsBst(t)
    ensures BstIsInTree(t, x) == IsInTree(t, x)
  {
  }

  // ---------------------------------------------------------------------------
  // removeSmallest
  // ---------------------------------------------------------------------------

  /** The first of a strictly increasing sequence is its least entry, and the rest increase. */
  lemma FirstOfIncreasing(s: seq<int>)
    requires StrictlyIncreasing(s) && |s| > 0
    ensures StrictlyIncreasing(s[1..])
    ensures forall y :: y in s ==> s[0] <= y
    ensures forall y :: y in s[1..] <==> y in s && y != s[0]
  {
    assert s == [s[0]] + s[1..];
    forall y | y in s[1..]
      ensures y != s[0]
    {
      var j :| 0 <= j < |s[1..]| && s[1..][j] == y;
      assert s[j + 1] == y;
    }
  }

  /** Removing the first in-order label of a binary search tree removes its least label. */
  lemma RemovedFirstOfBst(t: Tree<int>, rest: Tree<int>, smallest: int)
    requires t.Node? && smallest == InOrder(t)[0] && InOrder(rest) == InOrder(t)[1..]
    requires IsBst(t)
    ensures IsBst(rest)
    ensures Labels(rest) == Labels(t) - {smallest}
    ensures forall y :: y in Labels(t) ==> smallest <= y
  {
    BstIffIncreasing(t);
    BstIffIncreasing(rest);
    FirstOfIncreasing(InOrder(t));
    LabelsInOrder(t);
    LabelsInOrder(rest);
  }

  /**
   * removeSmallest: the leftmost node gives up its label and is replaced by
   * its right subtree; the labels leave in in-order position.
   */
  method RemoveSmallest(t: Tree<int>) returns (rest: Tree<int>, smallest: int)
    requires t.Node?
    ensures smallest == InOrder(t)[0] && InOrder(rest) == InOrder(t)[1..]
    ensures Size1(rest) == Size1(t) - 1
    ensures IsBst(t) ==> IsBst(rest)
    ensures IsBst(t) ==> Labels(rest) == Labels(t) - {smallest}
    ensures IsBst(t) ==> forall y :: y in Labels(t) ==> smallest <= y
    decreases t
  {
    var root, left, right := t.root, t.left, t.right;
    if left.Empty? {
      smallest := root;
      rest := right;
      assert InOrder(t) == [root] + InOrder(right);
    } else {
      var newLeft;
      newLeft, smallest := RemoveSmallest(left);
      rest := Node(root, newLeft, right);
      assert InOrder(t) == InOrder(left) + [root] + InOrder(right);
      assert InOrder(rest) == InOrder(newLeft) + [root] + InOrder(right);
    }
    if IsBst(t) {
      RemovedFirstOfBst(t, rest, smallest);
    }
  }

  // ---------------------------------------------------------------------------
  // removeFromBST
  // ---------------------------------------------------------------------------

  /** Removing x from the right subtree of a node below x removes it from the tree. */
  lemma RemovedOnRight(root: int, left: Tree<int>, right: Tree<int>, newRight: Tree<int>, x: int)
    requires IsBst(Node(root, left, right)) && root < x
    requires IsBst(newRight) && Labels(newRight) == Labels(right) - {x}
    ensures IsBst(Node(root, left, newRight))
    ensures Labels(Node(root, left, newRight)) == Labels(Node(root, left, right)) - {x}
  {
    assert x !in Labels(left);
  }

  /** Removing x from the left subtree of a node above x removes it from the tree. */
  lemma RemovedOnLeft(root: int, left: Tree<int>, right: Tree<int>, newLeft: Tree<int>, x: int)
    requires IsBst(Node(root, left, right)) && x < root
    requires IsBst(newLeft) && Labels(newLeft) == Labels(left) - {x}
    ensures IsBst(Node(root, newLeft, right))
    ensures Labels(Node(root, newLeft, right)) == Labels(Node(root, left, right)) - {x}
  {
    assert x !in Labels(right);
  }

  /** The least label of the right subtree can replace the root. */
  lemma SuccessorAtRoot(root: int, left: Tree<int>, right: Tree<int>, newRight: Tree<int>, successor: int)
    requires IsBst(Node(root, left, right))
    requires successor in Labels(right) && forall y :: y in Labels(right) ==> successor <= y
    requires IsBst(newRight) && Labels(newRight) == Labels(right) - {successor}
    ensures IsBst(Node(successor, left, newRight))
    ensures Labels(Node(successor, left, newRight)) == Labels(Node(root, left, right)) - {root}
  {
    assert root !in Labels(left) && root !in Labels(right);
    forall y | y in Labels(newRight)
      ensures successor < y
    {
      assert y in Labels(right) && y != successor;
    }
  }

  /**
   * removeFromBST: descends by comparison; at the matching node promotes the
   * left subtree if the right is empty, the right if the left is empty, and
   * otherwise puts the smallest label of the right subtree at the root.
   */
  method RemoveFromBst(t: Tree<int>, x: int) returns (r: Tree<int>)
    ensures x !in Labels(t) ==> r == t
    ensures IsBst(t) ==> IsBst(r) && Labels(r) == Labels(t) - {x}
    ensures IsBst(t) && x in Labels(t) ==> Size1(r) == Size1(t) - 1
    decreases t
  {
    if t.Empty? {
      return t;
    }
    var root, left, right := t.root, t.left, t.right;
    if x > root {
      var newRight := RemoveFromBst(right, x);
      r := Node(root, left, newRight);
      if IsBst(t) {
        RemovedOnRight(root, left, right, newRight, x);
      }
    } else if x < root {
      var newLeft := RemoveFromBst(left, x);
      r := Node(root, newLeft, right);
      if IsBst(t) {
        RemovedOnLeft(root, left, right, newLeft, x);
      }
    } else if right.Empty? {
      r := left;
    } else if left.Empty? {
      r := right;
    } else {
      var newRight, successor := RemoveSmallest(right);
      r := Node(successor, left, newRight);
      if IsBst(t) {
        LabelsInOrder(right);
        SuccessorAtRoot(root, left, right, newRight, successor);
      }
    }
  }
}

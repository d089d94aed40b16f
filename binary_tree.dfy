/*
 * Queries over binary trees: prefix string, copy, size (recursive and by
 * iteration), heap ordering, and the two label searches. A tree is a value;
 * the source borrows a tree with disassemble and gives it back with
 * assemble, so every query leaves its tree unchanged and is a function here.
 */
module BinaryTrees {

  datatype Tree<T> = Empty | Node(root: T, left: Tree<T>, right: Tree<T>)

  /** The labels in the order the tree's iterator yields them (in order). */
  function InOrder<T>(t: Tree<T>): seq<T>
  {
    match t
    case Empty => []
    case Node(r, left, right) => InOrder(left) + [r] + InOrder(right)
  }

  /** The set of labels of t. */
  ghost function Labels<T>(t: Tree<T>): set<T>
  {
    match t
    case Empty => {}
    case Node(r, left, right) => {r} + Labels(left) + Labels(right)
  }

  /** Every subtree of t, t included. */
  ghost function Subtrees(t: Tree<int>): set<Tree<int>>
  {
    match t
    case Empty => {t}
    case Node(_, left, right) => {t} + Subtrees(left) + Subtrees(right)
  }

  lemma {:induction false} LabelsInOrder<T>(t: Tree<T>)
    ensures forall x :: x in Labels(t) <==> x in InOrder(t)
  {
    match t
    case Empty =>
    case Node(_, left, right) =>
      LabelsInOrder(left);
      LabelsInOrder(right);
  }

  // ---------------------------------------------------------------------------
  // size1
  // ---------------------------------------------------------------------------

  /** size1: 1 + size1(left) + size1(right); it is the number of labels iterated. */
  function Size1<T>(t: Tree<T>): (n: nat)
    ensures n == |InOrder(t)|
  {
    match t
    case Empty => 0
    case Node(_, left, right) => 1 + Size1(left) + Size1(right)
  }

  // ---------------------------------------------------------------------------
  // treeToString and copy
  // ---------------------------------------------------------------------------

  /**
   * treeToString: "()" for the empty tree, otherwise the root's string, then
   * the two subtrees' strings inside one pair of parentheses.
   */
  function TreeToString<T>(t: Tree<T>, show: T -> string): (s: string)
    ensures t.Empty? ==> s == "()"
    ensures |s| >= 2 && s[|s| - 1] == ')'
  {
    match t
    case Empty => "()"
    case Node(r, left, right) => show(r) + "(" + TreeToString(left, show) + TreeToString(right, show) + ")"
  }

  /** The number of occurrences of c in s. */
  function Occurrences(s: string, c: char): nat
  {
    if |s| == 0 then 0 else (if s[0] == c then 1 else 0) + Occurrences(s[1..], c)
  }

  lemma {:induction false} OccurrencesConcat(a: string, b: string, c: char)
    ensures Occurrences(a + b, c) == Occurrences(a, c) + Occurrences(b, c)
    decreases |a|
  {
    if |a| == 0 {
      assert a + b == b;
    } else {
      assert (a + b)[1..] == a[1..] + b;
      OccurrencesConcat(a[1..], b, c);
    }
  }

  /**
   * When no label prints a parenthesis, the string holds one "(" and one ")"
   * per node and per empty subtree: 2 * |t| + 1 of each, so they balance.
   */
  lemma {:induction false} ParenthesesCount<T>(t: Tree<T>, show: T -> string)
    requires forall x :: x in Labels(t) ==> Occurrences(show(x), '(') == 0 && Occurrences(show(x), ')') == 0
    ensures Occurrences(TreeToString(t, show), '(') == 2 * Size1(t) + 1
    ensures Occurrences(TreeToString(t, show), ')') == 2 * Size1(t) + 1
  {
    match t
    case Empty =>
      assert "()"[1..] == ")";
      assert ")"[1..] == "";
    case Node(r, left, right) =>
      ParenthesesCount(left, show);
      ParenthesesCount(right, show);
      var sl, sr := TreeToString(left, show), TreeToString(right, show);
      assert Occurrences("(", '(') == 1 && Occurrences("(", ')') == 0;
      assert Occurrences(")", '(') == 0 && Occurrences(")", ')') == 1;
      forall c | c == '(' || c == ')'
        ensures Occurrences(TreeToString(t, show), c)
             == Occurrences(show(r), c) + Occurrences("(", c) + Occurrences(sl, c) + Occurrences(sr, c) + Occurrences(")", c)
      {
        OccurrencesConcat(show(r), "(", c);
        OccurrencesConcat(show(r) + "(", sl, c);
        OccurrencesConcat(show(r) + "(" + sl, sr, c);
        OccurrencesConcat(show(r) + "(" + sl + sr, ")", c);
      }
  }

  /** copy: rebuilds t node by node; the copy equals t. */
  function Copy(t: Tree<int>): (c: Tree<int>)
    ensures c == t
  {
    match t
    case Empty => Empty
    case Node(r, left, right) => Node(r, Copy(left), Copy(right))
  }

  // ---------------------------------------------------------------------------
  // size2
  // ---------------------------------------------------------------------------

  /** size2: counts the labels the iterator yields. */
  method Size2<T>(t: Tree<T>) returns (n: nat)
    ensures n == Size1(t)
  {
    n := 0;
    var labels := InOrder(t);
    for i := 0 to |labels|
      invariant n == i
    {
      n := n + 1;
    }
  }

  // ---------------------------------------------------------------------------
  // satisfiesHeapOrdering
  // ---------------------------------------------------------------------------

  /** The root of a nonempty tree is at most the roots of its nonempty children. */
  ghost predicate AtMostChildren(t: Tree<int>)
  {
    t.Node? ==>
      (t.left.Node? ==> t.root <= t.left.root) && (t.right.Node? ==> t.root <= t.right.root)
  }

  /** The heap ordering property: every node is at most each of its children. */
  ghost predicate HeapOrdered(t: Tree<int>)
  {
    forall s :: s in Subtrees(t) ==> AtMostChildren(s)
  }

  lemma HeapOrderedNode(t: Tree<int>)
    requires t.Node?
    ensures HeapOrdered(t) <==> AtMostChildren(t) && HeapOrdered(t.left) && HeapOrdered(t.right)
  {
  }

  /**
   * satisfiesHeapOrdering: false as soon as the root exceeds a nonempty
   * child's root, otherwise the conjunction over both subtrees.
   */
  function SatisfiesHeapOrdering(t: Tree<int>): (r: bool)
    ensures r <==> HeapOrdered(t)
  {
    match t
    case Empty => true
    case Node(root, left, right) =>
      HeapOrderedNode(t);
      var okHere := !(left.Node? && root > left.root) && !(right.Node? && root > right.root);
      if okHere then SatisfiesHeapOrdering(left) && SatisfiesHeapOrdering(right) else false
  }

  /** In a heap-ordered tree the root is at most every label. */
  lemma {:induction false} HeapRootIsLeast(t: Tree<int>)
    requires HeapOrdered(t) && t.Node?
    ensures forall x :: x in Labels(t) ==> t.root <= x
  {
    HeapOrderedNode(t);
    if t.left.Node? {
      HeapRootIsLeast(t.left);
    }
    if t.right.Node? {
      HeapRootIsLeast(t.right);
    }
  }

  // ---------------------------------------------------------------------------
  // isGreaterThan and isInTree over any binary tree
  // ---------------------------------------------------------------------------

  /** isGreaterThan: false at the first label x does not exceed, true for the empty tree. */
  function IsGreaterThan(x: int, t: Tree<int>): (r: bool)
    ensures r <==> forall y :: y in Labels(t) ==> x > y
  {
    match t
    case Empty => true
    case Node(root, left, right) =>
      if x <= root then
        assert root in Labels(t);
        false
      else
        assert forall y :: y in Labels(t) <==> y == root || y in Labels(left) || y in Labels(right);
        IsGreaterThan(x, left) && IsGreaterThan(x, right)
  }

  /** isInTree: true if the root equals x, otherwise a search of both subtrees. */
  function IsInTree<T(==)>(t: Tree<T>, x: T): (found: bool)
    ensures found <==> x in Labels(t)
  {
    match t
    case Empty => false
    case Node(root, left, right) =>
      if root == x then true else IsInTree(left, x) || IsInTree(right, x)
  }
}

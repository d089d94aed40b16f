/*
 * Queries over general trees, whose nodes have any number of ordered
 * subtrees: size (by recursion and by iteration), height, the largest label
 * and the prefix string. Each recursive query loops over the subtrees of the
 * root and accumulates; the tree is borrowed and given back unchanged, so it
 * is a value here.
 */
module GeneralTrees {
  import opened BinaryTrees

  datatype GTree<T> = GEmpty | GNode(root: T, children: seq<GTree<T>>)

  // ---------------------------------------------------------------------------
  // The mathematical tree: labels in pre-order, height, prefix string
  // ---------------------------------------------------------------------------

  /** The labels in the order the tree's iterator yields them (pre-order). */
  function PreOrder<T>(t: GTree<T>): seq<T>
    decreases t, 1
  {
    match t
    case GEmpty => []
    case GNode(r, children) => [r] + ChildrenPreOrder(t, |children|)
  }

  /** The pre-order labels of the first i subtrees of t's root, one subtree after the other. */
  function ChildrenPreOrder<T>(t: GTree<T>, i: nat): seq<T>
    requires t.GNode? && i <= |t.children|
    decreases t, 0, i
  {
    if i == 0 then [] else ChildrenPreOrder(t, i - 1) + PreOrder(t.children[i - 1])
  }

  /** ht(t): 0 for the empty tree, otherwise 1 + the largest subtree height. */
  function Height<T>(t: GTree<T>): nat
    decreases t, 1
  {
    match t
    case GEmpty => 0
    case GNode(_, children) => 1 + ChildrenHeight(t, |children|)
  }

  /** The largest height among the first i subtrees of t's root, 0 if there are none. */
  function ChildrenHeight<T>(t: GTree<T>, i: nat): nat
    requires t.GNode? && i <= |t.children|
    decreases t, 0, i
  {
    if i == 0 then 0
    else
      var h := Height(t.children[i - 1]);
      if h > ChildrenHeight(t, i - 1) then h else ChildrenHeight(t, i - 1)
  }

  /** The prefix representation: "()" when empty, otherwise root(subtree strings). */
  function PrefixString<T>(t: GTree<T>, show: T -> string): string
    decreases t, 1
  {
    match t
    case GEmpty => "()"
    case GNode(r, children) => show(r) + "(" + ChildrenString(t, |children|, show) + ")"
  }

  /** The prefix strings of the first i subtrees of t's root, concatenated. */
  function ChildrenString<T>(t: GTree<T>, i: nat, show: T -> string): string
    requires t.GNode? && i <= |t.children|
    decreases t, 0, i
  {
    if i == 0 then "" else ChildrenString(t, i - 1, show) + PrefixString(t.children[i - 1], show)
  }

  /** Every subtree, t included, is nonempty. */
  ghost predicate NoEmptySubtree<T>(t: GTree<T>)
    decreases t
  {
    t.GNode? && forall i :: 0 <= i < |t.children| ==> NoEmptySubtree(t.children[i])
  }

  // ---------------------------------------------------------------------------
  // Facts about the mathematical tree
  // ---------------------------------------------------------------------------

  /** A tree is no taller than it has nodes. */
  lemma {:induction false} HeightAtMostSize<T>(t: GTree<T>)
    ensures Height(t) <= |PreOrder(t)|
    ensures Height(t) == 0 <==> t.GEmpty?
    decreases t, 1
  {
    if t.GNode? {
      ChildrenHeightAtMostSize(t, |t.children|);
    }
  }

  lemma {:induction false} ChildrenHeightAtMostSize<T>(t: GTree<T>, i: nat)
    requires t.GNode? && i <= |t.children|
    ensures ChildrenHeight(t, i) <= |ChildrenPreOrder(t, i)|
    decreases t, 0, i
  {
    if i > 0 {
      ChildrenHeightAtMostSize(t, i - 1);
      HeightAtMostSize(t.children[i - 1]);
    }
  }

  /**
   * When no label's string holds a parenthesis, the prefix string holds as
   * many "(" as ")".
   */
  lemma {:induction false} PrefixStringBalanced<T>(t: GTree<T>, show: T -> string)
    requires forall x :: Occurrences(show(x), '(') == 0 && Occurrences(show(x), ')') == 0
    ensures Occurrences(PrefixString(t, show), '(') == Occurrences(PrefixString(t, show), ')')
    decreases t, 1
  {
    match t
    case GEmpty =>
      assert "()"[1..] == ")";
      assert ")"[1..] == "";
    case GNode(r, children) =>
      var inner := ChildrenString(t, |children|, show);
      ChildrenStringBalanced(t, |children|, show);
      assert Occurrences("(", '(') == 1 && Occurrences("(", ')') == 0;
      assert Occurrences(")", '(') == 0 && Occurrences(")", ')') == 1;
      forall c | c == '(' || c == ')'
        ensures Occurrences(PrefixString(t, show), c)
             == Occurrences(show(r), c) + Occurrences("(", c) + Occurrences(inner, c) + Occurrences(")", c)
      {
        OccurrencesConcat(show(r), "(", c);
        OccurrencesConcat(show(r) + "(", inner, c);
        OccurrencesConcat(show(r) + "(" + inner, ")", c);
      }
  }

  lemma {:induction false} ChildrenStringBalanced<T>(t: GTree<T>, i: nat, show: T -> string)
    requires t.GNode? && i <= |t.children|
    requires forall x :: Occurrences(show(x), '(') == 0 && Occurrences(show(x), ')') == 0
    ensures Occurrences(ChildrenString(t, i, show), '(') == Occurrences(ChildrenString(t, i, show), ')')
    decreases t, 0, i
  {
    if i > 0 {
      ChildrenStringBalanced(t, i - 1, show);
      PrefixStringBalanced(t.children[i - 1], show);
      OccurrencesConcat(ChildrenString(t, i - 1, show), PrefixString(t.children[i - 1], show), '(');
      OccurrencesConcat(ChildrenString(t, i - 1, show), PrefixString(t.children[i - 1], show), ')');
    }
  }

  // ---------------------------------------------------------------------------
  // The queries
  // ---------------------------------------------------------------------------

  /** size: 1 for the root plus the sizes of the subtrees, in order. */
  method Size<T>(t: GTree<T>) returns (size: nat)
    ensures size == |PreOrder(t)|
    decreases t
  {
    if t.GEmpty? {
      size := 0;
    } else {
      var subTree := t.children;
      size := 1;
      for i := 0 to |subTree|
        invariant size == 1 + |ChildrenPreOrder(t, i)|
      {
        var k := Size(subTree[i]);
        size := size + k;
      }
    }
  }

  /** size2: counts the labels the (pre-order) iterator yields. */
  method Size2<T>(t: GTree<T>) returns (size: nat)
    ensures size == |PreOrder(t)|
  {
    size := 0;
    var remaining := PreOrder(t);
    while |remaining| != 0
      invariant size + |remaining| == |PreOrder(t)|
      decreases |remaining|
    {
      remaining := remaining[1..];
      size := size + 1;
    }
  }

  /** height: 1 + the largest subtree height, found by a running maximum. */
  method TreeHeight<T>(t: GTree<T>) returns (ans: nat)
    ensures ans == Height(t)
    decreases t
  {
    if t.GEmpty? {
      ans := 0;
    } else {
      var subTree := t.children;
      var largest := 0;
      for i := 0 to |subTree|
        invariant largest == ChildrenHeight(t, i)
      {
        var temp := TreeHeight(subTree[i]);
        if temp > largest {
          largest := temp;
        }
      }
      ans := 1 + largest;
    }
  }

  /** max: the root, replaced by any larger subtree maximum. */
  method Max(t: GTree<int>) returns (largest: int)
    requires NoEmptySubtree(t)
    ensures largest in PreOrder(t)
    ensures forall x :: x in PreOrder(t) ==> x <= largest
    decreases t
  {
    var subTree := t.children;
    var root := t.root;
    largest := root;
    for i := 0 to |subTree|
      invariant largest in [root] + ChildrenPreOrder(t, i)
      invariant forall x :: x in [root] + ChildrenPreOrder(t, i) ==> x <= largest
    {
      var temp := Max(subTree[i]);
      assert [root] + ChildrenPreOrder(t, i + 1) == [root] + ChildrenPreOrder(t, i) + PreOrder(subTree[i]);
      if temp > largest {
        largest := temp;
      }
    }
  }

  /** treeToString: "()" when empty, otherwise root(the subtree strings in order). */
  method TreeToString<T>(t: GTree<T>, show: T -> string) returns (s: string)
    ensures s == PrefixString(t, show)
    decreases t
  {
    if t.GEmpty? {
      return "()";
    }
    var subTree := t.children;
    var subtrees := "";
    for i := 0 to |subTree|
      invariant subtrees == ChildrenString(t, i, show)
    {
      var sub := TreeToString(subTree[i], show);
      subtrees := subtrees + sub;
    }
    s := show(t.root) + "(" + subtrees + ")";
  }
}

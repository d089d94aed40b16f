/*
 * Depth-first generation of the permutations of 1..n by backtracking. The
 * search keeps n, the array used (slot i tells whether i is on the path;
 * slot 0 is never looked at) and the current path. dfs emits the path when it
 * holds n values; otherwise it tries each unused value in increasing order:
 * marks it, appends it, recurses, then removes it and clears the mark. The
 * printed paths are kept as a ghost log.
 */
module PermutationSearch {

  // ---------------------------------------------------------------------------
  // The paths dfs emits, as a function of n and the current path
  // ---------------------------------------------------------------------------

  /** The completions of path, in the order the search emits them. */
  function Extensions(n: nat, path: seq<int>): seq<seq<int>>
    requires |path| <= n
    decreases n - |path|, n + 2
  {
    if |path| == n then [path] else ExtendUpTo(n, path, n + 1)
  }

  /** The completions of path that continue with a value in 1..i-1 not on the path, value by value. */
  function ExtendUpTo(n: nat, path: seq<int>, i: int): seq<seq<int>>
    requires |path| < n && i <= n + 1
    decreases n - |path|, if i < 0 then 0 else i
  {
    if i <= 1 then []
    else ExtendUpTo(n, path, i - 1) + (if i - 1 in path then [] else Extensions(n, path + [i - 1]))
  }

  /** The values of p are all different and all in 1..n. */
  ghost predicate DistinctInRange(p: seq<int>, n: nat)
  {
    (forall k :: 0 <= k < |p| ==> 1 <= p[k] <= n) &&
    (forall j, k :: 0 <= j < k < |p| ==> p[j] != p[k])
  }

  /** a comes before b in lexicographic order. */
  ghost predicate LexLess(a: seq<int>, b: seq<int>)
  {
    exists k :: 0 <= k < |a| && k < |b| && a[..k] == b[..k] && a[k] < b[k]
  }

  ghost predicate StrictlySorted(ps: seq<seq<int>>)
  {
    forall j, k :: 0 <= j < k < |ps| ==> LexLess(ps[j], ps[k])
  }

  // ---------------------------------------------------------------------------
  // What the emitted paths are
  // ---------------------------------------------------------------------------

  /** Each completion of path has n values, starts with path, and keeps the values distinct and in 1..n. */
  lemma {:induction false} ExtensionsShape(n: nat, path: seq<int>)
    requires |path| <= n && DistinctInRange(path, n)
    ensures forall p :: p in Extensions(n, path) ==>
              |p| == n && p[..|path|] == path && DistinctInRange(p, n)
    decreases n - |path|, n + 2
  {
    if |path| < n {
      ExtendUpToShape(n, path, n + 1);
    }
  }

  lemma {:induction false} ExtendUpToShape(n: nat, path: seq<int>, i: int)
    requires |path| < n && i <= n + 1 && DistinctInRange(path, n)
    ensures forall p :: p in ExtendUpTo(n, path, i) ==>
              |p| == n && p[..|path|] == path && DistinctInRange(p, n) && 1 <= p[|path|] < i
    decreases n - |path|, if i < 0 then 0 else i
  {
    if i > 1 {
      ExtendUpToShape(n, path, i - 1);
      if i - 1 !in path {
        ExtensionsOfLonger(n, path, i - 1);
      }
    }
  }

  /** The completions of path + [v] start with path, then v. */
  lemma {:induction false} ExtensionsOfLonger(n: nat, path: seq<int>, v: int)
    requires |path| < n && DistinctInRange(path, n) && 1 <= v <= n && v !in path
    ensures forall p :: p in Extensions(n, path + [v]) ==>
              |p| == n && p[..|path|] == path && DistinctInRange(p, n) && p[|path|] == v
    decreases n - |path|, 0
  {
    var longer := path + [v];
    assert DistinctInRange(longer, n) by {
      assert forall k :: 0 <= k < |path| ==> longer[k] == path[k];
    }
    ExtensionsShape(n, longer);
    forall p | p in Extensions(n, longer)
      ensures p[..|path|] == path && p[|path|] == v
    {
      assert p[..|longer|] == longer;
      assert p[..|path|] == longer[..|path|];
    }
  }

  /** Distinct values drawn from a finite set are no more than its size. */
  lemma {:induction false} Pigeonhole(p: seq<int>, s: set<int>)
    requires forall k :: 0 <= k < |p| ==> p[k] in s
    requires forall j, k :: 0 <= j < k < |p| ==> p[j] != p[k]
    ensures |p| <= |s|
  {
    if |p| > 0 {
      var rest := s - {p[0]};
      assert s == rest + {p[0]};
      assert forall k :: 0 <= k < |p| - 1 ==> p[1..][k] == p[k + 1];
      Pigeonhole(p[1..], rest);
    }
  }

  /** The values 1..n. */
  function Range(n: nat): (r: set<int>)
    ensures forall v :: v in r <==> 1 <= v <= n
    ensures |r| == n
  {
    if n == 0 then {} else Range(n - 1) + {n}
  }

  /** n distinct values in 1..n are all of 1..n: each emitted path is a permutation of 1..n. */
  lemma AllValuesOccur(p: seq<int>, n: nat)
    requires |p| == n && DistinctInRange(p, n)
    ensures forall v :: 1 <= v <= n ==> v in p
  {
    forall v | 1 <= v <= n
      ensures v in p
    {
      if v !in p {
        var others := Range(n) - {v};
        assert Range(n) == others + {v};
        Pigeonhole(p, others);
        assert false;
      }
    }
  }

  /** Every path the search emits from path is a permutation of 1..n extending path. */
  lemma EmittedArePermutations(n: nat, path: seq<int>)
    requires |path| <= n && DistinctInRange(path, n)
    ensures forall p :: p in Extensions(n, path) ==>
              |p| == n && p[..|path|] == path && DistinctInRange(p, n) && (forall v :: 1 <= v <= n ==> v in p)
  {
    ExtensionsShape(n, path);
    forall p | p in Extensions(n, path)
      ensures forall v :: 1 <= v <= n ==> v in p
    {
      AllValuesOccur(p, n);
    }
  }

  /** Every sequence of n distinct values in 1..n that starts with path is among the completions of path. */
  lemma {:induction false} ExtensionsComplete(n: nat, path: seq<int>, p: seq<int>)
    requires |path| <= n && |p| == n && DistinctInRange(p, n) && p[..|path|] == path
    ensures p in Extensions(n, path)
    decreases n - |path|, n + 2
  {
    if |path| == n {
      assert p == p[..|path|];
    } else {
      ExtendUpToComplete(n, path, p, n + 1);
    }
  }

  lemma {:induction false} ExtendUpToComplete(n: nat, path: seq<int>, p: seq<int>, i: int)
    requires |path| < n && i <= n + 1 && |p| == n && DistinctInRange(p, n) && p[..|path|] == path
    requires p[|path|] < i
    ensures p in ExtendUpTo(n, path, i)
    decreases n - |path|, i
  {
    var v := p[|path|];
    if v == i - 1 {
      assert v !in path by {
        forall k | 0 <= k < |path|
          ensures path[k] != v
        {
          assert path[k] == p[k];
        }
      }
      var longer := path + [v];
      assert p[..|longer|] == longer;
      ExtensionsComplete(n, longer, p);
    } else {
      ExtendUpToComplete(n, path, p, i - 1);
    }
  }

  /**
   * The search from path emits exactly the sequences of n distinct values in
   * 1..n that start with path: from the empty path, exactly the permutations
   * of 1..n.
   */
  lemma EmitsExactly(n: nat, path: seq<int>, p: seq<int>)
    requires |path| <= n && DistinctInRange(path, n)
    ensures p in Extensions(n, path) <==> |p| == n && DistinctInRange(p, n) && p[..|path|] == path
  {
    ExtensionsShape(n, path);
    if |p| == n && DistinctInRange(p, n) && p[..|path|] == path {
      ExtensionsComplete(n, path, p);
    }
  }

  /** Completions that differ at position m, in the order of their values there, are in lexicographic order. */
  lemma LexAtPosition(a: seq<int>, b: seq<int>, m: nat)
    requires m < |a| && m < |b| && a[..m] == b[..m] && a[m] < b[m]
    ensures LexLess(a, b)
  {
  }

  /** The search emits the completions of path in strictly increasing lexicographic order. */
  lemma {:induction false} ExtensionsSorted(n: nat, path: seq<int>)
    requires |path| <= n && DistinctInRange(path, n)
    ensures StrictlySorted(Extensions(n, path))
    decreases n - |path|, n + 2
  {
    if |path| < n {
      ExtendUpToSorted(n, path, n + 1);
    }
  }

  lemma {:induction false} ExtendUpToSorted(n: nat, path: seq<int>, i: int)
    requires |path| < n && i <= n + 1 && DistinctInRange(path, n)
    ensures StrictlySorted(ExtendUpTo(n, path, i))
    decreases n - |path|, if i < 0 then 0 else i
  {
    if i > 1 {
      var v := i - 1;
      var front := ExtendUpTo(n, path, i - 1);
      ExtendUpToSorted(n, path, i - 1);
      if v !in path {
        var longer := path + [v];
        var back := Extensions(n, longer);
        assert DistinctInRange(longer, n) by {
          assert forall k :: 0 <= k < |path| ==> longer[k] == path[k];
        }
        ExtensionsSorted(n, longer);
        ExtendUpToShape(n, path, i - 1);
        ExtensionsShape(n, longer);
        forall x, y | x in front && y in back
          ensures LexLess(x, y)
        {
          assert y[..|longer|] == longer;
          assert y[..|path|] == longer[..|path|];
          LexAtPosition(x, y, |path|);
        }
        ConcatSorted(front, back);
      }
    }
  }

  /** Two sorted runs, all of the first before all of the second, make a sorted run. */
  lemma ConcatSorted(front: seq<seq<int>>, back: seq<seq<int>>)
    requires StrictlySorted(front) && StrictlySorted(back)
    requires forall x, y :: x in front && y in back ==> LexLess(x, y)
    ensures StrictlySorted(front + back)
  {
    var all := front + back;
    forall j, k | 0 <= j < k < |all|
      ensures LexLess(all[j], all[k])
    {
      if k < |front| {
        assert all[j] == front[j] && all[k] == front[k];
      } else if j >= |front| {
        assert all[j] == back[j - |front|] && all[k] == back[k - |front|];
      } else {
        assert all[j] in front && all[k] in back;
      }
    }
  }

  // ---------------------------------------------------------------------------
  // The search
  // ---------------------------------------------------------------------------

  /** The marks in used are exactly the values on the path, which are distinct values in 1..n, at most n of them. */
  ghost predicate Marks(n: nat, used: seq<bool>, path: seq<int>)
  {
    |used| == n + 1 && |path| <= n && DistinctInRange(path, n) &&
    (forall i :: 1 <= i <= n ==> (used[i] <==> i in path))
  }

  /** Marking an unused value and appending it to a path shorter than n keeps the marks right. */
  lemma MarkAndAppend(n: nat, used: seq<bool>, path: seq<int>, v: int)
    requires Marks(n, used, path) && |path| < n && 1 <= v <= n && !used[v]
    ensures Marks(n, used[v := true], path + [v])
  {
    var longer := path + [v];
    assert forall k :: 0 <= k < |path| ==> longer[k] == path[k];
    forall i | 1 <= i <= n
      ensures (used[v := true][i] <==> i in longer)
    {
      assert i in longer <==> i in path || i == v;
    }
  }

  class Search {
    const n: nat
    const used: array<bool>
    var path: seq<int>
    ghost var emitted: seq<seq<int>>

    ghost predicate Valid()
      reads this, used
    {
      Marks(n, used[..], path)
    }

    /** The state main sets up: n, a fresh all-false used of n + 1 slots, an empty path. */
    constructor (n: nat)
      ensures Valid() && this.n == n && path == [] && emitted == []
      ensures fresh(used) && forall i :: 0 <= i < used.Length ==> !used[i]
    {
      this.n := n;
      used := new bool[n + 1](i => false);
      path := [];
      emitted := [];
    }

    /**
     * dfs: emits every completion of the path, in order, and leaves path
     * and used as it found them.
     */
    method Dfs()
      requires Valid()
      modifies this, used
      ensures Valid() && path == old(path) && used[..] == old(used[..])
      ensures emitted == old(emitted) + Extensions(n, path)
      decreases n - |path|, 1
    {
      if |path| == n {
        emitted := emitted + [path];
        return;
      }
      for i := 1 to n + 1
        invariant Valid() && path == old(path) && used[..] == old(used[..])
        invariant emitted == old(emitted) + ExtendUpTo(n, path, i)
      {
        if !used[i] {
          TryValue(i);
        }
        assert ExtendUpTo(n, path, i + 1) == ExtendUpTo(n, path, i) + (if i in path then [] else Extensions(n, path + [i]));
      }
    }

    /** One turn of dfs's loop for an unused value v: mark it, append it, search on, then undo both. */
    method TryValue(v: int)
      requires Valid() && |path| < n && 1 <= v <= n && !used[v]
      modifies this, used
      ensures Valid() && path == old(path) && used[..] == old(used[..])
      ensures emitted == old(emitted) + Extensions(n, path + [v])
      decreases n - |path|, 0
    {
      ghost var path0, used0 := path, used[..];
      MarkAndAppend(n, used0, path0, v);
      used[v] := true;
      path := path + [v];
      assert used[..] == used0[v := true];
      Dfs();
      path := path[..|path| - 1];
      used[v] := false;
      assert used[..] == used0[v := true][v := false] == used0;
    }
  }
}

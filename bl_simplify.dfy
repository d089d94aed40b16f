/*
 * simplifyIfElse: every IF_ELSE whose condition is a negated test
 * (NEXT_IS_NOT_EMPTY, NEXT_IS_NOT_ENEMY, NEXT_IS_NOT_FRIEND, NEXT_IS_NOT_WALL)
 * becomes an IF_ELSE on the positive test with its two branches exchanged;
 * everything else keeps its shape and its conditions.
 */
module BLSimplify {

  import opened Wrappers
  import opened BLStatement

  /** The positive test a negated condition is rewritten to, or None for the other conditions. */
  function PositiveOf(c: Condition): (r: Option<Condition>)
    ensures r.Some? <==> c in {NextIsNotEmpty, NextIsNotEnemy, NextIsNotFriend, NextIsNotWall}
  {
    match c
    case NextIsNotEmpty => Some(NextIsEmpty)
    case NextIsNotEnemy => Some(NextIsEnemy)
    case NextIsNotFriend => Some(NextIsFriend)
    case NextIsNotWall => Some(NextIsWall)
    case _ => None
  }

  /** The statement after simplifyIfElse. */
  function Simplified(s: Statement): (r: Statement)
    ensures s.Block? <==> r.Block?
    ensures s.Block? ==> |r.children| == |s.children|
    ensures s.If? ==> r.If? && r.cond == s.cond
    ensures s.While? ==> r.While? && r.cond == s.cond
    ensures s.IfElse? ==> r.IfElse?
    ensures s.Call? ==> r == s
    decreases s, 1
  {
    match s
    case Block(ch) => Block(SimplifiedChildren(ch))
    case If(c, b) => If(c, Simplified(b))
    case IfElse(c, b1, b2) =>
      (match PositiveOf(c)
       case Some(p) => IfElse(p, Simplified(b2), Simplified(b1))
       case None => IfElse(c, Simplified(b1), Simplified(b2)))
    case While(c, b) => While(c, Simplified(b))
    case Call(_) => s
  }

  /** Each child simplified, in place and in order. */
  function SimplifiedChildren(ch: seq<Statement>): (r: seq<Statement>)
    ensures |r| == |ch|
    decreases ch, 0
  {
    if |ch| == 0 then [] else SimplifiedChildren(ch[..|ch| - 1]) + [Simplified(ch[|ch| - 1])]
  }

  lemma {:induction false} SimplifiedChildAt(ch: seq<Statement>, i: nat)
    requires i < |ch|
    ensures SimplifiedChildren(ch)[i] == Simplified(ch[i])
    decreases |ch|
  {
    if i < |ch| - 1 {
      SimplifiedChildAt(ch[..|ch| - 1], i);
    }
  }

  // ---------------------------------------------------------------------------
  // No negated IF_ELSE is left, and a second pass changes nothing
  // ---------------------------------------------------------------------------

  /** No IF_ELSE anywhere in s tests a negated condition. */
  predicate NoNegatedIfElse(s: Statement)
    decreases s
  {
    match s
    case Block(ch) => forall i :: 0 <= i < |ch| ==> NoNegatedIfElse(ch[i])
    case If(_, b) => NoNegatedIfElse(b)
    case IfElse(c, b1, b2) => PositiveOf(c).None? && NoNegatedIfElse(b1) && NoNegatedIfElse(b2)
    case While(_, b) => NoNegatedIfElse(b)
    case Call(_) => true
  }

  /** Children are simplified before the node itself, so no negated IF_ELSE survives. */
  lemma {:induction false} SimplifiedHasNoNegatedIfElse(s: Statement)
    ensures NoNegatedIfElse(Simplified(s))
    decreases s
  {
    match s
    case Block(ch) =>
      forall i | 0 <= i < |ch|
        ensures NoNegatedIfElse(SimplifiedChildren(ch)[i])
      {
        SimplifiedChildAt(ch, i);
        SimplifiedHasNoNegatedIfElse(ch[i]);
      }
    case If(_, b) => SimplifiedHasNoNegatedIfElse(b);
    case IfElse(_, b1, b2) =>
      SimplifiedHasNoNegatedIfElse(b1);
      SimplifiedHasNoNegatedIfElse(b2);
    case While(_, b) => SimplifiedHasNoNegatedIfElse(b);
    case Call(_) =>
  }

  /** A statement without a negated IF_ELSE is left as it is. */
  lemma {:induction false} SimplifyFixesNonNegated(s: Statement)
    requires NoNegatedIfElse(s)
    ensures Simplified(s) == s
    decreases s
  {
    match s
    case Block(ch) =>
      forall i | 0 <= i < |ch|
        ensures SimplifiedChildren(ch)[i] == ch[i]
      {
        SimplifiedChildAt(ch, i);
        SimplifyFixesNonNegated(ch[i]);
      }
      assert SimplifiedChildren(ch) == ch;
    case If(_, b) => SimplifyFixesNonNegated(b);
    case IfElse(_, b1, b2) =>
      SimplifyFixesNonNegated(b1);
      SimplifyFixesNonNegated(b2);
    case While(_, b) => SimplifyFixesNonNegated(b);
    case Call(_) =>
  }

  /** Applying simplifyIfElse twice gives the same statement as applying it once. */
  lemma SimplifyIdempotent(s: Statement)
    ensures Simplified(Simplified(s)) == Simplified(s)
  {
    SimplifiedHasNoNegatedIfElse(s);
    SimplifyFixesNonNegated(Simplified(s));
  }

  // ---------------------------------------------------------------------------
  // The rewrite keeps the meaning: under any consistent reading of the
  // sensors, every IF_ELSE takes the same branch as before
  // ---------------------------------------------------------------------------

  /** A reading of the tests in which each negated test is the negation of its positive one. */
  predicate Consistent(sense: Condition -> bool)
  {
    && sense(NextIsNotEmpty) == !sense(NextIsEmpty)
    && sense(NextIsNotEnemy) == !sense(NextIsEnemy)
    && sense(NextIsNotFriend) == !sense(NextIsFriend)
    && sense(NextIsNotWall) == !sense(NextIsWall)
  }

  /** s with every IF_ELSE replaced by the branch it takes under the reading. */
  function Resolved(s: Statement, sense: Condition -> bool): Statement
    decreases s, 1
  {
    match s
    case Block(ch) => Block(ResolvedChildren(ch, sense))
    case If(c, b) => If(c, Resolved(b, sense))
    case IfElse(c, b1, b2) => if sense(c) then Resolved(b1, sense) else Resolved(b2, sense)
    case While(c, b) => While(c, Resolved(b, sense))
    case Call(_) => s
  }

  function ResolvedChildren(ch: seq<Statement>, sense: Condition -> bool): (r: seq<Statement>)
    ensures |r| == |ch|
    decreases ch, 0
  {
    if |ch| == 0 then [] else ResolvedChildren(ch[..|ch| - 1], sense) + [Resolved(ch[|ch| - 1], sense)]
  }

  /** The simplified statement takes the same branches as the original one. */
  lemma {:induction false} SimplifyKeepsBranches(s: Statement, sense: Condition -> bool)
    requires Consistent(sense)
    ensures Resolved(Simplified(s), sense) == Resolved(s, sense)
    decreases s, 1
  {
    match s
    case Block(ch) => SimplifyKeepsChildBranches(ch, sense);
    case If(_, b) => SimplifyKeepsBranches(b, sense);
    case IfElse(_, b1, b2) =>
      SimplifyKeepsBranches(b1, sense);
      SimplifyKeepsBranches(b2, sense);
    case While(_, b) => SimplifyKeepsBranches(b, sense);
    case Call(_) =>
  }

  lemma {:induction false} SimplifyKeepsChildBranches(ch: seq<Statement>, sense: Condition -> bool)
    requires Consistent(sense)
    ensures ResolvedChildren(SimplifiedChildren(ch), sense) == ResolvedChildren(ch, sense)
    decreases ch, 0
  {
    if |ch| > 0 {
      var front := ch[..|ch| - 1];
      var simplified := SimplifiedChildren(ch);
      assert simplified[..|simplified| - 1] == SimplifiedChildren(front);
      SimplifyKeepsChildBranches(front, sense);
      SimplifyKeepsBranches(ch[|ch| - 1], sense);
    }
  }

  // ---------------------------------------------------------------------------
  // The method: children first, then the node; block children rewritten in place
  // ---------------------------------------------------------------------------

  /** simplifyIfElse, returning the rewritten statement. */
  method SimplifyIfElse(s: Statement) returns (r: Statement)
    ensures r == Simplified(s)
    decreases s
  {
    match s {
      case Block(ch) =>
        var children := ch;
        for i := 0 to |ch|
          invariant |children| == |ch|
          invariant children[..i] == SimplifiedChildren(ch[..i])
          invariant children[i..] == ch[i..]
        {
          var sub := SimplifyIfElse(children[i]);
          assert children[i] == ch[i] by { assert children[i..][0] == ch[i..][0]; }
          assert ch[..i + 1][..i] == ch[..i];
          children := children[i := sub];
          assert children[..i + 1] == children[..i] + [sub];
        }
        assert ch[..|ch|] == ch;
        r := Block(children);
      case If(c, b) =>
        var body := SimplifyIfElse(b);
        r := If(c, body);
      case IfElse(c, b1, b2) =>
        var thenPart := SimplifyIfElse(b1);
        var elsePart := SimplifyIfElse(b2);
        match c {
          case NextIsNotEmpty => r := IfElse(NextIsEmpty, elsePart, thenPart);
          case NextIsNotEnemy => r := IfElse(NextIsEnemy, elsePart, thenPart);
          case NextIsNotFriend => r := IfElse(NextIsFriend, elsePart, thenPart);
          case NextIsNotWall => r := IfElse(NextIsWall, elsePart, thenPart);
          case _ => r := IfElse(c, thenPart, elsePart);
        }
      case While(c, b) =>
        var body := SimplifyIfElse(b);
        r := While(c, body);
      case Call(_) =>
        r := s;
    }
  }
}

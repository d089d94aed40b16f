/*
 * A waiting line: a queue whose entries are all different. WaitingLine1
 * keeps the line in a sequence, front first. The kernel adds at the back,
 * removes from the front, reports the length, and finds or removes a given
 * entry; the secondary operations (append, pos, insertAtFront, moveToFront,
 * equals, hashCode, toString) are written on top of the kernel.
 */
module WaitingLines {
  import opened Wrappers
  import opened JavaInts
  import opened Folds
  import opened MoveToFront

  /** No entry occurs twice. */
  ghost predicate Distinct<T>(s: seq<T>)
  {
    forall i, j :: 0 <= i < j < |s| ==> s[i] != s[j]
  }

  /** Taking one entry out of a line without repeats leaves a line without repeats, and without that entry. */
  lemma DistinctRemove<T>(s: seq<T>, i: nat)
    requires Distinct(s) && i < |s|
    ensures Distinct(s[..i] + s[i + 1..]) && s[i] !in s[..i] + s[i + 1..]
  {
    var r := s[..i] + s[i + 1..];
    forall j | 0 <= j < |r|
      ensures r[j] == if j < i then s[j] else s[j + 1]
    {
    }
  }

  /** Two lines holding the same entries in any order hash alike. */
  lemma HashIgnoresOrder<T>(a: seq<T>, b: seq<T>, hashOf: T -> int)
    requires multiset(a) == multiset(b)
    ensures Wrap(MinInt + Sum(a, hashOf)) == Wrap(MinInt + Sum(b, hashOf))
  {
    SumPermutation(a, b, hashOf);
  }

  class WaitingLine1<T(==)> {
    var rep: seq<T>

    /** The convention: every customer stands in the line once. */
    ghost predicate Valid()
      reads this
    {
      Distinct(rep)
    }

    /** An empty line. */
    constructor ()
      ensures Valid() && rep == []
    {
      rep := [];
    }

    /** clear: a fresh empty representation. */
    method Clear()
      modifies this
      ensures Valid() && rep == []
    {
      rep := [];
    }

    /** transferFrom: takes b's entries, and b becomes empty. */
    method TransferFrom(b: WaitingLine1<T>)
      requires b != this && b.Valid()
      modifies this, b
      ensures Valid() && b.Valid()
      ensures rep == old(b.rep) && b.rep == []
    {
      rep := b.rep;
      b.rep := [];
    }

    /** front: the entry at the front, which stays in the line. */
    function Front(): (x: T)
      requires |rep| > 0
      reads this
      ensures rep == [x] + rep[1..]
    {
      rep[0]
    }

    /** addToLine: x joins at the back; x must not be in the line already. */
    method AddToLine(x: T)
      requires Valid() && x !in rep
      modifies this
      ensures Valid() && rep == old(rep) + [x]
    {
      rep := rep + [x];
    }

    /** removeFromLine: takes the front entry out of a nonempty line. */
    method RemoveFromLine() returns (x: T)
      requires Valid() && |rep| > 0
      modifies this
      ensures Valid() && old(rep) == [x] + rep && x !in rep
      ensures x == old(rep)[0] && rep == old(rep)[1..]
    {
      x := rep[0];
      DistinctRemove(rep, 0);
      rep := rep[1..];
    }

    /** length: the number of entries. */
    function Length(): (n: nat)
      reads this
      ensures n == |rep|
    {
      |rep|
    }

    /** contains: walks the line and stops at the first entry equal to x. */
    method Contains(x: T) returns (found: bool)
      ensures found <==> x in rep
    {
      for i := 0 to |rep|
        invariant x !in rep[..i]
      {
        if rep[i] == x {
          return true;
        }
        assert rep[..i + 1] == rep[..i] + [rep[i]];
      }
      assert rep[..|rep|] == rep;
      return false;
    }

    /**
     * remove: walks the line counting positions; at the first entry equal to
     * x it removes that position and returns the entry. When x is not in the
     * line nothing changes and the result is None (Java's null).
     */
    method Remove(x: T) returns (r: Option<T>)
      requires Valid()
      modifies this
      ensures Valid() && x !in rep
      ensures x in old(rep) ==>
                r == Some(x) &&
                rep == old(rep)[..FirstIndex(old(rep), x)] + old(rep)[FirstIndex(old(rep), x) + 1..]
      ensures x !in old(rep) ==> r == None && rep == old(rep)
    {
      var i := 0;
      while i < |rep|
        invariant 0 <= i <= |rep| && x !in rep[..i]
      {
        var t := rep[i];
        if t == x {
          FirstIndexUnique(rep, x, i);
          DistinctRemove(rep, i);
          rep := rep[..i] + rep[i + 1..];
          return Some(t);
        }
        assert rep[..i + 1] == rep[..i] + [rep[i]];
        i := i + 1;
      }
      assert rep[..|rep|] == rep;
      return None;
    }

    /** insertAtFront: x is added at position 0; x must not be in the line already. */
    method InsertAtFront(x: T)
      requires Valid() && x !in rep
      modifies this
      ensures Valid() && rep == [x] + old(rep)
    {
      rep := [x] + rep;
    }

    /**
     * The secondary insertAtFront (overridden in WaitingLine1 by the one
     * above): adds x at the back, then rotates all the older entries behind it.
     */
    method RotatingInsertAtFront(x: T)
      requires Valid() && x !in rep
      modifies this
      ensures Valid() && rep == [x] + old(rep)
    {
      ghost var before := rep;
      AddToLine(x);
      Rotate(this, Length() - 1);
      assert (before + [x])[|before|..] == [x];
      assert (before + [x])[..|before|] == before;
    }

    /** append: moves q's entries, front first, to the back of this; q ends empty. */
    method Append(q: WaitingLine1<T>)
      requires q != this && Valid() && q.Valid()
      requires forall i :: 0 <= i < |q.rep| ==> q.rep[i] !in rep
      modifies this, q
      ensures Valid() && q.Valid()
      ensures rep == old(rep) + old(q.rep) && q.rep == []
    {
      while q.Length() > 0
        invariant Valid() && q.Valid()
        invariant rep + q.rep == old(rep) + old(q.rep)
        invariant forall i :: 0 <= i < |q.rep| ==> q.rep[i] !in rep
        decreases |q.rep|
      {
        assert q.rep[0] !in rep;
        var t := q.RemoveFromLine();
        assert forall i :: 0 <= i < |q.rep| ==> q.rep[i] != t && q.rep[i] !in rep;
        AddToLine(t);
      }
      q.Clear();
    }

    /** pos: the position of the first entry equal to x, or 0 when there is none. */
    method Pos(x: T) returns (p: int)
      ensures x in rep ==> 0 <= p < |rep| && rep[p] == x && x !in rep[..p]
      ensures x !in rep ==> p == 0
    {
      var i := 0;
      while i < |rep|
        invariant 0 <= i <= |rep| && x !in rep[..i]
      {
        if rep[i] == x {
          return i;
        }
        assert rep[..i + 1] == rep[..i] + [rep[i]];
        i := i + 1;
      }
      assert rep[..|rep|] == rep;
      return 0;
    }

    /** moveToFront: removes x and inserts it again at the front; x must be in the line. */
    method MoveToFront(x: T)
      requires Valid() && x in rep
      modifies this
      ensures Valid() && rep == MovedToFront(old(rep), x)
    {
      var removed := Remove(x);
      InsertAtFront(removed.value);
    }

    /** equals: the same line object, or the same length and equal entries position by position. */
    method Equals(other: WaitingLine1<T>) returns (same: bool)
      ensures same <==> rep == other.rep
    {
      if other == this {
        return true;
      }
      if |rep| != |other.rep| {
        return false;
      }
      for i := 0 to |rep|
        invariant rep[..i] == other.rep[..i]
      {
        if rep[i] != other.rep[i] {
          return false;
        }
        assert rep[..i + 1] == rep[..i] + [rep[i]];
        assert other.rep[..i + 1] == other.rep[..i] + [other.rep[i]];
      }
      assert rep[..|rep|] == rep && other.rep[..|rep|] == other.rep;
      return true;
    }

    /** hashCode: Integer.MIN_VALUE plus the entries' hash codes, in int arithmetic. */
    method HashCode(hashOf: T -> int) returns (hash: int)
      ensures hash == Wrap(MinInt + Sum(rep, hashOf))
    {
      hash := MinInt;
      for i := 0 to |rep|
        invariant hash == Wrap(MinInt + Sum(rep[..i], hashOf))
      {
        assert rep[..i + 1][..i] == rep[..i];
        WrapAdd(MinInt + Sum(rep[..i], hashOf), hashOf(rep[i]));
        hash := Wrap(hash + hashOf(rep[i]));
      }
      assert rep[..|rep|] == rep;
    }

    /** toString: "<", the entries' strings separated by ", ", then ">". */
    method ToString(show: T -> string) returns (s: string)
      ensures s == "<" + Joined(Shown(rep, show), ", ") + ">"
    {
      s := "<";
      for i := 0 to |rep|
        invariant s == "<" + JoinedSoFar(rep, i, show, ", ")
      {
        JoinedSoFarStep(rep, i, show, ", ");
        s := s + show(rep[i]);
        if i + 1 < |rep| {
          s := s + ", ";
        }
      }
      JoinedSoFarAll(rep, show, ", ");
      s := s + ">";
    }
  }

  /** rotate: n times, the front entry goes to the back. */
  method Rotate<T(==)>(q: WaitingLine1<T>, n: nat)
    requires q.Valid() && n <= |q.rep|
    modifies q
    ensures q.Valid() && q.rep == old(q.rep[n..] + q.rep[..n])
  {
    ghost var r0 := q.rep;
    for i := 0 to n
      invariant q.Valid() && q.rep == r0[i..] + r0[..i] && n <= |r0|
    {
      assert q.rep[0] == r0[i];
      assert r0[i..] == [r0[i]] + r0[i + 1..];
      var t := q.RemoveFromLine();
      assert q.rep == r0[i + 1..] + r0[..i];
      q.AddToLine(t);
      assert r0[..i + 1] == r0[..i] + [r0[i]];
    }
  }
}

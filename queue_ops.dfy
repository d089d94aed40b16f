/*
 * Secondary operations of a queue of entries, each written with the kernel
 * operations alone (frontLine, addLine, removeFrontLine, lengthOfLine):
 * equality, hash code, string form, the position of an entry and the
 * replacement of the entry at a position. The queue is kept front first.
 */
module QueueOps {
  import opened JavaInts
  import opened Folds

  class Line<T(==)> {
    var entries: seq<T>

    constructor ()
      ensures entries == []
    {
      entries := [];
    }

    /** addLine: x joins at the back. */
    method AddLine(x: T)
      modifies this
      ensures entries == old(entries) + [x]
    {
      entries := entries + [x];
    }

    /** removeFrontLine: takes the front entry out of a nonempty queue. */
    method RemoveFrontLine() returns (x: T)
      requires |entries| > 0
      modifies this
      ensures old(entries) == [x] + entries
      ensures x == old(entries)[0] && entries == old(entries)[1..]
    {
      x := entries[0];
      entries := entries[1..];
    }

    /** frontLine: the entry at the front, which stays in the queue. */
    function FrontLine(): (x: T)
      requires |entries| > 0
      reads this
      ensures entries == [x] + entries[1..]
    {
      entries[0]
    }

    function LengthOfLine(): (n: nat)
      reads this
      ensures n == |entries|
    {
      |entries|
    }

    /** equals: the same object, or the same length and equal entries position by position. */
    method Equals(q: Line<T>) returns (same: bool)
      ensures same <==> entries == q.entries
    {
      if q == this {
        return true;
      }
      if LengthOfLine() != q.LengthOfLine() {
        return false;
      }
      for i := 0 to |entries|
        invariant entries[..i] == q.entries[..i]
      {
        if entries[i] != q.entries[i] {
          return false;
        }
        assert entries[..i + 1] == entries[..i] + [entries[i]];
        assert q.entries[..i + 1] == q.entries[..i] + [q.entries[i]];
      }
      assert entries[..|entries|] == entries && q.entries[..|entries|] == q.entries;
      return true;
    }

    /** hashCode: the sum of the entries' hash codes, in int arithmetic. */
    method HashCode(hashOf: T -> int) returns (h: int)
      ensures h == Wrap(Sum(entries, hashOf))
    {
      h := 0;
      for i := 0 to |entries|
        invariant h == Wrap(Sum(entries[..i], hashOf))
      {
        assert entries[..i + 1][..i] == entries[..i];
        WrapAdd(Sum(entries[..i], hashOf), hashOf(entries[i]));
        h := Wrap(h + hashOf(entries[i]));
      }
      assert entries[..|entries|] == entries;
    }

    /** toString: "<", the entries' strings separated by ",", then ">". */
    method ToString(show: T -> string) returns (s: string)
      ensures s == "<" + Joined(Shown(entries, show), ",") + ">"
    {
      s := "<";
      for i := 0 to |entries|
        invariant s == "<" + JoinedSoFar(entries, i, show, ",")
      {
        JoinedSoFarStep(entries, i, show, ",");
        s := s + show(entries[i]);
        if i + 1 < |entries| {
          s := s + ",";
        }
      }
      JoinedSoFarAll(entries, show, ",");
      s := s + ">";
    }

    /**
     * findThePosition: rotates the whole queue once, front to back, noting
     * the index of every entry equal to the one looked for; the last such
     * index wins, and 0 is the answer when there is none. The queue ends as
     * it began.
     */
    method FindThePosition(entry: T) returns (position: int)
      modifies this
      ensures entries == old(entries)
      ensures entry in entries ==>
                0 <= position < |entries| && entries[position] == entry && entry !in entries[position + 1..]
      ensures entry !in entries ==> position == 0
    {
      ghost var q0 := entries;
      var length := LengthOfLine();
      position := 0;
      for i := 0 to length
        invariant entries == q0[i..] + q0[..i]
        invariant entry in q0[..i] ==> 0 <= position < i && q0[position] == entry && entry !in q0[position + 1..i]
        invariant entry !in q0[..i] ==> position == 0
      {
        assert q0[i..] == [q0[i]] + q0[i + 1..];
        assert q0[..i + 1] == q0[..i] + [q0[i]];
        if FrontLine() == entry {
          position := i;
        }
        var x := RemoveFrontLine();
        AddLine(x);
      }
      assert q0[..|q0|] == q0 && q0[|q0|..] == [];
    }

    /**
     * replaceEntry: rotates the whole queue once; at position pos the front
     * entry is taken out and kept, and x goes to the back in its place.
     */
    method ReplaceEntry(pos: int, x: T) returns (removed: T)
      requires 0 <= pos < |entries|
      modifies this
      ensures removed == old(entries)[pos]
      ensures entries == old(entries)[..pos] + [x] + old(entries)[pos + 1..]
    {
      ghost var q0 := entries;
      ghost var updated := q0[..pos] + [x] + q0[pos + 1..];
      // Java starts from null; the front entry stands in until position pos is reached.
      var taken: T := entries[0];
      var length := LengthOfLine();
      for i := 0 to length
        invariant entries == q0[i..] + updated[..i]
        invariant i > pos ==> taken == q0[pos]
      {
        assert q0[i..] == [q0[i]] + q0[i + 1..];
        assert updated[..i + 1] == updated[..i] + [updated[i]];
        if i == pos {
          taken := RemoveFrontLine();
          AddLine(x);
        } else {
          var y := RemoveFrontLine();
          AddLine(y);
        }
      }
      assert updated[..|q0|] == updated;
      removed := taken;
    }
  }

  /** Lines holding the same entries in any order hash alike. */
  lemma HashIgnoresOrder<T>(a: seq<T>, b: seq<T>, hashOf: T -> int)
    requires multiset(a) == multiset(b)
    ensures Wrap(Sum(a, hashOf)) == Wrap(Sum(b, hashOf))
  {
    SumPermutation(a, b, hashOf);
  }
}

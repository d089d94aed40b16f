/*
 * Folds over the entries of a collection that several components share: the
 * sum of a per-entry value (the hash codes of the entries, the codes of a
 * string's characters) and the entries' strings joined by a separator.
 */
module Folds {

  /** The sum of f over the entries of s, front to back. */
  function Sum<T>(s: seq<T>, f: T -> int): int
  {
    if |s| == 0 then 0 else Sum(s[..|s| - 1], f) + f(s[|s| - 1])
  }

  lemma {:induction false} SumConcat<T>(a: seq<T>, b: seq<T>, f: T -> int)
    ensures Sum(a + b, f) == Sum(a, f) + Sum(b, f)
    decreases |b|
  {
    if |b| > 0 {
      SumConcat(a, b[..|b| - 1], f);
      assert (a + b)[..|a + b| - 1] == a + b[..|b| - 1];
    } else {
      assert a + b == a;
    }
  }

  /** The sum does not depend on the order of the entries. */
  lemma {:induction false} SumPermutation<T>(a: seq<T>, b: seq<T>, f: T -> int)
    requires multiset(a) == multiset(b)
    ensures Sum(a, f) == Sum(b, f)
    decreases |a|
  {
    assert |a| == |multiset(a)| == |multiset(b)| == |b|;
    if |a| > 0 {
      var x := a[|a| - 1];
      var front := a[..|a| - 1];
      assert a == front + [x];
      assert x in multiset(b);
      var j :| 0 <= j < |b| && b[j] == x;
      var rest := b[..j] + b[j + 1..];
      assert b == b[..j] + [x] + b[j + 1..];
      assert multiset(front) == multiset(rest) by {
        assert multiset(a) == multiset(front) + multiset{x};
        assert multiset(b) == multiset(rest) + multiset{x};
        forall e
          ensures multiset(front)[e] == multiset(rest)[e]
        {
          assert (multiset(front) + multiset{x})[e] == multiset(front)[e] + multiset{x}[e];
          assert (multiset(rest) + multiset{x})[e] == multiset(rest)[e] + multiset{x}[e];
        }
      }
      SumPermutation(front, rest, f);
      SumConcat(b[..j] + [x], b[j + 1..], f);
      SumConcat(b[..j], [x], f);
      SumConcat(b[..j], b[j + 1..], f);
      assert Sum([x], f) == f(x) by {
        assert [x][..0] == [];
      }
    }
  }

  /** The string of each entry, in order. */
  function Shown<T>(s: seq<T>, show: T -> string): seq<string>
  {
    seq(|s|, i requires 0 <= i < |s| => show(s[i]))
  }

  /** The strings of ss with sep between each two neighbours. */
  function Joined(ss: seq<string>, sep: string): string
  {
    if |ss| == 0 then ""
    else if |ss| == 1 then ss[0]
    else Joined(ss[..|ss| - 1], sep) + sep + ss[|ss| - 1]
  }

  function Length(s: string): int
  {
    |s|
  }

  /** A joined string holds every piece and one separator between each two. */
  lemma {:induction false} JoinedLength(ss: seq<string>, sep: string)
    requires |ss| > 0
    ensures |Joined(ss, sep)| == Sum(ss, Length) + |sep| * (|ss| - 1)
    decreases |ss|
  {
    if |ss| > 1 {
      JoinedLength(ss[..|ss| - 1], sep);
    } else {
      assert ss[..0] == [];
    }
  }

  lemma ShownAppend<T>(s: seq<T>, x: T, show: T -> string)
    ensures Shown(s + [x], show) == Shown(s, show) + [show(x)]
  {
  }

  /** Joining one more piece adds a separator and the piece, unless it is the first. */
  lemma JoinedAppend(ss: seq<string>, x: string, sep: string)
    ensures Joined(ss + [x], sep) == if |ss| == 0 then x else Joined(ss, sep) + sep + x
  {
    assert (ss + [x])[..|ss|] == ss;
  }

  /**
   * What a toString loop has built after the first i entries: their strings
   * joined, and a separator after them when another entry follows.
   */
  function JoinedSoFar<T>(s: seq<T>, i: nat, show: T -> string, sep: string): string
    requires i <= |s|
  {
    Joined(Shown(s[..i], show), sep) + (if 0 < i < |s| then sep else "")
  }

  /** One more loop step appends the next entry's string, then a separator unless it was the last. */
  lemma JoinedSoFarStep<T>(s: seq<T>, i: nat, show: T -> string, sep: string)
    requires i < |s|
    ensures JoinedSoFar(s, i + 1, show, sep) == JoinedSoFar(s, i, show, sep) + show(s[i]) + (if i + 1 < |s| then sep else "")
  {
    assert s[..i + 1] == s[..i] + [s[i]];
    ShownAppend(s[..i], s[i], show);
    JoinedAppend(Shown(s[..i], show), show(s[i]), sep);
    assert |Shown(s[..i], show)| == i;
  }

  /** After the last entry the loop has built the whole joined string. */
  lemma JoinedSoFarAll<T>(s: seq<T>, show: T -> string, sep: string)
    ensures JoinedSoFar(s, |s|, show, sep) == Joined(Shown(s, show), sep)
  {
    assert s[..|s|] == s;
  }
}

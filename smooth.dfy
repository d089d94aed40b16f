/*
 * Smoothing a sequence of ints: the result holds the average of each pair of
 * neighbours, (s1[i] + s1[i+1]) / 2 with Java's truncating division, so it is
 * one entry shorter. smooth builds it with a loop; smooth2 hands an empty
 * result to the recursive smoothMain, which takes the front entry off s1,
 * smooths the rest, prepends the front average and puts the entry back.
 */
module Smoothing {
  import opened JavaInts

  /**
   * The average as the code computes it: var1 + var2 is an int sum, which
   * wraps around past Integer.MAX_VALUE, before the truncating division.
   */
  function AverageAsWritten(a: int, b: int): int
  {
    JavaDiv(Wrap(a + b), 2)
  }

  /** The average the contract asks for, (i + j) / 2 on the exact sum. */
  function Average(a: int, b: int): int
  {
    JavaDiv(a + b, 2)
  }

  /** The exact average of two ints lies between them, so it is an int again; the code agrees with it when the sum does not overflow. */
  lemma AverageBetween(a: int, b: int)
    requires InIntRange(a) && InIntRange(b)
    ensures (if a <= b then a else b) <= Average(a, b) <= (if a <= b then b else a)
    ensures InIntRange(Average(a, b))
    ensures InIntRange(a + b) ==> AverageAsWritten(a, b) == Average(a, b)
  {
    JavaDivRem(a + b, 2);
  }

  /** Two large entries overflow the sum: the code averages MAX_VALUE with itself to -1. */
  lemma AverageOverflows()
    ensures AverageAsWritten(MaxInt, MaxInt) == -1
    ensures Average(MaxInt, MaxInt) == MaxInt
  {
    assert Wrap(MaxInt + MaxInt) == -2;
  }

  /** The smoothed sequence: the average of each pair of neighbours, in order. */
  function Smoothed(s: seq<int>): seq<int>
    requires |s| >= 1
  {
    seq(|s| - 1, i requires 0 <= i < |s| - 1 => Average(s[i], s[i + 1]))
  }

  /**
   * The contract of smooth as stated: wherever s1 = a * <i> * <j> * b, the
   * result is c * <(i+j)/2> * d with |c| = |a|.
   */
  lemma SmoothedSplit(a: seq<int>, i: int, j: int, b: seq<int>)
    ensures |Smoothed(a + [i, j] + b)| == |a + [i, j] + b| - 1
    ensures exists c, d :: |c| == |a| && Smoothed(a + [i, j] + b) == c + [Average(i, j)] + d
  {
    var s := a + [i, j] + b;
    var r := Smoothed(s);
    assert s[|a|] == i && s[|a| + 1] == j;
    assert r == r[..|a|] + [Average(i, j)] + r[|a| + 1..];
  }

  /** Every entry is a Java int. */
  predicate AllInts(s: seq<int>)
  {
    forall i :: 0 <= i < |s| ==> InIntRange(s[i])
  }

  /** No two neighbours add up past the int range. */
  predicate NeighbourSumsFit(s: seq<int>)
  {
    forall i :: 0 <= i < |s| - 1 ==> InIntRange(s[i] + s[i + 1])
  }

  /** The sequence the code builds: each pair of neighbours averaged through their int sum. */
  function SmoothedAsWritten(s: seq<int>): seq<int>
    requires |s| >= 1
  {
    seq(|s| - 1, i requires 0 <= i < |s| - 1 => AverageAsWritten(s[i], s[i + 1]))
  }

  /** For two ints, the code's average is the exact one exactly when their sum is an int. */
  lemma AverageAsWrittenIff(a: int, b: int)
    requires InIntRange(a) && InIntRange(b)
    ensures AverageAsWritten(a, b) == Average(a, b) <==> InIntRange(a + b)
  {
    AverageBetween(a, b);
    if a + b > MaxInt {
      assert (a + b - MinInt) % Modulus == a + b - MinInt - Modulus;
      assert AverageAsWritten(a, b) <= 0 < Average(a, b);
    } else if a + b < MinInt {
      assert (a + b - MinInt) % Modulus == a + b - MinInt + Modulus;
      assert AverageAsWritten(a, b) >= 0 > Average(a, b);
    }
  }

  /**
   * The code smooths a sequence of ints as documented exactly when no two
   * neighbours overflow their sum.
   */
  lemma SmoothedAsWrittenIff(s: seq<int>)
    requires |s| >= 1 && AllInts(s)
    ensures SmoothedAsWritten(s) == Smoothed(s) <==> NeighbourSumsFit(s)
  {
    if NeighbourSumsFit(s) {
      SmoothedAsWrittenAgrees(s);
    } else {
      var i :| 0 <= i < |s| - 1 && !InIntRange(s[i] + s[i + 1]);
      SmoothedAsWrittenDiffers(s, i);
    }
  }

  lemma SmoothedAsWrittenAgrees(s: seq<int>)
    requires |s| >= 1 && AllInts(s) && NeighbourSumsFit(s)
    ensures SmoothedAsWritten(s) == Smoothed(s)
  {
    forall i | 0 <= i < |s| - 1
      ensures SmoothedAsWritten(s)[i] == Smoothed(s)[i]
    {
      AverageAsWrittenIff(s[i], s[i + 1]);
    }
  }

  lemma SmoothedAsWrittenDiffers(s: seq<int>, i: int)
    requires |s| >= 1 && AllInts(s) && 0 <= i < |s| - 1 && !InIntRange(s[i] + s[i + 1])
    ensures SmoothedAsWritten(s) != Smoothed(s)
  {
    AverageAsWrittenIff(s[i], s[i + 1]);
    assert SmoothedAsWritten(s)[i] != Smoothed(s)[i];
  }

  /** Smoothing a sequence of two or more is the front average followed by the smoothed tail. */
  lemma SmoothedCons(s: seq<int>)
    requires |s| > 1
    ensures Smoothed(s) == [Average(s[0], s[1])] + Smoothed(s[1..])
  {
  }

  /** smooth: adds the average of entries count and count + 1 at the back, for each count in order. */
  method Smooth(s1: seq<int>) returns (result: seq<int>)
    requires |s1| >= 1
    ensures |result| == |s1| - 1
    ensures forall i :: 0 <= i < |result| ==> result[i] == Average(s1[i], s1[i + 1])
  {
    result := [];
    var count := 0;
    while count < |s1| - 1
      invariant 0 <= count <= |s1| - 1 && |result| == count
      invariant forall i :: 0 <= i < count ==> result[i] == Average(s1[i], s1[i + 1])
    {
      var var1 := s1[count];
      var var2 := s1[count + 1];
      var avg := Average(var1, var2);
      result := result[..count] + [avg] + result[count..];
      count := count + 1;
    }
  }

  /** The Sequence component's operations that smoothMain uses, on a sequence of ints. */
  class IntSequence {
    var entries: seq<int>

    constructor ()
      ensures entries == []
    {
      entries := [];
    }

    method Add(pos: int, x: int)
      requires 0 <= pos <= |entries|
      modifies this
      ensures entries == old(entries)[..pos] + [x] + old(entries)[pos..]
    {
      entries := entries[..pos] + [x] + entries[pos..];
    }

    method Remove(pos: int) returns (x: int)
      requires 0 <= pos < |entries|
      modifies this
      ensures x == old(entries)[pos] && entries == old(entries)[..pos] + old(entries)[pos + 1..]
    {
      x := entries[pos];
      entries := entries[..pos] + entries[pos + 1..];
    }

    function Entry(pos: int): (x: int)
      requires 0 <= pos < |entries|
      reads this
      ensures x in entries
    {
      entries[pos]
    }

    function Length(): (n: nat)
      reads this
      ensures n == |entries|
    {
      |entries|
    }
  }

  /**
   * smoothMain: puts the smoothed s1 in front of what result holds, and
   * leaves s1 as it found it.
   */
  method SmoothMain(s1: IntSequence, result: IntSequence)
    requires s1 != result && |s1.entries| >= 1
    modifies s1, result
    ensures s1.entries == old(s1.entries)
    ensures result.entries == Smoothed(old(s1.entries)) + old(result.entries)
    decreases |s1.entries|
  {
    if s1.Length() > 1 {
      ghost var s, r0 := s1.entries, result.entries;
      var var1 := s1.Remove(0);
      var var2 := s1.Entry(0);
      assert s1.entries == s[1..] && var1 == s[0] && var2 == s[1];
      SmoothMain(s1, result);
      assert result.entries == Smoothed(s[1..]) + r0;
      result.Add(0, Average(var1, var2));
      assert result.entries == [Average(s[0], s[1])] + Smoothed(s[1..]) + r0;
      s1.Add(0, var1);
      assert s1.entries == [s[0]] + s[1..];
      SmoothedCons(s);
    }
  }

  /** smooth2: a fresh result filled by smoothMain; the same sequence smooth returns. */
  method Smooth2(s1: IntSequence) returns (result: IntSequence)
    requires |s1.entries| >= 1
    modifies s1
    ensures fresh(result) && s1.entries == old(s1.entries)
    ensures |result.entries| == |s1.entries| - 1
    ensures forall i :: 0 <= i < |result.entries| ==> result.entries[i] == Average(s1.entries[i], s1.entries[i + 1])
  {
    result := new IntSequence();
    SmoothMain(s1, result);
  }
}

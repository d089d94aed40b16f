/*
 * A natural number kept as a sequence of decimal digits, least significant
 * first: digits[0] is the ones digit. The convention: the sequence is
 * nonempty, holds only 0..9, and its last (most significant) digit is 0 only
 * when the sequence is exactly <0>.
 */
module NaturalNumbers {

  /** The value of a digit sequence, least significant digit first. */
  function Value(digits: seq<int>): int
  {
    if |digits| == 0 then 0 else digits[0] + 10 * Value(digits[1..])
  }

  ghost predicate AllDigits(digits: seq<int>)
  {
    forall i :: 0 <= i < |digits| ==> 0 <= digits[i] < 10
  }

  /** The representation convention. */
  ghost predicate Canonical(digits: seq<int>)
  {
    |digits| > 0 && AllDigits(digits) && (digits == [0] || digits[|digits| - 1] != 0)
  }

  /** Digits whose most significant one is not 0 have a positive value; more than one digit means at least 10. */
  lemma {:induction false} ValueOfLeadingNonzero(digits: seq<int>)
    requires |digits| > 0 && AllDigits(digits) && digits[|digits| - 1] != 0
    ensures Value(digits) > 0
    ensures |digits| > 1 ==> Value(digits) >= 10
  {
    if |digits| > 1 {
      ValueOfLeadingNonzero(digits[1..]);
    }
  }

  lemma {:induction false} ValueNonnegative(digits: seq<int>)
    requires AllDigits(digits)
    ensures Value(digits) >= 0
  {
    if |digits| > 0 {
      ValueNonnegative(digits[1..]);
    }
  }

  /** The convention makes the representation unique: equal values mean equal digits. */
  lemma {:induction false} CanonicalUnique(a: seq<int>, b: seq<int>)
    requires Canonical(a) && Canonical(b) && Value(a) == Value(b)
    ensures a == b
  {
    ValueNonnegative(a[1..]);
    ValueNonnegative(b[1..]);
    if |a| > 1 {
      ValueOfLeadingNonzero(a);
    }
    if |b| > 1 {
      ValueOfLeadingNonzero(b);
    }
    if |a| > 1 && |b| > 1 {
      assert a[0] == Value(a) % 10 && b[0] == Value(b) % 10;
      assert Value(a[1..]) == Value(b[1..]);
      assert Canonical(a[1..]) by {
        ValueOfLeadingNonzero(a[1..]);
      }
      assert Canonical(b[1..]) by {
        ValueOfLeadingNonzero(b[1..]);
      }
      CanonicalUnique(a[1..], b[1..]);
      assert a == [a[0]] + a[1..] && b == [b[0]] + b[1..];
    }
  }

  /** Splitting off the ones digit is division and remainder by 10. */
  lemma DivModTen(d: int, rest: int)
    requires 0 <= d < 10
    ensures (d + 10 * rest) % 10 == d && (d + 10 * rest) / 10 == rest
  {
    var n := d + 10 * rest;
    var q, r := n / 10, n % 10;
    assert n == 10 * q + r && 0 <= r < 10;
    assert 10 * (q - rest) == d - r;
  }

  class NaturalNumber21 {
    var digits: seq<int>

    ghost predicate Valid()
      reads this
    {
      Canonical(digits)
    }

    /** The number this object represents. */
    ghost function Val(): int
      reads this
    {
      Value(digits)
    }

    /** multiplyBy10: a lone <0> is cleared, then k becomes the new ones digit. */
    method MultiplyBy10(k: int)
      requires Valid() && 0 <= k < 10
      modifies this
      ensures Valid() && Val() == 10 * old(Val()) + k
    {
      ghost var before := digits;
      if |digits| == 1 && digits[0] == 0 {
        digits := [];
      }
      digits := [k] + digits;
      assert digits[1..] == before || (before == [0] && digits == [k]);
      if before == [0] {
        assert Value(before) == 0 by {
          assert before[1..] == [];
        }
        assert Value(digits) == k by {
          assert digits[1..] == [];
        }
      }
    }

    /** divideBy10: removes and returns the ones digit; a lone digit leaves <0>. */
    method DivideBy10() returns (ans: int)
      requires Valid()
      modifies this
      ensures Valid() && ans == old(Val()) % 10 && Val() == old(Val()) / 10
    {
      ValueNonnegative(digits[1..]);
      DivModTen(digits[0], Value(digits[1..]));
      if |digits| > 1 {
        ValueOfLeadingNonzero(digits[1..]);
      }
      if |digits| == 1 {
        assert Value([0]) == 0 by {
          assert [0][1..] == [];
        }
        ans := digits[0];
        digits := [0];
      } else {
        ans := digits[0];
        digits := digits[1..];
      }
    }

    /** isZero: the digits are exactly <0>. */
    function IsZero(): (r: bool)
      requires Valid()
      reads this
      ensures r <==> Val() == 0
    {
      if |digits| > 1 || digits[0] != 0 then
        ValueOfLeadingNonzero(digits);
        false
      else
        assert digits == [0] && digits[1..] == [];
        assert Value(digits) == 0 + 10 * Value([]);
        true
    }
  }
}

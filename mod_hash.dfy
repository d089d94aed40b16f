/*
 * Two integer helpers of the hash-table map: a modulus whose result is never
 * negative, built on Java's truncating %, and the hash of a string as the
 * sum of its character codes in 32-bit int arithmetic.
 */
module ModAndHash {
  import opened JavaInts
  import opened Folds

  /**
   * mod: Java's a % b, plus b when that is negative, which is the remainder
   * of floored (Euclidean) division.
   */
  function Mod(a: int, b: int): (r: int)
    requires b > 0
    ensures 0 <= r < b
    ensures r == a % b
  {
    JavaDivRem(a, b);
    EuclideanUnique(a, b, if JavaRem(a, b) < 0 then JavaDiv(a, b) - 1 else JavaDiv(a, b),
      if JavaRem(a, b) < 0 then JavaRem(a, b) + b else JavaRem(a, b));
    var ans := JavaRem(a, b);
    if ans < 0 then ans + b else ans
  }

  /** The remainder in [0, b) of a = k * b + r is the Euclidean one. */
  lemma EuclideanUnique(a: int, b: int, k: int, r: int)
    requires b > 0 && a == k * b + r && 0 <= r < b
    ensures r == a % b && k == a / b
  {
    var q, m := a / b, a % b;
    var d := k - q;
    assert d * b == m - r by {
      assert a == q * b + m;
      assert k * b - q * b == d * b;
    }
    if d >= 1 {
      MulAtLeast(d, b);
    } else if d <= -1 {
      MulAtLeast(-d, b);
    }
  }

  lemma MulAtLeast(d: int, b: int)
    requires d >= 1 && b > 0
    ensures d * b >= b
  {
    assert (d - 1) * b >= 0;
    assert d * b == (d - 1) * b + b;
  }

  /** The code of a character, the value Java adds when it widens a char to int. */
  function Code(c: char): int
  {
    c as int
  }

  /** hashCode: adds each character's code to an int, front to back. */
  method HashCode(s: string) returns (ans: int)
    ensures ans == Wrap(Sum(s, Code))
  {
    ans := 0;
    for i := 0 to |s|
      invariant ans == Wrap(Sum(s[..i], Code))
    {
      var c := s[i];
      assert s[..i + 1][..i] == s[..i];
      WrapAdd(Sum(s[..i], Code), c as int);
      ans := Wrap(ans + c as int);
    }
    assert s[..|s|] == s;
  }

  /** Rearranging the characters keeps the hash: anagrams collide. */
  lemma AnagramsHashAlike(a: string, b: string)
    requires multiset(a) == multiset(b)
    ensures Wrap(Sum(a, Code)) == Wrap(Sum(b, Code))
  {
    SumPermutation(a, b, Code);
  }
}

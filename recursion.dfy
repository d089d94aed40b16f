/*
 * Three recursive functions: factorial and Fibonacci numbers, both computed
 * in Java's int arithmetic, and the reversal of a string.
 */
module Recursion {
  import opened JavaInts

  /** n! on the integers. */
  function MathFactorial(n: nat): nat
  {
    if n == 0 then 1 else n * MathFactorial(n - 1)
  }

  /** factorial: 1 at 0, otherwise n * factorial(n - 1) as an int product; the recursion ends only for n >= 0. */
  function Factorial(n: int): int
    requires n >= 0
  {
    if n == 0 then 1 else Wrap(n * Factorial(n - 1))
  }

  /** n! is at least 1 and does not decrease. */
  lemma {:induction false} FactorialGrows(n: nat)
    ensures MathFactorial(n) >= 1
    ensures n >= 1 ==> MathFactorial(n - 1) <= MathFactorial(n)
  {
    if n >= 1 {
      FactorialGrows(n - 1);
      var f := MathFactorial(n - 1);
      assert MathFactorial(n) == f + (n - 1) * f;
    }
  }

  /**
   * The argument of the k-th nested call that factorial(n) or fib(n) makes
   * through its n - 1, an int subtraction.
   */
  function NestedArgument(n: int, k: nat): int
  {
    if k == 0 then n else Wrap(NestedArgument(n, k - 1) - 1)
  }

  lemma {:induction false} NestedArgumentWraps(n: int, k: nat)
    requires InIntRange(n)
    ensures NestedArgument(n, k) == Wrap(n - k)
  {
    if k > 0 {
      NestedArgumentWraps(n, k - 1);
      WrapAdd(n - (k - 1), -1);
    }
  }

  /**
   * As written, a negative n does not reach a base case until n - 1 has
   * wrapped around past Integer.MIN_VALUE: the first n + 2^32 nested calls,
   * at least 2^31 of them, get an argument other than 0, and all but the
   * last of them one other than 1.
   */
  lemma NegativeArgumentRecursesDeep(n: int)
    requires MinInt <= n < 0
    ensures forall k: nat :: k < n + Modulus ==> NestedArgument(n, k) != 0
    ensures forall k: nat :: k < n + Modulus - 1 ==> NestedArgument(n, k) != 1
    ensures NestedArgument(n, n + Modulus) == 0
  {
    forall k: nat | k < n + Modulus
      ensures NestedArgument(n, k) == if n - k >= MinInt then n - k else n - k + Modulus
    {
      NestedArgumentWraps(n, k);
      var x := n - k;
      if x - MinInt >= 0 {
        assert (x - MinInt) % Modulus == x - MinInt;
      } else {
        assert (x - MinInt) % Modulus == x - MinInt + Modulus;
      }
    }
    NestedArgumentWraps(n, n + Modulus);
    assert (-Modulus - MinInt) % Modulus == -MinInt;
  }

  /** factorial(n) is n! as long as n! fits in an int. */
  lemma {:induction false} FactorialExact(n: nat)
    requires InIntRange(MathFactorial(n))
    ensures Factorial(n) == MathFactorial(n)
  {
    if n > 0 {
      FactorialGrows(n);
      FactorialExact(n - 1);
    }
  }

  /** The Fibonacci numbers on the integers. */
  function MathFib(n: nat): nat
  {
    if n == 0 then 0 else if n == 1 then 1 else MathFib(n - 1) + MathFib(n - 2)
  }

  /** fib: 0, 1, then the sum of the two before as an int sum; the recursion ends only for n >= 0. */
  function Fib(n: int): int
    requires n >= 0
  {
    if n == 0 then 0 else if n == 1 then 1 else Wrap(Fib(n - 1) + Fib(n - 2))
  }

  /** fib(n) is the n-th Fibonacci number as long as that fits in an int. */
  lemma {:induction false} FibExact(n: nat)
    requires InIntRange(MathFib(n))
    ensures Fib(n) == MathFib(n)
  {
    if n > 1 {
      FibExact(n - 1);
      FibExact(n - 2);
    }
  }

  /** reverse: a string of length at most 1 is its own reversal; otherwise the reversed tail, then the head. */
  function Reverse(s: string): string
  {
    if |s| <= 1 then s else Reverse(s[1..]) + [s[0]]
  }

  /** The reversal has the same length, and reads s from the back. */
  lemma {:induction false} ReverseIndex(s: string)
    ensures |Reverse(s)| == |s|
    ensures forall i :: 0 <= i < |s| ==> Reverse(s)[i] == s[|s| - 1 - i]
    decreases |s|
  {
    if |s| > 1 {
      ReverseIndex(s[1..]);
    }
  }

  /** Reversing twice gives back the string. */
  lemma ReverseInvolution(s: string)
    ensures Reverse(Reverse(s)) == s
  {
    ReverseIndex(s);
    ReverseIndex(Reverse(s));
  }

  /** The values the unit tests check. */
  lemma FactorialTested()
    ensures Factorial(5) == 120 && Factorial(7) == 5040
  {
    FactorialExact(5);
    FactorialExact(7);
  }

  lemma FibTested()
    ensures Fib(15) == 610
  {
    FibExact(15);
  }

  lemma ReverseTested()
    ensures Reverse("hello") == "olleh"
  {
  }
}

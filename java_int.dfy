/*
 * Java's int arithmetic on mathematical integers: the 32-bit two's
 * complement wrap-around of + on int, and the division and remainder that
 * truncate toward zero (Dafny's / and % are Euclidean).
 */
module JavaInts {

  const Modulus: int := 0x1_0000_0000
  const MinInt: int := -0x8000_0000
  const MaxInt: int := 0x7fff_ffff

  predicate InIntRange(x: int)
  {
    MinInt <= x <= MaxInt
  }

  /** The int that x wraps to: x reduced into [MinInt, MaxInt] modulo 2^32. */
  function Wrap(x: int): (r: int)
    ensures InIntRange(r)
    ensures InIntRange(x) ==> r == x
  {
    (x - MinInt) % Modulus + MinInt
  }

  /** Wrapping ignores multiples of 2^32. */
  lemma WrapShift(x: int, k: int)
    ensures Wrap(x + Modulus * k) == Wrap(x)
  {
    var z := x - MinInt;
    var q, r := z / Modulus, z % Modulus;
    var q', r' := (z + Modulus * k) / Modulus, (z + Modulus * k) % Modulus;
    assert z == Modulus * q + r && 0 <= r < Modulus;
    assert z + Modulus * k == Modulus * q' + r' && 0 <= r' < Modulus;
    assert Modulus * (q + k - q') == r' - r;
  }

  /** Adding to a wrapped sum wraps like adding to the exact sum. */
  lemma WrapAdd(x: int, c: int)
    ensures Wrap(Wrap(x) + c) == Wrap(x + c)
  {
    var k := (x - MinInt) / Modulus;
    assert Wrap(x) == x - Modulus * k;
    WrapShift(x + c, -k);
  }

  /** Java's a / b: the quotient truncated toward zero. */
  function JavaDiv(a: int, b: int): int
    requires b != 0
  {
    if (a >= 0) == (b > 0) then Abs(a) / Abs(b) else -(Abs(a) / Abs(b))
  }

  /** Java's a % b: the remainder of the truncated quotient; its sign follows a. */
  function JavaRem(a: int, b: int): int
    requires b != 0
  {
    if a >= 0 then Abs(a) % Abs(b) else -(Abs(a) % Abs(b))
  }

  function Abs(x: int): nat
  {
    if x < 0 then -x else x
  }

  /** Truncated quotient and remainder recompose the dividend, and the remainder is smaller than the divisor. */
  lemma JavaDivRem(a: int, b: int)
    requires b != 0
    ensures a == b * JavaDiv(a, b) + JavaRem(a, b)
    ensures Abs(JavaRem(a, b)) < Abs(b)
    ensures JavaRem(a, b) != 0 ==> (JavaRem(a, b) < 0 <==> a < 0)
  {
    var q, r := Abs(a) / Abs(b), Abs(a) % Abs(b);
    assert Abs(a) == Abs(b) * q + r;
  }
}

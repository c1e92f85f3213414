/**
 * The C++ arithmetic the extractor relies on, written out over Dafny's
 * unbounded integers: the range of a 32-bit `int`, integer division that
 * truncates toward zero, and the `(int)` cast of a floating-point value.
 */
module CppArith {

  const IntMin: int := -0x8000_0000
  const IntMax: int := 0x7fff_ffff

  /** True when `x` is representable as a 32-bit signed `int`. */
  predicate InInt(x: int) {
    IntMin <= x <= IntMax
  }

  function Abs(x: int): nat {
    if x < 0 then -x else x
  }

  /**
   * C++ `a / b` on `int`: the quotient is truncated toward zero, so the
   * remainder `a - q * b` is smaller than `b` in magnitude and is either
   * zero or carries the sign of `a`. (Dafny's own `/` is Euclidean.)
   */
  function TruncDiv(a: int, b: int): (q: int)
    requires b != 0
    ensures Abs(a - q * b) < Abs(b)
    ensures a - q * b == 0 || (a - q * b < 0 <==> a < 0)
  {
    var m := Abs(a) / Abs(b);
    var rem := Abs(a) % Abs(b);
    assert Abs(a) == m * Abs(b) + rem;
    if (a < 0) == (b < 0) then
      assert a - m * b == if a < 0 then -rem else rem;
      m
    else
      assert a - (-m) * b == if a < 0 then -rem else rem;
      -m
  }

  /** On a non-negative dividend and a positive divisor both divisions agree. */
  lemma TruncDivNonNegative(a: int, b: int)
    requires 0 <= a && 0 < b
    ensures TruncDiv(a, b) == a / b
  {
  }

  /**
   * A negative dividend smaller in magnitude than the divisor gives 0 under
   * truncation (where Euclidean division would give -1): for the divisor 4,
   * the quotient is negative exactly when the dividend is at most -4.
   */
  lemma TruncDivByFour(a: int)
    ensures TruncDiv(a, 4) < 0 <==> a <= -4
    ensures 0 <= a ==> TruncDiv(a, 4) == a / 4
  {
  }

  /**
   * The C++ conversion `(int) v` of a floating-point value (read here as an
   * exact real): the fractional part is discarded, rounding toward zero.
   */
  function TruncToInt(v: real): (i: int)
    ensures 0.0 <= v ==> 0 <= i && i as real <= v < i as real + 1.0
    ensures v < 0.0 ==> i <= 0 && i as real - 1.0 < v <= i as real
  {
    if 0.0 <= v then v.Floor else -((-v).Floor)
  }
}

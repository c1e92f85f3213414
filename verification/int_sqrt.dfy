/**
 * Integer readings of the square roots taken on integers in the dense
 * sampling computation. Each `double` there is the square root of an
 * integer, or a ceiling or rounding of one, so each is captured exactly
 * by the least integer meeting a squared inequality:
 *   ceil(sqrt(k))        is the least c with c*c >= k,
 *   ceil(sqrt(k) / 2)    is the least s with 4*s*s >= k,
 *   int(sqrt(q) + 0.5)   is the least r with 4*q < (2*r+1)*(2*r+1).
 * Each function is defined by a search upward from its lower bound and is
 * characterised by its `ensures`; the `...Unique` lemmas say that the
 * characterisation determines the value.
 */
module IntSqrt {

  lemma SquareMonotone(a: int, b: int)
    requires 0 <= a <= b
    ensures a * a <= b * b
  {
    assert a * a <= a * b;
  }

  lemma SquareLess(a: int, b: int)
    requires 0 <= a && 0 <= b && a * a < b * b
    ensures a < b
  {
    if b <= a {
      SquareMonotone(b, a);
    }
  }

  /** `ceil(sqrt(k))`: the least natural number whose square reaches `k`. */
  function CeilSqrt(k: int): (c: nat)
    ensures c * c >= k
    ensures c == 0 || (c - 1) * (c - 1) < k
    ensures c == 0 <==> k <= 0
  {
    if k <= 0 then 0 else CeilSqrtFrom(k, 1)
  }

  function CeilSqrtFrom(k: int, c: nat): (r: nat)
    requires 1 <= c && (c - 1) * (c - 1) < k
    ensures c <= r && r * r >= k && (r - 1) * (r - 1) < k
    decreases k - c
  {
    if c * c >= k then c
    else
      SquareMonotone(1, c);
      CeilSqrtFrom(k, c + 1)
  }

  lemma CeilSqrtUnique(k: int, c: nat)
    requires c * c >= k
    requires c == 0 || (c - 1) * (c - 1) < k
    ensures CeilSqrt(k) == c
  {
    var r := CeilSqrt(k);
    if r < c {
      SquareMonotone(r, c - 1);
    } else if c < r {
      SquareMonotone(c, r - 1);
    }
  }

  /** `ceil(sqrt(k) / 2)`: the least natural number `s` with `(2*s)^2 >= k`. */
  function HalfCeilSqrt(k: int): (s: nat)
    ensures 4 * s * s >= k
    ensures s == 0 || 4 * (s - 1) * (s - 1) < k
    ensures s == 0 <==> k <= 0
  {
    if k <= 0 then 0 else HalfCeilSqrtFrom(k, 1)
  }

  function HalfCeilSqrtFrom(k: int, s: nat): (r: nat)
    requires 1 <= s && 4 * (s - 1) * (s - 1) < k
    ensures s <= r && 4 * r * r >= k && 4 * (r - 1) * (r - 1) < k
    decreases k - s
  {
    if 4 * s * s >= k then s
    else
      SquareMonotone(1, s);
      HalfCeilSqrtFrom(k, s + 1)
  }

  lemma HalfCeilSqrtUnique(k: int, s: nat)
    requires 4 * s * s >= k
    requires s == 0 || 4 * (s - 1) * (s - 1) < k
    ensures HalfCeilSqrt(k) == s
  {
    var r := HalfCeilSqrt(k);
    if r < s {
      SquareMonotone(r, s - 1);
    } else if s < r {
      SquareMonotone(s, r - 1);
    }
  }

  /**
   * `int(sqrt(q) + 0.5)`: `sqrt(q)` rounded to the nearest integer. It is 0
   * exactly when `q` is 0; otherwise `r - 1/2 <= sqrt(q) < r + 1/2`, that is
   * `(2r-1)^2 <= 4q < (2r+1)^2` (a tie cannot occur: `4q` is even).
   */
  function RoundSqrt(q: nat): (r: nat)
    ensures 4 * q < (2 * r + 1) * (2 * r + 1)
    ensures r == 0 || (2 * r - 1) * (2 * r - 1) <= 4 * q
    ensures r == 0 <==> q == 0
  {
    if q == 0 then 0 else RoundSqrtFrom(q, 1)
  }

  function RoundSqrtFrom(q: nat, r: nat): (t: nat)
    requires 1 <= r && (2 * r - 1) * (2 * r - 1) <= 4 * q
    ensures r <= t && 4 * q < (2 * t + 1) * (2 * t + 1)
    ensures (2 * t - 1) * (2 * t - 1) <= 4 * q
    decreases 4 * q - r
  {
    if 4 * q < (2 * r + 1) * (2 * r + 1) then r
    else
      SquareMonotone(1, 2 * r + 1);
      RoundSqrtFrom(q, r + 1)
  }

  lemma RoundSqrtUnique(q: nat, r: nat)
    requires 4 * q < (2 * r + 1) * (2 * r + 1)
    requires r == 0 || (2 * r - 1) * (2 * r - 1) <= 4 * q
    ensures RoundSqrt(q) == r
  {
    var t := RoundSqrt(q);
    if t < r {
      SquareMonotone(2 * t + 1, 2 * r - 1);
    } else if r < t {
      SquareMonotone(2 * r + 1, 2 * t - 1);
    }
  }
}

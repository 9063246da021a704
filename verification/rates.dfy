/**
  Conversion rates. A rate is a percentage with one decimal place, held as an
  integer count of tenths of a percent (`400` is 40.0%).
 */
module Rates {
  import opened Basics

  /** One hundred percent, in tenths. */
  const Full: nat := 1000

  /**
    `n / d` rounded to the nearest integer, a half going up: PostgreSQL's
    `ROUND(x, 1)` on a non-negative numeric rounds half away from zero.
   */
  function RoundHalfUp(n: nat, d: nat): (r: nat)
    requires d > 0
    ensures 2 * n - d < 2 * d * r <= 2 * n + d
  {
    (2 * n + d) / (2 * d)
  }

  /**
    `n / d` rounded to the nearest integer, a half going to the even
    neighbour: numpy's `rint`, which pandas' `round` uses.
   */
  function RoundHalfEven(n: nat, d: nat): (r: nat)
    requires d > 0
    ensures 2 * n - d <= 2 * d * r <= 2 * n + d
    ensures 2 * d * r == 2 * n - d || 2 * d * r == 2 * n + d ==> r % 2 == 0
  {
    var q := n / d;
    var m := n % d;
    if 2 * m < d then q
    else if 2 * m > d then q + 1
    else if q % 2 == 0 then q
    else q + 1
  }

  /**
    A percentage rate as the query computes it: NULL when the
    denominator is zero, otherwise `100 * num / den` rounded to tenths.
   */
  function Rate(num: nat, den: nat): (r: Option<nat>)
    ensures r.None? <==> den == 0
    ensures r.Some? ==> 2 * Full * num - den < 2 * den * r.value <= 2 * Full * num + den
  {
    if den == 0 then None else Some(RoundHalfUp(Full * num, den))
  }

  /** At most one integer lies within half a unit of `n / d`, when halves go up. */
  lemma {:induction false} NearestUnique(n: nat, d: nat, r: int, s: int)
    requires d > 0
    requires 2 * n - d < 2 * d * r <= 2 * n + d
    requires 2 * n - d < 2 * d * s <= 2 * n + d
    ensures r == s
  {
    MulAwayFromZero(2 * d, r - s);
    assert 2 * d * (r - s) == 2 * d * r - 2 * d * s;
  }

  lemma MulAwayFromZero(k: nat, a: int)
    ensures a >= 1 ==> k * a >= k
    ensures a <= -1 ==> k * a + k <= 0
  {
    if a >= 1 {
      MulMono(k, 1, a);
    } else if a <= -1 {
      MulMono(k, a, -1);
    }
  }

  lemma MulMono(k: nat, a: int, b: int)
    requires a <= b
    ensures k * a <= k * b
  {
    assert k * b - k * a == k * (b - a);
  }

  /** A rate whose numerator does not exceed its denominator is at most 100.0%. */
  lemma {:induction false} RateAtMostFull(num: nat, den: nat)
    requires 0 < den && num <= den
    ensures Rate(num, den).Some? && Rate(num, den).value <= Full
  {
    var r := Rate(num, den).value;
    assert 2 * Full * num <= 2 * Full * den by { MulMono(2 * Full, num, den); }
    if r > Full {
      assert 2 * den * r >= 2 * den * (Full + 1) by { MulMono(2 * den, Full + 1, r); }
    }
  }

  /** When the ratio is exact in tenths the rate is that exact value. */
  lemma {:induction false} RateExact(num: nat, den: nat, q: nat)
    requires 0 < den && Full * num == q * den
    ensures Rate(num, den) == Some(q)
  {
    NearestUnique(Full * num, den, Rate(num, den).value, q);
  }

  /** Away from an exact half the two rounding rules agree. */
  lemma {:induction false} HalfEvenAgreesOffTies(n: nat, d: nat)
    requires d > 0
    requires 2 * (n % d) != d
    ensures RoundHalfEven(n, d) == RoundHalfUp(n, d)
  {
    var e := RoundHalfEven(n, d);
    var q := n / d;
    var m := n % d;
    assert n == d * q + m;
    assert 2 * d * e != 2 * n - d;
    NearestUnique(n, d, e, RoundHalfUp(n, d));
  }

  /** At an exact half they can differ: 1000 / 16 = 62.5. */
  lemma HalfEvenDiffersAtTie()
    ensures RoundHalfUp(1000, 16) == 63
    ensures RoundHalfEven(1000, 16) == 62
  {
  }
}

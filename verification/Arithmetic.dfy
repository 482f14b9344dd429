/** Division with remainder by a divisor that is not a constant. */
module Arithmetic {
  // A non-zero multiple is at least one divisor away from zero.
  lemma MultipleIsFar(n: int, k: int)
    requires n > 0
    ensures k >= 1 ==> n * k >= n
    ensures k <= -1 ==> n * k <= -n
  {
  }

  /** Quotient and remainder are unique. */
  lemma DivisionIs(x: int, n: int, q: int, t: int)
    requires n > 0 && x == n * q + t && 0 <= t < n
    ensures x / n == q && x % n == t
  {
    var k := x / n - q;
    assert n * k == t - x % n;
    MultipleIsFar(n, k);
  }
}

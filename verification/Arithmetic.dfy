/** Division by a variable: the quotient and remainder of a sum. */
module Arithmetic {

  /** Quotient and remainder are the only way to write `x` as `q * k + r` with `0 <= r < k`. */
  lemma Quotient(x: int, k: int, q: int, r: int)
    requires 0 <= r < k && x == q * k + r
    ensures x / k == q && x % k == r
  {
    var d := x / k - q;
    Distributes(x / k, q, k);
    assert d * k == r - x % k;
    SmallMultiple(d, k);
  }

  lemma Distributes(a: int, b: int, k: int)
    ensures (a - b) * k == a * k - b * k
  {
  }

  lemma SmallMultiple(d: int, k: int)
    requires -k < d * k < k
    ensures d == 0
  {
    assert d >= 1 ==> d * k >= k;
    assert d <= -1 ==> d * k <= -k;
  }
}

/** Remainders of products. */
module Arithmetic {

  lemma MulAtLeast(k: int, n: int)
    requires k >= 1 && n >= 0
    ensures k * n >= n
  {
  }

  lemma RemainderIs(q: int, r: int, n: int)
    requires 0 <= r < n
    ensures (q * n + r) % n == r
  {
    var x := q * n + r;
    var p := x / n;
    assert x == p * n + x % n;
    if p < q {
      assert (q - p) * n >= n by { MulAtLeast(q - p, n); }
    } else if q < p {
      assert (p - q) * n >= n by { MulAtLeast(p - q, n); }
    }
  }
}

/** Division with remainder, for products of variables. */
module Arithmetic {

  lemma {:induction false} Apart(a: int, b: int, n: nat)
    requires a < b
    ensures a * n + n <= b * n
    decreases b - a
  {
    assert b * n == (b - 1) * n + n;
    if a < b - 1 { Apart(a, b - 1, n); }
  }

  /** Quotient and remainder are unique. */
  lemma DivMod(z: int, q: int, r: int, n: nat)
    requires 0 <= r < n && z == q * n + r
    ensures z / n == q && z % n == r
  {
    var d := z / n;
    assert z == d * n + z % n;
    if d < q {
      Apart(d, q, n);
    } else if q < d {
      Apart(q, d, n);
    }
  }
}

/** Products and quotients of variables, one step at a time. */
module Arithmetic {
  lemma MulLe(k: nat, a: nat, b: nat)
    requires a <= b
    ensures k * a <= k * b
  {
  }

  lemma MulNext(k: nat, a: nat)
    ensures k * (a + 1) == k * a + k
  {
  }

  /** Quotient and remainder are what they were put together from. */
  lemma DivModOf(q: nat, r: nat, n: nat)
    requires r < n
    ensures (n * q + r) / n == q && (n * q + r) % n == r
  {
    var x := n * q + r;
    var k, m := x / n, x % n;
    assert x == n * k + m && m < n;
    MulNext(n, k);
    MulNext(n, q);
    if q < k { MulLe(n, q + 1, k); } else if k < q { MulLe(n, k + 1, q); }
  }
}

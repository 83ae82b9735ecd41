/** Facts about quotients and remainders that Dafny does not find by itself. */
module Arith {

  lemma MulBound(n: int, k: int)
    requires n >= 0
    ensures k >= 1 ==> n * k >= n
    ensures k <= -1 ==> n * k <= -n
  {}

  /** A number n * q + r with r < n has quotient q and remainder r. */
  lemma DivRemainder(x: nat, q: nat, r: nat, n: nat)
    requires r < n && x == n * q + r
    ensures x / n == q && x % n == r
  {
    assert n * (x / n) + x % n == n * q + r;
    assert n * (x / n - q) == r - x % n;
    MulBound(n, x / n - q);
  }

  /** Stepping an index modulo n. */
  lemma NextIndex(k: nat, n: nat)
    requires n > 1
    ensures (k % n + 1) % n == (k + 1) % n
  {
    var q, r := k / n, k % n;
    assert k == n * q + r;
    if r + 1 == n {
      assert n * (q + 1) == n * q + n;
      DivRemainder(k + 1, q + 1, 0, n);
      DivRemainder(r + 1, 1, 0, n);
    } else {
      DivRemainder(k + 1, q, r + 1, n);
      DivRemainder(r + 1, 0, r + 1, n);
    }
  }
}

/** Remainders. */
module Arithmetic {
  lemma ModUnique(x: nat, q: nat, r: nat, m: nat)
    requires m > 0 && x == q * m + r && r < m
    ensures x % m == r
  {
    var d: int := x / m - q;
    assert d > 0 ==> d * m >= m;
    assert d < 0 ==> d * m + m <= 0;
    assert x == (x / m) * m + x % m;
    assert (x / m - q) * m == (x / m) * m - q * m;
    assert d * m == r - x % m;
  }

  /** An index less than twice around. */
  lemma ModSmall(x: nat, n: nat)
    requires n > 0 && x < 2 * n
    ensures x % n == if x < n then x else x - n
  {
    if x < n {
      ModUnique(x, 0, x, n);
    } else {
      ModUnique(x, 1, x - n, n);
    }
  }
}

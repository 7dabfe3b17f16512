/** Quotients and remainders. */
module Arithmetic {

  lemma ModUnique(v: int, m: nat, a: int, r: int)
    requires m > 0 && v == m * a + r && 0 <= r < m
    ensures v % m == r
  {
    var q, s := v / m, v % m;
    assert m * (q - a) == m * q - m * a;
    assert m * (q - a) == r - s && m * (a - q) == s - r;
    if q > a {
      MulAtLeast(m, q - a);
    } else if q < a {
      MulAtLeast(m, a - q);
    }
  }

  lemma MulAtLeast(m: nat, d: nat)
    requires d > 0
    ensures m * d >= m
  {
  }
}

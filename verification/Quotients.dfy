/**
 Integer division by its defining property.
 */
module Quotients {

  lemma QuotientIsUnique(x: int, m: int, q: int, r: int)
    requires m > 0 && 0 <= r < m && x == m * q + r
    ensures x / m == q && x % m == r
  {
    var d := x / m - q;
    assert m * d == r - x % m;
    assert d >= 1 ==> m * d >= m;
    assert d <= -1 ==> m * d <= -m;
  }

  lemma QuotientIff(x: int, m: int, q: int, r: int)
    requires m > 0 && x == m * q + r
    ensures x / m == q <==> 0 <= r < m
  {
    if 0 <= r < m {
      QuotientIsUnique(x, m, q, r);
    }
  }
}

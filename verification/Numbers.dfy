/** Small facts about natural numbers shared by the models. */
module Numbers {

  function Min(a: nat, b: nat): nat {
    if a < b then a else b
  }

  function BitNat(b: bool): nat {
    if b then 1 else 0
  }

  /** Quotient and remainder are unique. */
  lemma QuotientIs(a: nat, m: nat, q: int, r: int)
    requires m > 0 && a == m * q + r && 0 <= r < m
    ensures a / m == q && a % m == r
  {
    var k: int := a / m - q;
    assert m * k == r - a % m by {
      assert m * (a / m) == m * q + m * k;
    }
    assert k >= 1 ==> m * k >= m;
    assert k <= -1 ==> m * k <= 0 - m;
  }
}

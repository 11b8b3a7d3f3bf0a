/** Division facts that the solver does not find on its own. */
module Arith {

  const TWO32: nat := 0x1_0000_0000
  const TWO64: nat := 0x1_0000_0000_0000_0000

  lemma MultipleAway(e: int, m: nat)
    ensures e >= 1 ==> m * e >= m
    ensures e <= -1 ==> m * e + m <= 0
  {
    if e >= 1 {
      assert m * e >= m * 1;
    } else if e <= -1 {
      assert m * e <= m * -1;
    }
  }

  /** Quotient and remainder are unique. */
  lemma DivModUnique(x: int, m: nat, q: int, k: nat)
    requires k < m && x == q * m + k
    ensures x / m == q && x % m == k
  {
    var e := x / m - q;
    assert x == m * (x / m) + x % m;
    assert m * e == k - x % m by {
      assert m * (x / m) == m * e + m * q;
    }
    MultipleAway(e, m);
  }

  lemma DivBound(x: nat, a: nat, b: nat)
    requires b > 0 && x < a * b
    ensures x / b < a
  {
    var e := x / b - a;
    assert b * (x / b) == b * e + b * a;
    assert e >= 0 ==> b * e >= 0;
  }

  lemma QuotientNat(x: nat, b: nat)
    requires b > 0
    ensures x / b >= 0
  {
  }

  lemma MulMono(a: nat, b: nat, c: nat)
    requires a <= b
    ensures a * c <= b * c
  {
  }

  function Pow2(k: nat): (r: nat)
    ensures r > 0
  {
    if k == 0 then 1 else 2 * Pow2(k - 1)
  }
}

/** Facts about products and remainders the solver does not find by itself. */
module Arith {
  lemma MulBounds(d: int, m: nat)
    ensures d >= 1 ==> d * m >= m
    ensures d <= 0 ==> d * m <= 0
    ensures d <= -1 ==> d * m + m <= 0
  {
    if d >= 1 {
      assert d * m == (d - 1) * m + m;
    } else if d <= -1 {
      assert d * m + m == (d + 1) * m;
    }
  }

  /** Quotient and remainder are unique. */
  lemma DivUnique(x: int, m: nat, q: int, r: nat)
    requires r < m && x == q * m + r
    ensures x / m == q && x % m == r
  {
    var d := q - x / m;
    assert d * m == q * m - x / m * m;
    MulBounds(d, m);
  }

  lemma ModShift(x: nat, m: nat)
    requires 0 < m <= x
    ensures x % m == (x - m) % m
  {
    var q := x / m;
    assert (q - 1) * m == q * m - m;
    DivUnique(x - m, m, q - 1, x % m);
  }

  /** Two numbers less than m apart have different remainders. */
  lemma ModApart(i: nat, j: nat, m: nat)
    requires i < j < i + m
    ensures i % m != j % m
  {
    var d := j / m - i / m;
    assert d * m == j / m * m - i / m * m;
    MulBounds(d, m);
  }
}

// Facts about integer multiplication and division.
module Arithmetic {

  lemma MulOrder(d: int, a: int, b: int)
    requires d > 0
    ensures a <= b ==> d * a <= d * b
  {
  }

  lemma DivisionBounds(n: nat, d: int)
    requires d > 0
    ensures 0 <= n / d && d * (n / d) <= n < d * (n / d) + d
  {
  }

  lemma OneMore(n: nat, m: int)
    ensures (n + 1) * m == n * m + m
  {
  }

  lemma QuotientIs(n: nat, d: int, q: nat)
    requires d > 0 && d * q <= n < d * q + d
    ensures n / d == q
  {
    var p := n / d;
    DivisionBounds(n, d);
    assert d * (p + 1) == d * p + d && d * (q + 1) == d * q + d;
    MulOrder(d, p + 1, q);
    MulOrder(d, q + 1, p);
  }

  lemma ModShift(n: nat, m: nat)
    requires m > 0
    ensures (n + m) % m == n % m
  {
    var q := n / m;
    DivisionBounds(n, m);
    assert m * (q + 1) == m * q + m;
    QuotientIs(n + m, m, q + 1);
    assert n + m == m * ((n + m) / m) + (n + m) % m;
    assert n == m * q + n % m;
  }

  lemma SmallMod(n: nat, m: nat)
    requires n < m
    ensures n % m == n
  {
  }
}

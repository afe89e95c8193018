/** The little non-linear arithmetic that several modules need. */
module Arithmetic {
  lemma MulMonotone(a: nat, b: nat, m: nat)
    requires a <= b
    ensures a * m <= b * m && m * a <= m * b
  {}

  lemma DivUnique(n: nat, d: nat, q: nat, r: nat)
    requires r < d && n == q * d + r
    ensures n / d == q
  {
    var p := n / d;
    assert n == p * d + n % d;
    if p < q {
      MulMonotone(p + 1, q, d);
    } else if q < p {
      MulMonotone(q + 1, p, d);
    }
  }

  lemma ModUnique(n: nat, d: nat, q: nat, r: nat)
    requires r < d && n == q * d + r
    ensures n % d == r
  {
    DivUnique(n, d, q, r);
    QuotientRest(n, d);
  }

  lemma QuotientRest(n: nat, d: nat)
    requires d > 0
    ensures n == n / d * d + n % d && n % d < d
  {}

  lemma SumTimes(p: nat, q: nat, d: nat)
    ensures (p + q) * d == p * d + q * d
  {}

  lemma ModAdds(a: nat, b: nat, d: nat)
    requires d > 0
    ensures (a % d + b) % d == (a + b) % d
  {
    QuotientRest(a, d);
    QuotientRest(a % d + b, d);
    SumTimes(a / d, (a % d + b) / d, d);
    ModUnique(a + b, d, a / d + (a % d + b) / d, (a % d + b) % d);
  }
}

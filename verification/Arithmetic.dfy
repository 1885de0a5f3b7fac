/** Quotients of natural numbers. */
module Arithmetic {
  lemma TimesGrows(a: nat, b: nat, u: nat)
    requires a < b
    ensures a * u + u <= b * u
  {
    assert b * u == (a + 1) * u + (b - a - 1) * u;
  }

  lemma Quotient(n: nat, q: nat, u: nat)
    requires u > 0 && q * u <= n < q * u + u
    ensures n / u == q && n % u == n - q * u
  {
    var p := n / u;
    assert n == p * u + n % u;
    if p < q {
      TimesGrows(p, q, u);
    } else if q < p {
      TimesGrows(q, p, u);
    }
  }

  lemma Division(n: nat, u: nat)
    requires u > 0
    ensures n / u * u <= n < n / u * u + u && n / u >= 0
  {
    assert n == n / u * u + n % u;
  }

  lemma {:induction false} Regroup(q: nat, w: nat)
    ensures q * (4 * w) == 4 * q * w
  {
  }
}

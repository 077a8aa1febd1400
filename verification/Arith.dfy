/** Division facts with a symbolic divisor, which the solver does not find by itself. */
module Arith {

  lemma MulLe(a: int, x: int, y: int)
    requires 0 <= a && x <= y
    ensures a * x <= a * y
  {
  }

  lemma DivUnique(n: int, d: int, q: int, r: int)
    requires 0 < d && n == d * q + r && 0 <= r < d
    ensures n / d == q && n % d == r
  {
    var p := n / d;
    if p < q {
      MulLe(d, p + 1, q);
    } else if q < p {
      MulLe(d, q + 1, p);
    }
  }

  lemma ModMinus(n: nat, d: nat)
    requires 0 < d <= n
    ensures (n - d) % d == n % d && (n - d) / d == n / d - 1
  {
    assert d * (n / d - 1) == d * (n / d) - d;
    DivUnique(n - d, d, n / d - 1, n % d);
  }

  lemma ModMultiple(d: nat, q: nat)
    requires 0 < d
    ensures (d * q) % d == 0 && (d * q) / d == q
  {
    DivUnique(d * q, d, q, 0);
  }

  lemma ModPlus(a: nat, d: nat)
    requires d > 0
    ensures (a + d) % d == a % d
  {
    ModMinus(a + d, d);
  }

  // Numbers less than d apart are congruent modulo d only when they are equal.
  lemma ModDiffer(a: nat, b: nat, d: nat)
    requires d > 0 && b < a < b + d
    ensures a % d != b % d
  {
    var p, r, k := b / d, b % d, a - b;
    if r + k < d {
      DivUnique(a, d, p, r + k);
    } else {
      assert d * (p + 1) == d * p + d;
      DivUnique(a, d, p + 1, r + k - d);
    }
  }

  // n / d, known to the solver as a natural number with its remainder.
  function Quot(n: nat, d: nat): (q: nat)
    requires d > 0
    ensures d * q <= n < d * q + d
  {
    QuotNat(n, d);
    n / d
  }

  lemma QuotNat(n: nat, d: nat)
    requires d > 0
    ensures n / d >= 0 && d * (n / d) <= n < d * (n / d) + d
  {
    if n / d < 0 {
      MulLe(d, n / d, -1);
    }
  }

  lemma QuotUnique(n: nat, d: nat, q: nat)
    requires d > 0 && d * q <= n < d * q + d
    ensures Quot(n, d) == q
  {
    DivUnique(n, d, q, n - d * q);
  }
}

/** Division by reciprocal multiplication: ProgPow::calculate_fast_mod_data and fast_mod of the DAG
    kernel. Words are the integers they denote; what a type cannot hold is dropped explicitly. */
module FastMod {
  import opened Arith

  const TWO32 := 0x1_0000_0000
  const TWO64 := 0x1_0000_0000_0000_0000

  function Pow2(n: nat): (p: nat)
    ensures p > 0
  {
    if n == 0 then 1 else 2 * Pow2(n - 1)
  }

  // The position of the highest set bit, 31 - clz(n) for a nonzero 32-bit n.
  function Log2(n: nat): (l: nat)
    requires n > 0
    ensures Pow2(l) <= n < 2 * Pow2(l)
  {
    if n == 1 then 0 else 1 + Log2(n / 2)
  }

  function Clz(n: nat): (c: nat)
    requires 0 < n < TWO32
    ensures c <= 31
  {
    LogBound(n);
    31 - Log2(n)
  }

  lemma LogBound(n: nat)
    requires 0 < n < TWO32
    ensures Log2(n) <= 31
  {
    if Log2(n) >= 32 {
      PowMonotone(32, Log2(n));
      Pow31();
    }
  }

  lemma {:induction false} PowMonotone(m: nat, n: nat)
    requires m <= n
    ensures Pow2(m) <= Pow2(n)
  {
    if m < n {
      PowMonotone(m, n - 1);
    }
  }

  lemma Pow31()
    ensures Pow2(31) == 0x8000_0000 && Pow2(32) == TWO32
  {
    assert Pow2(7) == 0x80 && Pow2(8) == 0x100;
    hide Pow2;
    PowSum(8, 7);
    PowSum(8, 8);
    PowSum(16, 15);
    PowSum(16, 16);
  }

  lemma {:induction false} PowSum(m: nat, n: nat)
    ensures Pow2(m + n) == Pow2(m) * Pow2(n)
  {
    if m > 0 {
      PowSum(m - 1, n);
      assert m - 1 + n == m + n - 1;
    }
  }

  // Bitwise and.
  function And(a: nat, b: nat): nat {
    if a == 0 || b == 0 then 0 else 2 * And(a / 2, b / 2) + (if a % 2 == 1 && b % 2 == 1 then 1 else 0)
  }

  lemma {:induction false} AndSelf(a: nat)
    ensures And(a, a) == a
  {
    if a > 0 {
      AndSelf(a / 2);
    }
  }

  /** The test of a single set bit. */
  lemma {:induction false} SingleBit(d: nat)
    requires d > 0
    ensures And(d, d - 1) == 0 <==> d == Pow2(Log2(d))
  {
    if d > 1 {
      if d % 2 == 1 {
        assert (d - 1) / 2 == d / 2;
        AndSelf(d / 2);
      } else {
        assert (d - 1) / 2 == d / 2 - 1;
        SingleBit(d / 2);
      }
    }
  }

  // Only powers of two divide a power of two.
  lemma {:induction false} DividesPower(d: nat, q: nat, n: nat)
    requires d > 0 && d * q == Pow2(n)
    ensures d == Pow2(Log2(d))
    decreases n
  {
    if n == 0 {
      Factor(d, q);
    } else if d % 2 == 0 {
      EvenFactor(d / 2, q, Pow2(n - 1));
      DividesPower(d / 2, q, n - 1);
    } else {
      EvenFactor2(d / 2, q, Pow2(n - 1));
      DividesPower(d, q / 2, n - 1);
    }
  }

  lemma Factor(d: nat, q: nat)
    requires d > 0 && d * q == 1
    ensures d == 1
  {
    assert q != 0;
    MulLe(d, 1, q);
  }

  lemma EvenFactor(e: nat, q: nat, p: nat)
    requires 2 * e * q == 2 * p
    ensures e * q == p
  {
    assert 2 * e * q == 2 * (e * q);
  }

  lemma EvenFactor2(e: nat, q: nat, p: nat)
    requires (2 * e + 1) * q == 2 * p
    ensures (2 * e + 1) * (q / 2) == p
  {
    assert (2 * e + 1) * q == 2 * (e * q) + q;
    var h := q / 2;
    assert q == 2 * h;
    assert (2 * e + 1) * (2 * h) == 2 * ((2 * e + 1) * h);
  }

  // fast_mod; d.x, d.y, d.z and d.w are the reciprocal, the increment, the shift and the divisor.
  function FastRemainder(a: nat, reciprocal: nat, increment: nat, shift: nat, divisor: nat): int
    requires a < TWO32
  {
    var q := (a + increment) * reciprocal % TWO64 / Pow2(shift) % TWO32;
    (a - q * divisor) % TWO32
  }

  // The product fits 64 bits and its high part is the quotient.
  ghost predicate Exact(a: nat, reciprocal: nat, increment: nat, shift: nat, divisor: nat)
    requires divisor > 0
  {
    (a + increment) * reciprocal < TWO64 && (a + increment) * reciprocal / Pow2(shift) == a / divisor
  }

  lemma ExactIsMod(a: nat, reciprocal: nat, increment: nat, shift: nat, divisor: nat)
    requires a < TWO32 && divisor > 0 && Exact(a, reciprocal, increment, shift, divisor)
    ensures FastRemainder(a, reciprocal, increment, shift, divisor) == a % divisor
  {
    hide Pow2;
    DivBound(a, divisor);
    Remainder(a, (a + increment) * reciprocal, Pow2(shift), divisor);
  }

  lemma Remainder(a: nat, product: nat, p: nat, d: nat)
    requires a < TWO32 && product < TWO64 && p > 0 && d > 0 && product / p == a / d
    ensures (a - product % TWO64 / p % TWO32 * d) % TWO32 == a % d
  {
    DivBound(a, d);
    Small(product, TWO64);
    Small(a / d, TWO32);
    Small(a % d, TWO32);
    assert a - a / d * d == a % d;
  }

  lemma Small(n: nat, m: nat)
    requires n < m
    ensures n % m == n
  {
    DivUnique(n, m, 0, n);
  }

  lemma Parts(n: nat, d: nat)
    requires d > 0
    ensures n / d >= 0 && n / d * d <= n < n / d * d + d
    ensures n / d * d == d * (n / d) && (n / d + 1) * d == n / d * d + d
  {
    DivBound(n, d);
    var q := n / d;
    assert q * d == d * q;
  }

  lemma DivBound(a: nat, d: nat)
    requires d > 0
    ensures 0 <= a / d <= a && 0 <= a % d <= a
  {
    var q, r := a / d, a % d;
    assert a == d * q + r;
    if q < 0 { MulLe(d, q, -1); }
    MulLe(q, 1, d);
    MulLe(d, 0, q);
  }

  // Rounded down: the increment makes up for the reciprocal being too small.
  lemma RoundedDown(a: nat, d: nat, l: nat, q: nat, r: nat)
    requires a < TWO32 && q * d + r == TWO32 * Pow2(l) && 0 < r <= Pow2(l) < d
    ensures q < TWO32 && (a + 1) * q / (TWO32 * Pow2(l)) == a / d
  {
    hide Pow2;
    var p := Pow2(l);
    if q >= TWO32 { Product(TWO32, q, p + 1, d); }
    Product(a + 1, TWO32, r, p);
    Product(1, a + 1, 1, r);
    Times(a + 1, q, d, 0 - r, TWO32 * p);
    Floors(a + 1, d, TWO32 * p, q, a, (a + 1) * (0 - r));
  }

  // Rounded up: the reciprocal is too large by less than what would reach the next multiple.
  lemma RoundedUp(a: nat, d: nat, l: nat, q: nat, e: nat)
    requires a < TWO32 && q * d == TWO32 * Pow2(l) + e && 0 < e <= Pow2(l) < d && l <= 31
    ensures q < TWO32 && a * q / (TWO32 * Pow2(l)) == a / d
  {
    PowMonotone(l, 31);
    Pow31();
    hide Pow2;
    var p := Pow2(l);
    UpFits(q, d, p, e);
    Product(a, TWO32 - 1, e, p);
    Times(a, q, d, e, TWO32 * p);
    Floors(a, d, TWO32 * p, q, a, a * e);
  }

  lemma UpFits(q: nat, d: nat, p: nat, e: nat)
    requires q * d == TWO32 * p + e && e <= p < d && p < TWO32
    ensures q < TWO32
  {
    if q >= TWO32 { Product(TWO32, q, p + 1, d); }
  }

  lemma Times(x: int, q: int, d: int, e: int, n: int)
    requires q * d == n + e
    ensures x * q * d == x * n + x * e
  {
    assert x * q * d == x * (q * d);
    assert x * (n + e) == x * n + x * e;
  }

  // q approximates n / d so well that the error c in x * q * d stays clear of both neighbours.
  lemma Floors(x: nat, d: nat, n: nat, q: nat, a: nat, c: int)
    requires d > 0 && n > 0 && x * q * d == x * n + c
    requires (x == a + 1 && 0 <= n + c < n) || (x == a && 0 <= c < n)
    ensures x * q / n == a / d
  {
    DivBound(a, d);
    FloorsAt(x, d, n, q, a, c, a / d, a % d);
  }

  lemma FloorsAt(x: nat, d: nat, n: nat, q: nat, a: nat, c: int, k: nat, s: nat)
    requires n > 0 && x * q * d == x * n + c && a == d * k + s && s < d
    requires (x == a + 1 && 0 <= n + c < n) || (x == a && 0 <= c < n)
    ensures x * q / n == k
  {
    var t := s + x - a;
    Expand(x, d, k, t, n);
    Rows(s, n, d);
    Squeezed(x * q * d, k * n * d, t * n, n, n * d, c, x - a);
    Between(n, d, x * q, k);
  }

  lemma Rows(s: nat, n: nat, d: nat)
    requires s < d
    ensures 0 <= s * n && s * n + n <= n * d && (s + 1) * n == s * n + n
  {
    MulLe(n, 0, s);
    MulLe(n, s + 1, d);
  }

  lemma Squeezed(product: int, low: int, tn: int, n: int, nd: int, c: int, up: int)
    requires product == low + tn + c && n > 0
    requires (up == 1 && 0 <= n + c < n && n <= tn <= nd) || (up == 0 && 0 <= c < n && 0 <= tn && tn + n <= nd)
    ensures low <= product < low + nd
  {
  }

  lemma Expand(x: int, d: int, k: int, t: int, n: int)
    requires x == d * k + t
    ensures x * n == k * n * d + t * n
    ensures (k + 1) * n * d == k * n * d + n * d
  {
    assert (d * k + t) * n == d * k * n + t * n;
    assert d * k * n == k * n * d;
    assert (k + 1) * n == k * n + n;
  }

  lemma Product(a: nat, b: nat, c: nat, d: nat)
    requires a <= b && c <= d
    ensures a * c <= b * d
  {
    MulLe(c, a, b);
    MulLe(b, c, d);
  }

  lemma Between(n: nat, d: nat, p: nat, k: nat)
    requires n > 0 && d > 0 && k * n * d <= p * d < (k + 1) * n * d
    ensures p / n == k
  {
    assert k * n <= p by {
      if p < k * n { MulLe(d, p + 1, k * n); }
    }
    assert p < (k + 1) * n by {
      if p >= (k + 1) * n { MulLe(d, (k + 1) * n, p); }
    }
    assert (k + 1) * n == n * k + n;
    DivUnique(p, n, k, p - n * k);
  }

  // The numbers fit their words, no product overflows, and fast_mod is the remainder.
  ghost predicate Works(divisor: nat, reciprocal: nat, increment: nat, shift: nat)
    requires divisor > 0
  {
    && reciprocal < TWO32 && increment <= 1 && shift < 64
    && forall a: nat :: a < TWO32 ==>
      Exact(a, reciprocal, increment, shift, divisor)
      && FastRemainder(a, reciprocal, increment, shift, divisor) == a % divisor
  }

  lemma PowerWorks(divisor: nat, l: nat)
    requires divisor == Pow2(l) && l < 64
    ensures Works(divisor, 1, 0, l)
  {
    hide Pow2, FastRemainder;
    forall a: nat | a < TWO32 ensures Exact(a, 1, 0, l, divisor) && FastRemainder(a, 1, 0, l, divisor) == a % divisor {
      ExactIsMod(a, 1, 0, l, divisor);
    }
  }

  lemma DownWorks(d: nat, l: nat, q: nat, r: nat)
    requires q * d + r == TWO32 * Pow2(l) && 0 < r <= Pow2(l) < d && l <= 31
    ensures Works(d, q, 1, 32 + l)
  {
    hide Pow2, FastRemainder, Exact;
    RoundedDown(0, d, l, q, r);
    forall a: nat | a < TWO32 ensures Exact(a, q, 1, 32 + l, d) && FastRemainder(a, q, 1, 32 + l, d) == a % d {
      DownAt(a, d, l, q, r);
    }
  }

  lemma DownAt(a: nat, d: nat, l: nat, q: nat, r: nat)
    requires a < TWO32 && q * d + r == TWO32 * Pow2(l) && 0 < r <= Pow2(l) < d && l <= 31
    ensures Exact(a, q, 1, 32 + l, d) && FastRemainder(a, q, 1, 32 + l, d) == a % d
  {
    hide Pow2, FastRemainder;
    PowSum(32, l);
    Pow31();
    RoundedDown(a, d, l, q, r);
    Product(a + 1, TWO32, q, TWO32 - 1);
    ExactIsMod(a, q, 1, 32 + l, d);
  }

  lemma UpWorks(d: nat, l: nat, q: nat, e: nat)
    requires q * d == TWO32 * Pow2(l) + e && 0 < e <= Pow2(l) < d && l <= 31
    ensures Works(d, q, 0, 32 + l)
  {
    hide Pow2, FastRemainder, Exact;
    RoundedUp(0, d, l, q, e);
    forall a: nat | a < TWO32 ensures Exact(a, q, 0, 32 + l, d) && FastRemainder(a, q, 0, 32 + l, d) == a % d {
      UpAt(a, d, l, q, e);
    }
  }

  lemma UpAt(a: nat, d: nat, l: nat, q: nat, e: nat)
    requires a < TWO32 && q * d == TWO32 * Pow2(l) + e && 0 < e <= Pow2(l) < d && l <= 31
    ensures Exact(a, q, 0, 32 + l, d) && FastRemainder(a, q, 0, 32 + l, d) == a % d
  {
    hide Pow2, FastRemainder;
    PowSum(32, l);
    Pow31();
    RoundedUp(a, d, l, q, e);
    Product(a, TWO32, q, TWO32 - 1);
    ExactIsMod(a, q, 0, 32 + l, d);
  }

  /** For every nonzero 32-bit divisor the three numbers fit their 32-bit words, and with them fast_mod
      is the remainder for every 32-bit number, its 64-bit product never overflowing. */
  method CalculateFastModData(divisor: nat) returns (reciprocal: nat, increment: nat, shift: nat)
    requires 0 < divisor < TWO32
    ensures Works(divisor, reciprocal, increment, shift)
  {
    hide Pow2, Log2, And, Works;
    SingleBit(divisor);
    LogBound(divisor);
    ghost var l := Log2(divisor);
    if And(divisor, divisor - 1) == 0 {
      reciprocal := 1;
      increment := 0;
      shift := 31 - Clz(divisor);
      PowerWorks(divisor, l);
    } else {
      shift := 63 - Clz(divisor);
      var n := Pow2(shift);
      var q := n / divisor;
      var r := n - q * divisor;
      Parts(n, divisor);
      if r == 0 { DividesPower(divisor, q, shift); }
      PowSum(32, l);
      Pow31();
      if r * 2 < divisor {
        reciprocal := q;
        increment := 1;
        DownWorks(divisor, l, q, r);
      } else {
        reciprocal := q + 1;
        increment := 0;
        UpWorks(divisor, l, q + 1, divisor - r);
      }
    }
  }
}

/** The largest prime not above a bound (libethash/primes.c) and the item counts of an epoch
    (libethash/ethash.cpp). */
module Primes {
  import opened Arith

  ghost predicate Divides(d: nat, n: nat) { exists q: nat :: d * q == n }

  ghost predicate Prime(n: nat) {
    n >= 2 && forall d: nat :: 1 < d < n ==> !Divides(d, n)
  }

  lemma DividesIsMod(d: nat, n: nat)
    requires d > 0
    ensures Divides(d, n) <==> n % d == 0
  {
    if n % d == 0 {
      assert d * (n / d) == n;
      if n / d < 0 { MulLe(d, n / d, -1); }
    }
    if q: nat :| d * q == n {
      ModMultiple(d, q);
    }
  }

  // A proper divisor has a cofactor, and one of the two is at most the square root.
  lemma Cofactor(d: nat, q: nat, n: nat, s: nat)
    requires d * q == n && 1 < d < n && s * s > n && s > 0
    ensures 1 < q < n && (d < s || q < s)
  {
    if q == 0 || q == 1 {
      assert false;
    }
    if q >= n {
      MulLe(d, n, q);
      MulLe(n, 2, d);
    }
    if d >= s && q >= s {
      MulLe(d, s, q);
      MulLe(s, s, d);
    }
  }

  // d divides an odd number only if it is odd.
  lemma OddDivisor(d: nat, q: nat, n: nat)
    requires d * q == n && n % 2 == 1
    ensures d % 2 == 1
  {
    var h := d / 2;
    assert (2 * h) * q == 2 * (h * q);
  }

  // An odd number without an odd divisor from 3 up to its square root is prime.
  lemma NoSmallDivisor(n: nat, s: nat)
    requires n > 2 && n % 2 == 1 && s > 0 && s * s > n
    requires forall d: nat :: 3 <= d < s && d % 2 == 1 ==> n % d != 0
    ensures Prime(n)
  {
    forall d: nat | 1 < d < n ensures !Divides(d, n) {
      if q: nat :| d * q == n {
        Cofactor(d, q, n, s);
        OddDivisor(d, q, n);
        assert q * d == n;
        OddDivisor(q, d, n);
        ModMultiple(d, q);
        ModMultiple(q, d);
        assert false;
      }
    }
  }

  /** is_odd_prime: trial division by odd numbers up to the square root. */
  method IsOddPrime(number: nat) returns (r: bool)
    requires number > 2 && number % 2 == 1
    ensures r <==> Prime(number)
  {
    hide Square, Divided;
    var d := 3;
    while Square(d) <= number
      invariant 3 <= d && d % 2 == 1
      invariant Untried(number, d)
      decreases number - d
    {
      SquareGrows(d);
      if Divided(number, d) {
        DividedIsComposite(number, d);
        return false;
      }
      d := d + 2;
    }
    TriedAll(number, d);
    r := true;
  }

  function Square(d: nat): nat { d * d }

  predicate Divided(n: nat, d: nat)
    requires d > 0
  {
    n % d == 0
  }

  // No odd number from 3 up to d divides n.
  ghost predicate Untried(n: nat, d: nat) { forall k: nat :: 3 <= k < d && k % 2 == 1 ==> !Divided(n, k) }

  lemma TriedAll(n: nat, s: nat)
    requires n > 2 && n % 2 == 1 && s > 0 && Square(s) > n && Untried(n, s)
    ensures Prime(n)
  {
    forall d: nat | 3 <= d < s && d % 2 == 1 ensures n % d != 0 {
      assert !Divided(n, d);
    }
    NoSmallDivisor(n, s);
  }

  lemma DividedIsComposite(n: nat, d: nat)
    requires 1 < d < n && Divided(n, d)
    ensures !Prime(n)
  {
    DividesIsMod(d, n);
  }

  lemma SquareGrows(d: nat)
    requires d >= 3
    ensures Square(d) > d
  {
    MulLe(d, 2, d);
  }

  lemma SmallPrimes()
    ensures Prime(2) && Prime(3) && !Prime(0) && !Prime(1)
  {
    DividesIsMod(2, 3);
  }

  lemma EvenIsComposite(n: nat)
    requires n > 2 && n % 2 == 0
    ensures !Prime(n)
  {
    DividesIsMod(2, n);
  }

  /** ethash_find_largest_prime: the greatest prime not above the bound, and 0 when there is none. */
  method FindLargestPrime(upperBound: int) returns (n: nat)
    ensures upperBound < 2 ==> n == 0
    ensures upperBound >= 2 ==> 2 <= n <= upperBound && Prime(n)
    ensures forall k: nat :: n < k <= upperBound ==> !Prime(k)
  {
    SmallPrimes();
    hide Prime;
    if upperBound < 2 {
      return 0;
    }
    if upperBound == 2 {
      return 2;
    }
    n := upperBound;
    if n % 2 == 0 {
      EvenIsComposite(n);
      n := n - 1;
    }
    var prime := IsOddPrime(n);
    while !prime
      invariant 3 <= n <= upperBound && n % 2 == 1 && (prime <==> Prime(n))
      invariant forall k: nat :: n < k <= upperBound ==> !Prime(k)
      decreases n, prime
    {
      EvenIsComposite(n - 1);
      n := n - 2;
      prime := IsOddPrime(n);
    }
  }

  lemma SomePrime()
    ensures Prime(131)
  {
    NoSmallDivisor(131, 12);
  }

  // No number of those from d up to d + 46, in steps of two, divides n.
  predicate Clear(n: nat, d: nat)
    requires d > 0
  {
    n % d != 0 && n % (d + 2) != 0 && n % (d + 4) != 0 && n % (d + 6) != 0 && n % (d + 8) != 0
    && n % (d + 10) != 0 && n % (d + 12) != 0 && n % (d + 14) != 0 && n % (d + 16) != 0 && n % (d + 18) != 0
    && n % (d + 20) != 0 && n % (d + 22) != 0 && n % (d + 24) != 0 && n % (d + 26) != 0 && n % (d + 28) != 0
    && n % (d + 30) != 0 && n % (d + 32) != 0 && n % (d + 34) != 0 && n % (d + 36) != 0 && n % (d + 38) != 0
    && n % (d + 40) != 0 && n % (d + 42) != 0 && n % (d + 44) != 0 && n % (d + 46) != 0
  }

  lemma ClearAt(n: nat, d: nat, i: nat)
    requires d > 0 && Clear(n, d) && i < 24
    ensures !Divided(n, d + 2 * i)
  {
    match i
    case 0 => case 1 => case 2 => case 3 => case 4 => case 5 => case 6 => case 7 => case 8 => case 9 => case 10 => case 11 =>
    case 12 => case 13 => case 14 => case 15 => case 16 => case 17 => case 18 => case 19 => case 20 => case 21 => case 22 => case _ =>
  }

  const LEAST_ITEMS := 1280023

  lemma ClearFirst()
    ensures Clear(LEAST_ITEMS, 3) && Clear(LEAST_ITEMS, 51) && Clear(LEAST_ITEMS, 99)
    ensures Clear(LEAST_ITEMS, 147) && Clear(LEAST_ITEMS, 195) && Clear(LEAST_ITEMS, 243)
  {
  }

  lemma ClearSecond()
    ensures Clear(LEAST_ITEMS, 291) && Clear(LEAST_ITEMS, 339) && Clear(LEAST_ITEMS, 387)
    ensures Clear(LEAST_ITEMS, 435) && Clear(LEAST_ITEMS, 483) && Clear(LEAST_ITEMS, 531)
  {
  }

  lemma ClearThird()
    ensures Clear(LEAST_ITEMS, 579) && Clear(LEAST_ITEMS, 627) && Clear(LEAST_ITEMS, 675)
    ensures Clear(LEAST_ITEMS, 723) && Clear(LEAST_ITEMS, 771) && Clear(LEAST_ITEMS, 819)
  {
  }

  lemma ClearFourth()
    ensures Clear(LEAST_ITEMS, 867) && Clear(LEAST_ITEMS, 915) && Clear(LEAST_ITEMS, 963)
    ensures Clear(LEAST_ITEMS, 1011) && Clear(LEAST_ITEMS, 1059) && Clear(LEAST_ITEMS, 1107)
  {
  }

  lemma ClearOnward(n: nat, s: nat)
    requires s > 0 && s % 2 == 1 && Untried(n, s) && Clear(n, s)
    ensures Untried(n, s + 48)
  {
    hide Clear, Divided;
    forall k: nat | s <= k < s + 48 && k % 2 == 1 ensures !Divided(n, k) {
      var i := (k - s) / 2;
      assert k == s + 2 * i;
      ClearAt(n, s, i);
    }
  }

  lemma ClearSix(n: nat, s: nat)
    requires s > 0 && s % 2 == 1 && Untried(n, s)
    requires Clear(n, s) && Clear(n, s + 48) && Clear(n, s + 96)
    requires Clear(n, s + 144) && Clear(n, s + 192) && Clear(n, s + 240)
    ensures Untried(n, s + 288)
  {
    hide Clear, Untried;
    ClearOnward(n, s);
    ClearOnward(n, s + 48);
    ClearOnward(n, s + 96);
    ClearOnward(n, s + 144);
    ClearOnward(n, s + 192);
    ClearOnward(n, s + 240);
  }

  /** A prime by which every count of full dataset items is bounded from below. */
  lemma LeastItemsIsPrime()
    ensures Prime(LEAST_ITEMS)
  {
    assert Untried(LEAST_ITEMS, 3);
    hide Clear, Untried, Prime;
    ClearFirst();
    ClearSix(LEAST_ITEMS, 3);
    ClearSecond();
    ClearSix(LEAST_ITEMS, 291);
    ClearThird();
    ClearSix(LEAST_ITEMS, 579);
    ClearFourth();
    ClearSix(LEAST_ITEMS, 867);
    TriedAll(LEAST_ITEMS, 1155);
  }

  const INT_MIN := -0x8000_0000
  const INT_MAX := 0x7fff_ffff
  const TWO32 := 0x1_0000_0000

  // The source's int arithmetic, which has no result outside the range.
  datatype Int = Int(value: int) | Overflow

  function Fit(x: int): (r: Int)
    ensures r.Overflow? <==> x < -2147483648 || 2147483647 < x
    ensures r.Int? ==> r.value == x
  {
    if INT_MIN <= x <= INT_MAX then Int(x) else Overflow
  }

  function Bound(initial: int, growth: int, epoch: int): Int {
    match Fit(epoch * growth)
    case Int(grown) => Fit(initial + grown)
    case Overflow => Overflow
  }

  function LightBound(epoch: int): Int { Bound(0x4_0000, 0x800, epoch) }

  function FullBound(epoch: int): Int { Bound(0x80_0000, 0x1_0000, epoch) }

  /** Both bounds fit an int exactly for epochs up to 32639 and down to -32768. */
  lemma BoundsFit(epoch: int)
    ensures FullBound(epoch).Int? && LightBound(epoch).Int? <==> -32768 <= epoch <= 32639
    ensures FullBound(epoch).Int? ==> 2 * FullBound(epoch).value < TWO32
  {
  }

  // The greatest prime not above a bound, 0 when there is none.
  ghost predicate Greatest(n: int, bound: int) {
    && (if bound < 2 then n == 0 else 2 <= n <= bound && Prime(n))
    && forall k: nat :: n < k <= bound ==> !Prime(k)
  }

  /** The number of 512-bit items of the light cache, for every epoch whose bound fits an int. */
  method LightCacheNumItems(epoch: int) returns (r: Int)
    ensures r.Overflow? <==> epoch < -1048576 || epoch > 1048447
    ensures r.Int? ==> Greatest(r.value, 0x4_0000 + epoch * 0x800)
    ensures r.Int? && epoch >= 0 ==> r.value >= 131
  {
    SomePrime();
    hide Prime;
    var bound := LightBound(epoch);
    if bound.Overflow? {
      return Overflow;
    }
    var n := FindLargestPrime(bound.value);
    r := Int(n);
  }

  /** The number of 1024-bit items of the full dataset, for every epoch whose bound fits an int; twice the number
      fits 32 bits, and no dataset is smaller than a chunk of the OpenCL launches. */
  method FullDatasetNumItems(epoch: int) returns (r: Int)
    ensures r.Overflow? <==> epoch < -32768 || epoch > 32639
    ensures r.Int? ==> Greatest(r.value, 0x80_0000 + epoch * 0x1_0000) && 2 * r.value + 256 < TWO32
    ensures r.Int? && epoch >= 0 ==> r.value >= LEAST_ITEMS
  {
    LeastItemsIsPrime();
    hide Prime;
    var bound := FullBound(epoch);
    if bound.Overflow? {
      return Overflow;
    }
    var n := FindLargestPrime(bound.value);
    r := Int(n);
  }
}

/** Words as numbers and as rows of bits: what each word operation computes, in integers and bit by bit. The proofs halve
    a word until nothing is left of it. */
module WordValues {
  import opened Arith
  import opened Words
  import FastMod

  const TWO32 := 0x1_0000_0000
  const MAX: word := 0xffff_ffff

  function Half(x: word): word { x >> 1 }

  predicate Odd(x: word) { x & 1 == 1 }

  function Double(x: word): word { x << 1 }

  function Next(x: word): word { x + 1 }

  function Before(x: word): word { x - 1 }

  // A word in two parts, the lowest bit and the rest.
  function Rest(x: word): bv31 { (x >> 1) as bv31 }

  function Last(x: word): bv1 { (x & 1) as bv1 }

  function Joined(q: bv31, r: bv1): word { ((q as bv32) << 1) | (r as bv32) }

  lemma JoinedBits(q: bv31, r: bv1)
    ensures (((q as bv32) << 1) | (r as bv32)) as int == (q as int) * 2 + (r as int)
  {
  }

  lemma JoinedIs(q: bv31, r: bv1)
    ensures Joined(q, r) == ((q as bv32) << 1) | (r as bv32)
  {
  }

  lemma JoinedValue(q: bv31, r: bv1)
    ensures Joined(q, r) as int == (q as int) * 2 + (r as int)
  {
    JoinedBits(q, r);
    JoinedIs(q, r);
    hide Joined;
  }

  lemma InParts(x: word)
    ensures x == Joined(Rest(x), Last(x))
  {
  }

  lemma RestIsHalf(x: word)
    ensures (Rest(x) as bv32) == Half(x)
  {
  }

  lemma Widened(q: bv31)
    ensures (q as bv32) as int == q as int
  {
  }

  lemma RestValue(x: word)
    ensures Rest(x) as int == Index(Half(x))
  {
    hide Rest, Half;
    RestIsHalf(x);
    Widened(Rest(x));
  }

  lemma LastValue(x: word)
    ensures Last(x) as int == if Odd(x) then 1 else 0
  {
  }

  lemma PartsValue(x: word)
    ensures Index(x) == (Rest(x) as int) * 2 + (Last(x) as int)
  {
    hide Rest, Last, Joined;
    InParts(x);
    JoinedValue(Rest(x), Last(x));
  }

  /** A word is twice its half, and one more if it is odd. */
  lemma Halves(x: word)
    ensures Index(x) == 2 * Index(Half(x)) + if Odd(x) then 1 else 0
  {
    hide Rest, Last, Half, Odd, Index;
    PartsValue(x);
    RestValue(x);
    LastValue(x);
  }

  lemma Bound(x: word)
    ensures 0 <= Index(x) < TWO32 && Index(0) == 0 && Index(1) == 1 && Index(MAX) == TWO32 - 1
  {
  }

  lemma Injective(x: word, y: word)
    requires Index(x) == Index(y)
    ensures x == y
  {
    assert (x as int) as bv32 == x && (y as int) as bv32 == y;
  }

  lemma EvenNext(x: word)
    requires !Odd(x)
    ensures x != MAX && Odd(Next(x)) && Half(Next(x)) == Half(x)
  {
  }

  lemma OddNext(x: word)
    requires Odd(x)
    ensures !Odd(Next(x)) && Half(x) != MAX && (x != MAX ==> Half(Next(x)) == Next(Half(x))) && (x == MAX ==> Next(x) == 0)
  {
  }

  lemma {:induction false} Successor(x: word)
    ensures Index(Next(x)) == if x == MAX then 0 else Index(x) + 1
    decreases Index(x)
  {
    hide Half, Odd, Next, Index;
    Bound(x);
    Halves(x);
    Halves(Next(x));
    if Odd(x) {
      OddNext(x);
      Successor(Half(x));
    } else {
      EvenNext(x);
    }
  }

  lemma NextBefore(b: word)
    ensures Next(Before(b)) == b && (b != 0 ==> Before(b) != MAX)
  {
  }

  lemma PlusNext(a: word, c: word)
    ensures Plus(a, 0) == a && Plus(a, Next(c)) == Next(Plus(a, c))
  {
    assert Next(c) == c + 1;
    assert Plus(a, c + 1) == a + (c + 1);
    assert Plus(a, c) == a + c;
    assert Next(a + c) == a + c + 1;
  }

  lemma TimesNext(a: word, c: word)
    ensures Times(a, 0) == 0 && Times(a, Next(c)) == Plus(Times(a, c), a)
  {
    assert Next(c) == c + 1;
    assert Times(a, c + 1) == a * (c + 1);
    assert a * (c + 1) == a * c + a;
    assert Times(a, c) == a * c;
    assert Plus(a * c, a) == a * c + a;
  }

  lemma Predecessor(b: word)
    requires b != 0
    ensures Index(Before(b)) == Index(b) - 1
  {
    hide Next, Before, Plus, Times, Index;
    NextBefore(b);
    Successor(Before(b));
  }

  lemma NonZero(b: word)
    ensures b == 0 <==> Index(b) == 0
  {
    Bound(b);
    if Index(b) == 0 {
      Injective(b, 0);
    }
  }

  /** Plus adds modulo 2^32. */
  lemma {:induction false} PlusValue(a: word, b: word)
    ensures Index(Plus(a, b)) == (Index(a) + Index(b)) % TWO32
    decreases Index(b)
  {
    hide Next, Before, Plus, Times, Index;
    Bound(a);
    Bound(b);
    PlusNext(a, Before(b));
    NextBefore(b);
    if b != 0 {
      Predecessor(b);
      PlusValue(a, Before(b));
      Bound(Plus(a, Before(b)));
      Successor(Plus(a, Before(b)));
      if Plus(a, Before(b)) != MAX && Index(Plus(a, Before(b))) == TWO32 - 1 {
        Injective(Plus(a, Before(b)), MAX);
      }
    }
  }

  lemma OneMore(a: int, b: int, p: int)
    requires p == (a * (b - 1)) % TWO32
    ensures (p + a) % TWO32 == (a * b) % TWO32
  {
    assert a * b == a * (b - 1) + a;
    Reduced(a * (b - 1), a);
  }

  lemma Reduced(x: int, a: int)
    ensures (x % TWO32 + a) % TWO32 == (x + a) % TWO32
  {
  }

  /** Times multiplies modulo 2^32. */
  lemma {:induction false} TimesValue(a: word, b: word)
    ensures Index(Times(a, b)) == (Index(a) * Index(b)) % TWO32
    decreases Index(b)
  {
    hide Next, Before, Plus, Times, Index;
    Bound(b);
    TimesNext(a, Before(b));
    NextBefore(b);
    if b != 0 {
      Predecessor(b);
      TimesValue(a, Before(b));
      PlusValue(Times(a, Before(b)), a);
      OneMore(Index(a), Index(b), Index(Times(a, Before(b))));
    }
  }

  // The word of a number.
  lemma {:induction false} SomeWord(n: nat) returns (x: word)
    requires n < TWO32
    ensures Index(x) == n
  {
    x := 0;
    if n > 0 {
      var y := SomeWord(n - 1);
      Successor(y);
      Bound(y);
      x := Next(y);
    }
  }

  /** A number below 2^32, made a word and read again, is the same. */
  lemma WordValue(n: nat)
    requires n < TWO32
    ensures Index(n as bv32) == n
  {
    var x := SomeWord(n);
    assert (x as int) as bv32 == x;
  }

  predicate Below(a: word, b: word) { a < b }

  lemma BelowByHalf(a: word, b: word)
    ensures Below(Half(a), Half(b)) ==> Below(a, b)
  {
  }

  lemma BelowByBit(a: word, b: word)
    requires Half(a) == Half(b) && !Odd(a) && Odd(b)
    ensures Below(a, b)
  {
  }

  lemma BelowOnce(a: word, b: word)
    requires Below(a, b)
    ensures !Below(b, a)
  {
  }

  lemma NotBelowSelf(a: word)
    ensures !Below(a, a)
  {
  }

  lemma {:induction false} Smaller(a: word, b: word)
    requires Index(a) < Index(b)
    ensures Below(a, b)
    decreases Index(a) + Index(b)
  {
    hide Half, Odd, Index, Below;
    Bound(a);
    Bound(b);
    Halves(a);
    Halves(b);
    if Index(Half(a)) < Index(Half(b)) {
      Smaller(Half(a), Half(b));
      BelowByHalf(a, b);
    } else {
      Injective(Half(a), Half(b));
      BelowByBit(a, b);
    }
  }

  /** The order of words is that of the numbers. */
  lemma LessValue(a: word, b: word)
    ensures Below(a, b) <==> Index(a) < Index(b)
  {
    hide Index, Below;
    if Index(a) < Index(b) {
      Smaller(a, b);
    } else if Index(b) < Index(a) {
      Smaller(b, a);
      BelowOnce(b, a);
    } else {
      Injective(a, b);
      NotBelowSelf(a);
    }
  }

  lemma MinValue(a: word, b: word)
    ensures Index(Min(a, b)) == if Index(a) < Index(b) then Index(a) else Index(b)
  {
    LessValue(a, b);
    hide Index;
  }

  /** Bit j of a word, counted from the least significant. */
  predicate Bit(x: word, j: nat) { Index(x) / FastMod.Pow2(j) % 2 == 1 }

  lemma HalfOf(x: word)
    ensures Index(Half(x)) == Index(x) / 2 && (Odd(x) <==> Index(x) % 2 == 1)
  {
    hide Index, Half, Odd;
    Halves(x);
  }

  lemma Regrouped(k: nat, s: nat, a: nat, p: nat, q: nat)
    requires s < q && a < p
    ensures (k * q + s) * p + a == k * (p * q) + (s * p + a) && s * p + a < p * q
  {
    MulLe(p, s + 1, q);
  }

  lemma HighDigit(a: nat, b: nat, p: nat, q: nat)
    requires p > 0 && q > 0 && a < p
    ensures (b * p + a) / (p * q) == b / q
  {
    var k, s := b / q, b % q;
    QuotNat(b, q);
    assert b == k * q + s;
    Regrouped(k, s, a, p, q);
    var d := p * q;
    DivUnique(b * p + a, d, k, s * p + a);
  }

  lemma Nested(x: nat, p: nat, q: nat)
    requires p > 0 && q > 0
    ensures p * q > 0 && x / p / q == x / (p * q)
  {
    var a, b := x % p, x / p;
    QuotNat(x, p);
    assert x == b * p + a;
    HighDigit(a, b, p, q);
  }

  lemma AndStep(a: nat, b: nat)
    ensures FastMod.And(a, b) % 2 == 1 <==> a % 2 == 1 && b % 2 == 1
    ensures FastMod.And(a, b) / 2 == FastMod.And(a / 2, b / 2)
  {
  }

  /** The conjunction of two numbers has a one exactly where both have one. */
  lemma {:induction false} AndDigits(a: nat, b: nat, j: nat)
    ensures var p := FastMod.Pow2(j); FastMod.And(a, b) / p % 2 == 1 <==> a / p % 2 == 1 && b / p % 2 == 1
    decreases j
  {
    hide FastMod.And;
    AndStep(a, b);
    if j > 0 {
      AndDigits(a / 2, b / 2, j - 1);
      var p := FastMod.Pow2(j - 1);
      Nested(a, 2, p);
      Nested(b, 2, p);
      Nested(FastMod.And(a, b), 2, p);
    }
  }

  lemma BitSteps(x: word, j: nat)
    ensures Bit(x, 0) <==> Odd(x)
    ensures Bit(x, j + 1) <==> Bit(Half(x), j)
  {
    hide Index, Half, Odd;
    Bound(x);
    HalfOf(x);
    Nested(Index(x), 2, FastMod.Pow2(j));
  }

  lemma {:induction false} SameBits(x: word, y: word, n: nat)
    requires Index(x) < FastMod.Pow2(n) && Index(y) < FastMod.Pow2(n) && forall j: nat :: j < n ==> (Bit(x, j) <==> Bit(y, j))
    ensures x == y
    decreases n
  {
    hide Index, Half, Odd, Bit;
    Bound(x);
    Bound(y);
    if n > 0 {
      HalfOf(x);
      HalfOf(y);
      BitSteps(x, 0);
      BitSteps(y, 0);
      forall j: nat | j < n - 1 ensures Bit(Half(x), j) <==> Bit(Half(y), j) {
        BitSteps(x, j);
        BitSteps(y, j);
      }
      SameBits(Half(x), Half(y), n - 1);
    }
    if Index(x) == Index(y) {
      Injective(x, y);
    }
  }

  /** A word is its 32 bits. */
  lemma BitsDecide(x: word, y: word)
    requires forall j: nat :: j < 32 ==> (Bit(x, j) <==> Bit(y, j))
    ensures x == y
  {
    hide Index, Bit;
    Bound(x);
    Bound(y);
    FastMod.Pow31();
    SameBits(x, y, 32);
  }

  lemma AndHalves(a: word, b: word)
    ensures Half(And(a, b)) == And(Half(a), Half(b))
  {
  }

  lemma AndOdd(a: word, b: word)
    ensures Odd(And(a, b)) <==> Odd(a) && Odd(b)
  {
  }

  lemma OrHalves(a: word, b: word)
    ensures Half(Or(a, b)) == Or(Half(a), Half(b))
  {
  }

  lemma OrOdd(a: word, b: word)
    ensures Odd(Or(a, b)) <==> Odd(a) || Odd(b)
  {
  }

  lemma XorHalves(a: word, b: word)
    ensures Half(Xor(a, b)) == Xor(Half(a), Half(b))
  {
  }

  lemma XorOdd(a: word, b: word)
    ensures Odd(Xor(a, b)) <==> Odd(a) != Odd(b)
  {
  }

  /** And, Or and Xor work bit by bit. */
  lemma {:induction false} LogicBits(a: word, b: word, j: nat)
    ensures Bit(And(a, b), j) <==> Bit(a, j) && Bit(b, j)
    ensures Bit(Or(a, b), j) <==> Bit(a, j) || Bit(b, j)
    ensures Bit(Xor(a, b), j) <==> Bit(a, j) != Bit(b, j)
    decreases j
  {
    hide Index, Half, Odd, Bit, And, Or, Xor;
    var i := if j == 0 then 0 else j - 1;
    AndHalves(a, b);
    AndOdd(a, b);
    OrHalves(a, b);
    OrOdd(a, b);
    XorHalves(a, b);
    XorOdd(a, b);
    BitSteps(a, i);
    BitSteps(b, i);
    BitSteps(And(a, b), i);
    BitSteps(Or(a, b), i);
    BitSteps(Xor(a, b), i);
    if j > 0 {
      LogicBits(Half(a), Half(b), j - 1);
    }
  }

  lemma OneBefore(n: word)
    requires 0 < n < 32
    ensures Before(n) < 31 && Before(n) + 1 == n
  {
  }

  // A count taken modulo 32: the five lowest bits, and the rest.
  function Above(n: word): bv27 { (n >> 5) as bv27 }

  function Lowest(n: word): bv5 { (n & 31) as bv5 }

  function Glued(h: bv27, l: bv5): word { ((h as bv32) << 5) | (l as bv32) }

  lemma GluedBits(h: bv27, l: bv5)
    ensures (((h as bv32) << 5) | (l as bv32)) as int == (h as int) * 32 + (l as int)
  {
  }

  lemma GluedValue(h: bv27, l: bv5)
    ensures Glued(h, l) as int == (h as int) * 32 + (l as int)
  {
    assert Glued(h, l) == ((h as bv32) << 5) | (l as bv32);
    GluedBits(h, l);
    hide Glued;
  }

  lemma GluedParts(n: word)
    ensures n == Glued(Above(n), Lowest(n))
  {
  }

  lemma LowestIsCount(n: word)
    ensures (Lowest(n) as bv32) == Count(n)
  {
  }

  lemma LowestValue(l: bv5)
    ensures (l as bv32) as int == l as int && 0 <= l as int < 32
  {
  }

  lemma CountIsLowest(n: word)
    ensures Index(Count(n)) == Lowest(n) as int < 32
  {
    hide Count, Lowest;
    LowestIsCount(n);
    LowestValue(Lowest(n));
  }

  lemma GluedIndex(n: word)
    ensures Index(n) == (Above(n) as int) * 32 + (Lowest(n) as int)
  {
    hide Above, Lowest, Glued;
    GluedParts(n);
    GluedValue(Above(n), Lowest(n));
  }

  lemma CountValue(n: word)
    ensures Index(Count(n)) == Index(n) % 32
  {
    hide Count, Above, Lowest, Index;
    GluedIndex(n);
    CountIsLowest(n);
    DivUnique(Index(n), 32, Above(n) as int, Lowest(n) as int);
  }

  lemma ThirtyTwo()
    ensures Index(32) == 32
  {
  }

  lemma Restored(x: word, y: word)
    ensures Plus(x - y, y) == x
  {
  }

  // Half of a word in a count-down of its bits.
  lemma ZeroHalf(x: word)
    ensures x == 0 <==> Index(x) == 0
  {
    NonZero(x);
  }

  lemma LengthStep(x: word, n: nat)
    ensures Length(x, n + 1) == if x == 0 then 0 else 1 + Length(Half(x), n)
    ensures Ones(x, n + 1) == (if Odd(x) then 1 else 0) + Ones(Half(x), n)
  {
  }

  /** A word of a given length lies between two powers of two. */
  lemma {:induction false} LengthValue(x: word, n: nat)
    requires Index(x) < FastMod.Pow2(n)
    ensures var c := Length(x, n);
      Index(x) < FastMod.Pow2(c) && (c == 0 <==> x == 0) && (c > 0 ==> FastMod.Pow2(c - 1) <= Index(x))
    decreases n
  {
    hide Index, Half, Odd, Length;
    Bound(x);
    ZeroHalf(x);
    if n == 0 {
      assert Length(x, 0) == 0 by { LengthNone(x); }
    } else {
      LengthStep(x, n - 1);
      HalfOf(x);
      if x != 0 {
        LengthValue(Half(x), n - 1);
        ZeroHalf(Half(x));
        Bound(Half(x));
      }
    }
  }

  lemma LengthNone(x: word)
    ensures Length(x, 0) == 0 && Ones(x, 0) == 0
  {
  }

  /** clz counts the leading zeros: 32 for zero, and otherwise 31 less the place of the highest one. */
  lemma ClzValue(x: word)
    ensures x == 0 ==> Index(Clz(x)) == 32
    ensures x != 0 ==>
      Index(Clz(x)) < 32 && FastMod.Pow2(31 - Index(Clz(x))) <= Index(x) < FastMod.Pow2(32 - Index(Clz(x)))
  {
    hide Index, Length, FastMod.Pow2;
    Bound(x);
    FastMod.Pow31();
    LengthValue(x, 32);
    WordValue(32 - Length(x, 32));
  }

  // One bit more.
  lemma {:induction false} OnesUp(x: word, n: nat)
    ensures Ones(x, n + 1) == Ones(x, n) + if Bit(x, n) then 1 else 0
    decreases n
  {
    hide Index, Half, Odd, Bit, Ones;
    LengthStep(x, n);
    LengthNone(x);
    LengthNone(Half(x));
    if n == 0 {
      BitSteps(x, 0);
    } else {
      LengthStep(x, n - 1);
      OnesUp(Half(x), n - 1);
      BitSteps(x, n - 1);
    }
  }

  // The places of the ones among the low n bits.
  function OnesAt(x: word, n: nat): set<nat> { set j: nat | j < n && Bit(x, j) }

  lemma {:induction false} OnesValue(x: word, n: nat)
    ensures Ones(x, n) == |OnesAt(x, n)|
    decreases n
  {
    hide Bit, Ones;
    LengthNone(x);
    if n == 0 {
      assert OnesAt(x, 0) == {};
    } else {
      OnesValue(x, n - 1);
      OnesUp(x, n - 1);
      assert OnesAt(x, n) == OnesAt(x, n - 1) + if Bit(x, n - 1) then {n - 1} else {};
    }
  }

  /** popcount counts the places of ones. */
  lemma PopcountValue(x: word)
    ensures Index(Popcount(x)) == |OnesAt(x, 32)|
  {
    hide Index, Ones, OnesAt;
    OnesValue(x, 32);
    WordValue(Ones(x, 32));
  }

  // Shifting right by one more halves, shifting left by one more doubles.
  lemma ShrNext(x: word, m: word)
    requires m < 32
    ensures x >> (m + 1) == (x >> m) >> 1
  {
  }

  lemma ShlNext(x: word, m: word)
    requires m < 32
    ensures x << (m + 1) == (x << m) << 1
  {
  }

  lemma ShiftsAre(x: word, m: word)
    requires m <= 32
    ensures Shr(x, m) == x >> m && Shl(x, m) == x << m
  {
  }

  lemma ShrStep(x: word, m: word)
    requires m < 32 && m + 1 <= 32
    ensures Shr(x, m + 1) == Half(Shr(x, m))
  {
    ShrNext(x, m);
    ShiftsAre(x, m);
    ShiftsAre(x, m + 1);
    hide Shr, Shl;
    assert Half(x >> m) == (x >> m) >> 1;
    hide Half;
  }

  lemma DoubleIs(x: word)
    ensures Double(x) == Plus(x, x)
  {
  }

  lemma ShlStep(x: word, m: word)
    requires m < 32 && m + 1 <= 32
    ensures Shl(x, m + 1) == Plus(Shl(x, m), Shl(x, m))
  {
    ShlNext(x, m);
    ShiftsAre(x, m);
    ShiftsAre(x, m + 1);
    DoubleIs(Shl(x, m));
    hide Shr, Shl, Plus;
    assert Double(x << m) == (x << m) << 1;
    hide Double;
  }

  lemma ShiftNone(x: word)
    ensures Shr(x, 0) == x && Shl(x, 0) == x
  {
  }

  lemma OneLess(m: word)
    requires 0 < m <= 32
    ensures Before(m) < 32 && Before(m) + 1 == m
  {
  }

  lemma Doubled(i: nat, p: nat)
    ensures ((i * p) % TWO32 + (i * p) % TWO32) % TWO32 == (i * (2 * p)) % TWO32
  {
    assert i * (2 * p) == i * p + i * p;
    var s := i * p;
    Reduced(s, s % TWO32);
    Reduced(s, s);
  }

  lemma PowStep(k: nat)
    ensures FastMod.Pow2(0) == 1 && FastMod.Pow2(k + 1) == 2 * FastMod.Pow2(k)
  {
  }

  lemma DoubledStep(i: nat, k: nat, v: nat, d: nat)
    requires v == i * FastMod.Pow2(k) % TWO32 && d == (v + v) % TWO32
    ensures d == i * FastMod.Pow2(k + 1) % TWO32
  {
    hide FastMod.Pow2;
    PowStep(k);
    Doubled(i, FastMod.Pow2(k));
  }

  /** A shift to the right divides by a power of two. */
  lemma {:induction false} ShrValue(x: word, m: word)
    requires m <= 32
    ensures Index(Shr(x, m)) == Index(x) / FastMod.Pow2(Index(m))
    decreases Index(m)
  {
    hide Index, Half, Odd, Shr, Before, FastMod.Pow2;
    Bound(x);
    Bound(m);
    NonZero(m);
    if m == 0 {
      ShiftNone(x);
      PowStep(0);
    } else {
      var n := Before(m);
      OneLess(m);
      Predecessor(m);
      ShrValue(x, n);
      ShrStep(x, n);
      HalfOf(Shr(x, n));
      PowStep(Index(n));
      Nested(Index(x), FastMod.Pow2(Index(n)), 2);
    }
  }

  /** A shift to the left multiplies by it modulo 2^32. */
  lemma {:induction false} ShlValue(x: word, m: word)
    requires m <= 32
    ensures Index(Shl(x, m)) == Index(x) * FastMod.Pow2(Index(m)) % TWO32
    decreases Index(m)
  {
    hide Index, Shl, Plus, Before, FastMod.Pow2;
    Bound(x);
    Bound(m);
    NonZero(m);
    if m == 0 {
      ShiftNone(x);
      PowStep(0);
    } else {
      var n := Before(m);
      OneLess(m);
      Predecessor(m);
      ShlStep(x, n);
      ShlValue(x, n);
      var s := Shl(x, n);
      PlusValue(s, s);
      DoubledStep(Index(x), Index(n), Index(s), Index(Shl(x, m)));
    }
  }

  lemma Complement(m: word)
    requires Index(m) <= 32
    ensures m <= 32 && Index(32 - m) == 32 - Index(m)
  {
    hide Index, Plus;
    ThirtyTwo();
    Restored(32, m);
    LessValue(32, m);
    PlusValue(32 - m, m);
    Bound(32 - m);
  }

  lemma Evened(b: nat, q: nat, p: nat)
    ensures b * (2 * q * p) == p * (2 * (b * q))
  {
  }

  lemma PlusMultiple(p: nat, e: nat, a: nat)
    requires p > 0
    ensures (p * e + a) / p == e + a / p
  {
    var k, r := a / p, a % p;
    QuotNat(a, p);
    assert a == p * k + r;
    assert p * (e + k) == p * e + p * k;
    DivUnique(p * e + a, p, e + k, r);
  }

  lemma LowDigit(a: nat, b: nat, p: nat, q: nat)
    requires p > 0
    ensures (b * (2 * q * p) + a) / p % 2 == a / p % 2
  {
    var e := b * q;
    Evened(b, q, p);
    PlusMultiple(p, 2 * e, a);
  }

  lemma ShrDigit(x: nat, m: nat, j: nat)
    requires x < TWO32
    ensures x / FastMod.Pow2(m) / FastMod.Pow2(j) == if j + m < 32 then x / FastMod.Pow2(j + m) else 0
  {
    hide FastMod.Pow2;
    FastMod.PowSum(m, j);
    Nested(x, FastMod.Pow2(m), FastMod.Pow2(j));
    if 32 <= j + m {
      FastMod.Pow31();
      FastMod.PowMonotone(32, j + m);
      DivUnique(x, FastMod.Pow2(j + m), 0, x);
    }
  }

  lemma ShrBit(x: word, m: word, j: nat)
    requires m <= 32 && Index(m) < 32 && j < 32
    ensures Bit(Shr(x, m), j) <==> j + Index(m) < 32 && Bit(x, j + Index(m))
  {
    hide Index, Shr, FastMod.Pow2;
    Bound(x);
    ShrValue(x, m);
    ShrDigit(Index(x), Index(m), j);
  }

  lemma Regroup(b: nat, q: nat, p: nat)
    ensures b * (2 * q * p) == b * (2 * (q * p))
  {
    assert 2 * q * p == 2 * (q * p);
  }

  lemma LowDigitOf(y: nat, p: nat, q: nat, m: nat)
    requires p > 0 && m == 2 * (q * p) && m > 0
    ensures y % m / p % 2 == y / p % 2
  {
    var b, r := y / m, y % m;
    QuotNat(y, m);
    assert y == b * m + r;
    Regroup(b, q, p);
    LowDigit(r, b, p, q);
  }

  // A digit of what remains of a number below a power of two.
  lemma DigitBelow(y: nat, k: nat, j: nat)
    requires j < k
    ensures y % FastMod.Pow2(k) / FastMod.Pow2(j) % 2 == y / FastMod.Pow2(j) % 2
  {
    hide FastMod.Pow2;
    FastMod.PowSum(k - 1 - j, j);
    PowStep(k - 1);
    LowDigitOf(y, FastMod.Pow2(j), FastMod.Pow2(k - 1 - j), FastMod.Pow2(k));
  }

  lemma EvenDigit(x: nat, p: nat, e: nat)
    requires p > 0
    ensures x * (2 * e * p) / p % 2 == 0
  {
    LowDigit(0, x, p, e);
    DivUnique(0, p, 0, 0);
  }

  lemma ProductDigit(x: nat, m: nat, j: nat)
    ensures x * FastMod.Pow2(m) / FastMod.Pow2(j) % 2 == if j < m then 0 else x / FastMod.Pow2(j - m) % 2
  {
    hide FastMod.Pow2;
    if j < m {
      FastMod.PowSum(m - j - 1, j + 1);
      PowStep(j);
      assert FastMod.Pow2(m) == 2 * FastMod.Pow2(m - j - 1) * FastMod.Pow2(j);
      EvenDigit(x, FastMod.Pow2(j), FastMod.Pow2(m - j - 1));
    } else {
      FastMod.PowSum(m, j - m);
      HighDigit(0, x, FastMod.Pow2(m), FastMod.Pow2(j - m));
    }
  }

  lemma ShlBit(x: word, m: word, j: nat)
    requires m <= 32 && Index(m) < 32 && j < 32
    ensures Bit(Shl(x, m), j) <==> j >= Index(m) && Bit(x, j - Index(m))
  {
    hide Index, Shl, FastMod.Pow2;
    ShlValue(x, m);
    FastMod.Pow31();
    DigitBelow(Index(x) * FastMod.Pow2(Index(m)), 32, j);
    ProductDigit(Index(x), Index(m), j);
  }

  /** A shift moves bit j by the count and brings in zeros. */
  lemma ShiftBits(x: word, m: word, j: nat)
    requires Index(m) < 32 && j < 32
    ensures m <= 32
    ensures Bit(Shl(x, m), j) <==> j >= Index(m) && Bit(x, j - Index(m))
    ensures Bit(Shr(x, m), j) <==> j + Index(m) < 32 && Bit(x, j + Index(m))
  {
    hide Index, Shl, Shr, Bit;
    Complement(m);
    ShlBit(x, m, j);
    ShrBit(x, m, j);
  }

  lemma RotateIs(x: word, m: word)
    requires m < 32
    ensures Rotate(x, m) == Or(Shl(x, m), Shr(x, 32 - m))
  {
    hide Shl, Shr;
  }

  lemma RotateNone(x: word)
    ensures Rotate(x, 0) == x
  {
  }

  /** Rotating by m moves bit j to place j + m, around the word. */
  lemma RotateBits(x: word, m: word, j: nat)
    requires Index(m) < 32 && j < 32
    ensures m < 32 && (Bit(Rotate(x, m), (j + Index(m)) % 32) <==> Bit(x, j))
  {
    hide Bit, Rotate, Index, Or, Shl, Shr;
    NonZero(m);
    Complement(m);
    ThirtyTwo();
    LessValue(m, 32);
    RotateNone(x);
    if m != 0 {
      var i := (j + Index(m)) % 32;
      RotateIs(x, m);
      ShiftBits(x, m, i);
      ShiftBits(x, 32 - m, i);
      LogicBits(Shl(x, m), Shr(x, 32 - m), i);
    }
  }

  /** rotl32 moves bit j to place j + n modulo 32, and rotr32 moves it back, for every count. */
  lemma RotationBits(x: word, n: word, j: nat)
    requires j < 32
    ensures Bit(Rotl(Cpu, x, n), (j + Index(n)) % 32) <==> Bit(x, j)
    ensures Bit(Rotr(Cpu, x, n), j) <==> Bit(x, (j + Index(n)) % 32)
  {
    hide Bit, Rotate, Count, Index, Shl, Shr, Join;
    var y := Rotr(Cpu, x, n);
    CountValue(n);
    Bound(n);
    RotateBits(x, Count(n), j);
    RotateBits(y, Count(n), j);
    RotationsAgree(OpenCl, x, n);
    RotationsAgree(OpenCl, y, n);
    RotationsInvert(x, n);
    Places(j, Index(n));
  }

  lemma Places(j: nat, n: nat)
    ensures (j + n % 32) % 32 == (j + n) % 32
  {
  }

  // The low half of a word.
  function Glued16(h: bv16, l: bv16): word { ((h as bv32) << 16) | (l as bv32) }

  function Upper16(x: word): bv16 { (x >> 16) as bv16 }

  function Lower16(x: word): bv16 { (x & 0xffff) as bv16 }

  lemma Glued16Bits(h: bv16, l: bv16)
    ensures (((h as bv32) << 16) | (l as bv32)) as int == (h as int) * 0x1_0000 + (l as int)
  {
  }

  lemma Glued16Value(h: bv16, l: bv16)
    ensures Glued16(h, l) as int == (h as int) * 0x1_0000 + (l as int)
  {
    assert Glued16(h, l) == ((h as bv32) << 16) | (l as bv32);
    Glued16Bits(h, l);
    hide Glued16;
  }

  lemma Glued16Parts(x: word)
    ensures x == Glued16(Upper16(x), Lower16(x))
  {
  }

  lemma Glued16Index(x: word)
    ensures Index(x) == (Upper16(x) as int) * 0x1_0000 + (Lower16(x) as int)
  {
    hide Upper16, Lower16, Glued16;
    Glued16Parts(x);
    Glued16Value(Upper16(x), Lower16(x));
  }

  lemma LowerIs(x: word)
    ensures (Lower16(x) as bv32) == And(x, 0xffff)
  {
  }

  lemma LowerValue(l: bv16)
    ensures (l as bv32) as int == l as int && 0 <= l as int < 0x1_0000
  {
  }

  lemma LowerIndex(x: word)
    ensures Index(And(x, 0xffff)) == Lower16(x) as int < 0x1_0000
  {
    hide And, Lower16;
    LowerIs(x);
    LowerValue(Lower16(x));
  }

  lemma LowHalfValue(x: word)
    ensures Index(And(x, 0xffff)) == Index(x) % 0x1_0000
  {
    hide And, Upper16, Lower16, Index;
    Glued16Index(x);
    LowerIndex(x);
    DivUnique(Index(x), 0x1_0000, Upper16(x) as int, Lower16(x) as int);
  }

  // FNV-1 and FNV-1a.
  lemma XorZero(u: word)
    ensures Xor(u, 0) == u
  {
  }

  lemma PrimeValue()
    ensures Index(FNV_PRIME) == 16777619 && Index(FNV_OFFSET_BASIS) == 2166136261
  {
  }

  function Divided(p: word): word { p * 0x359c_449b }

  lemma PrimeInverts(u: word)
    ensures Divided(Times(u, FNV_PRIME)) == u
  {
    assert Times(u, FNV_PRIME) == u * 0x0100_0193;
    assert Divided(u * 0x0100_0193) == u * 0x0100_0193 * 0x359c_449b;
  }

  lemma TimesPrimeInjective(u: word, s: word)
    requires Times(u, FNV_PRIME) == Times(s, FNV_PRIME)
    ensures u == s
  {
    hide Times, Divided;
    PrimeInverts(u);
    PrimeInverts(s);
  }

  lemma XorIs(a: word, b: word)
    ensures Xor(a, b) == a ^ b
  {
  }

  lemma XorBits(t: word, v: word, w: word)
    ensures (t ^ v) ^ (t ^ w) == v ^ w
  {
  }

  lemma XorCancels(t: word, v: word, w: word)
    ensures Xor(Xor(t, v), Xor(t, w)) == Xor(v, w)
  {
    hide Xor;
    XorIs(t, v);
    XorIs(t, w);
    XorIs(v, w);
    XorIs(t ^ v, t ^ w);
    XorBits(t, v, w);
  }

  lemma XorDiffers(t: word, s: word, v: word)
    ensures Xor(t, v) == Xor(s, v) ==> t == s
    ensures Xor(v, t) == Xor(v, s) ==> t == s
  {
  }

  lemma TimesIs(a: word, b: word)
    ensures Times(a, b) == a * b
  {
  }

  lemma Fnv1Is(u: word, v: word)
    ensures Fnv1(u, v) == Xor(Times(u, FNV_PRIME), v)
  {
    hide Times, Xor;
    TimesIs(u, FNV_PRIME);
    XorIs(u * FNV_PRIME, v);
  }

  lemma Fnv1aBits(u: word, v: word)
    ensures Fnv1a(u, v) == (u ^ v) * FNV_PRIME
  {
  }

  lemma Fnv1aIs(u: word, v: word)
    ensures Fnv1a(u, v) == Times(Xor(u, v), FNV_PRIME)
  {
    hide Times, Xor, Fnv1a;
    Fnv1aBits(u, v);
    XorIs(u, v);
    TimesIs(u ^ v, FNV_PRIME);
  }

  /** FNV-1 multiplies first: changes of the second word go through unchanged, the first word is multiplied by the FNV
      prime, and neither is lost. */
  lemma Fnv1Means(u: word, v: word, w: word, s: word)
    ensures Xor(Fnv1(u, v), Fnv1(u, w)) == Xor(v, w)
    ensures Index(Fnv1(u, 0)) == Index(u) * 16777619 % TWO32
    ensures Fnv1(u, v) == Fnv1(s, v) ==> u == s
    ensures Fnv1(u, v) == Fnv1(u, w) ==> v == w
  {
    hide Xor, Times, Index, Fnv1;
    Fnv1Is(u, v);
    Fnv1Is(u, w);
    Fnv1Is(u, 0);
    Fnv1Is(s, v);
    XorZero(Times(u, FNV_PRIME));
    XorCancels(Times(u, FNV_PRIME), v, w);
    XorDiffers(Times(u, FNV_PRIME), Times(s, FNV_PRIME), v);
    XorDiffers(v, w, Times(u, FNV_PRIME));
    TimesValue(u, FNV_PRIME);
    PrimeValue();
    if Times(u, FNV_PRIME) == Times(s, FNV_PRIME) {
      TimesPrimeInjective(u, s);
    }
  }

  /** FNV-1a multiplies last: it is a function of the difference of its words, which it multiplies by the FNV prime. */
  lemma Fnv1aMeans(u: word, v: word, s: word)
    ensures Fnv1a(u, v) == Fnv1a(Xor(u, v), 0)
    ensures Index(Fnv1a(u, 0)) == Index(u) * 16777619 % TWO32
    ensures Fnv1a(u, v) == Fnv1a(s, v) ==> u == s
    ensures Fnv1a(v, u) == Fnv1a(v, s) ==> u == s
  {
    hide Xor, Times, Index, Fnv1a;
    Fnv1aIs(u, v);
    Fnv1aIs(u, 0);
    Fnv1aIs(Xor(u, v), 0);
    Fnv1aIs(s, v);
    Fnv1aIs(v, u);
    Fnv1aIs(v, s);
    XorZero(u);
    XorZero(Xor(u, v));
    XorDiffers(u, s, v);
    TimesValue(u, FNV_PRIME);
    PrimeValue();
    if Fnv1a(u, v) == Fnv1a(s, v) {
      TimesPrimeInjective(Xor(u, v), Xor(s, v));
    }
    if Fnv1a(v, u) == Fnv1a(v, s) {
      TimesPrimeInjective(Xor(v, u), Xor(v, s));
    }
  }
}

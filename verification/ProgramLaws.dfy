/** What the drawn numbers and the random operations are, as numbers and bit by bit. The interpreter and the emitted code
    share these words functions, so their agreement alone would not tell. */
module ProgramLaws {
  import opened Words
  import opened WordValues
  import opened Kiss99
  import opened Program
  import LongValues
  import FastMod

  lemma CarryValue(m: word, x: word)
    ensures Index(Carry(m, x)) == (Index(m) * (Index(x) % 0x1_0000) + Index(x) / 0x1_0000) % TWO32
  {
    hide Index, Plus, Times, And, Shr;
    var low := And(x, 0xffff);
    LowHalfValue(x);
    Sixteen();
    ShrValue(x, 16);
    TimesValue(m, low);
    PlusValue(Times(m, low), Shr(x, 16));
    Reduced(Index(m) * Index(low), Index(x) / 0x1_0000);
  }

  lemma Sixteen()
    ensures Index(16) == 16 && FastMod.Pow2(16) == 0x1_0000
  {
    assert FastMod.Pow2(8) == 0x100;
    FastMod.PowSum(8, 8);
  }

  lemma CongruenceValue(x: word)
    ensures Index(Congruence(x)) == (69069 * Index(x) + 1234567) % TWO32
  {
    hide Index, Plus, Times;
    Constants();
    TimesValue(69069, x);
    PlusValue(Times(69069, x), 1234567);
    Reduced(69069 * Index(x), 1234567);
  }

  lemma PairOfWords(z: word, w: word)
    ensures Index(Pair(z, w)) == (Index(z) * 0x1_0000 + Index(w)) % TWO32
  {
    hide Index, Plus, Shl, FastMod.Pow2;
    Sixteen();
    ShlValue(z, 16);
    PlusValue(Shl(z, 16), w);
    Reduced(Index(z) * 0x1_0000, Index(w));
  }

  /** The multiply-with-carry and congruential parts of KISS99, and the number drawn. */
  lemma DrawMeans(k: Kiss)
    ensures var n := Step(k);
      && Index(n.z) == (36969 * (Index(k.z) % 0x1_0000) + Index(k.z) / 0x1_0000) % TWO32
      && Index(n.w) == (18000 * (Index(k.w) % 0x1_0000) + Index(k.w) / 0x1_0000) % TWO32
      && Index(n.jcong) == (69069 * Index(k.jcong) + 1234567) % TWO32
    ensures Index(Out(k)) == (Index(Xor(Pair(k.z, k.w), k.jcong)) + Index(k.jsr)) % TWO32
    ensures Index(Pair(k.z, k.w)) == (Index(k.z) * 0x1_0000 + Index(k.w)) % TWO32
  {
    hide Index, Plus, Times, Xor, Shl, Carry, XorLeft, XorRight, Congruence, Pair;
    Constants();
    CarryValue(36969, k.z);
    CarryValue(18000, k.w);
    CongruenceValue(k.jcong);
    PairOfWords(k.z, k.w);
    PlusValue(Xor(Pair(k.z, k.w), k.jcong), k.jsr);
  }

  lemma Constants()
    ensures Index(36969) == 36969 && Index(18000) == 18000 && Index(69069) == 69069 && Index(1234567) == 1234567
  {
  }

  /** The shift-register part: each of the three steps adds a shifted copy of the word to it, bit by bit. */
  lemma ShiftRegisterMeans(k: Kiss, j: nat)
    requires j < 32
    ensures var x := k.jsr;
      var y := XorLeft(x, 17);
      var z := XorRight(y, 13);
      && (Bit(y, j) <==> Bit(x, j) != (j >= 17 && Bit(x, j - 17)))
      && (Bit(z, j) <==> Bit(y, j) != (j + 13 < 32 && Bit(y, j + 13)))
      && (Bit(Step(k).jsr, j) <==> Bit(z, j) != (j >= 5 && Bit(z, j - 5)))
  {
    hide Index, Xor, Shl, Shr, Bit, Carry, Congruence;
    ShiftCounts();
    var x := k.jsr;
    var y := XorLeft(x, 17);
    var z := XorRight(y, 13);
    ShiftBits(x, 17, j);
    LogicBits(x, Shl(x, 17), j);
    ShiftBits(y, 13, j);
    LogicBits(y, Shr(y, 13), j);
    ShiftBits(z, 5, j);
    LogicBits(z, Shl(z, 5), j);
  }

  lemma ShiftCounts()
    ensures Index(17) == 17 && Index(13) == 13 && Index(5) == 5
  {
  }

  const DEFAULT := Kiss(362436069, 521288629, 123456789, 380116160)

  /** The first numbers drawn from the default state. */
  lemma FirstNumbers()
    ensures var a := Step(DEFAULT);
      var b := Step(a);
      Out(a) == 769445856 && Out(b) == 742012328 && Out(Step(b)) == 2121196314
  {
  }

  // The leading zeros of a number of 32 bits.
  function Zeros(n: nat): (z: nat)
    requires n < TWO32
    ensures z <= 32
  {
    if n == 0 then 32 else FastMod.Clz(n)
  }

  lemma LogUnique(n: nat, l: nat)
    requires n > 0 && FastMod.Pow2(l) <= n < 2 * FastMod.Pow2(l)
    ensures FastMod.Log2(n) == l
  {
    hide FastMod.Pow2, FastMod.Log2;
    var k := FastMod.Log2(n);
    PowStep(k);
    PowStep(l);
    if k < l {
      FastMod.PowMonotone(k + 1, l);
    } else if l < k {
      FastMod.PowMonotone(l + 1, k);
    }
  }

  lemma ZerosValue(a: word)
    ensures Index(a) < TWO32 && Index(Clz(a)) == Zeros(Index(a))
  {
    hide Index, Clz, FastMod.Pow2, FastMod.Log2;
    Bound(a);
    NonZero(a);
    ClzValue(a);
    if a != 0 {
      PowStep(31 - Index(Clz(a)));
      LogUnique(Index(a), 31 - Index(Clz(a)));
    }
  }

  lemma PopcountBound(a: word)
    ensures Index(Popcount(a)) == |OnesAt(a, 32)| <= 32
  {
    hide Index, OnesAt, Ones;
    PopcountValue(a);
    OnesValue(a, 32);
  }

  lemma MathOf(a: word, b: word, sel: word)
    ensures var r, k := RandomMath(a, b, sel), Index(sel) % 11;
      && (k == 0 ==> r == Plus(a, b)) && (k == 1 ==> r == Times(a, b)) && (k == 2 ==> r == MulHi(a, b))
      && (k == 3 ==> r == Min(a, b)) && (k == 4 ==> r == Rotl(Cpu, a, b)) && (k == 5 ==> r == Rotr(Cpu, a, b))
      && (k == 6 ==> r == And(a, b)) && (k == 7 ==> r == Or(a, b)) && (k == 8 ==> r == Xor(a, b))
      && (k == 9 ==> r == Plus(Clz(a), Clz(b))) && (k == 10 ==> r == Plus(Popcount(a), Popcount(b)))
  {
    hide Index, Plus, Times, MulHi, Min, Rotl, Rotr, And, Or, Xor, Clz, Popcount;
  }

  lemma TimesMeans(a: word, b: word)
    ensures Index(Times(a, b)) == Index(a) * Index(b) % TWO32
    ensures Index(MulHi(a, b)) == Index(a) * Index(b) / TWO32
  {
    hide Index, Times, MulHi;
    TimesValue(a, b);
    LongValues.MulHiValue(a, b);
  }

  lemma RandomMathProducts(a: word, b: word, sel: word)
    ensures var r, k, x, y := RandomMath(a, b, sel), Index(sel) % 11, Index(a), Index(b);
      && (k == 1 ==> Index(r) == x * y % TWO32)
      && (k == 2 ==> Index(r) == x * y / TWO32)
  {
    hide Index, Plus, Times, MulHi, Min, Rotl, Rotr, And, Or, Xor, Clz, Popcount, OnesAt, RandomMath, Zeros, FastMod.Pow2;
    MathOf(a, b, sel);
    TimesMeans(a, b);
  }

  lemma RandomMathSums(a: word, b: word, sel: word)
    ensures var r, k, x, y := RandomMath(a, b, sel), Index(sel) % 11, Index(a), Index(b);
      && (k == 0 ==> Index(r) == (x + y) % TWO32)
      && (k == 3 ==> Index(r) == if x < y then x else y)
  {
    hide Index, Plus, Times, MulHi, Min, Rotl, Rotr, And, Or, Xor, Clz, Popcount, OnesAt, RandomMath, Zeros, FastMod.Pow2;
    MathOf(a, b, sel);
    PlusValue(a, b);
    MinValue(a, b);
  }

  /** random_math, by the remainder of the selector: the operations on numbers. */
  lemma RandomMathNumbers(a: word, b: word, sel: word)
    ensures var r, k, x, y := RandomMath(a, b, sel), Index(sel) % 11, Index(a), Index(b);
      && (k == 0 ==> Index(r) == (x + y) % TWO32)
      && (k == 1 ==> Index(r) == x * y % TWO32)
      && (k == 2 ==> Index(r) == x * y / TWO32)
      && (k == 3 ==> Index(r) == if x < y then x else y)
  {
    hide Index, Plus, Times, MulHi, Min, Rotl, Rotr, And, Or, Xor, Clz, Popcount, OnesAt, RandomMath, Zeros, FastMod.Pow2;
    RandomMathProducts(a, b, sel);
    RandomMathSums(a, b, sel);
  }

  lemma TwoCounts(x: word, y: word)
    requires Index(x) <= 32 && Index(y) <= 32
    ensures Index(Plus(x, y)) == Index(x) + Index(y)
  {
    hide Index, Plus;
    PlusValue(x, y);
  }

  lemma TwoZeros(a: word, b: word)
    ensures Index(a) < TWO32 && Index(b) < TWO32
    ensures Index(Plus(Clz(a), Clz(b))) == Zeros(Index(a)) + Zeros(Index(b))
  {
    hide Index, Plus, Clz, Zeros;
    ZerosValue(a);
    ZerosValue(b);
    TwoCounts(Clz(a), Clz(b));
  }

  lemma TwoOnes(a: word, b: word)
    ensures Index(Plus(Popcount(a), Popcount(b))) == |OnesAt(a, 32)| + |OnesAt(b, 32)|
  {
    hide Index, Plus, Popcount, OnesAt;
    PopcountBound(a);
    PopcountBound(b);
    TwoCounts(Popcount(a), Popcount(b));
  }

  /** random_math: leading zeros and set bits of both operands, added up. */
  lemma RandomMathCounts(a: word, b: word, sel: word)
    ensures Index(a) < TWO32 && Index(b) < TWO32
    ensures var r, k := RandomMath(a, b, sel), Index(sel) % 11;
      && (k == 9 ==> Index(r) == Zeros(Index(a)) + Zeros(Index(b)))
      && (k == 10 ==> Index(r) == |OnesAt(a, 32)| + |OnesAt(b, 32)|)
  {
    hide Index, Plus, Times, MulHi, Min, Rotl, Rotr, And, Or, Xor, Clz, Popcount, OnesAt, RandomMath, Zeros, FastMod.Pow2;
    MathOf(a, b, sel);
    TwoZeros(a, b);
    TwoOnes(a, b);
  }

  /** random_math: the operations on bits. */
  lemma RandomMathBits(a: word, b: word, sel: word, j: nat)
    requires j < 32
    ensures var r, k, y := RandomMath(a, b, sel), Index(sel) % 11, Index(b);
      && (k == 4 ==> (Bit(r, (j + y) % 32) <==> Bit(a, j)))
      && (k == 5 ==> (Bit(r, j) <==> Bit(a, (j + y) % 32)))
      && (k == 6 ==> (Bit(r, j) <==> Bit(a, j) && Bit(b, j)))
      && (k == 7 ==> (Bit(r, j) <==> Bit(a, j) || Bit(b, j)))
      && (k == 8 ==> (Bit(r, j) <==> Bit(a, j) != Bit(b, j)))
  {
    hide Index, Plus, Times, MulHi, Min, Rotl, Rotr, And, Or, Xor, Clz, Popcount, Bit, RandomMath;
    MathOf(a, b, sel);
    RotationBits(a, b, j);
    LogicBits(a, b, j);
  }

  lemma CountOfMerge(sel: word)
    ensures Index(MergeCount(sel)) == Index(sel) / 0x1_0000 % 31 + 1
  {
    hide Index;
    WordValue(Index(sel) / 0x1_0000 % 31 + 1);
  }

  lemma ThirtyThree()
    ensures Index(33) == 33
  {
  }

  lemma MergeOf(a: word, b: word, sel: word)
    ensures var r, k, n := RandomMerge(a, b, sel), Index(sel) % 4, MergeCount(sel);
      && (k == 0 ==> r == Plus(Times(a, 33), b)) && (k == 1 ==> r == Times(Xor(a, b), 33))
      && (k == 2 ==> r == Xor(Rotl(Cpu, a, n), b)) && (k == 3 ==> r == Xor(Rotr(Cpu, a, n), b))
  {
    hide Index, Plus, Times, Rotl, Rotr, Xor, MergeCount;
  }

  lemma Times33(a: word, b: word)
    ensures Index(Times(a, 33)) == Index(a) * 33 % TWO32
    ensures Index(Plus(Times(a, 33), b)) == (Index(a) * 33 + Index(b)) % TWO32
  {
    hide Index, Plus, Times;
    ThirtyThree();
    TimesValue(a, 33);
    PlusValue(Times(a, 33), b);
    Reduced(Index(a) * 33, Index(b));
  }

  lemma TurnedAndMixed(a: word, b: word, n: word, j: nat)
    requires j < 32
    ensures Bit(Xor(Rotl(Cpu, a, n), b), (j + Index(n)) % 32) <==> Bit(a, j) != Bit(b, (j + Index(n)) % 32)
    ensures Bit(Xor(Rotr(Cpu, a, n), b), j) <==> Bit(a, (j + Index(n)) % 32) != Bit(b, j)
  {
    hide Index, Rotl, Rotr, Xor, Bit;
    RotationBits(a, n, j);
    LogicBits(Rotl(Cpu, a, n), b, (j + Index(n)) % 32);
    LogicBits(Rotr(Cpu, a, n), b, j);
  }

  /** random_merge, by the remainder of the selector; the count of its rotations is from 1 to 31, from the high half. */
  lemma RandomMergeMeans(a: word, b: word, sel: word, j: nat)
    requires j < 32
    ensures var r, k, c := RandomMerge(a, b, sel), Index(sel) % 4, Index(sel) / 0x1_0000 % 31 + 1;
      && (k == 0 ==> Index(r) == (Index(a) * 33 + Index(b)) % TWO32)
      && (k == 1 ==> Index(r) == Index(Xor(a, b)) * 33 % TWO32)
      && (k == 2 ==> (Bit(r, (j + c) % 32) <==> Bit(a, j) != Bit(b, (j + c) % 32)))
      && (k == 3 ==> (Bit(r, j) <==> Bit(a, (j + c) % 32) != Bit(b, j)))
  {
    hide Index, Plus, Times, Rotl, Rotr, Xor, Bit, MergeCount, RandomMerge;
    MergeOf(a, b, sel);
    CountOfMerge(sel);
    Times33(a, b);
    Times33(Xor(a, b), b);
    TurnedAndMixed(a, b, MergeCount(sel), j);
  }

  lemma SeedIs(seed: bv64)
    ensures SeedHigh(seed) == LongValues.High(seed) && SeedLow(seed) == LongValues.Low(seed)
  {
  }

  /** The halves of a seed or a nonce give it back. */
  lemma SeedOfHalves(seed: bv64)
    ensures LongValues.Value(seed) == Index(SeedHigh(seed)) * TWO32 + Index(SeedLow(seed))
  {
    hide SeedHigh, SeedLow, LongValues.High, LongValues.Low, LongValues.Value, Index;
    SeedIs(seed);
    LongValues.HalvesValue(seed);
  }

  lemma SeedsDiffer(s: bv64, t: bv64)
    requires SeedHigh(s) == SeedHigh(t) && SeedLow(s) == SeedLow(t)
    ensures s == t
  {
    hide SeedHigh, SeedLow, LongValues.Value, Index;
    SeedOfHalves(s);
    SeedOfHalves(t);
    LongValues.Injective64(s, t);
  }

  lemma PeriodOf(block: Int32)
    ensures Period(block) == if block == 2147483647 then 1 else if block <= -2147483647 then -1 else 0
  {
  }

  /** A period has as many blocks as the greatest block number, and the division rounds toward zero: all blocks share
      one program but the last one and the two lowest negative numbers. */
  lemma Periods(block: Int32)
    ensures LongValues.Value(PeriodSeed(block)) ==
      if block == 2147483647 then 1 else if block <= -2147483647 then 18446744073709551615 else 0
  {
    PeriodOf(block);
    SeedIsLong(block);
    hide LongValues.Value, LongValues.Long, PeriodSeed;
    LongValues.LongValue(Period(block) % LongValues.TWO64);
  }

  lemma SeedIsLong(block: Int32)
    ensures PeriodSeed(block) == LongValues.Long(Period(block) % LongValues.TWO64)
  {
    hide Period;
  }

  lemma SlotIs(l: nat, r: nat)
    requires l < LANES && r < LOOPS
    ensures Slot(l, r) == Index(Xor(l as bv32, r as bv32)) % 16
  {
    XorIs(l as bv32, r as bv32);
    hide Index, Xor;
  }

  // Binary digit j of a number.
  function Digit(n: nat, j: nat): (d: nat)
    ensures d < 2
  {
    n / FastMod.Pow2(j) % 2
  }

  lemma BitIs(x: word, n: nat, j: nat)
    requires Index(x) == n
    ensures Bit(x, j) <==> Digit(n, j) == 1
  {
    hide Index, FastMod.Pow2;
  }

  lemma DigitOf16(n: nat, j: nat)
    requires j < 4
    ensures Digit(n % 16, j) == Digit(n, j)
  {
    Pow4();
    hide FastMod.Pow2;
    DigitBelow(n, 4, j);
  }

  /** The part of an item that a lane reads in a loop has the digits of the lane, turned where the loop has a one. */
  lemma SlotDigits(l: nat, r: nat, j: nat)
    requires l < LANES && r < LOOPS && j < 4
    ensures Digit(Slot(l, r), j) == (Digit(l, j) + Digit(r, j)) % 2
  {
    hide Index, Xor, Slot, Digit, Bit;
    var x := Xor(l as bv32, r as bv32);
    SlotIs(l, r);
    WordValue(l);
    WordValue(r);
    LogicBits(l as bv32, r as bv32, j);
    BitIs(l as bv32, l, j);
    BitIs(r as bv32, r, j);
    BitIs(x, Index(x), j);
    DigitOf16(Index(x), j);
  }

  lemma Pow4()
    ensures FastMod.Pow2(0) == 1 && FastMod.Pow2(1) == 2 && FastMod.Pow2(2) == 4 && FastMod.Pow2(3) == 8 && FastMod.Pow2(4) == 16
  {
  }

  lemma SameDigit(l: nat, m: nat, r: nat, j: nat)
    requires l < LANES && m < LANES && r < LOOPS && Slot(l, r) == Slot(m, r) && j < 4
    ensures Digit(l, j) == Digit(m, j)
  {
    hide Slot, Digit;
    SlotDigits(l, r, j);
    SlotDigits(m, r, j);
  }

  /** In every loop the lanes read different parts, so that together they read the whole item. */
  lemma SlotsDiffer(l: nat, m: nat, r: nat)
    requires l < LANES && m < LANES && r < LOOPS && Slot(l, r) == Slot(m, r)
    ensures l == m
  {
    hide Slot, Digit;
    SameDigit(l, m, r, 0);
    SameDigit(l, m, r, 1);
    SameDigit(l, m, r, 2);
    SameDigit(l, m, r, 3);
    FourDigits(l);
    FourDigits(m);
  }

  lemma FourDigits(n: nat)
    requires n < 16
    ensures n == Digit(n, 0) + 2 * Digit(n, 1) + 4 * Digit(n, 2) + 8 * Digit(n, 3)
  {
    Pow4();
    hide FastMod.Pow2;
  }
}

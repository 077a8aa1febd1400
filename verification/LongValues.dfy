/** 64-bit words as numbers: the product of two words, and the two words a long one is made of. */
module LongValues {
  import opened Arith
  import opened Words
  import opened WordValues

  const TWO64 := 0x1_0000_0000_0000_0000
  const TOP: bv64 := 0xffff_ffff_ffff_ffff

  function Value(x: bv64): nat { x as int }

  function Half64(x: bv64): bv64 { x >> 1 }

  predicate Odd64(x: bv64) { x & 1 == 1 }

  function Next64(x: bv64): bv64 { x + 1 }

  function Rest64(x: bv64): bv63 { (x >> 1) as bv63 }

  function Last64(x: bv64): bv1 { (x & 1) as bv1 }

  function Joined64(q: bv63, r: bv1): bv64 { ((q as bv64) << 1) | (r as bv64) }

  lemma JoinedBits64(q: bv63, r: bv1)
    ensures (((q as bv64) << 1) | (r as bv64)) as int == (q as int) * 2 + (r as int)
  {
  }

  lemma JoinedValue64(q: bv63, r: bv1)
    ensures Joined64(q, r) as int == (q as int) * 2 + (r as int)
  {
    JoinedBits64(q, r);
    assert Joined64(q, r) == ((q as bv64) << 1) | (r as bv64);
    hide Joined64;
  }

  lemma InParts64(x: bv64)
    ensures x == Joined64(Rest64(x), Last64(x))
  {
  }

  lemma RestIsHalf64(x: bv64)
    ensures (Rest64(x) as bv64) == Half64(x)
  {
  }

  lemma Widened64(q: bv63)
    ensures (q as bv64) as int == q as int
  {
  }

  lemma RestValue64(x: bv64)
    ensures Rest64(x) as int == Value(Half64(x))
  {
    hide Rest64, Half64;
    RestIsHalf64(x);
    Widened64(Rest64(x));
  }

  lemma LastValue64(x: bv64)
    ensures Last64(x) as int == if Odd64(x) then 1 else 0
  {
  }

  lemma PartsValue64(x: bv64)
    ensures Value(x) == (Rest64(x) as int) * 2 + (Last64(x) as int)
  {
    hide Rest64, Last64, Joined64;
    InParts64(x);
    JoinedValue64(Rest64(x), Last64(x));
  }

  lemma Halves64(x: bv64)
    ensures Value(x) == 2 * Value(Half64(x)) + if Odd64(x) then 1 else 0
  {
    hide Rest64, Last64, Half64, Odd64, Value;
    PartsValue64(x);
    RestValue64(x);
    LastValue64(x);
  }

  lemma Bound64(x: bv64)
    ensures 0 <= Value(x) < TWO64 && Value(0) == 0 && Value(TOP) == TWO64 - 1
  {
  }

  lemma Injective64(x: bv64, y: bv64)
    requires Value(x) == Value(y)
    ensures x == y
  {
    assert (x as int) as bv64 == x && (y as int) as bv64 == y;
  }

  lemma EvenNext64(x: bv64)
    requires !Odd64(x)
    ensures x != TOP && Odd64(Next64(x)) && Half64(Next64(x)) == Half64(x)
  {
  }

  lemma OddNext64(x: bv64)
    requires Odd64(x)
    ensures !Odd64(Next64(x)) && Half64(x) != TOP
    ensures (x != TOP ==> Half64(Next64(x)) == Next64(Half64(x))) && (x == TOP ==> Next64(x) == 0)
  {
  }

  lemma {:induction false} Successor64(x: bv64)
    ensures Value(Next64(x)) == if x == TOP then 0 else Value(x) + 1
    decreases Value(x)
  {
    hide Half64, Odd64, Next64, Value;
    Bound64(x);
    Halves64(x);
    Halves64(Next64(x));
    if Odd64(x) {
      OddNext64(x);
      Successor64(Half64(x));
    } else {
      EvenNext64(x);
    }
  }

  function Plus64(x: bv64, y: bv64): bv64 { x + y }

  function Times64(x: bv64, y: bv64): bv64 { x * y }

  function Wide(a: word): bv64 { a as bv64 }

  lemma PlusNext64(x: bv64, c: bv64)
    ensures Plus64(x, 0) == x && Plus64(x, Next64(c)) == Next64(Plus64(x, c))
  {
    assert Next64(c) == c + 1;
    assert Plus64(x, c + 1) == x + (c + 1);
    assert Plus64(x, c) == x + c;
    assert Next64(x + c) == x + c + 1;
  }

  lemma TimesNext64(x: bv64, c: bv64)
    ensures Times64(x, 0) == 0 && Times64(x, Next64(c)) == Plus64(Times64(x, c), x)
  {
    assert Next64(c) == c + 1;
    assert Times64(x, c + 1) == x * (c + 1);
    assert x * (c + 1) == x * c + x;
    assert Times64(x, c) == x * c;
    assert Plus64(x * c, x) == x * c + x;
  }

  lemma WideNext(c: word)
    ensures Wide(0) == 0 && (c != MAX ==> Wide(Next(c)) == Next64(Wide(c)))
  {
  }

  // A word added to a long one.
  function PlusWord(x: bv64, a: word): bv64 { Plus64(x, Wide(a)) }

  lemma PlusWordNext(x: bv64, c: word)
    requires c != MAX
    ensures PlusWord(x, 0) == x && PlusWord(x, Next(c)) == Next64(PlusWord(x, c))
  {
    hide Plus64, Wide, Next, Next64;
    WideNext(c);
    PlusNext64(x, Wide(c));
  }

  lemma {:induction false} PlusWordValue(x: bv64, a: word)
    ensures Value(PlusWord(x, a)) == (Value(x) + Index(a)) % TWO64
    decreases Index(a)
  {
    hide Next, Before, PlusWord, Next64, Index, Value;
    Bound64(x);
    Bound(a);
    if a == 0 {
      PlusWordNext(x, 0);
    } else {
      NextBefore(a);
      Predecessor(a);
      var y := PlusWord(x, Before(a));
      PlusWordNext(x, Before(a));
      PlusWordValue(x, Before(a));
      Bound64(y);
      Successor64(y);
      if y != TOP && Value(y) == TWO64 - 1 {
        Injective64(y, TOP);
      }
    }
  }

  function Product(a: word, b: word): bv64 { Times64(Wide(a), Wide(b)) }

  lemma ProductNext(a: word, c: word)
    requires c != MAX
    ensures Product(a, 0) == 0 && Product(a, Next(c)) == PlusWord(Product(a, c), a)
  {
    hide Plus64, Times64, Wide, Next, Next64;
    WideNext(c);
    TimesNext64(Wide(a), Wide(c));
  }

  lemma Fits(a: nat, b: nat)
    requires a < TWO32 && 0 < b < TWO32
    ensures 0 <= a * (b - 1) && a * (b - 1) + a == a * b < TWO64
  {
    MulLe(a, b, TWO32);
    MulLe(a, 0, b - 1);
  }

  /** The 64-bit product of two words is the product of the numbers. */
  lemma {:induction false} ProductValue(a: word, b: word)
    ensures Value(Product(a, b)) == Index(a) * Index(b)
    decreases Index(b)
  {
    hide Next, Before, PlusWord, Product, Index, Value;
    Bound(a);
    Bound(b);
    Bound64(0);
    if b == 0 {
      ProductNext(a, 0);
    } else {
      NextBefore(b);
      Predecessor(b);
      ProductNext(a, Before(b));
      ProductValue(a, Before(b));
      PlusWordValue(Product(a, Before(b)), a);
      NonZero(b);
      Fits(Index(a), Index(b));
    }
  }

  // The two halves.
  function High(x: bv64): word { (x >> 32) as bv32 }

  function Low(x: bv64): word { (x & 0xffff_ffff) as bv32 }

  function Pair(h: word, l: word): bv64 { ((h as bv64) << 32) | (l as bv64) }

  lemma PairBits(h: word, l: word)
    ensures (((h as bv64) << 32) | (l as bv64)) as int == (h as int) * TWO32 + (l as int)
  {
  }

  lemma PairValue(h: word, l: word)
    ensures Value(Pair(h, l)) == Index(h) * TWO32 + Index(l)
  {
    PairBits(h, l);
    assert Pair(h, l) == ((h as bv64) << 32) | (l as bv64);
    hide Pair;
  }

  lemma PairOfHalves(x: bv64)
    ensures Pair(High(x), Low(x)) == x
  {
  }

  /** A long word is its two halves. */
  lemma HalvesValue(x: bv64)
    ensures Value(x) == Index(High(x)) * TWO32 + Index(Low(x))
  {
    hide High, Low, Pair, Value, Index;
    PairOfHalves(x);
    PairValue(High(x), Low(x));
  }

  lemma ProductIs(a: word, b: word)
    ensures Product(a, b) == (a as bv64) * (b as bv64)
  {
    assert Wide(a) == a as bv64 && Wide(b) == b as bv64;
    assert Times64(a as bv64, b as bv64) == (a as bv64) * (b as bv64);
    hide Wide, Times64;
  }

  lemma HighIs(x: bv64)
    ensures High(x) == (x >> 32) as bv32
  {
  }

  lemma MulHiIs(a: word, b: word)
    ensures MulHi(a, b) == (((a as bv64) * (b as bv64)) >> 32) as bv32
  {
  }

  lemma MulHiIsHigh(a: word, b: word)
    ensures MulHi(a, b) == High(Product(a, b))
  {
    hide MulHi, High, Product;
    ProductIs(a, b);
    MulHiIs(a, b);
    HighIs((a as bv64) * (b as bv64));
  }

  /** mul_hi32 is the product divided by 2^32, and Times what remains. */
  lemma MulHiValue(a: word, b: word)
    ensures Index(MulHi(a, b)) == Index(a) * Index(b) / TWO32
    ensures Index(MulHi(a, b)) * TWO32 + Index(Times(a, b)) == Index(a) * Index(b)
  {
    hide MulHi, High, Low, Product, Value, Index, Times;
    var p := Product(a, b);
    ProductValue(a, b);
    HalvesValue(p);
    MulHiIsHigh(a, b);
    TimesValue(a, b);
    Bound(Low(p));
    Bound(Times(a, b));
    DivUnique(Index(a) * Index(b), TWO32, Index(High(p)), Index(Low(p)));
  }

  function Long(n: nat): bv64
    requires n < TWO64
  {
    n as bv64
  }

  lemma Same(x: bv64)
    ensures 0 <= Value(x) < TWO64 && Long(Value(x)) == x
  {
  }

  lemma SomeLong(n: nat) returns (x: bv64)
    requires n < TWO64
    ensures Value(x) == n
  {
    hide Index, Pair, Value;
    var h := SomeWord(n / TWO32);
    var l := SomeWord(n % TWO32);
    x := Pair(h, l);
    PairValue(h, l);
  }

  /** A number that fits is the value of its long word. */
  lemma LongValue(n: nat)
    requires n < TWO64
    ensures Value(Long(n)) == n
  {
    hide Value, Long;
    var x := SomeLong(n);
    Same(x);
  }
}

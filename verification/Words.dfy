/** 32-bit machine words and the word functions of libethash/bit_manipulation.h. Data words are bit
    vectors; a word used as an index is the integer it denotes. */
module Words {
  type word = bv32

  function Index(x: word): nat { x as int }

  function Plus(a: word, b: word): word { a + b }

  function Times(a: word, b: word): word { a * b }

  function And(a: word, b: word): word { a & b }

  function Or(a: word, b: word): word { a | b }

  function Xor(a: word, b: word): word { a ^ b }

  function Rem(a: word, b: word): word
    requires b != 0
  {
    a % b
  }

  // The high half of the 64-bit product.
  function MulHi(a: word, b: word): word {
    (((a as bv64) * (b as bv64)) >> 32) as bv32
  }

  function Min(a: word, b: word): word { if a < b then a else b }

  // The length of a word without its leading zeros, if it is at most n; 0 for the zero word.
  function Length(x: word, n: nat): (c: nat)
    ensures c <= n
  {
    if n == 0 || x == 0 then 0 else 1 + Length(x >> 1, n - 1)
  }

  // clz32, __clz and clz: 32 for the zero word.
  function Clz(x: word): word { (32 - Length(x, 32)) as bv32 }

  // The number of ones among the low n bits.
  function Ones(x: word, n: nat): (c: nat)
    ensures c <= n
  {
    if n == 0 then 0 else (if x & 1 == 1 then 1 else 0) + Ones(x >> 1, n - 1)
  }

  function Popcount(x: word): word { Ones(x, 32) as bv32 }

  const FNV_PRIME: word := 0x0100_0193
  const FNV_OFFSET_BASIS: word := 0x811c_9dc5

  function Fnv1(u: word, v: word): word { (u * FNV_PRIME) ^ v }

  function Fnv1a(u: word, v: word): word { (u ^ v) * FNV_PRIME }

  /** How the same rotation is written for each target. */
  datatype Dialect = Cpu | OpenCl | Cuda | CudaBefore35

  function Shl(x: word, n: word): word
    requires n <= 32
  {
    x << n
  }

  function Shr(x: word, n: word): word
    requires n <= 32
  {
    x >> n
  }

  // Bits of either word; the operands of a rotation have none in common.
  function Join(x: word, y: word): word { x | y }

  function Count(n: word): (m: word)
    ensures m < 32
  {
    n & 31
  }

  // rotl32; rotate; __funnelshift_l, which takes its count modulo 32; and the shift macro for older
  // CUDA devices, on which a shift by the whole width gives zero.
  function Rotl(d: Dialect, x: word, n: word): word {
    match d
    case Cpu => Join(Shl(x, Count(n)), Shr(x, Count(-Count(n))))
    case OpenCl => Rotate(x, Count(n))
    case Cuda => FunnelLeft(x, x, Count(n))
    case CudaBefore35 => Join(Shl(x, n % 32), Shr(x, 32 - n % 32))
  }

  // rotr32; rotate by 32 - n; __funnelshift_r; and the shift macro.
  function Rotr(d: Dialect, x: word, n: word): word {
    match d
    case Cpu => Join(Shr(x, Count(n)), Shl(x, Count(-Count(n))))
    case OpenCl => Rotate(x, Count(32 - n))
    case Cuda => FunnelRight(x, x, Count(n))
    case CudaBefore35 => Join(Shr(x, n % 32), Shl(x, 32 - n % 32))
  }

  function Rotate(x: word, n: word): word
    requires n < 32
  {
    Join(Shl(x, n), Shr(x, 32 - n))
  }

  // The high half of hi:lo shifted left, and the low half of hi:lo shifted right.
  function FunnelLeft(lo: word, hi: word, n: word): word
    requires n < 32
  {
    if n == 0 then hi else Join(Shl(hi, n), Shr(lo, 32 - n))
  }

  function FunnelRight(lo: word, hi: word, n: word): word
    requires n < 32
  {
    if n == 0 then lo else Join(Shl(hi, 32 - n), Shr(lo, n))
  }

  lemma Counts(n: word)
    ensures n % 32 == Count(n)
    ensures Count(n) == 0 ==> Count(-Count(n)) == 0 && Count(32 - n) == 0
    ensures Count(n) != 0 ==> Count(-Count(n)) == 32 - Count(n) == Count(32 - n)
    ensures 32 - (32 - Count(n)) == Count(n)
  {
  }

  lemma Joins(x: word, y: word)
    ensures Join(x, y) == Join(y, x) && Join(x, x) == x && Join(x, 0) == x
    ensures Shl(x, 0) == x && Shr(x, 0) == x && Shl(x, 32) == 0 && Shr(x, 32) == 0
  {
  }

  /** Every target's rotation by any count is the CPU's. */
  lemma RotationsAgree(d: Dialect, x: word, n: word)
    ensures Rotl(d, x, n) == Rotl(Cpu, x, n)
    ensures Rotr(d, x, n) == Rotr(Cpu, x, n)
  {
    hide Shl, Shr, Join, Count;
    var m := Count(n);
    Counts(n);
    Joins(x, x);
    Joins(Shr(x, m), Shl(x, 32 - m));
  }

  lemma TurnedBack(x: word, m: word)
    requires 0 < m < 32
    ensures var y := Join(Shl(x, m), Shr(x, 32 - m));
      Join(Shr(y, m), Shl(y, 32 - m)) == x
  {
    hide Shl, Shr, Join;
    BackRight(x, m);
    BackLeft(x, m);
    Halves(x, m);
  }

  lemma BackRight(x: word, m: word)
    requires 0 < m < 32
    ensures Shr(Join(Shl(x, m), Shr(x, 32 - m)), m) == Shr(Shl(x, m), m)
  {
  }

  lemma BackLeft(x: word, m: word)
    requires 0 < m < 32
    ensures Shl(Join(Shl(x, m), Shr(x, 32 - m)), 32 - m) == Shl(Shr(x, 32 - m), 32 - m)
  {
  }

  lemma Halves(x: word, m: word)
    requires 0 < m < 32
    ensures Join(Shr(Shl(x, m), m), Shl(Shr(x, 32 - m), 32 - m)) == x
  {
  }

  /** Rotations left and right by one count undo each other. */
  lemma RotationsInvert(x: word, n: word)
    ensures Rotr(Cpu, Rotl(Cpu, x, n), n) == x
    ensures Rotl(Cpu, Rotr(Cpu, x, n), n) == x
  {
    hide Shl, Shr, Join, Count;
    var m := Count(n);
    Counts(n);
    Joins(x, x);
    if m != 0 {
      TurnedBack(x, m);
      TurnedBack(x, 32 - m);
      var y := Join(Shr(x, m), Shl(x, 32 - m));
      Joins(Shr(x, m), Shl(x, 32 - m));
      Joins(Shr(y, 32 - m), Shl(y, m));
    }
  }

  /** 33 is invertible modulo 2^32. */
  lemma Times33Injective(x: word, y: word)
    requires Times(x, 33) == Times(y, 33)
    ensures x == y
  {
  }

  // Plus and Xor by one word are undone by Minus and Xor.
  function Minus(a: word, b: word): word { a - b }

  lemma PlusBits(a: word, b: word)
    ensures Plus(a, b) == a + b && Minus(a + b, b) == (a + b) - b
  {
  }

  lemma SumBits(a: word, b: word)
    ensures (a + b) - b == a
  {
  }

  lemma SumUndone(a: word, b: word)
    ensures Minus(a + b, b) == a
  {
    hide Minus, Plus;
    PlusBits(a, b);
    SumBits(a, b);
  }

  lemma PlusUndone(a: word, b: word)
    ensures Minus(Plus(a, b), b) == a
  {
    hide Minus, Plus;
    SumUndone(a, b);
    PlusBits(a, b);
  }

  lemma XorUndone(a: word, b: word)
    ensures Xor(Xor(a, b), b) == a
  {
  }

  lemma Cancels(a: word, c: word, b: word)
    ensures Plus(a, b) == Plus(c, b) ==> a == c
    ensures Xor(a, b) == Xor(c, b) ==> a == c
  {
    hide Plus, Minus, Xor;
    PlusUndone(a, b);
    PlusUndone(c, b);
    XorUndone(a, b);
    XorUndone(c, b);
  }
}

/** What the operations on lanes do to their bits: the 32-bit lanes of Keccak-f[800] and the 64-bit lanes of
    Keccak-f[1600]. */
module LaneLaws {
  import opened Arith
  import opened Words
  import opened WordValues
  import LongValues
  import FastMod
  import K = Keccak
  import KeccakCl
  import KeccakSpec
  import Sponge
  import R = Rotation

  /** Bit j of a 64-bit lane, counted from the least significant. */
  predicate LongBit(x: bv64, j: nat) { LongValues.Value(x) / FastMod.Pow2(j) % 2 == 1 }

  lemma PackIsPair(x: bv32, y: bv32)
    ensures R.Pack(x, y) == LongValues.Pair(y, x)
  {
  }

  lemma PackValue(x: bv32, y: bv32)
    ensures LongValues.Value(R.Pack(x, y)) == Index(y) * TWO32 + Index(x)
  {
    hide R.Pack, LongValues.Pair;
    PackIsPair(x, y);
    LongValues.PairValue(y, x);
  }

  /** The bits of a lane are those of its low word, then those of its high word. */
  lemma PackBits(x: bv32, y: bv32, j: nat)
    requires j < 64
    ensures LongBit(R.Pack(x, y), j) <==> if j < 32 then Bit(x, j) else Bit(y, j - 32)
  {
    hide R.Pack, Index, FastMod.Pow2, LongValues.Value;
    PackValue(x, y);
    Bound(x);
    FastMod.Pow31();
    if j < 32 {
      var q, p := FastMod.Pow2(31 - j), FastMod.Pow2(j);
      FastMod.PowSum(31 - j, j);
      PowStep(31);
      assert TWO32 == 2 * q * p;
      LowDigit(Index(x), Index(y), p, q);
    } else {
      FastMod.PowSum(32, j - 32);
      HighDigit(Index(x), Index(y), TWO32, FastMod.Pow2(j - 32));
    }
  }

  function Wide(n: bv8): word { n as bv32 }

  lemma CountIs(s: nat)
    requires s < 64
    ensures Index(Wide(K.Count(s))) == s
  {
  }

  // The two parts of a rotated half.
  function Upper(x: bv32, n: bv8): bv32
    requires n <= 32
  {
    x << n
  }

  function Lower(y: bv32, k: bv8): bv32
    requires k <= 32
  {
    y >> k
  }

  lemma UpperIs(x: bv32, n: bv8)
    requires n <= 32
    ensures Wide(n) <= 32 && Upper(x, n) == Shl(x, Wide(n))
  {
  }

  lemma LowerIs(y: bv32, k: bv8)
    requires k <= 32
    ensures Wide(k) <= 32 && Lower(y, k) == Shr(y, Wide(k))
  {
  }

  lemma Opposite(n: bv8)
    requires n <= 32
    ensures 32 - n <= 32 && Wide(32 - n) == 32 - Wide(n)
  {
  }

  lemma NearIsParts(x: bv32, y: bv32, n: bv8)
    requires n <= 32
    ensures R.Near(x, y, n) == Or(Upper(x, n), Lower(y, 32 - n))
  {
  }

  // The high bits of one word under the low bits of another.
  lemma NearIsShifts(x: bv32, y: bv32, n: bv8)
    requires n <= 32
    ensures Wide(n) <= 32 && R.Near(x, y, n) == Or(Shl(x, Wide(n)), Shr(y, 32 - Wide(n)))
  {
    hide R.Near, Or, Shl, Shr, Wide, Upper, Lower;
    NearIsParts(x, y, n);
    UpperIs(x, n);
    Opposite(n);
    LowerIs(y, 32 - n);
  }

  lemma NearEnds(x: bv32, y: bv32)
    ensures R.Near(x, y, 0) == x && R.Near(x, y, 32) == y
  {
  }

  /** Bit j of the rotated half comes from s places below, through the other word. */
  lemma NearBits(x: bv32, y: bv32, n: bv8, j: nat)
    requires Index(Wide(n)) <= 32 && j < 32 && n <= 32
    ensures var s := Index(Wide(n)); Bit(R.Near(x, y, n), j) <==> if j >= s then Bit(x, j - s) else Bit(y, j + 32 - s)
  {
    hide R.Near, Or, Shl, Shr, Wide, Bit, Index;
    var m := Wide(n);
    if 0 < Index(m) < 32 {
      NearIsShifts(x, y, n);
      Complement(m);
      ShiftBits(x, m, j);
      ShiftBits(y, 32 - m, j);
      LogicBits(Shl(x, m), Shr(y, 32 - m), j);
    } else {
      NearEnds(x, y);
      AtEnd(n);
    }
  }

  lemma AtEnd(n: bv8)
    requires Index(Wide(n)) == 0 || Index(Wide(n)) == 32
    ensures Index(Wide(n)) == 0 ==> n == 0
    ensures Index(Wide(n)) == 32 ==> n == 32
  {
    if Index(Wide(n)) == 0 {
      Injective(Wide(n), 0);
    } else {
      Injective(Wide(n), 32);
    }
  }

  lemma CountLow(s: nat)
    requires s < 64
    ensures s <= 32 ==> K.Count(s) <= 32
    ensures s > 32 ==> K.Count(s) > 32
  {
  }

  lemma CountMasked(s: nat)
    requires s < 32
    ensures K.Count(s) & 31 == K.Count(s)
  {
  }

  lemma WideMinus(n: bv8)
    requires n > 32
    ensures Plus(Wide(n - 32), 32) == Wide(n)
  {
  }

  lemma WideInjective(m: bv8, n: bv8)
    requires Wide(m) == Wide(n)
    ensures m == n
  {
  }

  lemma CountSplit(s: nat)
    requires 32 < s < 64
    ensures K.Count(s) > 32 && K.Count(s) - 32 == K.Count(s - 32)
  {
    hide K.Count, Wide, Index, Plus;
    var n := K.Count(s);
    CountLow(s);
    CountIs(s);
    CountIs(s - 32);
    WideMinus(n);
    ThirtyTwo();
    PlusValue(Wide(n - 32), 32);
    Bound(Wide(n - 32));
    Injective(Wide(n - 32), Wide(K.Count(s - 32)));
    WideInjective(n - 32, K.Count(s - 32));
  }

  lemma FarIsNear(x: bv32, y: bv32, n: bv8)
    requires 32 < n < 64
    ensures R.Far(x, y, n) == R.Near(y, x, n - 32)
  {
    assert 64 - n == 32 - (n - 32);
    R.FarIs(x, y, n);
    R.NearIs(y, x, n - 32);
    hide R.Far, R.Near;
  }

  // The halves of a lane that changes places with its other half when it is turned by more than a word.
  lemma NearPackBits(x: bv32, y: bv32, s: nat, j: nat)
    requires s <= 32 && j < 64 && K.Count(s) <= 32
    ensures LongBit(R.Pack(R.Near(x, y, K.Count(s)), R.Near(y, x, K.Count(s))), (j + s) % 64) <==> LongBit(R.Pack(x, y), j)
  {
    hide R.Pack, R.Near, K.Count, LongBit, Bit, Wide, Index;
    var n, i := K.Count(s), (j + s) % 64;
    CountIs(s);
    PackBits(x, y, j);
    PackBits(R.Near(x, y, n), R.Near(y, x, n), i);
    if i < 32 {
      NearBits(x, y, n, i);
    } else {
      NearBits(y, x, n, i - 32);
    }
  }

  lemma Exchange(x: bv32, y: bv32, j: nat)
    requires j < 64
    ensures LongBit(R.Pack(y, x), (j + 32) % 64) <==> LongBit(R.Pack(x, y), j)
  {
    hide R.Pack, LongBit, Bit;
    PackBits(x, y, j);
    PackBits(y, x, (j + 32) % 64);
  }

  lemma PackTurns(x: bv32, y: bv32, s: nat, j: nat)
    requires s < 64 && j < 64
    ensures LongBit(K.Rol64(R.Pack(x, y), s), (j + s) % 64) <==> LongBit(R.Pack(x, y), j)
  {
    hide R.Pack, R.Near, R.Far, R.Turn64, K.Count, LongBit;
    CountLow(s);
    R.TurnHalves(x, y, K.Count(s));
    if s <= 32 {
      NearPackBits(x, y, s, j);
    } else {
      CountSplit(s);
      CountLow(s - 32);
      FarIsNear(x, y, K.Count(s));
      FarIsNear(y, x, K.Count(s));
      Exchange(x, y, j);
      NearPackBits(y, x, s - 32, (j + 32) % 64);
    }
  }

  lemma InHalves(x: bv64) returns (l: bv32, h: bv32)
    ensures x == R.Pack(l, h)
  {
    hide R.Pack, LongValues.Pair, LongValues.High, LongValues.Low;
    l, h := LongValues.Low(x), LongValues.High(x);
    LongValues.PairOfHalves(x);
    PackIsPair(l, h);
  }

  lemma RolIsMasked(x: bv32, s: nat)
    requires s < 32
    ensures K.Count(s) & 31 <= 32 && K.Rol32(x, s) == R.Near(x, x, K.Count(s) & 31)
  {
    hide K.Count;
  }

  lemma RolIsNear(x: bv32, s: nat)
    requires s < 32
    ensures K.Count(s) <= 32 && K.Rol32(x, s) == R.Near(x, x, K.Count(s))
  {
    hide K.Count, K.Rol32, R.Near;
    CountLow(s);
    CountMasked(s);
    RolIsMasked(x, s);
  }

  function AndNot(x: bv32, y: bv32): bv32 { !x & y }

  lemma AndNotIs(x: bv32, y: bv32)
    ensures Xor(And(x, y), y) == AndNot(x, y)
  {
  }

  // The fields of the lane operations.
  lemma Rotl32Is(x: bv32, s: nat)
    ensures K.OPS32.Valid() && K.OPS32.Rotl(x, s) == K.Rol32(x, s % 32)
  {
    hide K.Rol32;
  }

  lemma Xor32Is(x: bv32, y: bv32)
    ensures K.OPS32.Xor(x, y) == Xor(x, y)
  {
  }

  lemma AndNot32Is(x: bv32, y: bv32)
    ensures K.OPS32.AndNot(x, y) == AndNot(x, y)
  {
  }

  lemma Rotl64Is(x: bv64, s: nat)
    ensures K.OPS64.Valid() && K.OPS64.Rotl(x, s) == K.Rol64(x, s % 64)
  {
    hide K.Rol64;
  }

  lemma Rol32Bits(x: bv32, s: nat, j: nat)
    requires j < 32 && s < 32
    ensures Bit(K.Rol32(x, s), (j + s) % 32) <==> Bit(x, j)
  {
    hide Bit, Index, R.Near, K.Count, K.Rol32, Wide;
    RolIsNear(x, s);
    CountIs(s);
    NearBits(x, x, K.Count(s), (j + s) % 32);
  }

  lemma AndNotBits(x: bv32, y: bv32, j: nat)
    ensures Bit(AndNot(x, y), j) <==> !Bit(x, j) && Bit(y, j)
  {
    hide Bit, Xor, And, AndNot;
    LogicBits(x, y, j);
    LogicBits(And(x, y), y, j);
    AndNotIs(x, y);
  }

  /** The operations of Keccak-f[800] on the bits of its lanes. */
  lemma Lane32Bits(x: bv32, y: bv32, s: nat, j: nat)
    requires j < 32
    ensures K.OPS32.Valid() && (Bit(K.OPS32.Rotl(x, s), (j + s) % 32) <==> Bit(x, j))
    ensures Bit(K.OPS32.Xor(x, y), j) <==> Bit(x, j) != Bit(y, j)
    ensures Bit(K.OPS32.AndNot(x, y), j) <==> !Bit(x, j) && Bit(y, j)
  {
    hide Bit, K.Rol32, K.OPS32, Xor, AndNot;
    Rotl32Is(x, s);
    Rol32Bits(x, s % 32, j);
    Places(j, s);
    Xor32Is(x, y);
    LogicBits(x, y, j);
    AndNot32Is(x, y);
    AndNotBits(x, y, j);
  }

  lemma Xor64Bits(l: bv32, h: bv32, u: bv32, v: bv32, j: nat)
    requires j < 64
    ensures LongBit(R.Pack(Xor(l, u), Xor(h, v)), j) <==> LongBit(R.Pack(l, h), j) != LongBit(R.Pack(u, v), j)
  {
    hide Bit, R.Pack, LongBit, Xor;
    PackBits(l, h, j);
    PackBits(u, v, j);
    PackBits(Xor(l, u), Xor(h, v), j);
    if j < 32 {
      LogicBits(l, u, j);
    } else {
      LogicBits(h, v, j - 32);
    }
  }

  lemma AndNot64Bits(l: bv32, h: bv32, u: bv32, v: bv32, j: nat)
    requires j < 64
    ensures LongBit(R.Pack(AndNot(l, u), AndNot(h, v)), j) <==> !LongBit(R.Pack(l, h), j) && LongBit(R.Pack(u, v), j)
  {
    hide Bit, R.Pack, LongBit, AndNot;
    PackBits(l, h, j);
    PackBits(u, v, j);
    PackBits(AndNot(l, u), AndNot(h, v), j);
    if j < 32 {
      AndNotBits(l, u, j);
    } else {
      AndNotBits(h, v, j - 32);
    }
  }

  lemma Pairwise(a: KeccakCl.UInt2, b: KeccakCl.UInt2)
    ensures KeccakCl.OPS.Xor(a, b) == KeccakCl.UInt2(Xor(a.x, b.x), Xor(a.y, b.y))
  {
  }

  lemma PairwiseNot(a: KeccakCl.UInt2, b: KeccakCl.UInt2)
    ensures KeccakCl.OPS.AndNot(a, b) == KeccakCl.UInt2(AndNot(a.x, b.x), AndNot(a.y, b.y))
  {
  }

  lemma XorOfLanes(l: bv32, h: bv32, u: bv32, v: bv32)
    ensures K.OPS64.Xor(R.Pack(l, h), R.Pack(u, v)) == R.Pack(Xor(l, u), Xor(h, v))
  {
    hide R.Pack, K.OPS64, Xor, KeccakCl.OPS;
    KeccakCl.LaneXor(KeccakCl.UInt2(l, h), KeccakCl.UInt2(u, v));
    Pairwise(KeccakCl.UInt2(l, h), KeccakCl.UInt2(u, v));
  }

  lemma AndNotOfLanes(l: bv32, h: bv32, u: bv32, v: bv32)
    ensures K.OPS64.AndNot(R.Pack(l, h), R.Pack(u, v)) == R.Pack(AndNot(l, u), AndNot(h, v))
  {
    hide R.Pack, K.OPS64, AndNot, KeccakCl.OPS;
    KeccakCl.LaneAndNot(KeccakCl.UInt2(l, h), KeccakCl.UInt2(u, v));
    PairwiseNot(KeccakCl.UInt2(l, h), KeccakCl.UInt2(u, v));
  }

  /** The operations of Keccak-f[1600] on the bits of its lanes. */
  lemma Lane64Bits(x: bv64, y: bv64, s: nat, j: nat)
    requires j < 64
    ensures K.OPS64.Valid() && (LongBit(K.OPS64.Rotl(x, s), (j + s) % 64) <==> LongBit(x, j))
    ensures LongBit(K.OPS64.Xor(x, y), j) <==> LongBit(x, j) != LongBit(y, j)
    ensures LongBit(K.OPS64.AndNot(x, y), j) <==> !LongBit(x, j) && LongBit(y, j)
  {
    hide R.Pack, K.Rol64, LongBit, K.OPS64, Xor, AndNot;
    var l, h := InHalves(x);
    var u, v := InHalves(y);
    Rotl64Is(x, s);
    PackTurns(l, h, s % 64, j);
    Around(j, s);
    XorOfLanes(l, h, u, v);
    Xor64Bits(l, h, u, v, j);
    AndNotOfLanes(l, h, u, v);
    AndNot64Bits(l, h, u, v, j);
  }

  lemma Around(j: nat, s: nat)
    ensures (j + s % 64) % 64 == (j + s) % 64
  {
  }

  lemma SpongeXorIs(x: bv64, y: bv64)
    ensures Sponge.Xor(x, y) == K.OPS64.Xor(x, y)
  {
  }

  /** Absorbing adds the bits of the block to those of the state. */
  lemma AbsorbedBits(state: seq<bv64>, block: seq<bv8>, i: nat, j: nat)
    requires |state| == KeccakSpec.LANES && |block| % 8 == 0 && |block| <= 200 && 8 * i < |block| && j < 64
    ensures LongBit(Sponge.AddBlock(state, block)[i], j)
      <==> LongBit(state[i], j) != LongBit(Sponge.LoadLe(block[8 * i..8 * i + 8]), j)
  {
    hide LongBit, K.OPS64, Sponge.Xor, Sponge.LoadLe;
    var w := Sponge.LoadLe(block[8 * i..8 * i + 8]);
    SpongeXorIs(state[i], w);
    Lane64Bits(state[i], w, 0, j);
  }
}

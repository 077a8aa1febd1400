/** Rotating a 64-bit lane by rotating its 32-bit halves. The identities between bits are stated on plain
    expressions and joined to the functions one step at a time. */
module Rotation {
  function Pack(x: bv32, y: bv32): bv64 { (x as bv64) | ((y as bv64) << 32) }

  function Turn64(x: bv64, n: bv8): bv64
    requires n < 64
  {
    (x << n) | (x >> (64 - n))
  }

  // A half of the rotated lane: the high bits of one word under the low bits of the other.
  function Near(x: bv32, y: bv32, n: bv8): bv32
    requires n <= 32
  {
    (x << n) | (y >> (32 - n))
  }

  function Far(x: bv32, y: bv32, n: bv8): bv32
    requires 32 <= n < 64
  {
    (y << (n - 32)) | (x >> (64 - n))
  }

  lemma NearBits(x: bv32, y: bv32, n: bv8)
    requires n <= 32
    ensures (((x << n) | (y >> (32 - n))) as bv64) | ((((y << n) | (x >> (32 - n))) as bv64) << 32)
      == (((x as bv64) | ((y as bv64) << 32)) << n) | (((x as bv64) | ((y as bv64) << 32)) >> (64 - n))
  {
  }

  lemma FarBits(x: bv32, y: bv32, n: bv8)
    requires 32 <= n < 64
    ensures (((y << (n - 32)) | (x >> (64 - n))) as bv64) | ((((x << (n - 32)) | (y >> (64 - n))) as bv64) << 32)
      == (((x as bv64) | ((y as bv64) << 32)) << n) | (((x as bv64) | ((y as bv64) << 32)) >> (64 - n))
  {
  }

  lemma PackIs(x: bv32, y: bv32)
    ensures Pack(x, y) == (x as bv64) | ((y as bv64) << 32)
  {
  }

  lemma LowOfPack(x: bv32, y: bv32)
    ensures (Pack(x, y) & 0xFFFF_FFFF) as bv32 == x
  {
  }

  lemma HighOfPack(x: bv32, y: bv32)
    ensures (Pack(x, y) >> 32) as bv32 == y
  {
  }

  lemma PackInjective(x: bv32, y: bv32, u: bv32, v: bv32)
    ensures Pack(x, y) == Pack(u, v) <==> x == u && y == v
  {
    LowOfPack(x, y);
    LowOfPack(u, v);
    HighOfPack(x, y);
    HighOfPack(u, v);
    hide Pack;
  }

  lemma NearIs(x: bv32, y: bv32, n: bv8)
    requires n <= 32
    ensures Near(x, y, n) == (x << n) | (y >> (32 - n))
  {
  }

  lemma FarIs(x: bv32, y: bv32, n: bv8)
    requires 32 <= n < 64
    ensures Far(x, y, n) == (y << (n - 32)) | (x >> (64 - n))
  {
  }

  lemma NearTurnIs(x: bv32, y: bv32, n: bv8)
    requires n <= 32
    ensures Turn64((x as bv64) | ((y as bv64) << 32), n)
      == (((x as bv64) | ((y as bv64) << 32)) << n) | (((x as bv64) | ((y as bv64) << 32)) >> (64 - n))
  {
  }

  lemma FarTurnIs(x: bv32, y: bv32, n: bv8)
    requires 32 <= n < 64
    ensures Turn64((x as bv64) | ((y as bv64) << 32), n)
      == (((x as bv64) | ((y as bv64) << 32)) << n) | (((x as bv64) | ((y as bv64) << 32)) >> (64 - n))
  {
  }

  lemma NearPackIs(x: bv32, y: bv32, n: bv8)
    requires n <= 32
    ensures Pack(Near(x, y, n), Near(y, x, n))
      == (((x << n) | (y >> (32 - n))) as bv64) | ((((y << n) | (x >> (32 - n))) as bv64) << 32)
  {
    hide Near, Pack;
    NearIs(x, y, n);
    NearIs(y, x, n);
    PackIs((x << n) | (y >> (32 - n)), (y << n) | (x >> (32 - n)));
  }

  lemma FarPackIs(x: bv32, y: bv32, n: bv8)
    requires 32 <= n < 64
    ensures Pack(Far(x, y, n), Far(y, x, n))
      == (((y << (n - 32)) | (x >> (64 - n))) as bv64) | ((((x << (n - 32)) | (y >> (64 - n))) as bv64) << 32)
  {
    hide Far, Pack;
    FarIs(x, y, n);
    FarIs(y, x, n);
    PackIs((y << (n - 32)) | (x >> (64 - n)), (x << (n - 32)) | (y >> (64 - n)));
  }

  lemma NearTurn(x: bv32, y: bv32, n: bv8)
    requires n <= 32
    ensures Pack(Near(x, y, n), Near(y, x, n)) == Turn64((x as bv64) | ((y as bv64) << 32), n)
  {
    hide Pack, Turn64, Near;
    NearBits(x, y, n);
    NearTurnIs(x, y, n);
    NearPackIs(x, y, n);
  }

  lemma FarTurn(x: bv32, y: bv32, n: bv8)
    requires 32 <= n < 64
    ensures Pack(Far(x, y, n), Far(y, x, n)) == Turn64((x as bv64) | ((y as bv64) << 32), n)
  {
    hide Pack, Turn64, Far;
    FarBits(x, y, n);
    FarTurnIs(x, y, n);
    FarPackIs(x, y, n);
  }

  /** Turning the halves by any count turns the lane. */
  lemma TurnHalves(x: bv32, y: bv32, n: bv8)
    ensures n <= 32 ==> Pack(Near(x, y, n), Near(y, x, n)) == Turn64(Pack(x, y), n)
    ensures 32 <= n < 64 ==> Pack(Far(x, y, n), Far(y, x, n)) == Turn64(Pack(x, y), n)
  {
    hide Pack, Turn64, Near, Far;
    PackIs(x, y);
    if n <= 32 {
      NearTurn(x, y, n);
    }
    if 32 <= n < 64 {
      FarTurn(x, y, n);
    }
  }
}

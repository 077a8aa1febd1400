/** The Keccak-f[1600] of the OpenCL kernel: lanes are pairs of 32-bit words, rotations work on the halves,
    and chi uses bitselect. */
module KeccakCl {
  import opened KeccakSpec
  import KeccakGpu
  import opened KeccakUnrolled
  import K = Keccak
  import R = Rotation

  // A lane as the kernel's uint2, low half first.
  datatype UInt2 = UInt2(x: bv32, y: bv32)

  function Lane(v: UInt2): bv64 { R.Pack(v.x, v.y) }

  function Xor2(a: UInt2, b: UInt2): UInt2 { UInt2(a.x ^ b.x, a.y ^ b.y) }

  function AndNot2(a: UInt2, b: UInt2): UInt2 { UInt2(!a.x & b.x, !a.y & b.y) }

  // bitselect: bits of b where c is set, of a elsewhere.
  function Select2(a: UInt2, b: UInt2, c: UInt2): UInt2 {
    UInt2((a.x & !c.x) | (b.x & c.x), (a.y & !c.y) | (b.y & c.y))
  }

  // Shifts of 32-bit words in OpenCL C take their count modulo 32.
  function Shl(x: bv32, n: bv8): bv32 { x << (n & 31) }

  function Shr(x: bv32, n: bv8): bv32 { x >> (n & 31) }

  // ROL2 for the platforms without a rotation instruction; each half is made of both words.
  function NearHalf(x: bv32, y: bv32, n: bv8): bv32 { Shl(x, n) | Shr(y, 32 - n) }

  function FarHalf(x: bv32, y: bv32, n: bv8): bv32 { Shl(y, n - 32) | Shr(x, 64 - n) }

  function Turn2(v: UInt2, n: bv8): UInt2
    requires n < 64
  {
    if n <= 32 then UInt2(NearHalf(v.x, v.y, n), NearHalf(v.y, v.x, n))
    else UInt2(FarHalf(v.x, v.y, n), FarHalf(v.y, v.x, n))
  }

  function Rol2(v: UInt2, n: nat): UInt2
    requires n < 64
  {
    Turn2(v, K.Count(n))
  }

  const OPS: LaneOps<UInt2> := LaneOps(
    64,
    (a: UInt2, b: UInt2) => Xor2(a, b),
    (a: UInt2, b: UInt2) => AndNot2(a, b),
    (v: UInt2, n: nat) => if n < 64 then Rol2(v, n) else v)

  function LanesOf(a: seq<UInt2>): (l: seq<bv64>)
    ensures |l| == |a|
  {
    seq(|a|, i requires 0 <= i < |a| => Lane(a[i]))
  }

  lemma LaneXor(a: UInt2, b: UInt2)
    ensures Lane(OPS.Xor(a, b)) == K.OPS64.Xor(Lane(a), Lane(b))
  {
    XorOfHalves(a, b);
    hide Lane, Xor2;
  }

  lemma XorOfHalves(a: UInt2, b: UInt2)
    ensures Lane(Xor2(a, b)) == Lane(a) ^ Lane(b)
  {
  }

  lemma LaneAndNot(a: UInt2, b: UInt2)
    ensures Lane(OPS.AndNot(a, b)) == K.OPS64.AndNot(Lane(a), Lane(b))
  {
    AndNotOfHalves(a, b);
    hide Lane, AndNot2;
  }

  lemma AndNotOfHalves(a: UInt2, b: UInt2)
    ensures Lane(AndNot2(a, b)) == !Lane(a) & Lane(b)
  {
  }

  // Away from 0 and 32 the reduced counts are the counts themselves.
  lemma NearHalfIs(x: bv32, y: bv32, n: bv8)
    requires 0 < n < 32
    ensures NearHalf(x, y, n) == R.Near(x, y, n)
  {
    assert n & 31 == n && (32 - n) & 31 == 32 - n;
  }

  lemma FarHalfIs(x: bv32, y: bv32, n: bv8)
    requires 32 < n < 64
    ensures FarHalf(x, y, n) == R.Far(x, y, n)
  {
    assert (n - 32) & 31 == n - 32 && (64 - n) & 31 == 64 - n;
  }

  // At 0 and 32 both shifts are by nothing, and each half becomes the union of the two words.
  function Union(x: bv32, y: bv32): bv32 { x | y }

  lemma UnionHalves(x: bv32, y: bv32)
    ensures NearHalf(x, y, 0) == Union(x, y) && NearHalf(x, y, 32) == Union(x, y)
  {
  }

  lemma UnionIsBoth(x: bv32, y: bv32)
    ensures Union(x, y) == Union(y, x)
    ensures x == y ==> Union(x, y) == x
  {
  }

  // The union of the words makes up a lane of theirs, in either order, only when they agree.
  lemma UnionPacked(x: bv32, y: bv32)
    ensures R.Pack(Union(x, y), Union(y, x)) == R.Pack(x, y) <==> x == y
    ensures R.Pack(Union(x, y), Union(y, x)) == R.Pack(y, x) <==> x == y
  {
    hide R.Pack, Union;
    UnionIsBoth(x, y);
    R.PackInjective(Union(x, y), Union(y, x), x, y);
    R.PackInjective(Union(x, y), Union(y, x), y, x);
  }

  lemma TurnByNothing(x: bv32, y: bv32)
    ensures R.Turn64(R.Pack(x, y), 0) == R.Pack(x, y)
  {
  }

  lemma TurnByHalf(x: bv32, y: bv32)
    ensures R.Turn64(R.Pack(x, y), 32) == R.Pack(y, x)
  {
  }

  /** ROL2 rotates the lane exactly when the shifts of OpenCL C do not reduce the count to zero, or the halves agree. */
  lemma LaneTurn(v: UInt2, n: bv8)
    requires n < 64
    ensures Lane(Turn2(v, n)) == R.Turn64(Lane(v), n) <==> (n != 0 && n != 32) || v.x == v.y
  {
    hide R.Pack, R.Near, R.Far, NearHalf, FarHalf, R.Turn64;
    if n == 0 || n == 32 {
      LaneTurnUnion(v, n);
    } else {
      LaneTurnAway(v, n);
    }
  }

  lemma LaneTurnUnion(v: UInt2, n: bv8)
    requires n == 0 || n == 32
    ensures Lane(Turn2(v, n)) == R.Turn64(Lane(v), n) <==> v.x == v.y
  {
    hide R.Pack, R.Near, R.Far, NearHalf, FarHalf, R.Turn64, Union;
    UnionHalves(v.x, v.y);
    UnionHalves(v.y, v.x);
    UnionPacked(v.x, v.y);
    TurnByNothing(v.x, v.y);
    TurnByHalf(v.x, v.y);
  }

  lemma LaneTurnAway(v: UInt2, n: bv8)
    requires n < 64 && n != 0 && n != 32
    ensures Lane(Turn2(v, n)) == R.Turn64(Lane(v), n)
  {
    hide R.Pack, R.Near, R.Far, NearHalf, FarHalf, R.Turn64;
    R.TurnHalves(v.x, v.y, n);
    if n < 32 {
      NearHalfIs(v.x, v.y, n);
      NearHalfIs(v.y, v.x, n);
    } else {
      FarHalfIs(v.x, v.y, n);
      FarHalfIs(v.y, v.x, n);
    }
  }

  lemma LaneRotl(v: UInt2, n: nat)
    requires n < 64 && n != 0 && n != 32
    ensures Lane(OPS.Rotl(v, n)) == K.OPS64.Rotl(Lane(v), n)
  {
    hide Lane, Turn2, R.Turn64, K.Count;
    CountsDiffer(n);
    LaneTurnAway(v, K.Count(n));
  }

  lemma CountsDiffer(n: nat)
    requires n < 64 && n != 0 && n != 32
    ensures K.Count(n) != 0 && K.Count(n) != 32
  {
  }

  lemma TurnsDiffer(i: nat)
    requires 0 < i < LANES
    ensures Turn(i) < 64 && Turn(i) != 0 && Turn(i) != 32
  {
  }

  // Chi can be written with bitselect.
  ghost predicate Selects<W(!new)>(o: LaneOps<W>, select: (W, W, W) -> W) {
    forall x, y, z :: select(o.Xor(x, z), x, y) == o.Xor(x, o.AndNot(y, z))
  }

  lemma SelectIsChi()
    ensures Selects(OPS, Select2)
  {
    hide Select2, Xor2, AndNot2;
    forall x: UInt2, y: UInt2, z: UInt2 ensures Select2(OPS.Xor(x, z), x, y) == OPS.Xor(x, OPS.AndNot(y, z)) {
      SelectAt(x, y, z);
    }
  }

  lemma SelectAt(x: UInt2, y: UInt2, z: UInt2)
    ensures Select2(Xor2(x, z), x, y) == Xor2(x, AndNot2(y, z))
  {
  }

  method XorLanes<W>(o: LaneOps<W>, a: array<W>, i: nat, u: W)
    requires a.Length == LANES && i < 5
    modifies a
    ensures a[..] == KeccakGpu.XoredColumn(o, old(a[..]), i, u)
  {
    a[i] := o.Xor(a[i], u);
    a[i + 5] := o.Xor(a[i + 5], u);
    a[i + 10] := o.Xor(a[i + 10], u);
    a[i + 15] := o.Xor(a[i + 15], u);
    a[i + 20] := o.Xor(a[i + 20], u);
  }

  method ThetaCl<W>(o: LaneOps<W>, a: array<W>)
    requires a.Length == LANES && o.Valid()
    modifies a
    ensures a[..] == Theta(o, old(a[..]))
  {
    hide LaneOps.Xor, LaneOps.Rotl, KeccakGpu.XoredColumn, Column;
    ghost var s := a[..];
    var t0, t1, t2, t3, t4 :=
      Column(o, a[..], 0), Column(o, a[..], 1), Column(o, a[..], 2), Column(o, a[..], 3), Column(o, a[..], 4);
    ghost var d := seq(5, x requires 0 <= x < 5 => ThetaEffect(o, s, x));
    XorLanes(o, a, 0, o.Xor(t4, o.Rotl(t1, 1)));
    assert a[..] == KeccakGpu.XoredColumns(o, s, d, 1);
    XorLanes(o, a, 1, o.Xor(t0, o.Rotl(t2, 1)));
    assert a[..] == KeccakGpu.XoredColumns(o, s, d, 2);
    XorLanes(o, a, 2, o.Xor(t1, o.Rotl(t3, 1)));
    assert a[..] == KeccakGpu.XoredColumns(o, s, d, 3);
    XorLanes(o, a, 3, o.Xor(t2, o.Rotl(t4, 1)));
    assert a[..] == KeccakGpu.XoredColumns(o, s, d, 4);
    XorLanes(o, a, 4, o.Xor(t3, o.Rotl(t0, 1)));
    assert a[..] == KeccakGpu.XoredColumns(o, s, d, 5);
    ColumnsAreTheta(o, s, d);
  }

  lemma ColumnsAreTheta<W>(o: LaneOps<W>, a: seq<W>, d: seq<W>)
    requires |a| == LANES && o.Valid() && |d| == 5 && forall x :: 0 <= x < 5 ==> d[x] == ThetaEffect(o, a, x)
    ensures KeccakGpu.XoredColumns(o, a, d, 5) == Theta(o, a)
  {
    hide ThetaEffect, KeccakGpu.XoredColumns;
    forall m | 0 <= m < LANES ensures KeccakGpu.XoredColumns(o, a, d, 5)[m] == Theta(o, a)[m] {
      KeccakGpu.ColumnByColumn(o, a, d, 5, m);
    }
  }

  lemma Lands<W>(o: LaneOps<W>, c: seq<W>, i: nat, s: nat, n: nat)
    requires |c| == LANES && o.Valid() && 0 < i < LANES && PiSource(i) == s && Turn(i) == n
    ensures Pi(Rho(o, c))[i] == o.Rotl(c[s], n)
  {
    hide Rho, Pi, Turn, PiSource, Offset, LaneOps.Rotl;
    var t := Arrives(i);
    RhoPiLane(o, c, t);
    TurnIsOffset(o, c[s], i, t);
  }

  method RhoPiCl<W>(o: LaneOps<W>, a: array<W>, t: array<W>)
    requires a.Length == t.Length == LANES && a != t && o.Valid()
    modifies t
    ensures t[..] == Pi(Rho(o, a[..]))
  {
    hide Rho, Pi, LaneOps.Rotl;
    ghost var c, rp := a[..], Pi(Rho(o, a[..]));
    RhoPiLane(o, c, 0); Lands(o, c, 1, 6, 44); Lands(o, c, 2, 12, 43); Lands(o, c, 3, 18, 21); Lands(o, c, 4, 24, 14);
    StoreRow(t, 0, a[0], o.Rotl(a[6], 44), o.Rotl(a[12], 43), o.Rotl(a[18], 21), o.Rotl(a[24], 14), rp);
    Lands(o, c, 5, 3, 28); Lands(o, c, 6, 9, 20); Lands(o, c, 7, 10, 3); Lands(o, c, 8, 16, 45); Lands(o, c, 9, 22, 61);
    StoreRow(t, 5, o.Rotl(a[3], 28), o.Rotl(a[9], 20), o.Rotl(a[10], 3), o.Rotl(a[16], 45), o.Rotl(a[22], 61), rp);
    Lands(o, c, 10, 1, 1); Lands(o, c, 11, 7, 6); Lands(o, c, 12, 13, 25); Lands(o, c, 13, 19, 8); Lands(o, c, 14, 20, 18);
    StoreRow(t, 10, o.Rotl(a[1], 1), o.Rotl(a[7], 6), o.Rotl(a[13], 25), o.Rotl(a[19], 8), o.Rotl(a[20], 18), rp);
    Lands(o, c, 15, 4, 27); Lands(o, c, 16, 5, 36); Lands(o, c, 17, 11, 10); Lands(o, c, 18, 17, 15); Lands(o, c, 19, 23, 56);
    StoreRow(t, 15, o.Rotl(a[4], 27), o.Rotl(a[5], 36), o.Rotl(a[11], 10), o.Rotl(a[17], 15), o.Rotl(a[23], 56), rp);
    Lands(o, c, 20, 2, 62); Lands(o, c, 21, 8, 55); Lands(o, c, 22, 14, 39); Lands(o, c, 23, 15, 41); Lands(o, c, 24, 21, 2);
    StoreRow(t, 20, o.Rotl(a[2], 62), o.Rotl(a[8], 55), o.Rotl(a[14], 39), o.Rotl(a[15], 41), o.Rotl(a[21], 2), rp);
  }

  method ChiCl<W(!new)>(o: LaneOps<W>, select: (W, W, W) -> W, a: array<W>, n: nat, t: array<W>, ghost e: seq<W>)
    requires a.Length == t.Length == |e| == LANES && a != t && n <= 20 && Selects(o, select)
    requires a[..n] == e[..n] && forall x :: 0 <= x < 5 ==> e[n + x] == RowLane(o, t[..], n, x)
    modifies a
    ensures a[..n + 5] == e[..n + 5]
  {
    hide LaneOps.Xor, LaneOps.AndNot;
    assert e[n] == RowLane(o, t[..], n, 0) && e[n + 1] == RowLane(o, t[..], n, 1) && e[n + 2] == RowLane(o, t[..], n, 2)
      && e[n + 3] == RowLane(o, t[..], n, 3) && e[n + 4] == RowLane(o, t[..], n, 4) by {
      assert e[n + 0] == RowLane(o, t[..], n, 0);
    }
    StoreRow(a, n,
             select(o.Xor(t[n], t[n + 2]), t[n], t[n + 1]),
             select(o.Xor(t[n + 1], t[n + 3]), t[n + 1], t[n + 2]),
             select(o.Xor(t[n + 2], t[n + 4]), t[n + 2], t[n + 3]),
             select(o.Xor(t[n + 3], t[n]), t[n + 3], t[n + 4]),
             select(o.Xor(t[n + 4], t[n + 1]), t[n + 4], t[n]), e);
  }

  /** keccak_f1600_round of the OpenCL kernel. */
  method RoundCl<W(!new)>(o: LaneOps<W>, select: (W, W, W) -> W, a: array<W>, rc: W)
    requires a.Length == LANES && o.Valid() && Selects(o, select)
    modifies a
    ensures a[..] == Round(o, old(a[..]), rc)
  {
    hide Theta, Rho, Pi, RowLane, LaneOps.Xor, Selects;
    var t := new W[LANES](_ => rc);
    ThetaCl(o, a);
    RhoPiCl(o, a, t);
    ghost var chi := Chi(o, t[..]);
    ghost var e := Iota(o, chi, rc);
    ChiCl(o, select, a, 0, t, chi);
    a[0] := o.Xor(a[0], rc);
    ChiCl(o, select, a, 5, t, e);
    ChiCl(o, select, a, 10, t, e);
    ChiCl(o, select, a, 15, t, e);
    ChiCl(o, select, a, 20, t, e);
  }

  // Keccak_f1600_RC.
  function RcCl(r: nat): UInt2
    requires r < 24
  {
    match r
    case 0 => UInt2(0x0000_0001, 0x0000_0000) case 1 => UInt2(0x0000_8082, 0x0000_0000) case 2 => UInt2(0x0000_808a, 0x8000_0000)
    case 3 => UInt2(0x8000_8000, 0x8000_0000) case 4 => UInt2(0x0000_808b, 0x0000_0000) case 5 => UInt2(0x8000_0001, 0x0000_0000)
    case 6 => UInt2(0x8000_8081, 0x8000_0000) case 7 => UInt2(0x0000_8009, 0x8000_0000) case 8 => UInt2(0x0000_008a, 0x0000_0000)
    case 9 => UInt2(0x0000_0088, 0x0000_0000) case 10 => UInt2(0x8000_8009, 0x0000_0000) case 11 => UInt2(0x8000_000a, 0x0000_0000)
    case 12 => UInt2(0x8000_808b, 0x0000_0000) case 13 => UInt2(0x0000_008b, 0x8000_0000) case 14 => UInt2(0x0000_8089, 0x8000_0000)
    case 15 => UInt2(0x0000_8003, 0x8000_0000) case 16 => UInt2(0x0000_8002, 0x8000_0000) case 17 => UInt2(0x0000_0080, 0x8000_0000)
    case 18 => UInt2(0x0000_800a, 0x0000_0000) case 19 => UInt2(0x8000_000a, 0x8000_0000) case 20 => UInt2(0x8000_8081, 0x8000_0000)
    case 21 => UInt2(0x0000_8080, 0x8000_0000) case 22 => UInt2(0x8000_0001, 0x0000_0000) case _ => UInt2(0x8000_8008, 0x8000_0000)
  }

  const RCS: seq<UInt2> := seq(24, r requires 0 <= r < 24 => RcCl(r))

  lemma SameConstant(r: nat)
    requires r < 24
    ensures Lane(RcCl(r)) == K.Rc1600(r)
  {
  }

  // The halves of the lanes follow the lanes: through theta, through one lane of rho and pi, and through a round.
  lemma ColumnMaps(a: seq<UInt2>, x: nat)
    requires |a| == LANES && x < 5
    ensures Lane(Column(OPS, a, x)) == Column(K.OPS64, LanesOf(a), x)
  {
    hide Lane, LaneOps.Xor;
    var b := OPS.Xor(a[x], a[x + 5]);
    var c := OPS.Xor(b, a[x + 10]);
    var d := OPS.Xor(c, a[x + 15]);
    LaneXor(a[x], a[x + 5]);
    LaneXor(b, a[x + 10]);
    LaneXor(c, a[x + 15]);
    LaneXor(d, a[x + 20]);
  }

  lemma EffectMaps(a: seq<UInt2>, x: nat)
    requires |a| == LANES && x < 5
    ensures Lane(ThetaEffect(OPS, a, x)) == ThetaEffect(K.OPS64, LanesOf(a), x)
  {
    hide Lane, LaneOps.Xor, LaneOps.Rotl, Column;
    ColumnMaps(a, (x + 4) % 5);
    ColumnMaps(a, (x + 1) % 5);
    var r := Column(OPS, a, (x + 1) % 5);
    LaneRotl(r, 1);
    LaneXor(Column(OPS, a, (x + 4) % 5), OPS.Rotl(r, 1));
  }

  lemma MovedMaps(a: seq<UInt2>, i: nat)
    requires |a| == LANES && i < LANES
    ensures Lane(Moved(OPS, a, i)) == Moved(K.OPS64, LanesOf(a), i)
  {
    hide Lane, LaneOps.Xor, LaneOps.Rotl, ThetaEffect, PiSource, Turn;
    var s := PiSource(i);
    EffectMaps(a, s % 5);
    LaneXor(a[s], ThetaEffect(OPS, a, s % 5));
    if i > 0 {
      TurnsDiffer(i);
      LaneRotl(OPS.Xor(a[s], ThetaEffect(OPS, a, s % 5)), Turn(i));
    }
  }

  lemma RoundMaps(a: seq<UInt2>, rc: UInt2)
    requires |a| == LANES
    ensures LanesOf(Round(OPS, a, rc)) == Round(K.OPS64, LanesOf(a), Lane(rc))
  {
    hide Lane, LaneOps.Xor, LaneOps.AndNot, Moved, Round;
    forall i | 0 <= i < LANES ensures Lane(Round(OPS, a, rc)[i]) == Round(K.OPS64, LanesOf(a), Lane(rc))[i] {
      RoundLaneMaps(a, rc, i);
    }
  }

  lemma RoundLaneMaps(a: seq<UInt2>, rc: UInt2, i: nat)
    requires |a| == LANES && i < LANES
    ensures Lane(Round(OPS, a, rc)[i]) == Round(K.OPS64, LanesOf(a), Lane(rc))[i]
  {
    hide Lane, LaneOps.Xor, LaneOps.AndNot, Moved, Round, LanesOf;
    var row := i - i % 5;
    var y, z := row + (i % 5 + 1) % 5, row + (i % 5 + 2) % 5;
    RoundLane(OPS, a, rc, i);
    RoundLane(K.OPS64, LanesOf(a), Lane(rc), i);
    MovedMaps(a, i);
    MovedMaps(a, y);
    MovedMaps(a, z);
    var n := OPS.AndNot(Moved(OPS, a, y), Moved(OPS, a, z));
    LaneAndNot(Moved(OPS, a, y), Moved(OPS, a, z));
    LaneXor(Moved(OPS, a, i), n);
    LaneXor(OPS.Xor(Moved(OPS, a, i), n), rc);
  }

  lemma {:induction false} RoundsMap(a: seq<UInt2>, n: nat)
    requires |a| == LANES && n <= 24
    ensures LanesOf(Rounds(OPS, a, RCS, n)) == Rounds(K.OPS64, LanesOf(a), K.RCS1600, n)
  {
    hide Round, RcCl, Lane, K.Rc1600;
    if n > 0 {
      RoundsMap(a, n - 1);
      RoundMaps(Rounds(OPS, a, RCS, n - 1), RCS[n - 1]);
      SameConstant(n - 1);
    }
  }

  /** keccak_f1600_no_absorb: Keccak-f[1600] on the lanes that the pairs stand for. */
  method PermuteCl(a: array<UInt2>)
    requires a.Length == LANES
    modifies a
    ensures LanesOf(a[..]) == K.F1600(LanesOf(old(a[..])))
  {
    hide Round, Lane, RcCl, Selects;
    SelectIsChi();
    for r := 0 to 24
      invariant a[..] == Rounds(OPS, old(a[..]), RCS, r)
    {
      RoundCl(OPS, Select2, a, RCS[r]);
    }
    RoundsMap(old(a[..]), 24);
    K.ConstantSequences();
  }
}

/** Keccak-f[800] and Keccak-f[1600]: the lane types, the tables of round constants, and every
    implementation of the permutations in the miner, each against the standard. */
module Keccak {
  import opened KeccakSpec
  import KeccakGpu
  import KeccakUnrolled
  import Rotation

  // A rotation count as a bit-vector.
  function Count(s: nat): (n: bv8)
    requires s < 64
    ensures n < 64
  {
    match s
    case 0 => 0 case 1 => 1 case 2 => 2 case 3 => 3 case 4 => 4 case 5 => 5 case 6 => 6 case 7 => 7
    case 8 => 8 case 9 => 9 case 10 => 10 case 11 => 11 case 12 => 12 case 13 => 13 case 14 => 14 case 15 => 15
    case 16 => 16 case 17 => 17 case 18 => 18 case 19 => 19 case 20 => 20 case 21 => 21 case 22 => 22 case 23 => 23
    case 24 => 24 case 25 => 25 case 26 => 26 case 27 => 27 case 28 => 28 case 29 => 29 case 30 => 30 case 31 => 31
    case 32 => 32 case 33 => 33 case 34 => 34 case 35 => 35 case 36 => 36 case 37 => 37 case 38 => 38 case 39 => 39
    case 40 => 40 case 41 => 41 case 42 => 42 case 43 => 43 case 44 => 44 case 45 => 45 case 46 => 46 case 47 => 47
    case 48 => 48 case 49 => 49 case 50 => 50 case 51 => 51 case 52 => 52 case 53 => 53 case 54 => 54 case 55 => 55
    case 56 => 56 case 57 => 57 case 58 => 58 case 59 => 59 case 60 => 60 case 61 => 61 case 62 => 62 case _ => 63
  }

  function Rol32(x: bv32, s: nat): bv32
    requires s < 32
  {
    var n := Count(s) & 31;
    (x << n) | (x >> (32 - n))
  }

  function Rol64(x: bv64, s: nat): bv64
    requires s < 64
  {
    Rotation.Turn64(x, Count(s))
  }

  const OPS32: LaneOps<bv32> := LaneOps(
    32,
    (x: bv32, y: bv32) => x ^ y,
    (x: bv32, y: bv32) => !x & y,
    (x: bv32, n: nat) => if n < 32 then Rol32(x, n) else x)

  const OPS64: LaneOps<bv64> := LaneOps(
    64,
    (x: bv64, y: bv64) => x ^ y,
    (x: bv64, y: bv64) => !x & y,
    (x: bv64, n: nat) => if n < 64 then Rol64(x, n) else x)

  // round_constants and keccakf_rndc; the 800-bit tables hold the low halves.
  function Rc1600(r: nat): bv64
    requires r < 24
  {
    match r
    case 0 => 0x0000_0000_0000_0001 case 1 => 0x0000_0000_0000_8082 case 2 => 0x8000_0000_0000_808a
    case 3 => 0x8000_0000_8000_8000 case 4 => 0x0000_0000_0000_808b case 5 => 0x0000_0000_8000_0001
    case 6 => 0x8000_0000_8000_8081 case 7 => 0x8000_0000_0000_8009 case 8 => 0x0000_0000_0000_008a
    case 9 => 0x0000_0000_0000_0088 case 10 => 0x0000_0000_8000_8009 case 11 => 0x0000_0000_8000_000a
    case 12 => 0x0000_0000_8000_808b case 13 => 0x8000_0000_0000_008b case 14 => 0x8000_0000_0000_8089
    case 15 => 0x8000_0000_0000_8003 case 16 => 0x8000_0000_0000_8002 case 17 => 0x8000_0000_0000_0080
    case 18 => 0x0000_0000_0000_800a case 19 => 0x8000_0000_8000_000a case 20 => 0x8000_0000_8000_8081
    case 21 => 0x8000_0000_0000_8080 case 22 => 0x0000_0000_8000_0001 case _ => 0x8000_0000_8000_8008
  }

  function Rc800(r: nat): bv32
    requires r < 22
  {
    match r
    case 0 => 0x0000_0001 case 1 => 0x0000_8082 case 2 => 0x0000_808a case 3 => 0x8000_8000
    case 4 => 0x0000_808b case 5 => 0x8000_0001 case 6 => 0x8000_8081 case 7 => 0x0000_8009
    case 8 => 0x0000_008a case 9 => 0x0000_0088 case 10 => 0x8000_8009 case 11 => 0x8000_000a
    case 12 => 0x8000_808b case 13 => 0x0000_008b case 14 => 0x0000_8089 case 15 => 0x0000_8003
    case 16 => 0x0000_8002 case 17 => 0x0000_0080 case 18 => 0x0000_800a case 19 => 0x8000_000a
    case 20 => 0x8000_8081 case _ => 0x0000_8080
  }

  const RCS1600: seq<bv64> := seq(24, r requires 0 <= r < 24 => Rc1600(r))
  const RCS800: seq<bv32> := seq(22, r requires 0 <= r < 22 => Rc800(r))

  // Section 3.4 of FIPS 202: 12 + 2l rounds, the constants coming from the shift register.
  function F1600(a: seq<bv64>): (r: seq<bv64>)
    requires |a| == LANES
    ensures |r| == LANES
  {
    Rounds(OPS64, a, seq(24, ir requires 0 <= ir < 24 => RoundConstant(ir)), 24)
  }

  function F800(a: seq<bv32>): (r: seq<bv32>)
    requires |a| == LANES
    ensures |r| == LANES
  {
    Rounds(OPS32, a, seq(22, ir requires 0 <= ir < 22 => Low32(RoundConstant(ir))), 22)
  }

  function Low32(x: bv64): bv32 {
    (x & 0xffff_ffff) as bv32
  }

  // The register at the start of each round.
  function LfsrAt(ir: nat): bv8
    requires ir < 24
  {
    match ir
    case 0 => 0x01 case 1 => 0x80 case 2 => 0xd8 case 3 => 0x1a case 4 => 0xdf case 5 => 0x09
    case 6 => 0x35 case 7 => 0x4f case 8 => 0xca case 9 => 0x70 case 10 => 0x41 case 11 => 0xec
    case 12 => 0xd5 case 13 => 0xcd case 14 => 0x63 case 15 => 0xab case 16 => 0xaa case 17 => 0x2a
    case 18 => 0xf2 case 19 => 0xe8 case 20 => 0x37 case 21 => 0x3e case 22 => 0x0b case _ => 0x44
  }

  function Steps(r: bv8, n: nat): bv8 {
    if n == 0 then r else LfsrStep(Steps(r, n - 1))
  }

  lemma {:induction false} LfsrSteps(t: nat, n: nat)
    ensures Lfsr(t + n) == Steps(Lfsr(t), n)
  {
    if n > 0 {
      LfsrSteps(t, n - 1);
    }
  }

  lemma SevenSteps(ir: nat)
    requires ir < 23
    ensures Steps(LfsrAt(ir), 7) == LfsrAt(ir + 1)
  {
    match ir
    case 0 => assert Steps(0x01, 7) == 0x80; case 1 => assert Steps(0x80, 7) == 0xd8;
    case 2 => assert Steps(0xd8, 7) == 0x1a; case 3 => assert Steps(0x1a, 7) == 0xdf;
    case 4 => assert Steps(0xdf, 7) == 0x09; case 5 => assert Steps(0x09, 7) == 0x35;
    case 6 => assert Steps(0x35, 7) == 0x4f; case 7 => assert Steps(0x4f, 7) == 0xca;
    case 8 => assert Steps(0xca, 7) == 0x70; case 9 => assert Steps(0x70, 7) == 0x41;
    case 10 => assert Steps(0x41, 7) == 0xec; case 11 => assert Steps(0xec, 7) == 0xd5;
    case 12 => assert Steps(0xd5, 7) == 0xcd; case 13 => assert Steps(0xcd, 7) == 0x63;
    case 14 => assert Steps(0x63, 7) == 0xab; case 15 => assert Steps(0xab, 7) == 0xaa;
    case 16 => assert Steps(0xaa, 7) == 0x2a; case 17 => assert Steps(0x2a, 7) == 0xf2;
    case 18 => assert Steps(0xf2, 7) == 0xe8; case 19 => assert Steps(0xe8, 7) == 0x37;
    case 20 => assert Steps(0x37, 7) == 0x3e; case 21 => assert Steps(0x3e, 7) == 0x0b;
    case _ => assert Steps(0x0b, 7) == 0x44;
  }

  lemma {:induction false} LfsrTable(ir: nat)
    requires ir < 24
    ensures Lfsr(7 * ir) == LfsrAt(ir)
    decreases ir, 0
  {
    if ir > 0 {
      LfsrTableStep(ir - 1);
    }
  }

  lemma LfsrTableStep(ir: nat)
    requires ir < 23
    ensures Lfsr(7 * (ir + 1)) == LfsrAt(ir + 1)
    decreases ir, 1
  {
    hide LfsrAt, LfsrStep, Steps;
    LfsrTable(ir);
    LfsrSteps(7 * ir, 7);
    SevenSteps(ir);
  }

  /** The constants in the tables are those the standard's shift register generates. */
  lemma RoundConstants(ir: nat)
    requires ir < 24
    ensures RoundConstant(ir) == Rc1600(ir)
    ensures ir < 22 ==> Low32(RoundConstant(ir)) == Rc800(ir)
  {
    hide Rc1600, Rc800, LfsrAt, RcBit, Lfsr, Low32;
    LfsrTable(ir);
    var t := 7 * ir;
    LfsrSteps(t, 0);
    LfsrSteps(t, 1);
    LfsrSteps(t, 2);
    LfsrSteps(t, 3);
    LfsrSteps(t, 4);
    LfsrSteps(t, 5);
    LfsrSteps(t, 6);
    ConstantsAt(ir);
    if ir < 22 {
      LowConstants(ir);
    }
  }

  function Constant(r: bv8): bv64 {
    RcBit(r, 1) | RcBit(Steps(r, 1), 2) | RcBit(Steps(r, 2), 8) | RcBit(Steps(r, 3), 0x80)
    | RcBit(Steps(r, 4), 0x8000) | RcBit(Steps(r, 5), 0x8000_0000)
    | RcBit(Steps(r, 6), 0x8000_0000_0000_0000)
  }

  lemma LowConstants(ir: nat)
    requires ir < 22
    ensures Low32(Rc1600(ir)) == Rc800(ir)
  {
    match ir
    case 0 => assert Low32(0x0000_0000_0000_0001) == 0x0000_0001; case 1 => assert Low32(0x0000_0000_0000_8082) == 0x0000_8082;
    case 2 => assert Low32(0x8000_0000_0000_808a) == 0x0000_808a; case 3 => assert Low32(0x8000_0000_8000_8000) == 0x8000_8000;
    case 4 => assert Low32(0x0000_0000_0000_808b) == 0x0000_808b; case 5 => assert Low32(0x0000_0000_8000_0001) == 0x8000_0001;
    case 6 => assert Low32(0x8000_0000_8000_8081) == 0x8000_8081; case 7 => assert Low32(0x8000_0000_0000_8009) == 0x0000_8009;
    case 8 => assert Low32(0x0000_0000_0000_008a) == 0x0000_008a; case 9 => assert Low32(0x0000_0000_0000_0088) == 0x0000_0088;
    case 10 => assert Low32(0x0000_0000_8000_8009) == 0x8000_8009; case 11 => assert Low32(0x0000_0000_8000_000a) == 0x8000_000a;
    case 12 => assert Low32(0x0000_0000_8000_808b) == 0x8000_808b; case 13 => assert Low32(0x8000_0000_0000_008b) == 0x0000_008b;
    case 14 => assert Low32(0x8000_0000_0000_8089) == 0x0000_8089; case 15 => assert Low32(0x8000_0000_0000_8003) == 0x0000_8003;
    case 16 => assert Low32(0x8000_0000_0000_8002) == 0x0000_8002; case 17 => assert Low32(0x8000_0000_0000_0080) == 0x0000_0080;
    case 18 => assert Low32(0x0000_0000_0000_800a) == 0x0000_800a; case 19 => assert Low32(0x8000_0000_8000_000a) == 0x8000_000a;
    case 20 => assert Low32(0x8000_0000_8000_8081) == 0x8000_8081; case _ => assert Low32(0x8000_0000_0000_8080) == 0x0000_8080;
  }

  lemma ConstantsAt(ir: nat)
    requires ir < 24
    ensures Constant(LfsrAt(ir)) == Rc1600(ir)
  {
    match ir
    case 0 => assert Constant(0x01) == 0x0000_0000_0000_0001;
    case 1 => assert Constant(0x80) == 0x0000_0000_0000_8082;
    case 2 => assert Constant(0xd8) == 0x8000_0000_0000_808a;
    case 3 => assert Constant(0x1a) == 0x8000_0000_8000_8000;
    case 4 => assert Constant(0xdf) == 0x0000_0000_0000_808b;
    case 5 => assert Constant(0x09) == 0x0000_0000_8000_0001;
    case 6 => assert Constant(0x35) == 0x8000_0000_8000_8081;
    case 7 => assert Constant(0x4f) == 0x8000_0000_0000_8009;
    case 8 => assert Constant(0xca) == 0x0000_0000_0000_008a;
    case 9 => assert Constant(0x70) == 0x0000_0000_0000_0088;
    case 10 => assert Constant(0x41) == 0x0000_0000_8000_8009;
    case 11 => assert Constant(0xec) == 0x0000_0000_8000_000a;
    case 12 => assert Constant(0xd5) == 0x0000_0000_8000_808b;
    case 13 => assert Constant(0xcd) == 0x8000_0000_0000_008b;
    case 14 => assert Constant(0x63) == 0x8000_0000_0000_8089;
    case 15 => assert Constant(0xab) == 0x8000_0000_0000_8003;
    case 16 => assert Constant(0xaa) == 0x8000_0000_0000_8002;
    case 17 => assert Constant(0x2a) == 0x8000_0000_0000_0080;
    case 18 => assert Constant(0xf2) == 0x0000_0000_0000_800a;
    case 19 => assert Constant(0xe8) == 0x8000_0000_8000_000a;
    case 20 => assert Constant(0x37) == 0x8000_0000_8000_8081;
    case 21 => assert Constant(0x3e) == 0x8000_0000_0000_8080;
    case 22 => assert Constant(0x0b) == 0x0000_0000_8000_0001;
    case _ => assert Constant(0x44) == 0x8000_0000_8000_8008;
  }

  lemma ConstantSequences()
    ensures RCS1600 == seq(24, ir requires 0 <= ir < 24 => RoundConstant(ir))
    ensures RCS800 == seq(22, ir requires 0 <= ir < 22 => Low32(RoundConstant(ir)))
  {
    hide Rc1600, Rc800, RoundConstant, Low32;
    forall ir | 0 <= ir < 24
      ensures RoundConstant(ir) == Rc1600(ir)
      ensures ir < 22 ==> Low32(RoundConstant(ir)) == Rc800(ir)
    {
      RoundConstants(ir);
    }
  }

  // ethash_keccakf1600 and ethash_keccakf800.
  method PermuteCpu1600(state: array<bv64>)
    requires state.Length == LANES
    modifies state
    ensures state[..] == F1600(old(state[..]))
  {
    hide Rounds;
    KeccakUnrolled.Permute(OPS64, state, RCS1600);
    ConstantSequences();
  }

  method PermuteCpu800(state: array<bv32>)
    requires state.Length == LANES
    modifies state
    ensures state[..] == F800(old(state[..]))
  {
    hide Rounds;
    KeccakUnrolled.Permute(OPS32, state, RCS800);
    ConstantSequences();
  }

  // The round loops of the CUDA and the OpenCL kernel.
  method PermuteGpu<W>(o: LaneOps<W>, st: array<W>, rcs: seq<W>)
    requires st.Length == LANES && o.Valid()
    modifies st
    ensures st[..] == Rounds(o, old(st[..]), rcs, |rcs|)
  {
    hide Round;
    for r := 0 to |rcs|
      invariant st[..] == Rounds(o, old(st[..]), rcs, r)
    {
      KeccakGpu.RoundInPlace(o, st, rcs[r]);
    }
  }

  method PermuteGpu1600(st: array<bv64>)
    requires st.Length == LANES
    modifies st
    ensures st[..] == F1600(old(st[..]))
  {
    hide Rounds;
    PermuteGpu(OPS64, st, RCS1600);
    ConstantSequences();
  }

  method PermuteGpu800(st: array<bv32>)
    requires st.Length == LANES
    modifies st
    ensures st[..] == F800(old(st[..]))
  {
    hide Rounds;
    PermuteGpu(OPS32, st, RCS800);
    ConstantSequences();
  }
}

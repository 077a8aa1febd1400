/** The Keccak permutations as sections 3.2 and 3.3 of FIPS 202 define them, over any lane type.

    A state is 25 lanes; lane (x, y) of the standard has index x + 5y, the order in which the
    miner's arrays hold them. Lane operations are a parameter, so one definition serves the 32-bit
    lanes of Keccak-f[800] and the 64-bit lanes of Keccak-f[1600], and the proofs about moving lanes
    around never look inside a rotation. */
module KeccakSpec {

  datatype LaneOps<!W> = LaneOps(
    width: nat,
    xor: (W, W) -> W,
    andNot: (W, W) -> W,  // (x, y) => ~x & y
    rotl: (W, nat) -> W)  // rotation by a count below the width
  {
    predicate Valid() { width == 32 || width == 64 }

    function Xor(x: W, y: W): W { xor(x, y) }

    function AndNot(x: W, y: W): W { andNot(x, y) }

    function Rotl(x: W, n: nat): W
      requires Valid()
    {
      rotl(x, n % width)
    }
  }

  const LANES := 25

  // Section 3.2.1.
  function Column<W>(o: LaneOps<W>, a: seq<W>, x: nat): W
    requires |a| == LANES && x < 5
  {
    o.Xor(o.Xor(o.Xor(o.Xor(a[x], a[x + 5]), a[x + 10]), a[x + 15]), a[x + 20])
  }

  function ThetaEffect<W>(o: LaneOps<W>, a: seq<W>, x: nat): W
    requires |a| == LANES && o.Valid() && x < 5
  {
    o.Xor(Column(o, a, (x + 4) % 5), o.Rotl(Column(o, a, (x + 1) % 5), 1))
  }

  function Theta<W>(o: LaneOps<W>, a: seq<W>): (r: seq<W>)
    requires |a| == LANES && o.Valid()
    ensures |r| == LANES
  {
    seq(LANES, i requires 0 <= i < LANES => o.Xor(a[i], ThetaEffect(o, a, i % 5)))
  }

  // Section 3.2.2, algorithm 2: the walk visits (1, 0) and goes from (x, y) to (y, 2x + 3y).
  function Walk(t: nat): (p: nat)
    ensures 0 < p < LANES
  {
    if t == 0 then 1 else Onward(Walk(t - 1))
  }

  function Onward(p: nat): (r: nat)
    requires 0 < p < LANES
    ensures 0 < r < LANES
  {
    (p / 5) + 5 * ((2 * (p % 5) + 3 * (p / 5)) % 5)
  }

  function Offset(t: nat): nat {
    (t + 1) * (t + 2) / 2
  }

  function RhoWalk<W>(o: LaneOps<W>, a: seq<W>, t: nat): (r: seq<W>)
    requires |a| == LANES && o.Valid()
    ensures |r| == LANES
  {
    if t == 0 then a else
      RhoWalk(o, a, t - 1)[Walk(t - 1) := o.Rotl(a[Walk(t - 1)], Offset(t - 1))]
  }

  function Rho<W>(o: LaneOps<W>, a: seq<W>): (r: seq<W>)
    requires |a| == LANES && o.Valid()
    ensures |r| == LANES
  {
    RhoWalk(o, a, 24)
  }

  // Section 3.2.3: A'[x, y] = A[x + 3y, x].
  function PiSource(i: nat): (j: nat)
    requires i < LANES
    ensures j < LANES
  {
    (i % 5 + 3 * (i / 5)) % 5 + 5 * (i % 5)
  }

  function Pi<W>(a: seq<W>): (r: seq<W>)
    requires |a| == LANES
    ensures |r| == LANES
  {
    seq(LANES, i requires 0 <= i < LANES => a[PiSource(i)])
  }

  // Section 3.2.4.
  function RowLane<W>(o: LaneOps<W>, a: seq<W>, row: nat, x: nat): W
    requires |a| == LANES && row <= 20 && x < 5
  {
    o.Xor(a[row + x], o.AndNot(a[row + (x + 1) % 5], a[row + (x + 2) % 5]))
  }

  function Chi<W>(o: LaneOps<W>, a: seq<W>): (r: seq<W>)
    requires |a| == LANES
    ensures |r| == LANES
  {
    seq(LANES, i requires 0 <= i < LANES => RowLane(o, a, i - i % 5, i % 5))
  }

  // Section 3.2.5, the step itself; the constants are below.
  function Iota<W>(o: LaneOps<W>, a: seq<W>, rc: W): (r: seq<W>)
    requires |a| == LANES
    ensures |r| == LANES
  {
    a[0 := o.Xor(a[0], rc)]
  }

  function Round<W>(o: LaneOps<W>, a: seq<W>, rc: W): (r: seq<W>)
    requires |a| == LANES && o.Valid()
    ensures |r| == LANES
  {
    Iota(o, Chi(o, Pi(Rho(o, Theta(o, a)))), rc)
  }

  // Section 3.3: the first n rounds.
  function Rounds<W>(o: LaneOps<W>, a: seq<W>, rcs: seq<W>, n: nat): (r: seq<W>)
    requires |a| == LANES && o.Valid() && n <= |rcs|
    ensures |r| == LANES
  {
    if n == 0 then a else Round(o, Rounds(o, a, rcs, n - 1), rcs[n - 1])
  }

  // Algorithm 5: the register of the round constant generator, bit i of the byte being R[i].
  function Lfsr(t: nat): bv8 {
    if t == 0 then 1 else LfsrStep(Lfsr(t - 1))
  }

  function LfsrStep(r: bv8): bv8 {
    (r << 1) ^ (if r & 0x80 == 0 then 0 else 0x71)
  }

  // Algorithm 6: bit 2^j - 1 of the constant of round ir is rc(j + 7 ir), for 0 <= j <= l; this is
  // the case l = 6, and a constant of the case l = 5 lacks only the last bit.
  function RoundConstant(ir: nat): bv64 {
    var t := 7 * ir;
    RcBit(Lfsr(t), 1) | RcBit(Lfsr(t + 1), 2) | RcBit(Lfsr(t + 2), 8) | RcBit(Lfsr(t + 3), 0x80)
    | RcBit(Lfsr(t + 4), 0x8000) | RcBit(Lfsr(t + 5), 0x8000_0000)
    | RcBit(Lfsr(t + 6), 0x8000_0000_0000_0000)
  }

  function RcBit(r: bv8, bit: bv64): bv64 {
    if r & 1 == 0 then 0 else bit
  }

  // The walk as a table (it closes after 24 steps) and the step at which it visits a lane.
  function StepOf(i: nat): (t: nat)
    requires 0 < i < LANES
    ensures t < 24
  {
    match i
    case 1 => 0 case 2 => 18 case 3 => 6 case 4 => 12
    case 5 => 7 case 6 => 23 case 7 => 2 case 8 => 9
    case 9 => 22 case 10 => 1 case 11 => 3 case 12 => 17
    case 13 => 16 case 14 => 20 case 15 => 13 case 16 => 8
    case 17 => 4 case 18 => 5 case 19 => 15 case 20 => 19
    case 21 => 10 case 22 => 21 case 23 => 14 case _ => 11
  }

  function WalkAt(t: nat): (p: nat)
    requires t <= 24
    ensures 0 < p < LANES
  {
    match t
    case 0 => 1 case 1 => 10 case 2 => 7 case 3 => 11 case 4 => 17 case 5 => 18
    case 6 => 3 case 7 => 5 case 8 => 16 case 9 => 8 case 10 => 21 case 11 => 24
    case 12 => 4 case 13 => 15 case 14 => 23 case 15 => 19 case 16 => 13 case 17 => 12
    case 18 => 2 case 19 => 20 case 20 => 14 case 21 => 22 case 22 => 9 case 23 => 6 case _ => 1
  }

  lemma StepAt(t: nat)
    requires t < 24
    ensures StepOf(WalkAt(t)) == t
  {
  }

  lemma AtStep(i: nat)
    requires 0 < i < LANES
    ensures WalkAt(StepOf(i)) == i
  {
  }

  lemma OnwardAt(t: nat)
    requires t < 24
    ensures Onward(WalkAt(t)) == WalkAt(t + 1)
  {
  }

  lemma {:induction false} WalkTable(t: nat)
    requires t <= 24
    ensures Walk(t) == WalkAt(t)
  {
    if t > 0 {
      WalkTable(t - 1);
      OnwardAt(t - 1);
    }
  }

  /** The walk visits every lane but lane 0, and each only once in 24 steps. */
  lemma WalkVisitsEveryLane(i: nat, t: nat)
    requires 0 < i < LANES && t < 24
    ensures Walk(t) == i <==> t == StepOf(i)
  {
    WalkTable(t);
    StepAt(t);
    AtStep(i);
  }

  /** The effect of algorithm 2 on one lane. */
  lemma {:induction false} RhoWalkLane<W>(o: LaneOps<W>, a: seq<W>, n: nat, t: nat)
    requires |a| == LANES && o.Valid() && n <= 24 && t < 24
    ensures RhoWalk(o, a, n)[Walk(t)] == if t < n then o.Rotl(a[Walk(t)], Offset(t)) else a[Walk(t)]
    ensures RhoWalk(o, a, n)[0] == a[0]
  {
    if n > 0 {
      RhoWalkLane(o, a, n - 1, t);
      WalkVisitsEveryLane(Walk(t), t);
      WalkVisitsEveryLane(Walk(t), n - 1);
    }
  }

  lemma PiAt(t: nat)
    requires t < 24
    ensures PiSource(WalkAt(t + 1)) == WalkAt(t)
  {
  }

  /** Pi carries the lane at one stop of the walk to the next stop: this is what lets a kernel
      perform rho and pi together by chasing the walk in place. */
  lemma PiFollowsWalk(t: nat)
    requires t < 24
    ensures PiSource(Walk(t + 1)) == Walk(t)
  {
    PiAt(t);
    WalkTable(t);
    WalkTable(t + 1);
  }

  lemma RhoPiLane<W>(o: LaneOps<W>, a: seq<W>, t: nat)
    requires |a| == LANES && o.Valid() && t < 24
    ensures Pi(Rho(o, a))[Walk(t + 1)] == o.Rotl(a[Walk(t)], Offset(t))
    ensures Pi(Rho(o, a))[0] == a[0]
  {
    PiFollowsWalk(t);
    RhoWalkLane(o, a, 24, t);
  }

  lemma Mod64Mod32(n: nat)
    ensures (n % 64) % 32 == n % 32 && (n % 64) % 64 == n % 64
  {
    assert n == 32 * (2 * (n / 64) + (n % 64) / 32) + (n % 64) % 32;
  }

  // How far rho turns the lane that pi then moves to lane i.
  function Turn(i: nat): nat
    requires 0 < i < LANES
  {
    match i
    case 1 => 44 case 2 => 43 case 3 => 21 case 4 => 14 case 5 => 28 case 6 => 20
    case 7 => 3 case 8 => 45 case 9 => 61 case 10 => 1 case 11 => 6 case 12 => 25
    case 13 => 8 case 14 => 18 case 15 => 27 case 16 => 36 case 17 => 10 case 18 => 15
    case 19 => 56 case 20 => 62 case 21 => 55 case 22 => 39 case 23 => 41 case _ => 2
  }

  lemma TurnAt(t: nat)
    requires t < 24
    ensures Turn(WalkAt(t + 1)) == Offset(t) % 64
  {
  }

  /** Lane i after theta, rho and pi. */
  function Moved<W>(o: LaneOps<W>, a: seq<W>, i: nat): W
    requires |a| == LANES && o.Valid() && i < LANES
  {
    var s := PiSource(i);
    var c := o.Xor(a[s], ThetaEffect(o, a, s % 5));
    if i == 0 then c else o.Rotl(c, Turn(i))
  }

  lemma StepBefore(i: nat) returns (t: nat)
    requires 0 < i < LANES
    ensures t < 24 && WalkAt(t + 1) == i
  {
    AtStep(i);
    t := if i == 1 then 23 else StepOf(i) - 1;
  }

  lemma MovedLane<W>(o: LaneOps<W>, a: seq<W>, i: nat)
    requires |a| == LANES && o.Valid() && i < LANES
    ensures Pi(Rho(o, Theta(o, a)))[i] == Moved(o, a, i)
  {
    hide Theta, ThetaEffect, Rho, Pi, Turn, PiSource, Offset;
    var c, s := Theta(o, a), PiSource(i);
    ThetaLane(o, a, s);
    var t := Arrives(i);
    RhoPiLane(o, c, t);
    if i != 0 {
      TurnIsOffset(o, c[s], i, t);
    }
  }

  // The step of the walk that feeds lane i.
  lemma Arrives(i: nat) returns (t: nat)
    requires i < LANES
    ensures t < 24
    ensures i != 0 ==> Walk(t) == PiSource(i) && Walk(t + 1) == i
    ensures i == 0 ==> PiSource(i) == 0
  {
    hide Walk, WalkAt, PiSource;
    if i == 0 {
      assert PiSource(0) == 0 by { PiAtZero(); }
      t := 0;
    } else {
      t := StepBefore(i);
      PiAt(t);
      WalkTable(t);
      WalkTable(t + 1);
    }
  }

  lemma PiAtZero()
    ensures PiSource(0) == 0
  {
  }

  lemma ThetaLane<W>(o: LaneOps<W>, a: seq<W>, s: nat)
    requires |a| == LANES && o.Valid() && s < LANES
    ensures Theta(o, a)[s] == o.Xor(a[s], ThetaEffect(o, a, s % 5))
  {
    hide ThetaEffect;
  }

  lemma TurnIsOffset<W>(o: LaneOps<W>, c: W, i: nat, t: nat)
    requires 0 < i < LANES && t < 24 && Walk(t + 1) == i && o.Valid()
    ensures o.Rotl(c, Turn(i)) == o.Rotl(c, Offset(t))
  {
    hide Turn, Walk, WalkAt, Offset;
    WalkTable(t + 1);
    TurnAt(t);
    Mod64Mod32(Offset(t));
  }

  /** One lane of a round in terms of the state the round starts from. */
  lemma RoundLane<W>(o: LaneOps<W>, a: seq<W>, rc: W, i: nat)
    requires |a| == LANES && o.Valid() && i < LANES
    ensures var row := i - i % 5;
      var e := o.Xor(Moved(o, a, i),
        o.AndNot(Moved(o, a, row + (i % 5 + 1) % 5), Moved(o, a, row + (i % 5 + 2) % 5)));
      Round(o, a, rc)[i] == if i == 0 then o.Xor(e, rc) else e
  {
    hide Moved, Rho, Pi, Theta;
    var row := i - i % 5;
    MovedLane(o, a, i);
    MovedLane(o, a, row + (i % 5 + 1) % 5);
    MovedLane(o, a, row + (i % 5 + 2) % 5);
  }

  lemma MovedTo<W>(o: LaneOps<W>, a: seq<W>, i: nat, s: nat, x: nat, n: nat)
    requires |a| == LANES && o.Valid() && 0 < i < LANES
    requires PiSource(i) == s && s % 5 == x && Turn(i) == n
    ensures Moved(o, a, i) == o.Rotl(o.Xor(a[s], ThetaEffect(o, a, x)), n)
  {
    hide ThetaEffect, LaneOps.Rotl, PiSource, Turn;
  }

  lemma MovedZero<W>(o: LaneOps<W>, a: seq<W>)
    requires |a| == LANES && o.Valid()
    ensures Moved(o, a, 0) == o.Xor(a[0], ThetaEffect(o, a, 0))
  {
    hide ThetaEffect, LaneOps.Rotl;
  }
}

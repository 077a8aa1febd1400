/** The random program of a ProgPoW period: what one loop of the hash does, as a list of operations
    drawn from KISS99 (libethash/progpow.cpp and libprogpow/ProgPow.cpp, after EIP-1057). */
module Program {
  import opened Words
  import opened Kiss99

  const LANES := 16            // num_lanes, PROGPOW_LANES
  const REGS := 32             // num_regs, PROGPOW_REGS
  const DAG_LOADS := 4         // words of the DAG per lane and loop
  const CACHE_WORDS := 4096    // l1_cache_num_items
  const CACHE_ACCESSES := 11
  const MATH_OPERATIONS := 18
  const LOOPS := 64            // PROGPOW_CNT_DAG
  const PERIOD := 0x7fff_ffff  // blocks per program

  type Int32 = x: int | -0x8000_0000 <= x < 0x8000_0000

  // The period of a block; the division rounds toward zero.
  function Period(block: Int32): int {
    var b: int := block;
    if b < 0 then -(-b / PERIOD) else b / PERIOD
  }

  // Its number as an unsigned 64-bit seed.
  function PeriodSeed(block: Int32): bv64 { (Period(block) % 0x1_0000_0000_0000_0000) as bv64 }

  // The registers of one lane, and the words of the DAG one lane receives.
  type Regs = s: seq<word> | |s| == REGS witness seq(REGS, _ => 0)
  type Loads = s: seq<word> | |s| == DAG_LOADS witness seq(DAG_LOADS, _ => 0)

  datatype Op =
    | CacheOp(src: nat, dst: nat, sel: word)
    | MathOp(src1: nat, src2: nat, sel1: word, dst: nat, sel2: word)
    | DagOp(i: nat, dst: nat, sel: word)

  // The generator with the two register sequences and how much of each has been used.
  datatype State = State(rng: Kiss, dst: seq<nat>, dstCount: nat, src: seq<nat>, srcCount: nat) {
    ghost predicate Valid() { IsPermutation(dst) && IsPermutation(src) }
  }

  ghost predicate IsPermutation(s: seq<nat>) {
    && |s| == REGS
    && (forall i :: 0 <= i < REGS ==> s[i] < REGS)
    && (forall i, j :: 0 <= i < j < REGS ==> s[i] != s[j])
  }

  // The seed of the generator, FNV-1a over the two halves of the program seed, twice.
  function SeededRng(lo: word, hi: word): Kiss {
    var z := Fnv1a(FNV_OFFSET_BASIS, lo);
    var w := Fnv1a(z, hi);
    var jsr := Fnv1a(w, lo);
    Kiss(z, w, jsr, Fnv1a(jsr, hi))
  }

  function SeedLow(seed: bv64): word { (seed & 0xffff_ffff) as bv32 }

  function SeedHigh(seed: bv64): word { (seed >> 32) as bv32 }

  function Identity(): (s: seq<nat>)
    ensures |s| == REGS
  {
    seq(REGS, i requires 0 <= i < REGS => i)
  }

  function Swap(s: seq<nat>, i: nat, j: nat): (r: seq<nat>)
    requires i < |s| && j < |s|
    ensures |r| == |s|
  {
    s[i := s[j]][j := s[i]]
  }

  function Pick(x: word, n: nat): (j: nat)
    requires n > 0
    ensures j < n
  {
    Index(x) % n
  }

  // One step of the Fisher-Yates shuffles: position i - 1 of each sequence.
  function ShuffleStep(s: State, i: nat): (t: State)
    requires |s.dst| == |s.src| == REGS && 0 < i <= REGS
    ensures |t.dst| == |t.src| == REGS
  {
    var a := Step(s.rng);
    var b := Step(a);
    s.(rng := b, dst := Swap(s.dst, i - 1, Pick(Out(a), i)), src := Swap(s.src, i - 1, Pick(Out(b), i)))
  }

  // The shuffles from position i - 1 down.
  function Shuffled(s: State, i: nat): (t: State)
    requires |s.dst| == |s.src| == REGS && i <= REGS
    ensures |t.dst| == |t.src| == REGS
    decreases i, s
  {
    if i <= 1 then s else Shuffled(ShuffleStep(s, i), i - 1)
  }

  function Start(lo: word, hi: word): State {
    Shuffled(State(SeededRng(lo, hi), Identity(), 0, Identity(), 0), REGS)
  }

  lemma SwapKeepsPermutation(s: seq<nat>, i: nat, j: nat)
    requires IsPermutation(s) && i < REGS && j < REGS
    ensures IsPermutation(Swap(s, i, j))
  {
  }

  lemma ShuffleStepIsValid(s: State, i: nat)
    requires s.Valid() && 0 < i <= REGS
    ensures ShuffleStep(s, i).Valid()
  {
    hide IsPermutation, Swap, Pick, Step, Out;
    var a := Step(s.rng);
    SwapKeepsPermutation(s.dst, i - 1, Pick(Out(a), i));
    SwapKeepsPermutation(s.src, i - 1, Pick(Out(Step(a)), i));
  }

  lemma {:induction false} ShuffledIsValid(s: State, i: nat)
    requires s.Valid() && i <= REGS
    ensures Shuffled(s, i).Valid()
    ensures Shuffled(s, i).dstCount == s.dstCount && Shuffled(s, i).srcCount == s.srcCount
    decreases i
  {
    hide State.Valid;
    if i > 1 {
      ShuffleStepIsValid(s, i);
      ShuffledIsValid(ShuffleStep(s, i), i - 1);
    }
  }

  /** For every seed both sequences are permutations of the registers, and nothing is used yet. */
  lemma StartIsValid(lo: word, hi: word)
    ensures Start(lo, hi).Valid() && Start(lo, hi).dstCount == 0 && Start(lo, hi).srcCount == 0
  {
    ShuffledIsValid(State(SeededRng(lo, hi), Identity(), 0, Identity(), 0), REGS);
  }

  function NextDst(s: State): nat
    requires |s.dst| == REGS
  {
    s.dst[s.dstCount % REGS]
  }

  function NextSrc(s: State): nat
    requires |s.src| == REGS
  {
    s.src[s.srcCount % REGS]
  }

  // The two distinct source registers that a number below 32 * 31 stands for.
  function Source1(n: nat): nat { n % REGS }

  function Source2(n: nat): nat {
    if n / REGS >= n % REGS then n / REGS + 1 else n / REGS
  }

  // A cache access: a source, a destination and a selector.
  function CacheOpOf(s: State): Op
    requires |s.dst| == |s.src| == REGS
  {
    CacheOp(NextSrc(s), NextDst(s), Out(Step(s.rng)))
  }

  function AfterCache(s: State): State {
    s.(rng := Step(s.rng), dstCount := s.dstCount + 1, srcCount := s.srcCount + 1)
  }

  // Random math: two sources, a selector for the operation, a destination, a selector for the merge.
  function MathOpOf(s: State): Op
    requires |s.dst| == REGS
  {
    var a := Step(s.rng);
    var b := Step(a);
    var n := Pick(Out(a), REGS * (REGS - 1));
    MathOp(Source1(n), Source2(n), Out(b), NextDst(s), Out(Step(b)))
  }

  function AfterMath(s: State): State {
    s.(rng := Step(Step(Step(s.rng))), dstCount := s.dstCount + 1)
  }

  function MainOps(s: State, i: nat): seq<Op>
    requires |s.dst| == |s.src| == REGS
    decreases MATH_OPERATIONS - i, s
  {
    if i >= MATH_OPERATIONS then []
    else if i < CACHE_ACCESSES then
      var t := AfterCache(s);
      [CacheOpOf(s)] + ([MathOpOf(t)] + MainOps(AfterMath(t), i + 1))
    else [MathOpOf(s)] + MainOps(AfterMath(s), i + 1)
  }

  function AfterMain(s: State, i: nat): State
    decreases MATH_OPERATIONS - i, s
  {
    if i >= MATH_OPERATIONS then s
    else if i < CACHE_ACCESSES then AfterMain(AfterMath(AfterCache(s)), i + 1)
    else AfterMain(AfterMath(s), i + 1)
  }

  // The merges of the DAG words; the first always goes to register 0.
  function DagOpOf(s: State, i: nat): Op
    requires |s.dst| == REGS
  {
    DagOp(i, if i == 0 then 0 else NextDst(s), Out(Step(s.rng)))
  }

  function AfterDag(s: State, i: nat): State {
    s.(rng := Step(s.rng), dstCount := if i == 0 then s.dstCount else s.dstCount + 1)
  }

  function DagOps(s: State, i: nat): seq<Op>
    requires |s.dst| == REGS
    decreases DAG_LOADS - i, s
  {
    if i >= DAG_LOADS then [] else [DagOpOf(s, i)] + DagOps(AfterDag(s, i), i + 1)
  }

  lemma {:induction false} AfterMainKeeps(s: State, i: nat)
    ensures AfterMain(s, i).dst == s.dst && AfterMain(s, i).src == s.src
    decreases MATH_OPERATIONS - i
  {
    if i >= MATH_OPERATIONS {
    } else if i < CACHE_ACCESSES {
      AfterMainKeeps(AfterMath(AfterCache(s)), i + 1);
    } else {
      AfterMainKeeps(AfterMath(s), i + 1);
    }
  }

  /** The program of one loop. */
  function Plan(s: State): seq<Op>
    requires |s.dst| == |s.src| == REGS
  {
    AfterMainKeeps(s, 0);
    MainOps(s, 0) + DagOps(AfterMain(s, 0), 0)
  }

  // The operation a selector stands for.
  function MathKind(sel: word): nat { Index(sel) % 11 }

  function MergeKind(sel: word): nat { Index(sel) % 4 }

  // random_math and random_merge.
  function RandomMath(a: word, b: word, sel: word): word {
    match MathKind(sel)
    case 0 => Plus(a, b)
    case 1 => Times(a, b)
    case 2 => MulHi(a, b)
    case 3 => Min(a, b)
    case 4 => Rotl(Cpu, a, b)
    case 5 => Rotr(Cpu, a, b)
    case 6 => And(a, b)
    case 7 => Or(a, b)
    case 8 => Xor(a, b)
    case 9 => Plus(Clz(a), Clz(b))
    case _ => Plus(Popcount(a), Popcount(b))
  }

  // A rotation count from 1 to 31, from the high half of the selector.
  function MergeCount(sel: word): word { (Index(sel) / 0x1_0000 % 31 + 1) as bv32 }

  function RandomMerge(a: word, b: word, sel: word): word {
    match MergeKind(sel)
    case 0 => MulAdd(a, b)
    case 1 => XorMul(a, b)
    case 2 => Xor(Rotl(Cpu, a, MergeCount(sel)), b)
    case _ => Xor(Rotr(Cpu, a, MergeCount(sel)), b)
  }

  function MulAdd(a: word, b: word): word { Plus(Times(a, 33), b) }

  function XorMul(a: word, b: word): word { Times(Xor(a, b), 33) }

  lemma MergesInjective(a: word, c: word, b: word)
    ensures MulAdd(a, b) == MulAdd(c, b) ==> a == c
    ensures XorMul(a, b) == XorMul(c, b) ==> a == c
    ensures Xor(a, b) == Xor(c, b) ==> a == c
  {
    hide Times, Xor, Plus;
    Cancels(Times(a, 33), Times(c, 33), b);
    Cancels(a, c, b);
    if Times(a, 33) == Times(c, 33) {
      Times33Injective(a, c);
    }
    if Times(Xor(a, b), 33) == Times(Xor(c, b), 33) {
      Times33Injective(Xor(a, b), Xor(c, b));
    }
  }

  /** A merge keeps all the entropy of the register it merges into, whatever the data. */
  lemma RandomMergeInjective(a: word, c: word, b: word, sel: word)
    requires RandomMerge(a, b, sel) == RandomMerge(c, b, sel)
    ensures a == c
  {
    hide MulAdd, XorMul, Xor, Rotl, Rotr, MergeCount, MergeKind;
    var n := MergeCount(sel);
    MergesInjective(a, c, b);
    MergesInjective(Rotl(Cpu, a, n), Rotl(Cpu, c, n), b);
    MergesInjective(Rotr(Cpu, a, n), Rotr(Cpu, c, n), b);
    RotationsInvert(a, n);
    RotationsInvert(c, n);
  }

  // The number that stands for an ordered pair of distinct registers.
  function PairNumber(a: nat, b: nat): nat {
    if b > a then REGS * (b - 1) + a else REGS * b + a
  }

  /** The source draw ranges over the ordered pairs of distinct registers, each exactly once. */
  lemma SourcesAreBijective(n: nat, a: nat, b: nat)
    requires n < REGS * (REGS - 1) && a < REGS && b < REGS && a != b
    ensures Source1(n) < REGS && Source2(n) < REGS && Source1(n) != Source2(n)
    ensures PairNumber(Source1(n), Source2(n)) == n
    ensures PairNumber(a, b) < REGS * (REGS - 1)
    ensures Source1(PairNumber(a, b)) == a && Source2(PairNumber(a, b)) == b
  {
  }

  // One operation on the registers of a lane, given the cache and the DAG words of the lane.
  predicate OpOk(op: Op) {
    match op
    case CacheOp(src, dst, _) => src < REGS && dst < REGS
    case MathOp(src1, src2, _, dst, _) => src1 < REGS && src2 < REGS && src1 != src2 && dst < REGS
    case DagOp(i, dst, _) => i < DAG_LOADS && dst < REGS
  }

  function RunOp(op: Op, mix: Regs, cache: seq<word>, dag: Loads): Regs
    requires OpOk(op) && |cache| == CACHE_WORDS
  {
    match op
    case CacheOp(src, dst, sel) =>
      mix[dst := RandomMerge(mix[dst], cache[Index(mix[src]) % CACHE_WORDS], sel)]
    case MathOp(src1, src2, sel1, dst, sel2) =>
      mix[dst := RandomMerge(mix[dst], RandomMath(mix[src1], mix[src2], sel1), sel2)]
    case DagOp(i, dst, sel) =>
      mix[dst := RandomMerge(mix[dst], dag[i], sel)]
  }

  ghost predicate OpsOk(ops: seq<Op>) {
    forall k :: 0 <= k < |ops| ==> OpOk(ops[k])
  }

  // A program on one lane.
  ghost function RunLane(ops: seq<Op>, mix: Regs, cache: seq<word>, dag: Loads): Regs
    requires OpsOk(ops) && |cache| == CACHE_WORDS
  {
    if |ops| == 0 then mix
    else
      var last := |ops| - 1;
      RunOp(ops[last], RunLane(ops[..last], mix, cache, dag), cache, dag)
  }

  // An operation on every lane, and a program with the operations outermost.
  ghost function RunOpOnLanes(op: Op, mix: seq<Regs>, cache: seq<word>, dags: seq<Loads>): (r: seq<Regs>)
    requires OpOk(op) && |cache| == CACHE_WORDS && |mix| == |dags|
    ensures |r| == |mix|
  {
    seq(|mix|, l requires 0 <= l < |mix| => RunOp(op, mix[l], cache, dags[l]))
  }

  ghost function RunOuter(ops: seq<Op>, mix: seq<Regs>, cache: seq<word>, dags: seq<Loads>): (r: seq<Regs>)
    requires OpsOk(ops) && |cache| == CACHE_WORDS && |mix| == |dags|
    ensures |r| == |mix|
  {
    if |ops| == 0 then mix
    else
      var last := |ops| - 1;
      RunOpOnLanes(ops[last], RunOuter(ops[..last], mix, cache, dags), cache, dags)
  }

  /** Running every operation on all lanes before the next one is running the program on each lane. */
  lemma {:induction false} LoopInterchange(ops: seq<Op>, mix: seq<Regs>, cache: seq<word>, dags: seq<Loads>, l: nat)
    requires OpsOk(ops) && |cache| == CACHE_WORDS && |mix| == |dags| && l < |mix|
    ensures RunOuter(ops, mix, cache, dags)[l] == RunLane(ops, mix[l], cache, dags[l])
  {
    hide RunOp, OpOk;
    if |ops| > 0 {
      LoopInterchange(ops[..|ops| - 1], mix, cache, dags, l);
    }
  }

  lemma RunOuterSnoc(ops: seq<Op>, op: Op, mix: seq<Regs>, cache: seq<word>, dags: seq<Loads>)
    requires OpsOk(ops) && OpOk(op) && |cache| == CACHE_WORDS && |mix| == |dags|
    ensures OpsOk(ops + [op])
    ensures RunOuter(ops + [op], mix, cache, dags)
      == RunOpOnLanes(op, RunOuter(ops, mix, cache, dags), cache, dags)
  {
    hide RunOpOnLanes, OpOk;
    assert (ops + [op])[..|ops|] == ops;
  }

  lemma RunOuterNone(mix: seq<Regs>, cache: seq<word>, dags: seq<Loads>)
    requires |mix| == |dags| == LANES && |cache| == CACHE_WORDS
    ensures RunOuter([], mix, cache, dags) == mix
  {
  }

  lemma {:induction false} RunOuterConcat(a: seq<Op>, b: seq<Op>, mix: seq<Regs>, cache: seq<word>, dags: seq<Loads>)
    requires OpsOk(a) && OpsOk(b) && |cache| == CACHE_WORDS && |mix| == |dags|
    ensures OpsOk(a + b)
    ensures RunOuter(a + b, mix, cache, dags) == RunOuter(b, RunOuter(a, mix, cache, dags), cache, dags)
  {
    hide RunOpOnLanes, OpOk;
    if |b| == 0 {
      assert a + b == a;
    } else {
      var last := |b| - 1;
      RunOuterConcat(a, b[..last], mix, cache, dags);
      assert (a + b)[..|a + b| - 1] == a + b[..last];
    }
  }

  // The destinations a program draws from the shuffled sequence, and its cache sources, in order.
  function DrawnDsts(ops: seq<Op>): seq<nat> {
    if |ops| == 0 then []
    else (if ops[0].DagOp? && ops[0].i == 0 then [] else [ops[0].dst]) + DrawnDsts(ops[1..])
  }

  function CacheSources(ops: seq<Op>): seq<nat> {
    if |ops| == 0 then []
    else (if ops[0].CacheOp? then [ops[0].src] else []) + CacheSources(ops[1..])
  }

  // Destinations and cache sources that iterations i and up still take.
  function DstsLeft(i: nat): nat
    requires i <= MATH_OPERATIONS
  {
    MATH_OPERATIONS - i + SrcsLeft(i)
  }

  function SrcsLeft(i: nat): nat {
    if i < CACHE_ACCESSES then CACHE_ACCESSES - i else 0
  }

  lemma MathOpOk(s: State)
    requires s.Valid()
    ensures OpOk(MathOpOf(s))
  {
    hide Step, Out, Pick;
    SourcesAreBijective(Pick(Out(Step(s.rng)), REGS * (REGS - 1)), 0, 1);
  }

  lemma {:induction false} DagOpsOk(s: State, i: nat)
    requires s.Valid()
    ensures OpsOk(DagOps(s, i))
    decreases DAG_LOADS - i
  {
    hide Step, Out;
    if i < DAG_LOADS {
      DagOpsOk(AfterDag(s, i), i + 1);
    }
  }

  lemma {:induction false} MainOpsOk(s: State, i: nat)
    requires s.Valid()
    ensures OpsOk(MainOps(s, i))
    decreases MATH_OPERATIONS - i
  {
    hide Step, MainOps, CacheOpOf, MathOpOf, OpOk;
    MainStep(s, i);
    MathOpOk(s);
    if i < CACHE_ACCESSES {
      var t := AfterCache(s);
      CacheOpOk(s);
      MathOpOk(t);
      MainOpsOk(AfterMath(t), i + 1);
    } else if i < MATH_OPERATIONS {
      MainOpsOk(AfterMath(s), i + 1);
    }
  }

  lemma CacheOpOk(s: State)
    requires s.Valid()
    ensures OpOk(CacheOpOf(s))
  {
    hide Step, Out;
  }

  lemma {:induction false} DagOpsAreDag(s: State, i: nat)
    requires |s.dst| == REGS
    ensures forall k :: 0 <= k < |DagOps(s, i)| ==> DagOps(s, i)[k].DagOp?
    decreases DAG_LOADS - i
  {
    hide Step, Out, DagOps;
    DagStep(s, i);
    if i < DAG_LOADS {
      DagOpsAreDag(AfterDag(s, i), i + 1);
    }
  }

  lemma PlanOk(s: State)
    requires s.Valid()
    ensures OpsOk(Plan(s))
  {
    hide MainOps, AfterMain, DagOps, IsPermutation, OpOk;
    MainOpsOk(s, 0);
    AfterMainKeeps(s, 0);
    DagOpsOk(AfterMain(s, 0), 0);
  }

  lemma TakesOfCons(op: Op, ops: seq<Op>)
    ensures DrawnDsts([op] + ops) == (if op.DagOp? && op.i == 0 then [] else [op.dst]) + DrawnDsts(ops)
    ensures CacheSources([op] + ops) == (if op.CacheOp? then [op.src] else []) + CacheSources(ops)
  {
    assert ([op] + ops)[1..] == ops;
  }

  lemma MainStep(s: State, i: nat)
    requires |s.dst| == |s.src| == REGS
    ensures i < CACHE_ACCESSES ==> var t := AfterCache(s);
      && MainOps(s, i) == [CacheOpOf(s)] + ([MathOpOf(t)] + MainOps(AfterMath(t), i + 1))
      && AfterMain(s, i) == AfterMain(AfterMath(t), i + 1)
    ensures CACHE_ACCESSES <= i < MATH_OPERATIONS ==>
      && MainOps(s, i) == [MathOpOf(s)] + MainOps(AfterMath(s), i + 1)
      && AfterMain(s, i) == AfterMain(AfterMath(s), i + 1)
    ensures i >= MATH_OPERATIONS ==> MainOps(s, i) == [] && AfterMain(s, i) == s
  {
    hide Step, Out, CacheOpOf, MathOpOf;
  }

  // Iteration i of the main loop.
  ghost function IterationOps(s: State, i: nat): seq<Op>
    requires |s.dst| == |s.src| == REGS
  {
    if i < CACHE_ACCESSES then [CacheOpOf(s)] + [MathOpOf(AfterCache(s))] else [MathOpOf(s)]
  }

  ghost function AfterIteration(s: State, i: nat): State {
    if i < CACHE_ACCESSES then AfterMath(AfterCache(s)) else AfterMath(s)
  }

  lemma MainIteration(s: State, i: nat)
    requires |s.dst| == |s.src| == REGS && i < MATH_OPERATIONS
    ensures MainOps(s, i) == IterationOps(s, i) + MainOps(AfterIteration(s, i), i + 1)
    ensures AfterMain(s, i) == AfterMain(AfterIteration(s, i), i + 1)
  {
    hide MainOps, AfterMain, CacheOpOf, MathOpOf;
    MainStep(s, i);
  }

  lemma DagStep(s: State, i: nat)
    requires |s.dst| == REGS
    ensures i < DAG_LOADS ==> DagOps(s, i) == [DagOpOf(s, i)] + DagOps(AfterDag(s, i), i + 1)
    ensures i >= DAG_LOADS ==> DagOps(s, i) == []
  {
    hide Step, Out, DagOpOf;
  }

  lemma OpTakes(s: State)
    requires |s.dst| == |s.src| == REGS
    ensures CacheOpOf(s).CacheOp? && MathOpOf(s).MathOp?
    ensures s.dstCount < REGS ==> MathOpOf(s).dst == CacheOpOf(s).dst == s.dst[s.dstCount]
    ensures s.srcCount < REGS ==> CacheOpOf(s).src == s.src[s.srcCount]
  {
    hide Step, Out, Pick, Source1, Source2;
  }

  // The operations from iteration i on take the registers next in line, as many as are left.
  ghost predicate Takes(ops: seq<Op>, s: State, i: nat)
    requires i <= MATH_OPERATIONS && s.dstCount + DstsLeft(i) <= |s.dst| && s.srcCount + SrcsLeft(i) <= |s.src|
  {
    && DrawnDsts(ops) == s.dst[s.dstCount..s.dstCount + DstsLeft(i)]
    && CacheSources(ops) == s.src[s.srcCount..s.srcCount + SrcsLeft(i)]
  }

  lemma {:induction false} MainTakes(s: State, i: nat)
    requires |s.dst| == |s.src| == REGS && i <= MATH_OPERATIONS
    requires s.dstCount + DstsLeft(i) <= REGS && s.srcCount + SrcsLeft(i) <= REGS
    ensures Takes(MainOps(s, i), s, i)
    ensures AfterMain(s, i).dstCount == s.dstCount + DstsLeft(i)
    decreases MATH_OPERATIONS - i
  {
    hide Step, MainOps, AfterMain, CacheOpOf, MathOpOf, DrawnDsts, CacheSources, Takes;
    MainStep(s, i);
    if i < CACHE_ACCESSES {
      var t := AfterCache(s);
      OpTakes(s);
      OpTakes(t);
      MainTakes(AfterMath(t), i + 1);
      CacheTakes(s, i, MainOps(AfterMath(t), i + 1));
    } else if i < MATH_OPERATIONS {
      OpTakes(s);
      MainTakes(AfterMath(s), i + 1);
      MathTakes(s, i, MainOps(AfterMath(s), i + 1));
    } else {
      NoneTakes(s);
    }
  }

  lemma CacheTakes(s: State, i: nat, rest: seq<Op>)
    requires |s.dst| == |s.src| == REGS && i < CACHE_ACCESSES
    requires s.dstCount + DstsLeft(i) <= REGS && s.srcCount + SrcsLeft(i) <= REGS
    requires var t := AfterMath(AfterCache(s));
      t.dst == s.dst && t.src == s.src && t.dstCount == s.dstCount + 2 && t.srcCount == s.srcCount + 1
      && Takes(rest, t, i + 1)
    ensures Takes([CacheOpOf(s)] + ([MathOpOf(AfterCache(s))] + rest), s, i)
  {
    hide Step, CacheOpOf, MathOpOf, DrawnDsts, CacheSources;
    var t := AfterCache(s);
    OpTakes(s);
    OpTakes(t);
    TakesOfCons(MathOpOf(t), rest);
    TakesOfCons(CacheOpOf(s), [MathOpOf(t)] + rest);
    Front(s.dst, s.dstCount, s.dstCount + DstsLeft(i));
    Front(s.dst, s.dstCount + 1, s.dstCount + DstsLeft(i));
    Front(s.src, s.srcCount, s.srcCount + SrcsLeft(i));
  }

  lemma MathTakes(s: State, i: nat, rest: seq<Op>)
    requires |s.dst| == |s.src| == REGS && CACHE_ACCESSES <= i < MATH_OPERATIONS
    requires s.dstCount + DstsLeft(i) <= REGS && s.srcCount + SrcsLeft(i) <= REGS
    requires var t := AfterMath(s);
      t.dst == s.dst && t.src == s.src && t.dstCount == s.dstCount + 1 && t.srcCount == s.srcCount
      && Takes(rest, t, i + 1)
    ensures Takes([MathOpOf(s)] + rest, s, i)
  {
    hide Step, MathOpOf, DrawnDsts, CacheSources;
    OpTakes(s);
    TakesOfCons(MathOpOf(s), rest);
    Front(s.dst, s.dstCount, s.dstCount + DstsLeft(i));
  }

  lemma NoneTakes(s: State)
    requires |s.dst| == |s.src| == REGS && s.dstCount <= REGS && s.srcCount <= REGS
    ensures Takes([], s, MATH_OPERATIONS)
  {
    TakesOfNone();
  }

  lemma Front(s: seq<nat>, i: nat, j: nat)
    requires i < j <= |s|
    ensures s[i..j] == [s[i]] + s[i + 1..j]
  {
  }

  lemma TakesOfNone()
    ensures DrawnDsts([]) == [] && CacheSources([]) == []
  {
  }

  lemma {:induction false} TakesOfConcat(a: seq<Op>, b: seq<Op>)
    ensures DrawnDsts(a + b) == DrawnDsts(a) + DrawnDsts(b)
    ensures CacheSources(a + b) == CacheSources(a) + CacheSources(b)
  {
    hide DrawnDsts, CacheSources;
    if |a| == 0 {
      TakesOfNone();
      assert a == [] && a + b == b;
    } else {
      TakesOfConcat(a[1..], b);
      TakesOfCons(a[0], a[1..]);
      TakesOfCons(a[0], a[1..] + b);
      assert a == [a[0]] + a[1..];
      assert a + b == [a[0]] + (a[1..] + b);
    }
  }

  // Destinations that the DAG merges from word i on take.
  function DagDstsLeft(i: nat): nat {
    if i == 0 then DAG_LOADS - 1 else if i < DAG_LOADS then DAG_LOADS - i else 0
  }

  lemma {:induction false} DagTakes(s: State, i: nat)
    requires |s.dst| == REGS && s.dstCount + DagDstsLeft(i) <= REGS
    ensures DrawnDsts(DagOps(s, i)) == s.dst[s.dstCount..s.dstCount + DagDstsLeft(i)]
    ensures CacheSources(DagOps(s, i)) == []
    decreases DAG_LOADS - i
  {
    hide Step, Out, DagOps, DrawnDsts, CacheSources;
    DagStep(s, i);
    if i < DAG_LOADS {
      DagTakes(AfterDag(s, i), i + 1);
      TakesOfCons(DagOpOf(s, i), DagOps(AfterDag(s, i), i + 1));
      if i > 0 {
        Front(s.dst, s.dstCount, s.dstCount + DagDstsLeft(i));
      }
    } else {
      TakesOfNone();
    }
  }

  /** Every loop of every program merges into the registers in the order of the shuffled sequence,
      each exactly once besides the extra merge into register 0, and reads the cache through the first
      eleven registers of the other sequence. */
  lemma ProgramTakes(lo: word, hi: word)
    ensures var s := Start(lo, hi);
      && s.Valid() && OpsOk(Plan(s))
      && DrawnDsts(Plan(s)) == s.dst
      && CacheSources(Plan(s)) == s.src[..CACHE_ACCESSES]
  {
    hide Start, MainOps, AfterMain, DagOps, OpsOk, DrawnDsts, CacheSources;
    var s := Start(lo, hi);
    StartIsValid(lo, hi);
    PlanOk(s);
    MainTakes(s, 0);
    AfterMainKeeps(s, 0);
    DagTakes(AfterMain(s, 0), 0);
    TakesOfConcat(MainOps(s, 0), DagOps(AfterMain(s, 0), 0));
  }

  // Distinct numbers below n are at most n.
  lemma {:induction false} AtMost(s: seq<nat>, n: nat)
    requires (forall i :: 0 <= i < |s| ==> s[i] < n) && forall i, j :: 0 <= i < j < |s| ==> s[i] != s[j]
    ensures |s| <= n
  {
    assert |s| == 0 || s[0] < n;
    if n > 0 {
      if i :| 0 <= i < |s| && s[i] == n - 1 {
        var t := s[..i] + s[i + 1..];
        assert forall k :: 0 <= k < |t| ==> t[k] == s[if k < i then k else k + 1];
        AtMost(t, n - 1);
      } else {
        AtMost(s, n - 1);
      }
    }
  }

  lemma PermutationCovers(s: seq<nat>, r: nat)
    requires IsPermutation(s) && r < REGS
    ensures r in s
  {
    if r !in s {
      AtMost(s + [r], REGS);
    }
  }

  lemma {:induction false} DrawnFrom(ops: seq<Op>, r: nat)
    requires r in DrawnDsts(ops)
    ensures exists i :: 0 <= i < |ops| && ops[i].dst == r && !(ops[i].DagOp? && ops[i].i == 0)
  {
    if ops[0].dst == r && !(ops[0].DagOp? && ops[0].i == 0) {
    } else {
      DrawnFrom(ops[1..], r);
      var i :| 0 <= i < |ops| - 1 && ops[1..][i].dst == r && !(ops[1..][i].DagOp? && ops[1..][i].i == 0);
      assert ops[i + 1] == ops[1..][i];
    }
  }

  /** Every loop of every program merges into every register, and the first merge of DAG words goes to
      register 0 besides. */
  lemma EveryRegisterMerged(lo: word, hi: word, r: nat)
    requires r < REGS
    ensures var ops := Plan(Start(lo, hi));
      && (exists i :: 0 <= i < |ops| && ops[i].dst == r && !(ops[i].DagOp? && ops[i].i == 0))
      && (exists i :: 0 <= i < |ops| && ops[i].DagOp? && ops[i].i == 0 && ops[i].dst == 0)
  {
    hide Start, MainOps, AfterMain, DrawnDsts, CacheSources, Step, Out;
    var s := Start(lo, hi);
    ProgramTakes(lo, hi);
    PermutationCovers(s.dst, r);
    DrawnFrom(Plan(s), r);
    AfterMainKeeps(s, 0);
    var main, dag := MainOps(s, 0), DagOps(AfterMain(s, 0), 0);
    assert (main + dag)[|main|] == dag[0];
  }

  // The part of a 2048-bit item that lane l reads in loop r: (l ^ r) % num_lanes.
  function Slot(l: nat, r: nat): (s: nat)
    requires l < LANES && r < LOOPS
    ensures s < LANES
  {
    Index((l as bv32) ^ (r as bv32)) % LANES
  }

  function LoadsOf(item: seq<word>, l: nat, r: nat): Loads
    requires |item| == LANES * DAG_LOADS && l < LANES && r < LOOPS
  {
    var offset := Slot(l, r) * DAG_LOADS;
    item[offset..offset + DAG_LOADS]
  }

  function AllLoads(item: seq<word>, r: nat): (d: seq<Loads>)
    requires |item| == LANES * DAG_LOADS && r < LOOPS
    ensures |d| == LANES
  {
    seq(LANES, l requires 0 <= l < LANES => LoadsOf(item, l, r))
  }

  // The generator after n draws, and the first n numbers drawn.
  function After(k: Kiss, n: nat): Kiss
    decreases n, k
  {
    if n == 0 then k else Step(After(k, n - 1))
  }

  function Draws(k: Kiss, n: nat): (r: seq<word>)
    ensures |r| == n
    decreases n, k
  {
    if n == 0 then [] else Draws(k, n - 1) + [Out(After(k, n))]
  }

  // The initial registers of a lane.
  function LaneRng(lo: word, hi: word, l: nat): Kiss
    requires l < LANES
  {
    var z := Fnv1a(FNV_OFFSET_BASIS, lo);
    var w := Fnv1a(z, hi);
    var jsr := Fnv1a(w, l as bv32);
    Kiss(z, w, jsr, Fnv1a(jsr, l as bv32))
  }

  function InitialMix(lo: word, hi: word): (m: seq<Regs>)
    ensures |m| == LANES
  {
    seq(LANES, l requires 0 <= l < LANES => Draws(LaneRng(lo, hi, l), REGS))
  }

  // The FNV-1a reduction of a lane, and of the lanes to 256 bits.
  function LaneHash(mix: seq<word>): word {
    if |mix| == 0 then FNV_OFFSET_BASIS
    else Fnv1a(LaneHash(mix[..|mix| - 1]), mix[|mix| - 1])
  }

  const DIGEST_WORDS := 8

  function Digest(hashes: seq<word>): (d: seq<word>)
    ensures |d| == DIGEST_WORDS
  {
    if |hashes| == 0 then seq(DIGEST_WORDS, _ => FNV_OFFSET_BASIS)
    else
      var last := |hashes| - 1;
      var d := Digest(hashes[..last]);
      d[last % DIGEST_WORDS := Fnv1a(d[last % DIGEST_WORDS], hashes[last])]
  }

  function LaneHashes(mix: seq<Regs>): (r: seq<word>)
    ensures |r| == |mix|
  {
    seq(|mix|, l requires 0 <= l < |mix| => LaneHash(mix[l]))
  }
}

/** The CPU implementation of ProgPoW: the interpreter of the random program and the hash built on it
    (libethash/progpow.cpp). */
module ProgPowCpu {
  import opened Words
  import opened Kiss99
  import opened Program
  import opened Dataset

  method SwapAt(a: array<nat>, i: nat, j: nat)
    requires i < a.Length && j < a.Length
    modifies a
    ensures a[..] == Swap(old(a[..]), i, j)
  {
    a[i], a[j] := a[j], a[i];
  }

  /** mix_rng_state: the generator and the two shuffled register sequences. */
  class MixRngState {
    const rng: Generator
    const dstSeq: seq<nat>
    const srcSeq: seq<nat>
    var dstCounter: nat
    var srcCounter: nat

    function View(): State
      reads this, rng
    {
      State(rng.State(), dstSeq, dstCounter, srcSeq, srcCounter)
    }

    constructor (seed: bv64)
      ensures View() == Start(SeedLow(seed), SeedHigh(seed)) && fresh(rng)
    {
      hide Fnv1a, Shuffled, SeedLow, SeedHigh;
      var lo, hi := SeedLow(seed), SeedHigh(seed);
      var z := Fnv1a(FNV_OFFSET_BASIS, lo);
      var w := Fnv1a(z, hi);
      var jsr := Fnv1a(w, lo);
      var jcong := Fnv1a(jsr, hi);
      var g := new Generator(Kiss(z, w, jsr, jcong));
      var dst := new nat[REGS](i => i);
      var src := new nat[REGS](i => i);
      assert dst[..] == Identity() && src[..] == Identity();
      FisherYates(g, dst, src);
      rng := g;
      dstSeq := dst[..];
      srcSeq := src[..];
      dstCounter := 0;
      srcCounter := 0;
    }

    // The state is passed to a round by value.
    constructor Copy(other: MixRngState)
      ensures View() == other.View() && fresh(rng)
    {
      rng := new Generator(other.rng.State());
      dstSeq := other.dstSeq;
      srcSeq := other.srcSeq;
      dstCounter := other.dstCounter;
      srcCounter := other.srcCounter;
    }

    method TakeDst() returns (r: nat)
      requires |dstSeq| == REGS
      modifies this
      ensures View() == old(View()).(dstCount := old(dstCounter) + 1) && r == NextDst(old(View()))
    {
      r := dstSeq[dstCounter % REGS];
      dstCounter := dstCounter + 1;
    }

    method TakeSrc() returns (r: nat)
      requires |srcSeq| == REGS
      modifies this
      ensures View() == old(View()).(srcCount := old(srcCounter) + 1) && r == NextSrc(old(View()))
    {
      r := srcSeq[srcCounter % REGS];
      srcCounter := srcCounter + 1;
    }

    method Draw() returns (x: word)
      modifies rng
      ensures View() == old(View()).(rng := Step(old(rng.State()))) && x == Out(Step(old(rng.State())))
    {
      x := rng.Next();
    }
  }

  method FisherYates(g: Generator, dst: array<nat>, src: array<nat>)
    requires dst.Length == src.Length == REGS && dst != src
    modifies g, dst, src
    ensures var s := State(old(g.State()), old(dst[..]), 0, old(src[..]), 0);
      Shuffled(s, REGS) == State(g.State(), dst[..], 0, src[..], 0)
  {
    hide Step, Out, Pick, Swap;
    ghost var goal := Shuffled(State(g.State(), dst[..], 0, src[..], 0), REGS);
    var i := REGS;
    while i > 1
      invariant 0 < i <= REGS
      invariant Shuffled(State(g.State(), dst[..], 0, src[..], 0), i) == goal
    {
      ghost var s := State(g.State(), dst[..], 0, src[..], 0);
      var x := g.Next();
      SwapAt(dst, i - 1, Pick(x, i));
      var y := g.Next();
      SwapAt(src, i - 1, Pick(y, i));
      assert State(g.State(), dst[..], 0, src[..], 0) == ShuffleStep(s, i);
      i := i - 1;
    }
  }

  // Random access to cached memory, on every lane in turn.
  method CacheStep(l1: array<word>, mix: array<Regs>, state: MixRngState, ghost cache: seq<word>,
      ghost dags: seq<Loads>)
    requires l1.Length >= CACHE_WORDS && l1[..CACHE_WORDS] == cache && mix.Length == |dags| == LANES && state.View().Valid()
    modifies mix, state, state.rng
    ensures state.View() == AfterCache(old(state.View())) && OpOk(CacheOpOf(old(state.View())))
    ensures mix[..] == RunOpOnLanes(CacheOpOf(old(state.View())), old(mix[..]), cache, dags)
  {
    hide Step, Out, RandomMerge;
    CacheOpOk(state.View());
    ghost var op := CacheOpOf(state.View());
    var src := state.TakeSrc();
    var dst := state.TakeDst();
    var sel := state.Draw();
    for l := 0 to LANES
      modifies mix
      invariant forall k :: 0 <= k < LANES ==>
        mix[k] == if k < l then RunOp(op, old(mix[k]), cache, dags[k]) else old(mix[k])
    {
      var offset := Index(mix[l][src]) % CACHE_WORDS;
      assert l1[offset] == l1[..CACHE_WORDS][offset];
      mix[l] := mix[l][dst := RandomMerge(mix[l][dst], l1[offset], sel)];
    }
  }

  // Random math, on every lane in turn.
  method MathStep(mix: array<Regs>, state: MixRngState, ghost cache: seq<word>, ghost dags: seq<Loads>)
    requires mix.Length == |dags| == LANES && |cache| == CACHE_WORDS && state.View().Valid()
    modifies mix, state, state.rng
    ensures state.View() == AfterMath(old(state.View())) && OpOk(MathOpOf(old(state.View())))
    ensures mix[..] == RunOpOnLanes(MathOpOf(old(state.View())), old(mix[..]), cache, dags)
  {
    hide Step, Out, Pick, RandomMath, RandomMerge;
    MathOpOk(state.View());
    ghost var op := MathOpOf(state.View());
    var x := state.Draw();
    var srcRnd := Pick(x, REGS * (REGS - 1));
    var src1 := srcRnd % REGS;
    var src2 := srcRnd / REGS;
    if src2 >= src1 {
      src2 := src2 + 1;
    }
    var sel1 := state.Draw();
    var dst := state.TakeDst();
    var sel2 := state.Draw();
    for l := 0 to LANES
      modifies mix
      invariant forall k :: 0 <= k < LANES ==>
        mix[k] == if k < l then RunOp(op, old(mix[k]), cache, dags[k]) else old(mix[k])
    {
      var data := RandomMath(mix[l][src1], mix[l][src2], sel1);
      mix[l] := mix[l][dst := RandomMerge(mix[l][dst], data, sel2)];
    }
  }

  method Iteration(l1: array<word>, mix: array<Regs>, state: MixRngState, i: nat, ghost cache: seq<word>,
      ghost dags: seq<Loads>)
    requires l1.Length >= CACHE_WORDS && l1[..CACHE_WORDS] == cache && mix.Length == |dags| == LANES && state.View().Valid()
    modifies mix, state, state.rng
    ensures state.View() == AfterIteration(old(state.View()), i) && state.View().Valid()
    ensures OpsOk(IterationOps(old(state.View()), i))
    ensures mix[..] == RunOuter(IterationOps(old(state.View()), i), old(mix[..]), cache, dags)
  {
    hide Step, CacheOpOf, MathOpOf, OpOk, RunOpOnLanes;
    ghost var done: seq<Op> := [];
    if i < CACHE_ACCESSES {
      ghost var op := CacheOpOf(state.View());
      CacheStep(l1, mix, state, cache, dags);
      RunOuterSnoc(done, op, old(mix[..]), cache, dags);
      done := done + [op];
    }
    ghost var op := MathOpOf(state.View());
    MathStep(mix, state, cache, dags);
    RunOuterSnoc(done, op, old(mix[..]), cache, dags);
    assert done + [op] == IterationOps(old(state.View()), i);
  }

  lemma Associates(a: seq<Op>, b: seq<Op>, c: seq<Op>)
    ensures a + (b + c) == (a + b) + c
  {
  }

  method MainLoop(l1: array<word>, mix: array<Regs>, state: MixRngState, ghost cache: seq<word>,
      ghost dags: seq<Loads>)
    requires l1.Length >= CACHE_WORDS && l1[..CACHE_WORDS] == cache && mix.Length == |dags| == LANES && state.View().Valid()
    modifies mix, state, state.rng
    ensures state.View() == AfterMain(old(state.View()), 0)
    ensures OpsOk(MainOps(old(state.View()), 0))
    ensures mix[..] == RunOuter(MainOps(old(state.View()), 0), old(mix[..]), cache, dags)
  {
    hide MainOps, AfterMain, AfterIteration, IterationOps, OpOk, RunOuter;
    ghost var goal, after := MainOps(state.View(), 0), AfterMain(state.View(), 0);
    ghost var done: seq<Op> := [];
    RunOuterNone(mix[..], cache, dags);
    for i := 0 to MATH_OPERATIONS
      invariant state.View().Valid()
      invariant done + MainOps(state.View(), i) == goal && AfterMain(state.View(), i) == after
      invariant OpsOk(done) && mix[..] == RunOuter(done, old(mix[..]), cache, dags)
    {
      ghost var ops := IterationOps(state.View(), i);
      MainIteration(state.View(), i);
      Iteration(l1, mix, state, i, cache, dags);
      RunOuterConcat(done, ops, old(mix[..]), cache, dags);
      Associates(done, ops, MainOps(state.View(), i + 1));
      done := done + ops;
    }
    MainStep(state.View(), MATH_OPERATIONS);
    assert done == goal;
  }

  // The destinations and selectors of the DAG merges.
  method DagDraws(state: MixRngState) returns (ops: seq<Op>)
    requires |state.dstSeq| == REGS
    modifies state, state.rng
    ensures ops == DagOps(old(state.View()), 0)
  {
    hide Step, Out, DagOps;
    ghost var goal := DagOps(state.View(), 0);
    ops := [];
    for i := 0 to DAG_LOADS
      invariant |ops| == i
      invariant ops + DagOps(state.View(), i) == goal
    {
      ghost var s := state.View();
      DagStep(s, i);
      var dst := 0;
      if i != 0 {
        dst := state.TakeDst();
      }
      var sel := state.Draw();
      ops := ops + [DagOp(i, dst, sel)];
      assert state.View() == AfterDag(s, i) && DagOp(i, dst, sel) == DagOpOf(s, i);
    }
    DagStep(state.View(), DAG_LOADS);
  }

  method DagOnLanes(mix: array<Regs>, item: seq<word>, r: nat, ops: seq<Op>, ghost cache: seq<word>)
    requires mix.Length == LANES && |item| == LANES * DAG_LOADS && r < LOOPS && |cache| == CACHE_WORDS
    requires OpsOk(ops) && forall i :: 0 <= i < |ops| ==> ops[i].DagOp?
    modifies mix
    ensures mix[..] == RunOuter(ops, old(mix[..]), cache, AllLoads(item, r))
  {
    hide RandomMerge, Slot, RunLane, RunOuter, LoadsOf;
    ghost var dags := AllLoads(item, r);
    for l := 0 to LANES
      invariant forall k :: 0 <= k < LANES ==>
        mix[k] == if k < l then RunLane(ops, old(mix[k]), cache, dags[k]) else old(mix[k])
    {
      var after := DagOnLane(mix[l], LoadsOf(item, l, r), ops, cache);
      mix[l] := after;
    }
    forall l | 0 <= l < LANES ensures mix[l] == RunOuter(ops, old(mix[..]), cache, dags)[l] {
      LoopInterchange(ops, old(mix[..]), cache, dags, l);
    }
  }

  method DagOnLane(mix: Regs, loads: Loads, ops: seq<Op>, ghost cache: seq<word>) returns (after: Regs)
    requires OpsOk(ops) && |cache| == CACHE_WORDS && forall i :: 0 <= i < |ops| ==> ops[i].DagOp?
    ensures after == RunLane(ops, mix, cache, loads)
  {
    hide RandomMerge;
    after := mix;
    for i := 0 to |ops|
      invariant after == RunLane(ops[..i], mix, cache, loads)
    {
      var op := ops[i];
      assert ops[..i + 1][..i] == ops[..i];
      after := after[op.dst := RandomMerge(after[op.dst], loads[op.i], op.sel)];
    }
    assert ops[..|ops|] == ops;
  }

  // One round: the item that an address selects, then the program on all lanes; the address is in mix.
  ghost function RoundAt(s: State, r: nat, mix: seq<Regs>, light: seq<Node>, numItems: nat, address: word):
      (m: seq<Regs>)
    requires |s.dst| == |s.src| == REGS && OpsOk(Plan(s))
    requires r < LOOPS && |mix| == LANES && |light| > 0 && numItems >= 2
    ensures |m| == LANES
  {
    var item := Item2048(light, Index(address) % (numItems / 2));
    RunOuter(Plan(s), mix, L1(light), AllLoads(item, r))
  }

  ghost function RoundOf(s: State, r: nat, mix: seq<Regs>, light: seq<Node>, numItems: nat): (m: seq<Regs>)
    requires |s.dst| == |s.src| == REGS && OpsOk(Plan(s))
    requires r < LOOPS && |mix| == LANES && |light| > 0 && numItems >= 2
    ensures |m| == LANES
  {
    RoundAt(s, r, mix, light, numItems, mix[r % LANES][0])
  }

  method Round(ctx: EpochContext, r: nat, mix: array<Regs>, byValue: MixRngState)
    requires ctx.Valid() && r < LOOPS && mix.Length == LANES && byValue.View().Valid()
    modifies mix, ctx.data
    ensures ctx.Valid() && OpsOk(Plan(byValue.View()))
    ensures mix[..] == RoundOf(byValue.View(), r, old(mix[..]), ctx.light, ctx.numItems)
  {
    hide MainOps, AfterMain, DagOps, Item2048, L1, OpsOk, RunOuter, AllLoads;
    var state := new MixRngState.Copy(byValue);
    ghost var start, before := byValue.View(), mix[..];
    PlanOk(start);
    AfterMainKeeps(start, 0);
    var numItems := ctx.numItems / 2;
    var itemIndex := Index(mix[r % LANES][0]) % numItems;
    var item := ctx.Lookup(itemIndex);
    MainLoop(ctx.data, mix, state, L1(ctx.light), AllLoads(item, r));
    var ops := DagDraws(state);
    DagOpsOk(AfterMain(start, 0), 0);
    DagOpsAreDag(AfterMain(start, 0), 0);
    DagOnLanes(mix, item, r, ops, L1(ctx.light));
    RunOuterConcat(MainOps(start, 0), ops, before, L1(ctx.light), AllLoads(item, r));
  }

  method InitMix(seed: bv64) returns (mix: array<Regs>)
    ensures fresh(mix) && mix[..] == InitialMix(SeedLow(seed), SeedHigh(seed))
  {
    hide Fnv1a, Step, Out, SeedLow, SeedHigh, Draws;
    var lo, hi := SeedLow(seed), SeedHigh(seed);
    var z := Fnv1a(FNV_OFFSET_BASIS, lo);
    var w := Fnv1a(z, hi);
    mix := new Regs[LANES](_ => seq(REGS, _ => 0));
    for l := 0 to LANES
      invariant forall k :: 0 <= k < l ==> mix[k] == Draws(LaneRng(lo, hi, k), REGS)
    {
      var jsr := Fnv1a(w, l as bv32);
      var jcong := Fnv1a(jsr, l as bv32);
      var row := FillRow(Kiss(z, w, jsr, jcong));
      mix[l] := row;
    }
  }

  method FillRow(k: Kiss) returns (row: Regs)
    ensures row == Draws(k, REGS)
  {
    hide Step, Out;
    var rng := new Generator(k);
    var a := new word[REGS](_ => 0);
    for i := 0 to REGS
      invariant a[..i] == Draws(k, i) && rng.State() == After(k, i)
    {
      var x := rng.Next();
      a[i] := x;
      assert a[..i + 1] == a[..i] + [x];
    }
    row := a[..];
    assert a[..REGS] == a[..];
  }

  ghost function RoundsOf(s: State, n: nat, mix: seq<Regs>, light: seq<Node>, numItems: nat): (m: seq<Regs>)
    requires |s.dst| == |s.src| == REGS && OpsOk(Plan(s))
    requires n <= LOOPS && |mix| == LANES && |light| > 0 && numItems >= 2
    ensures |m| == LANES
  {
    if n == 0 then mix else RoundOf(s, n - 1, RoundsOf(s, n - 1, mix, light, numItems), light, numItems)
  }

  // hash_mix as a function of the period, the seed and the dataset.
  ghost function MixHash(period: bv64, seed: bv64, light: seq<Node>, numItems: nat): (d: seq<word>)
    requires |light| > 0 && numItems >= 2
    ensures |d| == DIGEST_WORDS
  {
    ProgramTakes(SeedLow(period), SeedHigh(period));
    var s := Start(SeedLow(period), SeedHigh(period));
    var mix := InitialMix(SeedLow(seed), SeedHigh(seed));
    Digest(LaneHashes(RoundsOf(s, LOOPS, mix, light, numItems)))
  }

  method HashMix(ctx: EpochContext, blockNumber: Int32, seed: bv64) returns (mixHash: seq<word>)
    requires ctx.Valid()
    modifies ctx.data
    ensures ctx.Valid()
    ensures mixHash == MixHash(PeriodSeed(blockNumber), seed, ctx.light, ctx.numItems)
  {
    hide Start, Plan, OpsOk, InitialMix, RoundOf, SeedLow, SeedHigh, Fnv1a, PeriodSeed;
    var mix := InitMix(seed);
    ghost var initial := mix[..];
    var period := PeriodSeed(blockNumber);
    ProgramTakes(SeedLow(period), SeedHigh(period));
    var state := new MixRngState(period);
    ghost var s := state.View();
    for i := 0 to 64
      invariant ctx.Valid() && state.View() == s
      invariant mix[..] == RoundsOf(s, i, initial, ctx.light, ctx.numItems)
    {
      Round(ctx, i, mix, state);
    }
    mixHash := Reduce(mix[..]);
  }

  method HashLane(mix: Regs) returns (h: word)
    ensures h == LaneHash(mix)
  {
    hide Fnv1a;
    h := FNV_OFFSET_BASIS;
    for i := 0 to REGS
      invariant h == LaneHash(mix[..i])
    {
      assert mix[..i + 1][..i] == mix[..i];
      h := Fnv1a(h, mix[i]);
    }
    assert mix[..REGS] == mix;
  }

  method Reduce(mix: seq<Regs>) returns (mixHash: seq<word>)
    requires |mix| == LANES
    ensures mixHash == Digest(LaneHashes(mix))
  {
    hide Fnv1a, LaneHash;
    var laneHash := new word[LANES](_ => 0);
    for l := 0 to LANES
      invariant forall k :: 0 <= k < l ==> laneHash[k] == LaneHash(mix[k])
    {
      var h := HashLane(mix[l]);
      laneHash[l] := h;
    }
    assert laneHash[..] == LaneHashes(mix);
    mixHash := FoldLanes(laneHash[..]);
  }

  method FoldLanes(hashes: seq<word>) returns (mixHash: seq<word>)
    ensures mixHash == Digest(hashes)
  {
    hide Fnv1a;
    var out := new word[DIGEST_WORDS](_ => FNV_OFFSET_BASIS);
    assert out[..] == Digest([]);
    for l := 0 to |hashes|
      invariant out[..] == Digest(hashes[..l])
    {
      assert hashes[..l + 1][..l] == hashes[..l];
      out[l % DIGEST_WORDS] := Fnv1a(out[l % DIGEST_WORDS], hashes[l]);
    }
    assert hashes[..|hashes|] == hashes;
    mixHash := out[..];
  }
}

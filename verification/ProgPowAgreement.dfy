/** The kernel agrees with the CPU: the emitted program, run lane by lane over the 64 loops on a DAG in
    device memory, gives the digest of hash_mix. */
module ProgPowAgreement {
  import opened Arith
  import opened Words
  import opened Kiss99
  import opened Program
  import opened Dataset
  import opened ProgPowCpu
  import opened ProgPowKernel
  import LocalMemory

  // Device memory holds the 2048-bit items of the dataset, one after the other.
  ghost predicate HoldsDag(dag: seq<word>, light: seq<Node>, items: nat)
    requires |light| > 0
  {
    && |dag| >= ITEM_WORDS * items
    && forall i :: 0 <= i < items ==> dag[ITEM_WORDS * i..ITEM_WORDS * i + ITEM_WORDS] == Item2048(light, i)
  }

  // Nodes as the words they occupy in memory.
  function WordsOf(nodes: seq<Node>): seq<word> {
    seq(NODE_WORDS * |nodes|, k requires 0 <= k < NODE_WORDS * |nodes| => nodes[k / NODE_WORDS][k % NODE_WORDS])
  }

  /** A buffer of generated 512-bit items holds the 2048-bit items that the search reads. */
  lemma GeneratedHolds(nodes: seq<Node>, light: seq<Node>, items: nat)
    requires |light| > 0 && |nodes| >= 4 * items
    requires forall j :: 0 <= j < |nodes| ==> nodes[j] == Item512(light, j)
    ensures HoldsDag(WordsOf(nodes), light, items)
  {
    hide Item512;
    var dag := WordsOf(nodes);
    forall i | 0 <= i < items
      ensures dag[ITEM_WORDS * i..ITEM_WORDS * i + ITEM_WORDS] == Item2048(light, i)
    {
      var item := Item2048(light, i);
      forall k | 0 <= k < ITEM_WORDS ensures dag[ITEM_WORDS * i + k] == item[k] {
        assert (ITEM_WORDS * i + k) / NODE_WORDS == 4 * i + k / NODE_WORDS;
        assert (ITEM_WORDS * i + k) % NODE_WORDS == k % NODE_WORDS;
      }
    }
  }

  // The address the statements of the prologue compute, with 32-bit wrap-around, and the one meant.
  function KernelAddress(x: word, elements: nat, slot: nat): nat
    requires elements > 0
  {
    (Index(x) % elements * LANES + slot) % ProgPowKernel.TWO32
  }

  function MeantAddress(x: word, elements: nat, slot: nat): nat
    requires elements > 0
  {
    Index(x) % elements * LANES + slot
  }

  /** The kernel's 32-bit address arithmetic finds the right place for every value of mix[0] and every
      lane exactly when the dataset has at most 2^28 items of 2048 bits. */
  lemma AddressesAgree(elements: nat)
    requires elements > 0
    ensures (forall x: word, slot: nat :: slot < LANES ==>
              KernelAddress(x, elements, slot) == MeantAddress(x, elements, slot))
      <==> elements * LANES <= ProgPowKernel.TWO32
  {
    hide Index;
    if elements * LANES <= ProgPowKernel.TWO32 {
      forall x: word, slot: nat | slot < LANES
        ensures KernelAddress(x, elements, slot) == MeantAddress(x, elements, slot)
      {
        AddressFits(x, elements, slot);
      }
    } else {
      AddressWraps(elements);
    }
  }

  lemma AddressFits(x: word, elements: nat, slot: nat)
    requires 0 < elements && elements * LANES <= ProgPowKernel.TWO32 && slot < LANES
    ensures KernelAddress(x, elements, slot) == MeantAddress(x, elements, slot) < elements * LANES
  {
    hide Index;
    var e := Index(x) % elements;
    assert e * LANES + slot < elements * LANES;
  }

  /** A mix[0] whose address wraps, for any dataset with more than 2^28 items of 2048 bits. */
  lemma AddressWraps(elements: nat)
    requires elements * LANES > ProgPowKernel.TWO32
    ensures KernelAddress(0x1000_0000, elements, 0) == 0
    ensures MeantAddress(0x1000_0000, elements, 0) == ProgPowKernel.TWO32
  {
    assert Index(0x1000_0000) == 0x1000_0000;
    DivUnique(0x1000_0000, elements, 0, 0x1000_0000);
  }

  /** The prologue loads, in every lane, the words of the shared item that belong to the lane. */
  lemma PrologueLoads(env: Env, st: LaneState)
    requires env.Valid() && env.elements * LANES <= ProgPowKernel.TWO32
    requires |env.dag| >= ITEM_WORDS * env.elements
    ensures var e := Index(env.shared) % env.elements;
      && ITEM_WORDS * e + ITEM_WORDS <= |env.dag|
      && EndsWith(ExecAll(env, st, PROLOGUE), st.mix,
                  LoadsOf(env.dag[ITEM_WORDS * e..ITEM_WORDS * e + ITEM_WORDS], env.lane, env.loop))
  {
    hide Index, Slot;
    var e, slot := Index(env.shared) % env.elements, Slot(env.lane, env.loop);
    var a := e * LANES + slot;
    AddressFits(env.shared, env.elements, slot);
    assert e + 1 <= env.elements;
    var s1 := st.(offset := Index(env.shared));
    var s2 := s1.(offset := e);
    var s3 := s2.(offset := a);
    var item := env.dag[ITEM_WORDS * e..ITEM_WORDS * e + ITEM_WORDS];
    assert DAG_LOADS * a == ITEM_WORDS * e + slot * DAG_LOADS;
    SliceOfItem(env.dag, ITEM_WORDS * e, slot * DAG_LOADS);
    assert Exec(env, st, ShareAddress) == Some(s1);
    assert Exec(env, s1, ReduceAddress) == Some(s2);
    LaneAddressRuns(env, s2, a);
    assert Exec(env, s3, LoadDag) == Some(s3.(dag := LoadsOf(item, env.lane, env.loop)));
    RunFour(env, st, ShareAddress, s1, ReduceAddress, s2, LaneAddress, s3, LoadDag);
  }

  lemma LaneAddressRuns(env: Env, st: LaneState, a: nat)
    requires env.Valid() && a == (st.offset * LANES + Slot(env.lane, env.loop)) % ProgPowKernel.TWO32
    ensures Exec(env, st, LaneAddress) == Some(st.(offset := a))
  {
    hide Slot;
  }

  lemma SliceOfItem(dag: seq<word>, at: nat, k: nat)
    requires at + ITEM_WORDS <= |dag| && k + DAG_LOADS <= ITEM_WORDS
    ensures dag[at..at + ITEM_WORDS][k..k + DAG_LOADS] == dag[at + k..at + k + DAG_LOADS]
  {
    var a, b := dag[at..at + ITEM_WORDS][k..k + DAG_LOADS], dag[at + k..at + k + DAG_LOADS];
    assert forall j :: 0 <= j < DAG_LOADS ==> a[j] == b[j];
  }

  lemma RunFour(env: Env, st: LaneState, a: Stmt, s1: LaneState, b: Stmt, s2: LaneState, c: Stmt,
                s3: LaneState, d: Stmt)
    requires env.Valid()
    requires Exec(env, st, a) == Some(s1) && Exec(env, s1, b) == Some(s2) && Exec(env, s2, c) == Some(s3)
    ensures ExecAll(env, st, [a, b, c, d]) == Exec(env, s3, d)
  {
    hide Exec;
    RunThree(env, s1, b, s2, c, s3, d);
    assert [a, b, c, d][1..] == [b, c, d];
  }

  // What a launch of the kernel works with: the target's dialect, the DAG and the cached front of it.
  datatype Device = Device(dialect: Dialect, elements: nat, dag: seq<word>, cache: seq<word>)

  ghost predicate Loaded(dev: Device, light: seq<Node>, numItems: nat) {
    && |light| > 0 && numItems >= 2 * L1_ITEMS
    && dev.elements == numItems / 2 && dev.elements * LANES <= ProgPowKernel.TWO32
    && HoldsDag(dev.dag, light, dev.elements)
    && |dev.cache| == CACHE_WORDS && dev.cache == dev.dag[..CACHE_WORDS]
  }

  // A lane at the start of a loop: its registers, and whatever its other variables hold.
  function AtLoopStart(mix: Regs, junk: LaneState): LaneState { junk.(mix := mix) }

  function LaneEnv(dev: Device, l: nat, loop: nat, shared: word): Env {
    Env(dev.dialect, l, loop, shared, dev.elements, dev.dag, dev.cache)
  }

  lemma CacheIsL1(dag: seq<word>, light: seq<Node>, items: nat)
    requires |light| > 0 && items >= L1_ITEMS && HoldsDag(dag, light, items)
    ensures dag[..L1_WORDS] == L1(light)
  {
    hide Item2048;
    forall k | 0 <= k < L1_WORDS ensures dag[k] == L1(light)[k] {
      var i, j := k / ITEM_WORDS, k % ITEM_WORDS;
      assert dag[ITEM_WORDS * i..ITEM_WORDS * i + ITEM_WORDS] == Item2048(light, i);
      assert dag[k] == dag[ITEM_WORDS * i..ITEM_WORDS * i + ITEM_WORDS][j];
    }
  }

  /** One loop of one lane: the emitted code leaves the registers of the CPU's round at the address shared. */
  lemma LaneAgrees(dev: Device, light: seq<Node>, numItems: nat, s: State, loop: nat, mix: seq<Regs>, shared: word,
                   l: nat, junk: LaneState)
    requires Loaded(dev, light, numItems) && s.Valid() && loop < LOOPS && |mix| == LANES && l < LANES
    ensures OpsOk(Plan(s)) && LaneEnv(dev, l, loop, shared).Valid()
    ensures var r := ExecAll(LaneEnv(dev, l, loop, shared), AtLoopStart(mix[l], junk), KernelCode(Plan(s)));
      r.Some? && r.value.mix == RoundAt(s, loop, mix, light, numItems, shared)[l]
  {
    hide Plan, Item2048, L1, RunLane, RunOuter, OpsCode, Index, Slot;
    PlanOk(s);
    var env, st := LaneEnv(dev, l, loop, shared), AtLoopStart(mix[l], junk);
    var e := Index(env.shared) % dev.elements;
    CacheIsL1(dev.dag, light, dev.elements);
    PrologueLoads(env, st);
    ExecConcat(env, st, PROLOGUE, OpsCode(Plan(s)));
    OpsCodeRuns(env, ExecAll(env, st, PROLOGUE).value, Plan(s));
    var item := Item2048(light, e);
    LoopInterchange(Plan(s), mix, L1(light), AllLoads(item, loop), l);
  }

  function RegsOf(states: seq<LaneState>): seq<Regs> { seq(|states|, l requires 0 <= l < |states| => states[l].mix) }

  /** fill_mix: the registers of one lane. */
  method FillMix(seed: bv64, lane: nat) returns (mix: Regs)
    requires lane < LANES
    ensures mix == InitialMix(SeedLow(seed), SeedHigh(seed))[lane]
  {
    hide Fnv1a, Step, Out, SeedLow, SeedHigh;
    var fnvHash := Fnv1a(FNV_OFFSET_BASIS, SeedLow(seed));
    var z := fnvHash;
    fnvHash := Fnv1a(fnvHash, SeedHigh(seed));
    var w := fnvHash;
    fnvHash := Fnv1a(fnvHash, lane as bv32);
    var jsr := fnvHash;
    fnvHash := Fnv1a(fnvHash, lane as bv32);
    var st := Kiss(z, w, jsr, fnvHash);
    ghost var k := st;
    var regs := new word[REGS](_ => 0);
    for i := 0 to REGS
      invariant regs[..i] == Draws(k, i) && st == After(k, i)
    {
      var x;
      st, x := Draw(st);
      regs[i] := x;
      assert regs[..i + 1] == regs[..i] + [x];
    }
    mix := regs[..];
    assert regs[..REGS] == regs[..];
  }

  // The local memory of a work group as one group of lanes uses it: the words that all groups pass addresses
  // through, the words of the group itself, which are the same ones for group 0, and the cell for its seed.
  datatype Share = Share(
    group: nat,
    addresses: array<word>,   // share[0].uint32s
    words: array<word>,       // share[group].uint32s
    seed: array<bv64>)        // share[group].uint64s
  {
    ghost predicate Valid() {
      && group < LANES && addresses.Length == words.Length == LANES && seed.Length == LANES / 2
      && (group == 0 <==> addresses == words)
    }
  }

  /** How mix[0] of one lane reaches the others: by a shuffle, or by a write of that lane alone, a barrier and a
      read of every lane. */
  method ShareMix(dialect: Dialect, loop: nat, lanes: seq<LaneState>, share: Share) returns (shared: word)
    requires share.Valid() && |lanes| == LANES
    modifies share.addresses
    ensures shared == lanes[loop % LANES].mix[0]
    ensures dialect == OpenCl ==> share.addresses[share.group] == shared
  {
    if dialect != OpenCl {
      return lanes[loop % LANES].mix[0];
    }
    for l := 0 to LANES
      invariant l > loop % LANES ==> share.addresses[share.group] == lanes[loop % LANES].mix[0]
    {
      if l == loop % LANES {
        share.addresses[share.group] := lanes[l].mix[0];
      }
    }
    shared := share.addresses[share.group];
  }

  /** One pass of the kernel's inner loop on a group of lanes in lock step, at the address shared. */
  method RunLoopAt(dev: Device, code: seq<Stmt>, loop: nat, before: seq<LaneState>, shared: word,
                   lanes: array<LaneState>, ghost s: State, ghost light: seq<Node>, ghost numItems: nat)
    requires Loaded(dev, light, numItems) && s.Valid() && loop < LOOPS && |before| == lanes.Length == LANES
    requires code == KernelCode(Plan(s))
    modifies lanes
    ensures OpsOk(Plan(s)) && RegsOf(lanes[..]) == RoundAt(s, loop, RegsOf(before), light, numItems, shared)
  {
    hide Plan, KernelCode, RoundAt, ExecAll, HoldsDag;
    PlanOk(s);
    ghost var mix := RegsOf(before);
    for l := 0 to LANES
      invariant forall k :: 0 <= k < l ==> lanes[k].mix == RoundAt(s, loop, mix, light, numItems, shared)[k]
    {
      LaneAgrees(dev, light, numItems, s, loop, mix, shared, l, before[l]);
      var r := ExecAll(LaneEnv(dev, l, loop, shared), before[l], code);
      lanes[l] := r.value;
    }
  }

  /** One pass whose address no other group overwrites: a round of the CPU. */
  method RunLoop(dev: Device, code: seq<Stmt>, loop: nat, lanes: array<LaneState>, share: Share, ghost s: State,
                 ghost light: seq<Node>, ghost numItems: nat)
    requires Loaded(dev, light, numItems) && s.Valid() && loop < LOOPS && lanes.Length == LANES && share.Valid()
    requires code == KernelCode(Plan(s))
    modifies lanes, share.addresses
    ensures OpsOk(Plan(s)) && RegsOf(lanes[..]) == RoundOf(s, loop, RegsOf(old(lanes[..])), light, numItems)
  {
    hide Plan, KernelCode, RoundAt, HoldsDag;
    var before := lanes[..];
    var shared := ShareMix(dev.dialect, loop, before, share);
    RunLoopAt(dev, code, loop, before, shared, lanes, s, light, numItems);
  }

  /** The two reductions: every lane hashes its registers into the shared words, and every lane then folds the
      words of all lanes into the digest. */
  method ReduceLanes(lanes: seq<LaneState>, share: Share) returns (digest: seq<word>)
    requires share.Valid() && |lanes| == LANES
    modifies share.words
    ensures digest == Digest(LaneHashes(RegsOf(lanes)))
  {
    hide LaneHash, Digest;
    ghost var hashes := LaneHashes(RegsOf(lanes));
    for l := 0 to LANES
      invariant forall k :: 0 <= k < l ==> share.words[k] == hashes[k]
    {
      var mixHash := ReduceLane(lanes[l].mix);
      share.words[l] := mixHash;
    }
    assert share.words[..] == hashes;
    digest := FoldShared(share.words[..]);
  }

  method ReduceLane(mix: Regs) returns (mixHash: word)
    ensures mixHash == LaneHash(mix)
  {
    hide Fnv1a;
    mixHash := FNV_OFFSET_BASIS;
    for i := 0 to REGS
      invariant mixHash == LaneHash(mix[..i])
    {
      assert mix[..i + 1][..i] == mix[..i];
      mixHash := Fnv1a(mixHash, mix[i]);
    }
    assert mix[..REGS] == mix;
  }

  method FoldShared(words: seq<word>) returns (digest: seq<word>)
    requires |words| == LANES
    ensures digest == Digest(words)
  {
    hide Fnv1a;
    var digestTemp := new word[DIGEST_WORDS];
    for i := 0 to DIGEST_WORDS
      invariant forall k :: 0 <= k < i ==> digestTemp[k] == FNV_OFFSET_BASIS
    {
      digestTemp[i] := FNV_OFFSET_BASIS;
    }
    assert digestTemp[..] == Digest(words[..0]);
    for i := 0 to LANES
      invariant digestTemp[..] == Digest(words[..i])
    {
      assert words[..i + 1][..i] == words[..i];
      digestTemp[i % DIGEST_WORDS] := Fnv1a(digestTemp[i % DIGEST_WORDS], words[i]);
    }
    assert words[..LANES] == words;
    digest := digestTemp[..];
  }

  const LAST := LOOPS - 1

  // The registers before the last loop, the address that its lane shares, and the mix hash at any address.
  ghost function BeforeLast(period: bv64, seed: bv64, light: seq<Node>, numItems: nat): (m: seq<Regs>)
    requires |light| > 0 && numItems >= 2
    ensures |m| == LANES
  {
    ProgramTakes(SeedLow(period), SeedHigh(period));
    RoundsOf(Start(SeedLow(period), SeedHigh(period)), LAST, InitialMix(SeedLow(seed), SeedHigh(seed)), light, numItems)
  }

  ghost function LastAddress(period: bv64, seed: bv64, light: seq<Node>, numItems: nat): word
    requires |light| > 0 && numItems >= 2
  {
    BeforeLast(period, seed, light, numItems)[LAST % LANES][0]
  }

  ghost function AfterLast(period: bv64, seed: bv64, light: seq<Node>, numItems: nat, address: word): (m: seq<Regs>)
    requires |light| > 0 && numItems >= 2
    ensures |m| == LANES
  {
    ProgramTakes(SeedLow(period), SeedHigh(period));
    var s := Start(SeedLow(period), SeedHigh(period));
    RoundAt(s, LAST, BeforeLast(period, seed, light, numItems), light, numItems, address)
  }

  ghost function MixHashAt(period: bv64, seed: bv64, light: seq<Node>, numItems: nat, address: word): (d: seq<word>)
    requires |light| > 0 && numItems >= 2
    ensures |d| == DIGEST_WORDS
  {
    Digest(LaneHashes(AfterLast(period, seed, light, numItems, address)))
  }

  /** At its own address the last loop completes the mix hash of the CPU. */
  lemma OwnAddressCompletes(period: bv64, seed: bv64, light: seq<Node>, numItems: nat)
    requires |light| > 0 && numItems >= 2
    ensures MixHashAt(period, seed, light, numItems, LastAddress(period, seed, light, numItems))
      == MixHash(period, seed, light, numItems)
  {
    hide Start, Plan, OpsOk, InitialMix, RoundAt, SeedLow, SeedHigh, Digest, LaneHashes;
    ProgramTakes(SeedLow(period), SeedHigh(period));
  }

  // No group has overwritten the address of the last loop, or there is none to overwrite.
  ghost predicate Undisturbed(dialect: Dialect, e: LocalMemory.Ending, group: nat) {
    dialect != OpenCl || !e.Overwrites(group)
  }

  // The mix hash at the address that a group receives: by a shuffle, or through local memory in which the other groups
  // of the work group go on.
  ghost function Received(dialect: Dialect, e: LocalMemory.Ending, group: nat, period: bv64, seed: bv64,
                          light: seq<Node>, numItems: nat): (d: seq<word>)
    requires |light| > 0 && numItems >= 2
    ensures |d| == DIGEST_WORDS
  {
    var own := LastAddress(period, seed, light, numItems);
    MixHashAt(period, seed, light, numItems, if dialect == OpenCl then e.Taken(group, own) else own)
  }

  lemma UndisturbedReceives(dialect: Dialect, e: LocalMemory.Ending, group: nat, period: bv64, seed: bv64,
                            light: seq<Node>, numItems: nat)
    requires |light| > 0 && numItems >= 2 && Undisturbed(dialect, e, group)
    ensures Received(dialect, e, group, period, seed, light, numItems) == MixHash(period, seed, light, numItems)
  {
    hide MixHash, MixHashAt, LastAddress;
    OwnAddressCompletes(period, seed, light, numItems);
  }

  /** The hash of one seed: fill_mix in every lane, the loops, and the two FNV reductions. */
  method HashSeed(dev: Device, code: seq<Stmt>, seed: bv64, lanes: array<LaneState>, share: Share,
                  ending: LocalMemory.Ending, ghost period: bv64, ghost light: seq<Node>, ghost numItems: nat)
    returns (digest: seq<word>)
    requires Loaded(dev, light, numItems) && lanes.Length == LANES && share.Valid() && ending.Valid(share.group + 1)
    requires code == KernelCode(Plan(Start(SeedLow(period), SeedHigh(period))))
    modifies lanes, share.addresses, share.words
    ensures digest == Received(dev.dialect, ending, share.group, period, seed, light, numItems)
  {
    hide Start, Plan, KernelCode, RoundOf, RoundAt, HoldsDag, InitialMix, SeedLow, SeedHigh, Digest, LaneHashes;
    StartIsValid(SeedLow(period), SeedHigh(period));
    ghost var s := Start(SeedLow(period), SeedHigh(period));
    PlanOk(s);
    ghost var initial := InitialMix(SeedLow(seed), SeedHigh(seed));
    FillLanes(seed, lanes);
    for loop := 0 to LAST
      invariant RegsOf(lanes[..]) == RoundsOf(s, loop, initial, light, numItems)
    {
      RunLoop(dev, code, loop, lanes, share, s, light, numItems);
    }
    var before := lanes[..];
    var shared := ShareMix(dev.dialect, LAST, before, share);
    if dev.dialect == OpenCl {
      shared := LocalMemory.ReadThrough(ending, share.addresses, share.group);
    }
    RunLoopAt(dev, code, LAST, before, shared, lanes, s, light, numItems);
    digest := ReduceLanes(lanes[..], share);
  }

  method FillLanes(seed: bv64, lanes: array<LaneState>)
    requires lanes.Length == LANES
    modifies lanes
    ensures RegsOf(lanes[..]) == InitialMix(SeedLow(seed), SeedHigh(seed))
  {
    hide InitialMix, SeedLow, SeedHigh;
    ghost var initial := InitialMix(SeedLow(seed), SeedHigh(seed));
    for l := 0 to LANES
      invariant forall k :: 0 <= k < l ==> lanes[k].mix == initial[k]
    {
      var mix := FillMix(seed, l);
      lanes[l] := lanes[l].(mix := mix);
    }
  }

  /** The kernel's work for a group of lanes: in pass h lane h shares its seed and the whole group hashes it, and
      lane h keeps the digest. For every period, every target, every dataset of at most 2^28 items of 2048 bits and
      every order in which the work group ends its passes, no access is out of bounds, and the digest of each lane
      whose pass was not disturbed is the mix hash of the CPU. */
  method HashGroup(dev: Device, code: seq<Stmt>, seeds: seq<bv64>, lanes: array<LaneState>, share: Share,
                   endings: seq<LocalMemory.Ending>, ghost period: bv64, ghost light: seq<Node>, ghost numItems: nat)
    returns (digests: seq<seq<word>>)
    requires Loaded(dev, light, numItems) && |seeds| == |endings| == lanes.Length == LANES && share.Valid()
    requires forall h :: 0 <= h < LANES ==> endings[h].Valid(share.group + 1)
    requires code == KernelCode(Plan(Start(SeedLow(period), SeedHigh(period))))
    modifies lanes, share.addresses, share.words, share.seed
    ensures |digests| == LANES
    ensures forall h :: 0 <= h < LANES ==>
      digests[h] == Received(dev.dialect, endings[h], share.group, period, seeds[h], light, numItems)
    ensures forall h :: 0 <= h < LANES && Undisturbed(dev.dialect, endings[h], share.group) ==>
      digests[h] == MixHash(period, seeds[h], light, numItems)
  {
    hide Start, Plan, KernelCode, MixHash, Received, Undisturbed, HoldsDag;
    digests := [];
    for h := 0 to LANES
      invariant |digests| == h
      invariant forall k :: 0 <= k < h ==>
        digests[k] == Received(dev.dialect, endings[k], share.group, period, seeds[k], light, numItems)
    {
      for l := 0 to LANES
        invariant l > h ==> share.seed[0] == seeds[h]
      {
        if l == h {
          share.seed[0] := seeds[l];
        }
      }
      var digest := HashSeed(dev, code, share.seed[0], lanes, share, endings[h], period, light, numItems);
      digests := digests + [digest];
    }
    forall h | 0 <= h < LANES && Undisturbed(dev.dialect, endings[h], share.group)
      ensures digests[h] == MixHash(period, seeds[h], light, numItems)
    {
      UndisturbedReceives(dev.dialect, endings[h], share.group, period, seeds[h], light, numItems);
    }
  }

  // The j-th element of the DAG has been copied to the cache.
  ghost predicate Copied(cache: seq<word>, dag: seq<word>, j: nat)
    requires |cache| == CACHE_WORDS <= |dag| && j < CACHE_WORDS / DAG_LOADS
  {
    forall i :: DAG_LOADS * j <= i < DAG_LOADS * j + DAG_LOADS ==> cache[i] == dag[i]
  }

  /** The load of the cache: every work item of a group copies its share of the front of the DAG, and
      for every group size the whole cache is filled. */
  method FillCache(dag: seq<word>, groupSize: nat, cache: array<word>)
    requires groupSize > 0 && |dag| >= CACHE_WORDS && cache.Length == CACHE_WORDS
    modifies cache
    ensures cache[..] == dag[..CACHE_WORDS]
  {
    for lid := 0 to groupSize
      invariant forall j: nat :: j < CACHE_WORDS / DAG_LOADS && Owner(j, groupSize) < lid ==> Copied(cache[..], dag, j)
    {
      FillShare(dag, groupSize, lid, cache);
    }
    forall k | 0 <= k < CACHE_WORDS ensures cache[k] == dag[k] {
      assert Copied(cache[..], dag, k / DAG_LOADS);
    }
  }

  // The work item that loads the j-th element.
  function Owner(j: nat, groupSize: nat): nat
    requires groupSize > 0
  {
    j % groupSize
  }

  lemma NextOwned(j: nat, groupSize: nat)
    requires groupSize > 0
    ensures Owner(j + groupSize, groupSize) == Owner(j, groupSize)
    ensures forall k: nat :: j <= k < j + groupSize && Owner(k, groupSize) == Owner(j, groupSize) ==> k == j
  {
    ModPlus(j, groupSize);
    forall k: nat | j < k < j + groupSize ensures Owner(k, groupSize) != Owner(j, groupSize) {
      ModDiffer(k, j, groupSize);
    }
  }

  method FillShare(dag: seq<word>, groupSize: nat, lid: nat, cache: array<word>)
    requires lid < groupSize && |dag| >= CACHE_WORDS && cache.Length == CACHE_WORDS
    modifies cache
    ensures forall j: nat :: j < CACHE_WORDS / DAG_LOADS && old(Copied(cache[..], dag, j)) ==> Copied(cache[..], dag, j)
    ensures forall j: nat :: j < CACHE_WORDS / DAG_LOADS && Owner(j, groupSize) == lid ==> Copied(cache[..], dag, j)
  {
    assert Owner(lid, groupSize) == lid;
    hide Owner, Copied;
    var next := lid;
    while next < CACHE_WORDS / DAG_LOADS
      invariant Owner(next, groupSize) == lid
      invariant forall j: nat :: j < CACHE_WORDS / DAG_LOADS && old(Copied(cache[..], dag, j)) ==> Copied(cache[..], dag, j)
      invariant forall j: nat :: j < CACHE_WORDS / DAG_LOADS && j < next && Owner(j, groupSize) == lid ==> Copied(cache[..], dag, j)
    {
      FillElement(dag, next, cache);
      NextOwned(next, groupSize);
      next := next + groupSize;
    }
  }

  method FillElement(dag: seq<word>, j: nat, cache: array<word>)
    requires j < CACHE_WORDS / DAG_LOADS && |dag| >= CACHE_WORDS && cache.Length == CACHE_WORDS
    modifies cache
    ensures Copied(cache[..], dag, j)
    ensures forall k: nat :: k < CACHE_WORDS / DAG_LOADS && old(Copied(cache[..], dag, k)) ==> Copied(cache[..], dag, k)
  {
    for i := 0 to DAG_LOADS
      invariant forall k :: 0 <= k < CACHE_WORDS ==> (cache[k] ==
        if DAG_LOADS * j <= k < DAG_LOADS * j + i then dag[k] else old(cache[k]))
    {
      cache[DAG_LOADS * j + i] := dag[DAG_LOADS * j + i];
    }
  }
}

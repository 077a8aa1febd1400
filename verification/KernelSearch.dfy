/** The search kernel from nonce to reported solution, and the farm's check of what it reports. */
module KernelSearch {
  import opened Bytes
  import opened Words
  import opened Program
  import opened Dataset
  import opened ProgPowCpu
  import opened ProgPowKernel
  import opened ProgPowAgreement
  import opened ProgPowHash
  import opened SearchOutput
  import LocalMemory
  import LongValues

  function Pair8(a: bv8, b: bv8): bv16 { ((a as bv16) << 8) | (b as bv16) }
  function Pair16(a: bv16, b: bv16): bv32 { ((a as bv32) << 16) | (b as bv32) }
  function Pair32(a: bv32, b: bv32): bv64 { ((a as bv64) << 32) | (b as bv64) }

  lemma Value8(a: bv8, b: bv8)
    ensures (((a as bv16) << 8) | (b as bv16)) as int == (a as int) * 0x100 + (b as int)
  {
  }

  lemma Pair8Value(a: bv8, b: bv8)
    ensures Pair8(a, b) as int == (a as int) * 0x100 + (b as int)
  {
    assert Pair8(a, b) == ((a as bv16) << 8) | (b as bv16);
    Value8(a, b);
  }

  lemma Value16(a: bv16, b: bv16)
    ensures (((a as bv32) << 16) | (b as bv32)) as int == (a as int) * 0x1_0000 + (b as int)
  {
  }

  lemma Pair16Value(a: bv16, b: bv16)
    ensures Pair16(a, b) as int == (a as int) * 0x1_0000 + (b as int)
  {
    assert Pair16(a, b) == ((a as bv32) << 16) | (b as bv32);
    Value16(a, b);
  }

  lemma Value32(a: bv32, b: bv32)
    ensures (((a as bv64) << 32) | (b as bv64)) as int == (a as int) * 0x1_0000_0000 + (b as int)
  {
  }

  lemma Pair32Value(a: bv32, b: bv32)
    ensures Pair32(a, b) as int == (a as int) * 0x1_0000_0000 + (b as int)
  {
    assert Pair32(a, b) == ((a as bv64) << 32) | (b as bv64);
    Value32(a, b);
  }

  function Swap32(w: word): word {
    Pair16(Pair8(ByteOf(w, 0), ByteOf(w, 1)), Pair8(ByteOf(w, 2), ByteOf(w, 3)))
  }

  lemma Swap32Value(w: word)
    ensures Swap32(w) as int
      == ((ByteAt(w, 0) * 0x100 + ByteAt(w, 1)) * 0x100 + ByteAt(w, 2)) * 0x100 + ByteAt(w, 3)
  {
    hide ByteOf, Pair8, Pair16;
    var a, b, c, d := ByteOf(w, 0), ByteOf(w, 1), ByteOf(w, 2), ByteOf(w, 3);
    Pair8Value(a, b);
    Pair8Value(c, d);
    Pair16Value(Pair8(a, b), Pair8(c, d));
  }

  lemma SwapHalves(w0: word, w1: word)
    ensures Swap64(((w1 as bv64) << 32) | (w0 as bv64)) == Pair32(Swap32(w0), Swap32(w1))
  {
  }

  /** The 64 bits the kernel compares are the first eight bytes of the hash as a big-endian number. */
  lemma TopValue(h: Hash256)
    ensures Top64(h) as int == Number(HashBytes(h)[..8])
  {
    hide Swap64, Pair32, Swap32, ByteOf, Number, Pow256, HashBytes, WordBytes;
    SwapHalves(h[0], h[1]);
    Pair32Value(Swap32(h[0]), Swap32(h[1]));
    FrontBytes(h);
    NumberOfConcat(WordBytes(h[0]), WordBytes(h[1]));
    WordValue(h[0]);
    WordValue(h[1]);
    Pow256Four();
  }

  lemma FrontBytes(h: Hash256)
    ensures HashBytes(h)[..8] == WordBytes(h[0]) + WordBytes(h[1])
  {
    hide ByteOf;
    var a, b := HashBytes(h)[..8], WordBytes(h[0]) + WordBytes(h[1]);
    assert a[0] == b[0] && a[1] == b[1] && a[2] == b[2] && a[3] == b[3];
    assert a[4] == b[4] && a[5] == b[5] && a[6] == b[6] && a[7] == b[7];
  }

  function WordBytes(w: word): (b: seq<byte>)
    ensures |b| == 4
  {
    [ByteAt(w, 0), ByteAt(w, 1), ByteAt(w, 2), ByteAt(w, 3)]
  }

  lemma NumberOfWord(w: word)
    ensures Number(WordBytes(w))
      == ((ByteAt(w, 0) * 0x100 + ByteAt(w, 1)) * 0x100 + ByteAt(w, 2)) * 0x100 + ByteAt(w, 3)
  {
    hide ByteOf;
    var b := WordBytes(w);
    assert b[..3][..2] == b[..2] && b[..2][..1] == b[..1] && b[..1][..0] == [];
    assert Number(b[..1]) == ByteAt(w, 0);
    assert Number(b[..2]) == ByteAt(w, 0) * 0x100 + ByteAt(w, 1);
  }

  lemma WordValue(w: word)
    ensures Number(WordBytes(w)) == Swap32(w) as int
  {
    hide Number, Swap32, WordBytes, ByteOf;
    NumberOfWord(w);
    Swap32Value(w);
  }

  lemma Pow256Four()
    ensures Pow256(4) == 0x1_0000_0000
  {
  }

  // The upper 64 bits of the boundary.
  function Target(boundary: Hash256): int { ShiftRight(Number(HashBytes(boundary)), 24) }

  /** The kernel's test never turns away a hash that meets the boundary, and lets another through only
      when its top 64 bits are those of the boundary. */
  lemma KernelTest(h: Hash256, boundary: Hash256)
    ensures Meets(h, boundary) ==> Top64(h) as int <= Target(boundary)
    ensures (Top64(h) as int) < Target(boundary) ==> Meets(h, boundary)
  {
    hide Number, Pow256, Top64, HashBytes;
    TopValue(h);
    TopDecides(HashBytes(h), HashBytes(boundary));
  }

  // What a launch is given: the block of the package, its header, the first nonce and the upper bits of its boundary.
  datatype Job = Job(block: Int32, header: Hash256, startNonce: nat, target: int)

  // The nonce of a work item.
  function NonceOf(startNonce: nat, gid: nat): bv64 { Nonce((startNonce + gid) % TWO64) }

  /** The nonce of a work item is the first one plus its number, around 2^64. */
  lemma NonceCounts(startNonce: nat, gid: nat)
    ensures LongValues.Value(NonceOf(startNonce, gid)) == (startNonce + gid) % TWO64
  {
    hide LongValues.Value;
    LongValues.LongValue((startNonce + gid) % TWO64);
    assert Nonce((startNonce + gid) % TWO64) == LongValues.Long((startNonce + gid) % TWO64);
  }

  ghost function HashAt(light: seq<Node>, numItems: nat, job: Job, gid: nat): Result
    requires |light| > 0 && numItems >= 2
  {
    HashOf(light, numItems, job.block, job.header, NonceOf(job.startNonce, gid))
  }

  // The CPU's hashes of the work items of a launch of that many groups.
  ghost function Results(light: seq<Node>, numItems: nat, job: Job, groups: nat): (r: seq<Result>)
    requires |light| > 0 && numItems >= 2
    ensures |r| == LANES * groups
  {
    seq(LANES * groups, i requires 0 <= i < LANES * groups => HashAt(light, numItems, job, i))
  }

  // What a lane holds when it comes to the test.
  datatype Lane = Lane(top: bv64, digest: Hash256)

  ghost predicate Hashed(lane: Lane, r: Result) { lane.top == Top64(r.final) && lane.digest == r.mix }

  // The device is loaded for the job and the code is the program of its period.
  ghost predicate Prepared(dev: Device, code: seq<Stmt>, job: Job, light: seq<Node>, numItems: nat) {
    && Loaded(dev, light, numItems)
    && code == KernelCode(Plan(Start(SeedLow(PeriodSeed(job.block)), SeedHigh(PeriodSeed(job.block)))))
  }

  // The work groups of a launch: how many groups of lanes each has, and how each of its passes ends in local memory.
  datatype WorkGroups = WorkGroups(size: nat, endings: seq<seq<LocalMemory.Ending>>) {
    function Place(group: nat): nat
      requires size > 0
    {
      group % size
    }

    function Number(group: nat): nat
      requires size > 0
    {
      group / size
    }

    ghost predicate Valid(groups: nat) {
      && 0 < size <= LANES
      && (forall g: nat :: g < groups ==> Number(g) < |endings|)
      && (forall w :: 0 <= w < |endings| ==> EndsAll(endings[w], size))
    }
  }

  /** The groups of lanes are numbered through the work groups. */
  lemma GroupsNumbered(wg: WorkGroups, group: nat)
    requires wg.size > 0
    ensures wg.Place(group) < wg.size && wg.Number(group) * wg.size + wg.Place(group) == group
  {
  }

  ghost predicate EndsAll(endings: seq<LocalMemory.Ending>, size: nat) {
    |endings| == LANES && forall h :: 0 <= h < LANES ==> endings[h].Valid(size)
  }

  // How the pass for a work item ends.
  function EndingOf(wg: WorkGroups, groups: nat, gid: nat): LocalMemory.Ending
    requires wg.Valid(groups) && gid < LANES * groups
  {
    wg.endings[wg.Number(Group(gid))][gid % LANES]
  }

  ghost predicate UndisturbedItem(dialect: Dialect, wg: WorkGroups, groups: nat, gid: nat)
    requires wg.Valid(groups) && gid < LANES * groups
  {
    Undisturbed(dialect, EndingOf(wg, groups, gid), wg.Place(Group(gid)))
  }

  // What the kernel makes of a work item, whatever the other groups do to its addresses.
  ghost function MadeAt(dialect: Dialect, wg: WorkGroups, groups: nat, light: seq<Node>, numItems: nat, job: Job,
                        gid: nat): Result
    requires wg.Valid(groups) && gid < LANES * groups && |light| > 0 && numItems >= 2
  {
    var seed := SeedOf(job.header, NonceOf(job.startNonce, gid));
    var mix: Hash256 := Received(dialect, EndingOf(wg, groups, gid), wg.Place(Group(gid)), PeriodSeed(job.block), seed,
                                 light, numItems);
    Result(Keccak256(job.header, seed, mix), mix)
  }

  ghost function Made(dialect: Dialect, wg: WorkGroups, groups: nat, light: seq<Node>, numItems: nat, job: Job):
      (r: seq<Result>)
    requires wg.Valid(groups) && |light| > 0 && numItems >= 2
    ensures |r| == LANES * groups
  {
    seq(LANES * groups, i requires 0 <= i < LANES * groups => MadeAt(dialect, wg, groups, light, numItems, job, i))
  }

  /** Of a work item whose pass was not disturbed the kernel makes the CPU's hash, so of all if no pass was; and the
      first group of a work group is never disturbed. */
  lemma MadeIsHash(dialect: Dialect, wg: WorkGroups, groups: nat, light: seq<Node>, numItems: nat, job: Job)
    requires wg.Valid(groups) && |light| > 0 && numItems >= 2
    ensures forall gid: nat :: gid < LANES * groups && UndisturbedItem(dialect, wg, groups, gid) ==>
      MadeAt(dialect, wg, groups, light, numItems, job, gid) == HashAt(light, numItems, job, gid)
    ensures (forall gid: nat :: gid < LANES * groups ==> UndisturbedItem(dialect, wg, groups, gid)) ==>
      Made(dialect, wg, groups, light, numItems, job) == Results(light, numItems, job, groups)
    ensures forall gid: nat :: gid < LANES * groups && wg.Place(Group(gid)) == 0 ==>
      UndisturbedItem(dialect, wg, groups, gid)
  {
    hide Received, MixHash, Keccak256, NonceOf, PeriodSeed, Undisturbed, Swap64;
    forall gid: nat | gid < LANES * groups && UndisturbedItem(dialect, wg, groups, gid)
      ensures MadeAt(dialect, wg, groups, light, numItems, job, gid) == HashAt(light, numItems, job, gid)
    {
      UndisturbedReceives(dialect, EndingOf(wg, groups, gid), wg.Place(Group(gid)), PeriodSeed(job.block),
                          SeedOf(job.header, NonceOf(job.startNonce, gid)), light, numItems);
    }
    forall gid: nat | gid < LANES * groups && wg.Place(Group(gid)) == 0
      ensures UndisturbedItem(dialect, wg, groups, gid)
    {
      FirstIsSafe(dialect, EndingOf(wg, groups, gid), wg.size);
    }
  }

  lemma FirstIsSafe(dialect: Dialect, e: LocalMemory.Ending, size: nat)
    requires e.Valid(size)
    ensures Undisturbed(dialect, e, 0)
  {
    LocalMemory.Group0IsSafe(e, size);
  }

  // The memory in which the groups of a work group meet.
  datatype Board = Board(addresses: array<word>, words: array<word>, seed: array<bv64>) {
    ghost predicate Valid() {
      addresses.Length == words.Length == LANES && seed.Length == LANES / 2 && addresses != words
    }

    function ShareAt(place: nat): Share { Share(place, addresses, if place == 0 then addresses else words, seed) }
  }

  // The first Keccak of a group's lanes, and the last.
  method SeedLanes(job: Job, group: nat) returns (seeds: seq<bv64>)
    ensures |seeds| == LANES
    ensures forall l :: 0 <= l < LANES ==> seeds[l] == SeedOf(job.header, NonceOf(job.startNonce, LANES * group + l))
  {
    hide Keccak256, NonceOf, Swap64;
    seeds := [];
    for l := 0 to LANES
      invariant |seeds| == l
      invariant forall k :: 0 <= k < l ==> seeds[k] == SeedOf(job.header, NonceOf(job.startNonce, LANES * group + k))
    {
      var seed := KeccakGpu64(job.header, NonceOf(job.startNonce, LANES * group + l), [0, 0, 0, 0, 0, 0, 0, 0]);
      seeds := seeds + [seed];
    }
  }

  method HashLanes(job: Job, seeds: seq<bv64>, digests: seq<seq<word>>) returns (hashed: seq<Lane>)
    requires |seeds| == |digests| == LANES && forall l :: 0 <= l < LANES ==> |digests[l]| == DIGEST_WORDS
    ensures |hashed| == LANES
    ensures forall l :: 0 <= l < LANES ==>
      hashed[l] == Lane(Top64(Keccak256(job.header, seeds[l], digests[l])), digests[l])
  {
    hide Keccak256, Swap64;
    hashed := [];
    for l := 0 to LANES
      invariant |hashed| == l
      invariant forall k :: 0 <= k < l ==>
        hashed[k] == Lane(Top64(Keccak256(job.header, seeds[k], digests[k])), digests[k])
    {
      var top := KeccakGpu64(job.header, seeds[l], digests[l]);
      hashed := hashed + [Lane(top, digests[l])];
    }
  }

  // A lane that has hashed its own nonce holds what the kernel makes of it.
  lemma LaneIsMade(dialect: Dialect, wg: WorkGroups, groups: nat, light: seq<Node>, numItems: nat, job: Job, gid: nat,
                   seed: bv64, digest: Hash256, lane: Lane)
    requires wg.Valid(groups) && gid < LANES * groups && |light| > 0 && numItems >= 2
    requires seed == SeedOf(job.header, NonceOf(job.startNonce, gid))
    requires digest == Received(dialect, EndingOf(wg, groups, gid), wg.Place(Group(gid)), PeriodSeed(job.block), seed,
                                light, numItems)
    requires lane == Lane(Top64(Keccak256(job.header, seed, digest)), digest)
    ensures Hashed(lane, MadeAt(dialect, wg, groups, light, numItems, job, gid))
  {
    hide Received, Keccak256, NonceOf, Swap64, PeriodSeed, EndingOf;
  }

  /** One group of the kernel up to its tests: unless the flag is up, every lane holds what the kernel makes of its own
      nonce. */
  method StartGroup(abort: bool, dev: Device, code: seq<Stmt>, job: Job, wg: WorkGroups, groups: nat, group: nat,
                    lanes: array<LaneState>, board: Board, ghost light: seq<Node>, ghost numItems: nat)
    returns (hashed: seq<Lane>)
    requires Prepared(dev, code, job, light, numItems) && wg.Valid(groups) && group < groups
    requires lanes.Length == LANES && board.Valid()
    modifies lanes, board.addresses, board.words, board.seed
    ensures |hashed| == if abort then 0 else LANES
    ensures forall l :: 0 <= l < |hashed| ==>
      Hashed(hashed[l], MadeAt(dev.dialect, wg, groups, light, numItems, job, LANES * group + l))
  {
    hide Start, Plan, KernelCode, HoldsDag, Received, Keccak256, NonceOf, Swap64, SeedLow, SeedHigh, PeriodSeed;
    hide MadeAt, Hashed;
    hashed := [];
    if abort {
      return;
    }
    var seeds := SeedLanes(job, group);
    var endings := wg.endings[wg.Number(group)];
    var digests := HashGroup(dev, code, seeds, lanes, board.ShareAt(wg.Place(group)), endings, PeriodSeed(job.block),
                             light, numItems);
    hashed := HashLanes(job, seeds, digests);
    forall l | 0 <= l < LANES
      ensures Hashed(hashed[l], MadeAt(dev.dialect, wg, groups, light, numItems, job, LANES * group + l))
    {
      var gid := LANES * group + l;
      assert Group(gid) == group && EndingOf(wg, groups, gid) == endings[l];
      LaneIsMade(dev.dialect, wg, groups, light, numItems, job, gid, seeds[l], digests[l], hashed[l]);
    }
  }

  // The work items of a group join the live ones.
  function Join(live: map<nat, Lane>, hashed: seq<Lane>, group: nat): map<nat, Lane>
    requires |hashed| == LANES
  {
    live + map gid: nat | gid in Items(group) :: hashed[gid - LANES * group]
  }

  lemma Joined(live: map<nat, Lane>, hashed: seq<Lane>, group: nat, rs: seq<Result>)
    requires |hashed| == LANES && LANES * group + LANES <= |rs|
    requires forall l :: 0 <= l < LANES ==> Hashed(hashed[l], rs[LANES * group + l])
    requires forall gid :: gid in live ==> gid < |rs| && Hashed(live[gid], rs[gid])
    ensures Join(live, hashed, group).Keys == live.Keys + Items(group)
    ensures forall gid :: gid in Join(live, hashed, group) ==>
      gid < |rs| && Hashed(Join(live, hashed, group)[gid], rs[gid])
  {
    hide Hashed;
    forall gid | gid in Items(group) ensures gid < |rs| && Hashed(hashed[gid - LANES * group], rs[gid]) {
      assert gid == LANES * group + (gid - LANES * group);
    }
  }

  /** The end of a work item: it reports if its hash passes the test. */
  method TestItem(out: SearchResults, target: int, gid: nat, lane: Lane, ghost rs: seq<Result>, ghost k: Output)
    requires out.Valid() && out.Holds(k) && gid in k.live && gid < |rs| && Hashed(lane, rs[gid])
    modifies out`count, out`abort, out.rslt
    ensures out.Holds(Step(rs, target, k, Test(gid)))
  {
    hide Top64;
    if lane.top as int <= target {
      out.Report(Hit(gid, lane.digest));
    }
  }

  // The lanes that are hashing, and what the kernel makes of their nonces.
  ghost predicate Follows(live: map<nat, Lane>, rs: seq<Result>, k: Output) {
    live.Keys == k.live && forall gid :: gid in live ==> gid < |rs| && Hashed(live[gid], rs[gid])
  }

  /** One event on the device. */
  method Advance(dev: Device, code: seq<Stmt>, job: Job, wg: WorkGroups, groups: nat, e: Event, lanes: array<LaneState>,
                 board: Board, out: SearchResults, live: map<nat, Lane>, ghost light: seq<Node>, ghost numItems: nat,
                 ghost rs: seq<Result>, ghost k: Output) returns (next: map<nat, Lane>)
    requires Prepared(dev, code, job, light, numItems) && wg.Valid(groups) && lanes.Length == LANES && board.Valid()
    requires rs == Made(dev.dialect, wg, groups, light, numItems, job) && (e.Begin? ==> e.group < groups)
    requires out.Valid() && out.Holds(k) && Follows(live, rs, k)
    requires {out.rslt as object} !! {lanes, board.addresses, board.words, board.seed}
    modifies lanes, board.addresses, board.words, board.seed, out, out.rslt
    ensures out.Holds(Step(rs, job.target, k, e)) && Follows(next, rs, Step(rs, job.target, k, e))
  {
    hide Prepared, MadeAt, Hashed, Passes, Items, Join, WorkGroups.Valid;
    next := live;
    match e
    case Begin(g) =>
      var hashed := StartGroup(out.abort, dev, code, job, wg, groups, g, lanes, board, light, numItems);
      if |hashed| > 0 {
        Joined(live, hashed, g, rs);
        next := Join(live, hashed, g);
      }
    case Test(gid) =>
      if gid in live {
        TestItem(out, job.target, gid, live[gid], rs, k);
        next := live - {gid};
      }
    case Kick => out.abort := true;
  }

  /** A launch, under any order of events and any order in which the groups of its work groups end their passes: the
      buffer holds what the run of those events makes of what the kernel makes of each nonce. */
  method Launch(dev: Device, code: seq<Stmt>, job: Job, wg: WorkGroups, groups: nat, events: seq<Event>,
                ghost light: seq<Node>, ghost numItems: nat, ghost rs: seq<Result>) returns (out: SearchResults)
    requires Prepared(dev, code, job, light, numItems) && wg.Valid(groups)
    requires rs == Made(dev.dialect, wg, groups, light, numItems, job)
    requires forall i :: 0 <= i < |events| && events[i].Begin? ==> events[i].group < groups
    ensures fresh(out) && fresh(out.rslt) && out.Valid() && out.Holds(Run(rs, job.target, events))
  {
    hide Prepared, MadeAt, Hashed, Step, WorkGroups.Valid;
    var lanes := new LaneState[LANES](_ => LaneState(seq(REGS, _ => 0), 0, 0, seq(DAG_LOADS, _ => 0)));
    var addresses, words, seed := new word[LANES](_ => 0), new word[LANES](_ => 0), new bv64[LANES / 2](_ => 0);
    var board := Board(addresses, words, seed);
    out := new SearchResults();
    var live := map[];
    for i := 0 to |events|
      invariant fresh(lanes) && fresh(addresses) && fresh(words) && fresh(seed)
      invariant fresh(out) && fresh(out.rslt) && out.Valid() && out.Holds(Run(rs, job.target, events[..i]))
      invariant {out.rslt as object} !! {lanes, addresses, words, seed}
      invariant Follows(live, rs, Run(rs, job.target, events[..i]))
    {
      assert events[..i + 1][..i] == events[..i];
      live := Advance(dev, code, job, wg, groups, events[i], lanes, board, out, live, light, numItems, rs,
                      Run(rs, job.target, events[..i]));
    }
    assert events[..|events|] == events;
  }

  /** A work item whose hash meets the boundary goes unreported exactly if its group began with the flag up or the
      fifteen slots were taken when it came to its test. */
  lemma MeetingItemMissed(rs: seq<Result>, target: int, boundary: Hash256, events: seq<Event>, gid: nat)
    requires target == Target(boundary) && Scheduled(events) && gid < |rs| && Meets(rs[gid].final, boundary)
    requires TurnedAway(rs, target, events, gid) || TestedAt(events, gid) >= 0
    ensures !Reported(Run(rs, target, events), gid) <==>
      TurnedAway(rs, target, events, gid) || Run(rs, target, events[..TestedAt(events, gid)]).count >= MAX_OUTPUTS
  {
    hide Target, Top64, Meets, Run, TestedAt, TurnedAway;
    KernelTest(rs[gid].final, boundary);
    MissedExactly(rs, target, events, gid);
  }

  /** The farm's check of a reported nonce: it is passed on exactly when its hash meets the boundary,
      and then with the mix hash of the light context. */
  method SubmitProof(ctx: EpochContext, block: Int32, header: Hash256, nonce: bv64, boundary: Hash256)
    returns (submitted: bool, mix: Hash256)
    requires ctx.Valid()
    modifies ctx.data
    ensures ctx.Valid()
    ensures submitted <==> Meets(HashOf(ctx.light, ctx.numItems, block, header, nonce).final, boundary)
    ensures submitted ==> Proves(ctx.light, ctx.numItems, block, header, mix, nonce, boundary)
  {
    hide HashOf, EpochContext.Valid, Number, HashBytes;
    EpochShape(ctx);
    var r := Hash(ctx, block, header, nonce);
    mix := r.mix;
    var value, bound := HashBytes(r.final), HashBytes(boundary);
    var less := Less(value, bound);
    submitted := value == bound || less;
    if Number(value) == Number(bound) {
      NumberInjective(value, bound);
    }
  }
}

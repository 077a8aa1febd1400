/** The ProgPoW hash around the mix: the Keccak-f[800] absorptions, hash, verify and search of
    libethash/progpow.cpp, and the search kernel's test of a hash. */
module ProgPowHash {
  import opened Bytes
  import opened Words
  import opened Program
  import ProgramLaws
  import opened Dataset
  import opened ProgPowCpu
  import K = Keccak

  // Eight little-endian words.
  type Hash256 = h: seq<word> | |h| == 8 witness [0, 0, 0, 0, 0, 0, 0, 0]

  function ByteAt(w: word, k: nat): byte { ByteOf(w, k) as int }

  function HashBytes(h: Hash256): (b: seq<byte>)
    ensures |b| == 32
  {
    seq(32, i requires 0 <= i < 32 => ByteAt(h[i / 4], i % 4))
  }

  // A hash meets a boundary when it is not above it as a 256-bit number.
  ghost predicate Meets(h: Hash256, boundary: Hash256) {
    Number(HashBytes(h)) <= Number(HashBytes(boundary))
  }

  const NO_MIX: Hash256 := [0, 0, 0, 0, 0, 0, 0, 0]

  function Absorbed(header: Hash256, nonce: bv64, mix: Hash256): (s: seq<word>)
    ensures |s| == 25
  {
    var h: seq<word> := header;
    h + [SeedLow(nonce), SeedHigh(nonce)] + mix + [0, 0, 0, 0, 0, 0, 0]
  }

  /** Nothing of what is absorbed is lost: the words give back the header, the nonce and the mix. */
  lemma AbsorbedInjective(h: Hash256, n: bv64, m: Hash256, h': Hash256, n': bv64, m': Hash256)
    requires Absorbed(h, n, m) == Absorbed(h', n', m')
    ensures h == h' && n == n' && m == m'
  {
    hide SeedLow, SeedHigh;
    var s, t := Absorbed(h, n, m), Absorbed(h', n', m');
    forall i | 0 <= i < 8 ensures h[i] == h'[i] && m[i] == m'[i] {
      assert s[i] == h[i] && t[i] == h'[i] && s[10 + i] == m[i] && t[10 + i] == m'[i];
    }
    assert s[8] == SeedLow(n) && s[9] == SeedHigh(n) && t[8] == SeedLow(n') && t[9] == SeedHigh(n');
    ProgramLaws.SeedsDiffer(n, n');
  }

  // 576 bits of input, Keccak-f[800] and no padding.
  function Keccak256(header: Hash256, nonce: bv64, mix: Hash256): Hash256 {
    K.F800(Absorbed(header, nonce, mix))[..8]
  }

  method KeccakProgPow256(header: Hash256, nonce: bv64, mix: Hash256) returns (output: Hash256)
    ensures output == Keccak256(header, nonce, mix)
  {
    hide K.F800, SeedLow, SeedHigh;
    var state := Load(header, nonce, mix);
    K.PermuteCpu800(state);
    output := state[..8];
  }

  method Load(header: Hash256, nonce: bv64, mix: Hash256) returns (state: array<word>)
    ensures fresh(state) && state[..] == Absorbed(header, nonce, mix)
  {
    hide SeedLow, SeedHigh;
    state := new word[25](_ => 0);
    var i := 0;
    while i < 8
      invariant 0 <= i <= 8
      invariant forall k :: 0 <= k < 25 ==> (state[k] == if k < i then header[k] else 0)
    {
      state[i] := header[i];
      i := i + 1;
    }
    state[i] := SeedLow(nonce);
    i := i + 1;
    state[i] := SeedHigh(nonce);
    i := i + 1;
    for j := 0 to 8
      invariant i == 10 + j
      invariant forall k :: 0 <= k < 8 ==> state[k] == header[k]
      invariant state[8] == SeedLow(nonce) && state[9] == SeedHigh(nonce)
      invariant forall k :: 10 <= k < 25 ==> (state[k] == if k < i then mix[k - 10] else 0)
    {
      state[i] := mix[j];
      i := i + 1;
    }
  }

  // The 64-bit word whose bytes in memory are those of a hash's front, read in big-endian order.
  function Swap64(x: bv64): bv64 {
    ((x & 0xff) << 56) | ((x & 0xff00) << 40) | ((x & 0xff_0000) << 24) | ((x & 0xff00_0000) << 8)
    | ((x >> 8) & 0xff00_0000) | ((x >> 24) & 0xff_0000) | ((x >> 40) & 0xff00) | (x >> 56)
  }

  function Top64(h: Hash256): bv64 {
    Swap64(((h[1] as bv64) << 32) | (h[0] as bv64))
  }

  function SeedOf(header: Hash256, nonce: bv64): bv64 { Top64(Keccak256(header, nonce, NO_MIX)) }

  // keccak_f800 of the kernel.
  method KeccakGpu64(header: Hash256, seed: bv64, digest: Hash256) returns (res: bv64)
    ensures res == Top64(Keccak256(header, seed, digest))
  {
    hide K.F800, SeedLow, SeedHigh, Swap64;
    var st := Load(header, seed, digest);
    K.PermuteGpu800(st);
    assert st[..8][0] == st[0] && st[..8][1] == st[1];
    res := Swap64(((st[1] as bv64) << 32) | (st[0] as bv64));
  }

  datatype Result = Result(final: Hash256, mix: Hash256)

  // The hash of a block header and nonce, as a function of the dataset alone.
  ghost function HashOf(light: seq<Node>, numItems: nat, block: Int32, header: Hash256, nonce: bv64): Result
    requires |light| > 0 && numItems >= 2
  {
    var seed := SeedOf(header, nonce);
    var mix: Hash256 := MixHash(PeriodSeed(block), seed, light, numItems);
    Result(Keccak256(header, seed, mix), mix)
  }

  /** hash, through a light context or through the lazily filled dataset of a full one: the result
      is the same, and the context stays valid. */
  method Hash(ctx: EpochContext, block: Int32, header: Hash256, nonce: bv64) returns (r: Result)
    requires ctx.Valid()
    modifies ctx.data
    ensures ctx.Valid() && r == HashOf(ctx.light, ctx.numItems, block, header, nonce)
  {
    hide Keccak256, Swap64, MixHash, EpochContext.Valid;
    assert ctx.Shape() by { EpochShape(ctx); }
    var top := KeccakProgPow256(header, nonce, [0, 0, 0, 0, 0, 0, 0, 0]);
    var seed := Top64(top);
    var mix := HashMix(ctx, block, seed);
    var final := KeccakProgPow256(header, seed, mix);
    r := Result(final, mix);
  }

  lemma EpochShape(ctx: EpochContext)
    requires ctx.Valid()
    ensures ctx.Shape()
  {
  }

  datatype Call = Call(block: Int32, header: Hash256, nonce: bv64)

  /** Every sequence of hash calls through one context, light or full: each result is that of the dataset
      alone, whatever was computed before, and the words of the L1 cache never change. */
  method HashAll(ctx: EpochContext, calls: seq<Call>) returns (rs: seq<Result>)
    requires ctx.Valid()
    modifies ctx.data
    ensures ctx.Valid() && ctx.data[..L1_WORDS] == old(ctx.data[..L1_WORDS])
    ensures |rs| == |calls|
    ensures forall i :: 0 <= i < |calls| ==>
      rs[i] == HashOf(ctx.light, ctx.numItems, calls[i].block, calls[i].header, calls[i].nonce)
  {
    hide HashOf, Item2048, L1;
    rs := [];
    for i := 0 to |calls|
      invariant ctx.Valid() && |rs| == i
      invariant forall k :: 0 <= k < i ==>
        rs[k] == HashOf(ctx.light, ctx.numItems, calls[k].block, calls[k].header, calls[k].nonce)
    {
      var r := Hash(ctx, calls[i].block, calls[i].header, calls[i].nonce);
      rs := rs + [r];
    }
  }

  // What verify accepts.
  ghost predicate Proves(light: seq<Node>, numItems: nat, block: Int32, header: Hash256, mix: Hash256, nonce: bv64,
                         boundary: Hash256)
    requires |light| > 0 && numItems >= 2
  {
    var r := HashOf(light, numItems, block, header, nonce);
    mix == r.mix && Meets(r.final, boundary)
  }

  /** verify: the cheap test of the claimed mix comes first, and the mix itself is recomputed after it. */
  method Verify(ctx: EpochContext, block: Int32, header: Hash256, mix: Hash256, nonce: bv64, boundary: Hash256)
    returns (ok: bool)
    requires ctx.Valid()
    modifies ctx.data
    ensures ctx.Valid()
    ensures ok <==> Proves(ctx.light, ctx.numItems, block, header, mix, nonce, boundary)
  {
    hide Keccak256, Swap64, MixHash, EpochContext.Valid, Number, HashBytes;
    EpochShape(ctx);
    var top := KeccakProgPow256(header, nonce, [0, 0, 0, 0, 0, 0, 0, 0]);
    var seed := Top64(top);
    var final := KeccakProgPow256(header, seed, mix);
    ok := IsLessOrEqual(HashBytes(final), HashBytes(boundary));
    if ok {
      var expected := HashMix(ctx, block, seed);
      ok := expected == mix;
    }
  }

  const TWO64 := 0x1_0000_0000_0000_0000

  function Nonce(n: nat): bv64
    requires n < TWO64
  {
    n as bv64
  }

  ghost predicate Solves(light: seq<Node>, numItems: nat, block: Int32, header: Hash256, boundary: Hash256, n: nat)
    requires |light| > 0 && numItems >= 2 && n < TWO64
  {
    Meets(HashOf(light, numItems, block, header, Nonce(n)).final, boundary)
  }

  // No nonce from start up to end is a solution.
  ghost predicate NoneSolves(light: seq<Node>, numItems: nat, block: Int32, header: Hash256, boundary: Hash256,
                             start: nat, end: nat)
    requires |light| > 0 && numItems >= 2 && end <= TWO64
  {
    forall n: nat :: start <= n < end ==> !Solves(light, numItems, block, header, boundary, n)
  }

  datatype Found = Found(result: Result, nonce: nat) | NotFound

  /** search and search_light: the least nonce of the range whose hash meets the boundary. The end of the
      range is computed modulo 2^64, so that a range that reaches past 2^64 is not searched at all. */
  method Search(ctx: EpochContext, block: Int32, header: Hash256, boundary: Hash256, start: nat, iterations: nat)
    returns (r: Found)
    requires ctx.Valid() && start < TWO64 && iterations < TWO64
    modifies ctx.data
    ensures ctx.Valid()
    ensures start + iterations >= TWO64 ==> r.NotFound?
    ensures r.Found? ==>
      && start <= r.nonce < start + iterations && r.nonce < TWO64
      && r.result == HashOf(ctx.light, ctx.numItems, block, header, Nonce(r.nonce))
      && Meets(r.result.final, boundary)
      && NoneSolves(ctx.light, ctx.numItems, block, header, boundary, start, r.nonce)
    ensures r.NotFound? && start + iterations < TWO64 ==>
      NoneSolves(ctx.light, ctx.numItems, block, header, boundary, start, start + iterations)
  {
    hide HashOf, EpochContext.Valid, Number, HashBytes, Nonce;
    EpochShape(ctx);
    var end := (start + iterations) % TWO64;
    var nonce := start;
    while nonce < end
      invariant ctx.Valid() && start <= nonce && (nonce <= end || nonce == start)
      invariant NoneSolves(ctx.light, ctx.numItems, block, header, boundary, start, nonce)
    {
      var h := Hash(ctx, block, header, Nonce(nonce));
      var meets := IsLessOrEqual(HashBytes(h.final), HashBytes(boundary));
      if meets {
        return Found(h, nonce);
      }
      nonce := nonce + 1;
    }
    r := NotFound;
  }

  /** What a search through the full dataset finds, a light context of the same epoch verifies. */
  method SearchAndVerify(ctx: EpochContext, light: EpochContext, block: Int32, header: Hash256, boundary: Hash256,
                         start: nat, iterations: nat) returns (r: Found, ok: bool)
    requires ctx.Valid() && light.Valid() && ctx.light == light.light && ctx.numItems == light.numItems
    requires ctx.data != light.data
    requires start < TWO64 && iterations < TWO64
    modifies ctx.data, light.data
    ensures r.Found? ==> ok
  {
    hide HashOf, EpochContext.Valid, Meets;
    EpochShape(ctx);
    r := Search(ctx, block, header, boundary, start, iterations);
    ok := false;
    if r.Found? {
      ok := Verify(light, block, header, r.result.mix, Nonce(r.nonce), boundary);
    }
  }
}

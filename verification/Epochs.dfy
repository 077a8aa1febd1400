/** Epoch seeds and the memoised search for the epoch of a seed (libethash/ethash.cpp). */
module Epochs {
  import opened Words
  import opened Dataset
  import opened ProgPowHash
  import Sponge

  function SeedBytes(h: Hash256): (b: seq<bv8>)
    ensures |b| == 32
  {
    seq(32, i requires 0 <= i < 32 => ByteOf(h[i / 4], i % 4))
  }

  function HashOfLanes(l: seq<bv64>): Hash256
    requires |l| == 4
  {
    seq(8, k requires 0 <= k < 8 => HalfOf(l[k / 2], k % 2))
  }

  lemma BytesAsLane(h: Hash256, i: nat)
    requires i < 4
    ensures Sponge.LoadLe(SeedBytes(h)[8 * i..8 * i + 8]) == LaneOf(h[2 * i], h[2 * i + 1])
  {
    hide ByteOf, LaneOf, Sponge.LoadLe;
    LaneBytes(SeedBytes(h)[8 * i..8 * i + 8], h[2 * i], h[2 * i + 1]);
  }

  lemma HalfOfLane(lo: word, hi: word)
    ensures HalfOf(LaneOf(lo, hi), 0) == lo && HalfOf(LaneOf(lo, hi), 1) == hi
  {
  }

  lemma HalfAt(h: Hash256, lanes: seq<bv64>, k: nat)
    requires |lanes| == 4 && k < 8 && lanes[k / 2] == LaneOf(h[2 * (k / 2)], h[2 * (k / 2) + 1])
    ensures HashOfLanes(lanes)[k] == h[k]
  {
    hide LaneOf, HalfOf;
    HalfOfLane(h[2 * (k / 2)], h[2 * (k / 2) + 1]);
  }

  /** The lanes that the bytes of a hash are read as, little-endian, hold the hash. */
  lemma BytesAndLanes(h: Hash256, lanes: seq<bv64>)
    requires |lanes| == 4 && forall i :: 0 <= i < 4 ==> lanes[i] == Sponge.LoadLe(SeedBytes(h)[8 * i..8 * i + 8])
    ensures HashOfLanes(lanes) == h
  {
    hide LaneOf, SeedBytes, HashOfLanes, Sponge.LoadLe;
    forall k | 0 <= k < 8 ensures HashOfLanes(lanes)[k] == h[k] {
      BytesAsLane(h, k / 2);
      HalfAt(h, lanes, k);
    }
  }

  // keccak256 of the 32 bytes of a hash.
  function Keccak256Of(h: Hash256): Hash256 {
    HashOfLanes(Sponge.DigestOf(256, SeedBytes(h)))
  }

  method Keccak256Bytes(h: Hash256) returns (r: Hash256)
    ensures r == Keccak256Of(h)
  {
    hide Sponge.DigestOf, SeedBytes, HashOfLanes;
    var lanes := Sponge.Digest(256, SeedBytes(h));
    r := HashOfLanes(lanes);
  }

  function EpochSeed(epoch: nat): Hash256 {
    if epoch == 0 then NO_MIX else Keccak256Of(EpochSeed(epoch - 1))
  }

  method CalculateEpochSeed(epoch: int) returns (seed: Hash256)
    ensures seed == EpochSeed(if epoch < 0 then 0 else epoch)
  {
    hide Keccak256Of;
    seed := [0, 0, 0, 0, 0, 0, 0, 0];
    var i := 0;
    while i < epoch
      invariant 0 <= i && (i <= epoch || i == 0) && seed == EpochSeed(i)
    {
      seed := Keccak256Bytes(seed);
      i := i + 1;
    }
  }

  const NUM_TRIES := 30000  // num_tries

  // The seed of an epoch begins with the word.
  predicate Matches(epoch: nat, part: word) { EpochSeed(epoch)[0] == part }

  // What a scan without memory would answer.
  ghost predicate IsScan(part: word, answer: int) {
    if answer == -1 then forall i: nat :: i < 30000 ==> !Matches(i, part)
    else 0 <= answer < 30000 && Matches(answer, part) && forall i: nat :: i < answer ==> !Matches(i, part)
  }

  // No two epochs that a scan tries share the first word of their seeds.
  ghost predicate DistinctParts() {
    forall i: nat, j: nat :: i < 30000 && j < 30000 && EpochSeed(i)[0] == EpochSeed(j)[0] ==> i == j
  }

  /** The thread-local memory of find_epoch_number. */
  class EpochFinder {
    var cachedEpoch: nat
    var cachedSeed: Hash256

    ghost predicate Valid()
      reads this
    {
      cachedSeed == EpochSeed(cachedEpoch)
    }

    constructor ()
      ensures Valid() && cachedEpoch == 0
    {
      cachedEpoch := 0;
      cachedSeed := [0, 0, 0, 0, 0, 0, 0, 0];
    }

    /** The cached epoch and its successor are tried first, then the epochs in order. A nonnegative answer
        has a matching seed and becomes the cached epoch; -1 means that none of those tried matches. */
    method FindEpochNumber(seed: Hash256) returns (r: int)
      requires Valid()
      modifies this
      ensures Valid()
      ensures r == -1 || (r >= 0 && Matches(r, seed[0]))
      ensures r >= 0 ==> cachedEpoch == r && (r == old(cachedEpoch) || r == old(cachedEpoch) + 1 || r < 30000)
      ensures r == -1 <==> (!Matches(old(cachedEpoch), seed[0]) && !Matches(old(cachedEpoch) + 1, seed[0])
        && forall i: nat :: i < 30000 ==> !Matches(i, seed[0]))
      ensures r == -1 ==> cachedEpoch == old(cachedEpoch)
      ensures !Matches(old(cachedEpoch), seed[0]) && !Matches(old(cachedEpoch) + 1, seed[0]) ==> IsScan(seed[0], r)
    {
      hide Keccak256Of;
      var part := seed[0];
      var e := cachedEpoch;
      var s := cachedSeed;
      if s[0] == part {
        return e;
      }
      s := Keccak256Bytes(s);
      if s[0] == part {
        cachedSeed := s;
        cachedEpoch := e + 1;
        return e + 1;
      }
      s := [0, 0, 0, 0, 0, 0, 0, 0];
      for i := 0 to NUM_TRIES
        invariant s == EpochSeed(i) && unchanged(this)
        invariant forall k: nat :: k < i ==> !Matches(k, part)
      {
        if s[0] == part {
          cachedSeed := s;
          cachedEpoch := i;
          return i;
        }
        s := Keccak256Bytes(s);
      }
      r := -1;
    }
  }

  /** Every call sequence: each answer below 30000 is the one of a scan, whatever was asked before. */
  method FindAll(finder: EpochFinder, seeds: seq<Hash256>) returns (answers: seq<int>)
    requires finder.Valid()
    modifies finder
    ensures finder.Valid() && |answers| == |seeds|
    ensures forall i :: 0 <= i < |seeds| && answers[i] >= 0 ==> Matches(answers[i], seeds[i][0])
    ensures forall i :: 0 <= i < |seeds| && answers[i] == -1 ==> IsScan(seeds[i][0], -1)
    ensures DistinctParts() ==>
      forall i :: 0 <= i < |seeds| && 0 <= answers[i] < 30000 ==> IsScan(seeds[i][0], answers[i])
    ensures finder.cachedEpoch <= (if old(finder.cachedEpoch) > 30000 then old(finder.cachedEpoch) else 30000) + |seeds|
  {
    hide EpochSeed, Keccak256Of;
    answers := [];
    for k := 0 to |seeds|
      invariant finder.Valid() && |answers| == k
      invariant forall i :: 0 <= i < k && answers[i] >= 0 ==> Matches(answers[i], seeds[i][0])
      invariant forall i :: 0 <= i < k && answers[i] == -1 ==> IsScan(seeds[i][0], -1)
      invariant DistinctParts() ==>
        forall i :: 0 <= i < k && 0 <= answers[i] < 30000 ==> IsScan(seeds[i][0], answers[i])
      invariant finder.cachedEpoch <= (if old(finder.cachedEpoch) > 30000 then old(finder.cachedEpoch) else 30000) + k
    {
      var r := finder.FindEpochNumber(seeds[k]);
      if DistinctParts() && 0 <= r < 30000 {
        UniqueIsScan(seeds[k][0], r);
      }
      answers := answers + [r];
    }
  }

  lemma UniqueIsScan(part: word, r: int)
    requires DistinctParts() && 0 <= r < 30000 && Matches(r, part)
    ensures IsScan(part, r)
  {
    hide EpochSeed;
    forall i: nat | i < r ensures !Matches(i, part) {
      var e, f := EpochSeed(i), EpochSeed(r);
      assert e[0] != f[0];
    }
  }
}

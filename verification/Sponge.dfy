/** The streaming Keccak hash of libethash/keccak.c against the sponge construction of section 4 of
    FIPS 202 with the padding rule pad10*1 of section 5.1, and no domain separation bits. */
module Sponge {
  import opened Arith
  import opened KeccakSpec
  import opened Keccak

  // Eight bytes as a little-endian word.
  function LoadLe(b: seq<bv8>): bv64
    requires |b| == 8
  {
    (b[0] as bv64) | ((b[1] as bv64) << 8) | ((b[2] as bv64) << 16) | ((b[3] as bv64) << 24)
    | ((b[4] as bv64) << 32) | ((b[5] as bv64) << 40) | ((b[6] as bv64) << 48)
    | ((b[7] as bv64) << 56)
  }

  function Xor(x: bv64, y: bv64): bv64 {
    x ^ y
  }

  const TOP: bv64 := 0x8000_0000_0000_0000

  // The state with a block of whole words added to its front.
  function AddBlock(state: seq<bv64>, block: seq<bv8>): (r: seq<bv64>)
    requires |state| == LANES && |block| % 8 == 0 && |block| <= 200
    ensures |r| == LANES
  {
    seq(LANES, i requires 0 <= i < LANES =>
      if 8 * i < |block| then Xor(state[i], LoadLe(block[8 * i..8 * i + 8])) else state[i])
  }

  function Absorb(state: seq<bv64>, msg: seq<bv8>, rate: nat): (r: seq<bv64>)
    requires |state| == LANES && 0 < rate <= 200 && rate % 8 == 0 && |msg| % rate == 0
    ensures |r| == LANES
    decreases |msg|
  {
    if |msg| < rate then state
    else
      ModMinus(|msg|, rate);
      Absorb(F1600(AddBlock(state, msg[..rate])), msg[rate..], rate)
  }

  // Bytes of pad10*1 for a message of m bytes: a 1 bit, zeros, and a 1 bit, least significant first.
  function Pad(m: nat, rate: nat): (p: seq<bv8>)
    requires 0 < rate
    ensures (m + |p|) % rate == 0 && 0 < |p| <= rate
  {
    var q := rate - m % rate;
    assert m + q == rate * (m / rate + 1);
    ModMultiple(rate, m / rate + 1);
    if q == 1 then [0x81] else [0x01] + seq(q - 2, _ => 0) + [0x80]
  }

  function Padded(msg: seq<bv8>, rate: nat): (r: seq<bv8>)
    requires 0 < rate
    ensures |r| % rate == 0 && |r| >= |msg|
  {
    msg + Pad(|msg|, rate)
  }

  // The bits of a byte string, least significant first (appendix B.1), and pad10*1 (section 5.1).
  function Bit(b: bv8, j: nat): bool
    requires j < 8
  {
    (b >> j) & 1 == 1
  }

  function Bits(bytes: seq<bv8>): (r: seq<bool>)
    ensures |r| == 8 * |bytes|
  {
    seq(8 * |bytes|, k requires 0 <= k < 8 * |bytes| => Bit(bytes[k / 8], k % 8))
  }

  // A bit and a byte of a lane, and a bit of a byte, at a count.
  predicate BitAt(w: bv64, n: bv8)
    requires n < 64
  {
    (w >> n) & 1 == 1
  }

  function ByteAt(w: bv64, n: bv8): bv8
    requires n < 64
  {
    ((w >> n) & 0xff) as bv8
  }

  predicate BitIn(b: bv8, n: bv8)
    requires n < 8
  {
    (b >> n) & 1 == 1
  }

  lemma LoadedBytes(b: seq<bv8>)
    requires |b| == 8
    ensures ByteAt(LoadLe(b), 0) == b[0] && ByteAt(LoadLe(b), 8) == b[1] && ByteAt(LoadLe(b), 16) == b[2]
    ensures ByteAt(LoadLe(b), 24) == b[3] && ByteAt(LoadLe(b), 32) == b[4] && ByteAt(LoadLe(b), 40) == b[5]
    ensures ByteAt(LoadLe(b), 48) == b[6] && ByteAt(LoadLe(b), 56) == b[7]
  {
  }

  lemma LoadedByte(b: seq<bv8>, k: nat)
    requires |b| == 8 && k < 8
    ensures Count(k) < 8 && ByteAt(LoadLe(b), 8 * Count(k)) == b[k]
  {
    hide LoadLe, ByteAt;
    LoadedBytes(b);
    match k
    case 0 => case 1 => case 2 => case 3 => case 4 => case 5 => case 6 => case _ =>
  }

  lemma ShiftSplits(w: bv64, a: bv8, j: bv8)
    requires a <= 56 && j < 8
    ensures BitAt(w, a + j) <==> BitIn(ByteAt(w, a), j)
  {
  }

  lemma BitByCount(b: bv8, j: nat)
    requires j < 8 && Count(j) < 8
    ensures Bit(b, j) <==> BitIn(b, Count(j))
  {
    match j
    case 0 => case 1 => case 2 => case 3 => case 4 => case 5 => case 6 => case _ =>
  }

  lemma SmallCount(j: nat)
    requires j < 8
    ensures Count(j) < 8
  {
  }

  /** A word loaded from eight bytes is the lane of their 64 bits, in the order of appendix B.1. */
  lemma LoadedBits(b: seq<bv8>, k: nat, j: nat)
    requires |b| == 8 && k < 8 && j < 8
    ensures Count(k) < 8 && Count(j) < 8
    ensures BitAt(LoadLe(b), 8 * Count(k) + Count(j)) <==> Bits(b)[8 * k + j]
  {
    hide LoadLe, Count, Bit, BitAt, ByteAt, BitIn;
    SmallCount(j);
    LoadedByte(b, k);
    ShiftSplits(LoadLe(b), 8 * Count(k), Count(j));
    BitByCount(b[k], j);
    assert Bits(b)[8 * k + j] == Bit(b[k], j);
  }

  function Pad10s1(x: nat, m: int): seq<bool>
    requires 0 < x
  {
    [true] + seq((-m - 2) % x, _ => false) + [true]
  }

  lemma PadByteBits(j: nat)
    requires j < 8
    ensures !Bit(0, j) && (Bit(0x01, j) <==> j == 0) && (Bit(0x80, j) <==> j == 7)
    ensures Bit(0x81, j) <==> j == 0 || j == 7
  {
    match j
    case 0 => case 1 => case 2 => case 3 => case 4 => case 5 => case 6 => case _ =>
  }

  // The number of zeros that pad10*1 puts between its ones.
  lemma ZeroBits(m: nat, rate: nat)
    requires 0 < rate
    ensures (-8 * m - 2) % (8 * rate) == 8 * (rate - m % rate) - 2
  {
    var p, r := m / rate, m % rate;
    assert m == rate * p + r;
    assert (8 * rate) * (-p - 1) == -8 * (rate * p) - 8 * rate;
    DivUnique(-8 * m - 2, 8 * rate, -p - 1, 8 * (rate - r) - 2);
  }

  /** The padding bytes are the standard's padding bits. */
  lemma PaddedBits(msg: seq<bv8>, rate: nat)
    requires 0 < rate
    ensures Bits(Padded(msg, rate)) == Bits(msg) + Pad10s1(8 * rate, 8 * |msg|)
  {
    ZeroBits(|msg|, rate);
    var all, bits := Padded(msg, rate), Bits(msg) + Pad10s1(8 * rate, 8 * |msg|);
    forall k | 0 <= k < 8 * |all| ensures Bits(all)[k] == bits[k] {
      hide Bit;
      PadByteBits(k % 8);
    }
  }

  function Zero(): (r: seq<bv64>)
    ensures |r| == LANES
  {
    seq(LANES, _ => 0)
  }

  // KECCAK[c](msg, d) with a digest no longer than the rate: one squeeze.
  function Hash(msg: seq<bv8>, rate: nat, words: nat): (h: seq<bv64>)
    requires 0 < rate <= 200 && rate % 8 == 0 && words <= LANES
    ensures |h| == words
  {
    Absorb(Zero(), Padded(msg, rate), rate)[..words]
  }

  // The hash of the given size in bits, with twice its size as the capacity.
  function DigestOf(bits: nat, msg: seq<bv8>): (h: seq<bv64>)
    requires bits == 256 || bits == 512
    ensures |h| == bits / 64
  {
    Hash(msg, (1600 - 2 * bits) / 8, bits / 64)
  }

  lemma PaddedTail(msg: seq<bv8>, rate: nat)
    requires 0 < rate <= |msg|
    ensures Padded(msg, rate)[..rate] == msg[..rate]
    ensures Padded(msg, rate)[rate..] == Padded(msg[rate..], rate)
  {
    ModMinus(|msg|, rate);
  }

  // The last eight bytes of a block, before and after the final 1 bit of the padding.
  lemma TopBit(b: seq<bv8>)
    requires |b| == 8 && b[7] & 0x80 == 0
    ensures LoadLe(b[7 := b[7] | 0x80]) == Xor(LoadLe(b), TOP)
  {
  }

  // The bytes of the last, partial word of a message, with the first 1 bit of the padding.
  function TailWord(tail: seq<bv8>): (w: seq<bv8>)
    requires |tail| < 8
    ensures |w| == 8
  {
    tail + [0x01] + seq(7 - |tail|, _ => 0)
  }

  lemma PaddedByte(rest: seq<bv8>, rate: nat, k: nat)
    requires |rest| < rate && k < rate
    ensures |Padded(rest, rate)| == rate
    ensures Padded(rest, rate)[k] ==
      if k < |rest| then rest[k]
      else (if k == |rest| then 0x01 else 0) | (if k == rate - 1 then 0x80 else 0)
  {
    DivUnique(|rest|, rate, 0, |rest|);
  }

  // Word i of the last block without the final 1 bit.
  function PlainWord(rest: seq<bv8>, i: nat): (w: seq<bv8>)
    ensures |w| == 8
  {
    seq(8, b requires 0 <= b < 8 =>
      var k := 8 * i + b; if k < |rest| then rest[k] else if k == |rest| then 0x01 else 0)
  }

  lemma PlainWords(rest: seq<bv8>, i: nat)
    ensures 8 * i + 8 <= |rest| ==> PlainWord(rest, i) == rest[8 * i..8 * i + 8]
    ensures 8 * i <= |rest| < 8 * i + 8 ==> PlainWord(rest, i) == TailWord(rest[8 * i..])
    ensures |rest| < 8 * i ==> LoadLe(PlainWord(rest, i)) == 0
  {
  }

  lemma PaddedBytes(rest: seq<bv8>, rate: nat, i: nat)
    requires rate % 8 == 0 && |rest| < rate && 8 * i < rate
    ensures |Padded(rest, rate)| == rate
    ensures var w := PlainWord(rest, i);
      Padded(rest, rate)[8 * i..8 * i + 8] == if 8 * i + 8 == rate then w[7 := w[7] | 0x80] else w
  {
    hide Padded;
    PaddedByte(rest, rate, 8 * i);
    var v, w := Padded(rest, rate)[8 * i..8 * i + 8], PlainWord(rest, i);
    forall b | 0 <= b < 8
      ensures v[b] == if 8 * i + 8 == rate && b == 7 then w[b] | 0x80 else w[b]
    {
      PaddedByte(rest, rate, 8 * i + b);
    }
  }

  lemma PaddedWord(rest: seq<bv8>, rate: nat, i: nat)
    requires rate % 8 == 0 && |rest| < rate && 8 * i < rate
    ensures |Padded(rest, rate)| == rate
    ensures LoadLe(Padded(rest, rate)[8 * i..8 * i + 8]) ==
      if 8 * i + 8 == rate then Xor(LoadLe(PlainWord(rest, i)), TOP) else LoadLe(PlainWord(rest, i))
  {
    hide Padded, Xor, LoadLe, PlainWord;
    PaddedBytes(rest, rate, i);
    if 8 * i + 8 == rate {
      PlainTop(rest, i);
      TopBit(PlainWord(rest, i));
    }
  }

  lemma PlainTop(rest: seq<bv8>, i: nat)
    requires |rest| < 8 * i + 8
    ensures PlainWord(rest, i)[7] & 0x80 == 0
  {
  }

  // What the streaming code does with the bytes after the last full block: n whole words, the bytes
  // that are left, and the two padding bits; a block is r words.
  function Streamed(state: seq<bv64>, rest: seq<bv8>, n: nat, r: nat): (t: seq<bv64>)
    requires |state| == LANES && n < r <= LANES && 8 * n <= |rest| < 8 * n + 8
    ensures |t| == LANES
  {
    var s := AddBlock(state, rest[..8 * n]);
    var t := s[n := Xor(s[n], LoadLe(TailWord(rest[8 * n..])))];
    t[r - 1 := Xor(t[r - 1], TOP)]
  }

  lemma XorAssociates(x: bv64, y: bv64, z: bv64)
    ensures Xor(Xor(x, y), z) == Xor(x, Xor(y, z)) && Xor(x, 0) == x
  {
  }

  lemma TailLane(state: seq<bv64>, rest: seq<bv8>, n: nat, i: nat)
    requires |state| == LANES && 8 * n <= |rest| < 8 * n + 8 && n < LANES && i < LANES
    ensures var s := AddBlock(state, rest[..8 * n]);
      s[n := Xor(s[n], LoadLe(TailWord(rest[8 * n..])))][i] == Xor(state[i], LoadLe(PlainWord(rest, i)))
  {
    hide Xor, LoadLe, PlainWord, TailWord;
    PlainWords(rest, i);
    if i < n {
      assert rest[..8 * n][8 * i..8 * i + 8] == rest[8 * i..8 * i + 8];
    }
    XorAssociates(state[i], 0, 0);
  }

  lemma StreamedLane(state: seq<bv64>, rest: seq<bv8>, n: nat, r: nat, i: nat)
    requires |state| == LANES && n < r <= LANES && 8 * n <= |rest| < 8 * n + 8 && i < r
    ensures |Padded(rest, 8 * r)| == 8 * r
    ensures Streamed(state, rest, n, r)[i] == Xor(state[i], LoadLe(Padded(rest, 8 * r)[8 * i..8 * i + 8]))
  {
    hide Xor, LoadLe, PlainWord, TailWord, AddBlock, Padded;
    TailLane(state, rest, n, i);
    PaddedWord(rest, 8 * r, i);
    if i == r - 1 {
      XorAssociates(state[i], LoadLe(PlainWord(rest, i)), TOP);
    }
  }

  /** The last block, added word by word and the two padding bits separately, is the padded block. */
  lemma LastBlock(state: seq<bv64>, rest: seq<bv8>, n: nat, r: nat)
    requires |state| == LANES && n < r <= LANES && 8 * n <= |rest| < 8 * n + 8
    ensures |Padded(rest, 8 * r)| == 8 * r
    ensures AddBlock(state, Padded(rest, 8 * r)) == Streamed(state, rest, n, r)
  {
    hide Padded, Xor, LoadLe, TailWord;
    PaddedWord(rest, 8 * r, 0);
    forall i | 0 <= i < r
      ensures AddBlock(state, Padded(rest, 8 * r))[i] == Streamed(state, rest, n, r)[i]
    {
      StreamedLane(state, rest, n, r, i);
    }
  }

  lemma {:induction false} AbsorbLast(state: seq<bv64>, msg: seq<bv8>, rate: nat)
    requires |state| == LANES && 0 < rate <= 200 && rate % 8 == 0 && |msg| == rate
    ensures |msg| % rate == 0
    ensures Absorb(state, msg, rate) == F1600(AddBlock(state, msg))
  {
    hide F1600, AddBlock;
    DivUnique(rate, rate, 1, 0);
    assert msg[..rate] == msg;
    AbsorbNone(F1600(AddBlock(state, msg)), msg[rate..], rate);
  }

  lemma AbsorbNone(state: seq<bv64>, msg: seq<bv8>, rate: nat)
    requires |state| == LANES && 0 < rate <= 200 && rate % 8 == 0 && |msg| == 0
    ensures |msg| % rate == 0 && Absorb(state, msg, rate) == state
  {
    DivUnique(0, rate, 0, 0);
  }

  method XorBlock(state: array<bv64>, data: seq<bv8>, n: nat)
    requires state.Length == LANES && n <= LANES && 8 * n <= |data|
    modifies state
    ensures state[..] == AddBlock(old(state[..]), data[..8 * n])
  {
    hide Xor, LoadLe;
    for i := 0 to n
      invariant forall k :: 0 <= k < LANES ==> (state[k] ==
        if k < i then Xor(old(state[k]), LoadLe(data[8 * k..8 * k + 8])) else old(state[k]))
    {
      state[i] := Xor(state[i], LoadLe(data[8 * i..8 * i + 8]));
    }
    forall k | 0 <= k < n ensures data[..8 * n][8 * k..8 * k + 8] == data[8 * k..8 * k + 8] { }
  }

  // Adds the whole words of data; the result is the word cursor, which stays in the rate part.
  method XorWords(state: array<bv64>, data: seq<bv8>, words: nat) returns (n: nat)
    requires state.Length == LANES && words <= LANES && |data| < 8 * words
    modifies state
    ensures n < words && 8 * n <= |data| < 8 * n + 8
    ensures state[..] == AddBlock(old(state[..]), data[..8 * n])
  {
    hide Xor, LoadLe;
    n := 0;
    var size := |data|;
    while size >= 8
      invariant 0 <= size && 8 * n + size == |data|
      invariant forall k :: 0 <= k < LANES ==> (state[k] ==
        if k < n then Xor(old(state[k]), LoadLe(data[8 * k..8 * k + 8])) else old(state[k]))
    {
      state[n] := Xor(state[n], LoadLe(data[8 * n..8 * n + 8]));
      n := n + 1;
      size := size - 8;
    }
    forall k | 0 <= k < n ensures data[..8 * n][8 * k..8 * k + 8] == data[8 * k..8 * k + 8] { }
  }

  // The bytes that do not fill a word, and the first 1 bit of the padding.
  method LastWord(data: seq<bv8>) returns (w: seq<bv8>)
    requires |data| < 8
    ensures w == TailWord(data)
  {
    var last := new bv8[8](_ => 0);
    var it, size := 0, |data|;
    while size > 0
      invariant 0 <= size && it + size == |data|
      invariant forall k :: 0 <= k < 8 ==> last[k] == if k < it then data[k] else 0
    {
      last[it] := data[it];
      it := it + 1;
      size := size - 1;
    }
    last[it] := 0x01;
    w := last[..];
    assert forall k :: 0 <= k < 8 ==> w[k] == TailWord(data)[k];
  }

  method Finish(state: array<bv64>, data: seq<bv8>, words: nat)
    requires state.Length == LANES && words <= LANES && |data| < 8 * words
    modifies state
    ensures |Padded(data, 8 * words)| == 8 * words
    ensures state[..] == F1600(AddBlock(old(state[..]), Padded(data, 8 * words)))
  {
    hide F1600, AddBlock, Padded, Xor, LoadLe, TailWord;
    ghost var before := state[..];
    var n := XorWords(state, data, words);
    var last := LastWord(data[8 * n..]);
    ghost var s := state[..];
    state[n] := Xor(state[n], LoadLe(last));
    ghost var t := state[..];
    assert t == s[n := Xor(s[n], LoadLe(last))];
    state[words - 1] := Xor(state[words - 1], TOP);
    assert state[..] == t[words - 1 := Xor(t[words - 1], TOP)];
    LastBlock(before, data, n, words);
    PermuteCpu1600(state);
  }

  /** The function keccak of libethash/keccak.c, for the two digest sizes it is used at. */
  method Digest(bits: nat, data: seq<bv8>) returns (out: seq<bv64>)
    requires bits == 256 || bits == 512
    ensures out == DigestOf(bits, data)
  {
    hide F1600, AddBlock, Padded;
    var blockSize := (1600 - bits * 2) / 8;
    var state := new bv64[LANES](_ => 0);
    var pos, size := 0, |data|;
    assert data[0..] == data && state[..] == Zero();
    while size >= blockSize
      invariant 0 <= pos && 0 <= size && pos + size == |data|
      invariant Absorb(state[..], Padded(data[pos..], blockSize), blockSize)
        == Absorb(Zero(), Padded(data, blockSize), blockSize)
    {
      ghost var rest := data[pos..];
      XorBlock(state, data[pos..], blockSize / 8);
      PermuteCpu1600(state);
      PaddedTail(rest, blockSize);
      pos := pos + blockSize;
      size := size - blockSize;
      assert rest[blockSize..] == data[pos..];
    }
    ghost var before, rest := state[..], data[pos..];
    Finish(state, data[pos..], blockSize / 8);
    AbsorbLast(before, Padded(rest, blockSize), blockSize);
    out := state[..bits / 64];
  }

  // The single block the GPU kernels permute to hash a 64-byte node: SHA3_512 and keccak_f1600.
  function NodeBlock(w: seq<bv64>): (r: seq<bv64>)
    requires |w| == 8
    ensures |r| == LANES
  {
    w + [0x8000_0000_0000_0001] + seq(16, _ => 0)
  }

  method HashNodeGpu(st: array<bv64>)
    requires st.Length == LANES
    modifies st
    ensures st[..] == F1600(NodeBlock(old(st[..8])))
  {
    for i := 8 to LANES
      invariant st[..8] == old(st[..8])
      invariant forall k :: 8 <= k < i ==> st[k] == 0
    {
      st[i] := 0;
    }
    st[8] := 0x8000_0000_0000_0001;
    assert st[..] == NodeBlock(old(st[..8]));
    PermuteGpu1600(st);
  }

  /** The kernels' one-block hash of a node is the 512-bit hash of its 64 bytes. */
  lemma NodeHash(bytes: seq<bv8>, w: seq<bv64>)
    requires |bytes| == 64 && |w| == 8
    requires forall i :: 0 <= i < 8 ==> w[i] == LoadLe(bytes[8 * i..8 * i + 8])
    ensures Hash(bytes, 72, 8) == F1600(NodeBlock(w))[..8]
  {
    hide F1600, Padded, LoadLe, Xor;
    LastBlock(Zero(), bytes, 8, 9);
    AbsorbLast(Zero(), Padded(bytes, 72), 72);
    assert Streamed(Zero(), bytes, 8, 9) == NodeBlock(w) by {
      assert bytes[..64] == bytes && bytes[64..] == [];
      PadWord();
      forall i | 0 <= i < 8 ensures Xor(0, w[i]) == w[i] { ZeroXor(w[i]); }
    }
  }

  lemma ZeroXor(x: bv64)
    ensures Xor(0, x) == x
  {
  }

  lemma PadWord()
    ensures Xor(Xor(0, LoadLe(TailWord([]))), TOP) == 0x8000_0000_0000_0001
  {
  }
}

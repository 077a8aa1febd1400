/** The Ethash dataset: items computed from the light cache, and the epoch context whose full
    dataset is filled in as it is looked up (libethash/ethash.cpp). */
module Dataset {
  import opened Words
  import opened KeccakSpec
  import opened Keccak
  import opened Sponge

  const NODE_WORDS := 16
  const PARENTS := 256  // full_dataset_item_parents

  // A 512-bit node: hash512, hash64_t.
  type Node = n: seq<word> | |n| == NODE_WORDS witness seq(NODE_WORDS, _ => 0)

  // A node as bytes and as 64-bit lanes, both little-endian, and lanes as a node.
  function ByteOf(w: word, k: nat): bv8 {
    match k
    case 0 => (w & 0xff) as bv8
    case 1 => ((w >> 8) & 0xff) as bv8
    case 2 => ((w >> 16) & 0xff) as bv8
    case _ => (w >> 24) as bv8
  }

  function BytesOf(n: Node): (b: seq<bv8>)
    ensures |b| == 64
  {
    seq(64, k requires 0 <= k < 64 => ByteOf(n[k / 4], k % 4))
  }

  function LaneOf(lo: word, hi: word): bv64 { (lo as bv64) | ((hi as bv64) << 32) }

  function LanesOf(n: Node): (l: seq<bv64>)
    ensures |l| == 8
  {
    seq(8, i requires 0 <= i < 8 => LaneOf(n[2 * i], n[2 * i + 1]))
  }

  function HalfOf(l: bv64, k: nat): word {
    if k == 0 then (l & 0xffff_ffff) as bv32 else (l >> 32) as bv32
  }

  function NodeOf(l: seq<bv64>): Node
    requires |l| == 8
  {
    seq(NODE_WORDS, k requires 0 <= k < NODE_WORDS => HalfOf(l[k / 2], k % 2))
  }

  // keccak512 of the 64 bytes of a node.
  function Keccak512(n: Node): Node {
    NodeOf(DigestOf(512, BytesOf(n)))
  }

  lemma LaneBytes(b: seq<bv8>, lo: word, hi: word)
    requires |b| == 8
    requires b[0] == ByteOf(lo, 0) && b[1] == ByteOf(lo, 1) && b[2] == ByteOf(lo, 2) && b[3] == ByteOf(lo, 3)
    requires b[4] == ByteOf(hi, 0) && b[5] == ByteOf(hi, 1) && b[6] == ByteOf(hi, 2) && b[7] == ByteOf(hi, 3)
    ensures LoadLe(b) == LaneOf(lo, hi)
  {
  }

  lemma NodeByte(n: Node, i: nat, k: nat)
    requires i < 8 && k < 8
    ensures BytesOf(n)[8 * i..8 * i + 8][k] == ByteOf(n[2 * i + k / 4], k % 4)
  {
    hide ByteOf;
    assert (8 * i + k) / 4 == 2 * i + k / 4 && (8 * i + k) % 4 == k % 4;
  }

  // The bytes of a node, read as lanes.
  lemma LaneRead(n: Node, i: nat)
    requires i < 8
    ensures LanesOf(n)[i] == LoadLe(BytesOf(n)[8 * i..8 * i + 8])
  {
    hide LoadLe, ByteOf, BytesOf, LaneOf;
    NodeByte(n, i, 0);
    NodeByte(n, i, 1);
    NodeByte(n, i, 2);
    NodeByte(n, i, 3);
    NodeByte(n, i, 4);
    NodeByte(n, i, 5);
    NodeByte(n, i, 6);
    NodeByte(n, i, 7);
    LaneBytes(BytesOf(n)[8 * i..8 * i + 8], n[2 * i], n[2 * i + 1]);
  }

  /** The hash of a node as the GPU kernels compute it, on lanes in one padded block. */
  lemma Keccak512Gpu(n: Node)
    ensures Keccak512(n) == NodeOf(F1600(NodeBlock(LanesOf(n)))[..8])
  {
    hide Hash, F1600, LoadLe, LanesOf, BytesOf;
    var b, l := BytesOf(n), LanesOf(n);
    forall i | 0 <= i < 8 ensures l[i] == LoadLe(b[8 * i..8 * i + 8]) {
      LaneRead(n, i);
    }
    NodeHash(b, l);
  }

  // fnv1 of two nodes, word by word.
  function FnvNode(u: Node, v: Node): Node {
    seq(NODE_WORDS, i requires 0 <= i < NODE_WORDS => Fnv1(u[i], v[i]))
  }

  // An index truncated to 32 bits.
  function Low(index: nat): word { (index % 0x1_0000_0000) as bv32 }

  // The start of an item, one parent mixed in, and n parents mixed in.
  function ItemStart(light: seq<Node>, index: nat): Node
    requires |light| > 0
  {
    Keccak512(Seeded(light[index % |light|], Low(index)))
  }

  // mix.word32s[0] ^= seed.
  function Seeded(n: Node, seed: word): Node { n[0 := Words.Xor(n[0], seed)] }

  function ParentOf(light: seq<Node>, seed: word, round: nat, mix: Node): (p: nat)
    requires |light| > 0
    ensures p < |light|
  {
    Index(Fnv1(seed ^ Low(round), mix[round % NODE_WORDS])) % |light|
  }

  function ItemUpdate(light: seq<Node>, seed: word, round: nat, mix: Node): Node
    requires |light| > 0
  {
    FnvNode(mix, light[ParentOf(light, seed, round, mix)])
  }

  function ItemRounds(light: seq<Node>, seed: word, n: nat, mix: Node): Node
    requires |light| > 0
    decreases n, light, seed, mix
  {
    if n == 0 then mix else ItemUpdate(light, seed, n - 1, ItemRounds(light, seed, n - 1, mix))
  }

  /** The 512-bit dataset item with a given index. */
  function Item512(light: seq<Node>, index: nat): Node
    requires |light| > 0
  {
    Keccak512(ItemRounds(light, Low(index), PARENTS, ItemStart(light, index)))
  }

  class ItemState {
    const light: seq<Node>
    const seed: word
    var mix: Node

    constructor (light: seq<Node>, index: nat)
      requires |light| > 0
      ensures this.light == light && seed == Low(index) && mix == ItemStart(light, index)
    {
      hide Keccak512, Low, Words.Xor;
      this.light := light;
      seed := Low(index);
      var start := light[index % |light|];
      mix := Keccak512(start[0 := Words.Xor(start[0], Low(index))]);
    }

    method Update(round: nat)
      requires |light| > 0
      modifies this
      ensures mix == ItemUpdate(light, seed, round, old(mix))
    {
      hide Fnv1, Low;
      var t := Fnv1(seed ^ Low(round), mix[round % NODE_WORDS]);
      var parentIndex := Index(t) % |light|;
      mix := FnvNode(mix, light[parentIndex]);
    }

    method Final() returns (n: Node)
      ensures n == Keccak512(mix)
    {
      n := Keccak512(mix);
    }
  }

  method CalculateItem512(light: seq<Node>, index: nat) returns (item: Node)
    requires |light| > 0
    ensures item == Item512(light, index)
  {
    hide Keccak512, ItemUpdate, ItemStart, Low;
    var item0 := new ItemState(light, index);
    for j := 0 to PARENTS
      invariant item0.mix == ItemRounds(light, Low(index), j, ItemStart(light, index))
    {
      item0.Update(j);
    }
    item := item0.Final();
  }

  // Four consecutive 512-bit items.
  function Item2048(light: seq<Node>, index: nat): (r: seq<word>)
    requires |light| > 0
    ensures |r| == 64
  {
    Joined(Item512(light, 4 * index), Item512(light, 4 * index + 1),
           Item512(light, 4 * index + 2), Item512(light, 4 * index + 3))
  }

  function Joined(a: Node, b: Node, c: Node, d: Node): (r: seq<word>)
    ensures |r| == 64
  {
    var x: seq<word> := a;
    x + b + c + d
  }

  /** The interleaved computation of four items at a time. */
  method CalculateItem2048(light: seq<Node>, index: nat) returns (item: seq<word>)
    requires |light| > 0
    ensures item == Item2048(light, index)
  {
    hide Keccak512, ItemUpdate, ItemStart, Low, Joined;
    var item0 := new ItemState(light, 4 * index);
    var item1 := new ItemState(light, 4 * index + 1);
    var item2 := new ItemState(light, 4 * index + 2);
    var item3 := new ItemState(light, 4 * index + 3);
    for j := 0 to PARENTS
      invariant item0.mix == ItemRounds(light, Low(4 * index), j, ItemStart(light, 4 * index))
      invariant item1.mix == ItemRounds(light, Low(4 * index + 1), j, ItemStart(light, 4 * index + 1))
      invariant item2.mix == ItemRounds(light, Low(4 * index + 2), j, ItemStart(light, 4 * index + 2))
      invariant item3.mix == ItemRounds(light, Low(4 * index + 3), j, ItemStart(light, 4 * index + 3))
    {
      item0.Update(j);
      item1.Update(j);
      item2.Update(j);
      item3.Update(j);
    }
    var a := item0.Final();
    var b := item1.Final();
    var c := item2.Final();
    var d := item3.Final();
    item := Joined(a, b, c, d);
  }

  const ITEM_WORDS := 64  // of a 2048-bit item
  const L1_WORDS := 4096
  const L1_ITEMS := 64

  // The first 16 KiB of the dataset.
  ghost function L1(light: seq<Node>): (r: seq<word>)
    requires |light| > 0
    ensures |r| == L1_WORDS
  {
    seq(L1_WORDS, k requires 0 <= k < L1_WORDS => Item2048(light, k / ITEM_WORDS)[k % ITEM_WORDS])
  }

  // The words with one item stored in them.
  ghost predicate Replaced(before: seq<word>, after: seq<word>, index: nat, item: seq<word>) {
    && |item| == ITEM_WORDS && |after| == |before| && ITEM_WORDS * index + ITEM_WORDS <= |before|
    && forall k :: 0 <= k < |before| ==> (after[k] ==
      if ITEM_WORDS * index <= k < ITEM_WORDS * index + ITEM_WORDS then item[k - ITEM_WORDS * index] else before[k])
  }

  lemma ItemReplaced(before: seq<word>, after: seq<word>, index: nat, item: seq<word>)
    requires Replaced(before, after, index, item)
    ensures after[ITEM_WORDS * index..ITEM_WORDS * index + ITEM_WORDS] == item
  {
  }

  lemma OthersStay(before: seq<word>, after: seq<word>, index: nat, item: seq<word>, i: nat)
    requires Replaced(before, after, index, item) && i != index && ITEM_WORDS * i + ITEM_WORDS <= |before|
    ensures after[ITEM_WORDS * i..ITEM_WORDS * i + ITEM_WORDS] == before[ITEM_WORDS * i..ITEM_WORDS * i + ITEM_WORDS]
  {
  }

  lemma L1Stays(light: seq<Node>, before: seq<word>, after: seq<word>, index: nat)
    requires |light| > 0 && |before| >= L1_WORDS && before[..L1_WORDS] == L1(light)
    requires Replaced(before, after, index, Item2048(light, index))
    ensures after[..L1_WORDS] == before[..L1_WORDS]
  {
    hide Item2048, L1;
    if index < L1_ITEMS {
      L1Item(light, before, index);
    }
    forall k | 0 <= k < L1_WORDS ensures after[k] == before[k] {
      if ITEM_WORDS * index <= k < ITEM_WORDS * index + ITEM_WORDS {
        assert before[k] == before[ITEM_WORDS * index..ITEM_WORDS * index + ITEM_WORDS][k - ITEM_WORDS * index];
      }
    }
  }

  lemma L1Item(light: seq<Node>, data: seq<word>, i: nat)
    requires |light| > 0 && |data| >= L1_WORDS && data[..L1_WORDS] == L1(light) && i < L1_ITEMS
    ensures data[ITEM_WORDS * i..ITEM_WORDS * i + ITEM_WORDS] == Item2048(light, i)
  {
    hide Item2048;
    var item := Item2048(light, i);
    forall j | 0 <= j < ITEM_WORDS ensures data[ITEM_WORDS * i + j] == item[j] {
      assert data[ITEM_WORDS * i + j] == L1(light)[ITEM_WORDS * i + j];
    }
  }

  /** epoch_context and epoch_context_full. The words of the L1 cache are the front of the dataset:
      a light context holds nothing else, and a full one holds the dataset in the same memory. */
  class EpochContext {
    const light: seq<Node>
    const numItems: nat  // full_dataset_num_items, in items of 1024 bits
    const full: bool
    const data: array<word>

    // Item i of 2048 bits, as stored.
    function Stored(i: nat): seq<word>
      requires ITEM_WORDS * i + ITEM_WORDS <= data.Length
      reads data
    {
      data[ITEM_WORDS * i..ITEM_WORDS * i + ITEM_WORDS]
    }

    // The test of the lookup: the first 64-bit word of an item not computed yet is zero.
    predicate Computed(i: nat)
      requires ITEM_WORDS * i + ITEM_WORDS <= data.Length
      reads data
    {
      !(data[ITEM_WORDS * i] == 0 && data[ITEM_WORDS * i + 1] == 0)
    }

    predicate Shape() {
      && |light| > 0 && numItems >= 2 * L1_ITEMS
      && data.Length == if full then 32 * numItems else L1_WORDS
    }

    ghost predicate Valid()
      reads data
    {
      && Shape()
      && data[..L1_WORDS] == L1(light)
      && (full ==> forall i :: 0 <= i < numItems / 2 && Computed(i) ==> Stored(i) == Item2048(light, i))
    }

    constructor (light: seq<Node>, numItems: nat, full: bool)
      requires |light| > 0 && numItems >= 2 * L1_ITEMS
      ensures Valid() && fresh(data)
      ensures this.light == light && this.numItems == numItems && this.full == full
    {
      hide Item2048;
      this.light := light;
      this.numItems := numItems;
      this.full := full;
      data := new word[if full then 32 * numItems else L1_WORDS](_ => 0);
      new;
      for i := 0 to L1_ITEMS
        invariant forall k :: 0 <= k < ITEM_WORDS * i ==> data[k] == L1(light)[k]
        invariant forall k :: ITEM_WORDS * i <= k < data.Length ==> data[k] == 0
      {
        var item := CalculateItem2048(light, i);
        Store(i, item);
        forall k | ITEM_WORDS * i <= k < ITEM_WORDS * i + ITEM_WORDS
          ensures L1(light)[k] == item[k - ITEM_WORDS * i]
        {
          assert k / ITEM_WORDS == i && k % ITEM_WORDS == k - ITEM_WORDS * i;
        }
      }
      assert data[..L1_WORDS] == L1(light);
      forall i | 0 <= i < numItems / 2 && full && Computed(i)
        ensures Stored(i) == Item2048(light, i)
      {
        L1Item(light, data[..], i);
      }
    }

    /** calculate_dataset_item_2048 for a light context, the lazy lookup for a full one. */
    method Lookup(index: nat) returns (item: seq<word>)
      requires Valid() && index < numItems / 2
      modifies data
      ensures Valid() && data[..L1_WORDS] == old(data[..L1_WORDS])
      ensures item == Item2048(light, index)
      ensures full ==> forall i :: 0 <= i < numItems / 2 && old(Computed(i)) ==> Stored(i) == old(Stored(i))
    {
      hide Item2048, L1;
      if !full {
        item := CalculateItem2048(light, index);
      } else {
        if !Computed(index) {
          item := CalculateItem2048(light, index);
          Refill(index, item);
        } else {
          item := Stored(index);
        }
      }
    }

    method Refill(index: nat, item: seq<word>)
      requires Valid() && full && index < numItems / 2 && item == Item2048(light, index)
      modifies data
      ensures Valid() && data[..L1_WORDS] == old(data[..L1_WORDS])
      ensures Stored(index) == item
      ensures forall i :: 0 <= i < numItems / 2 && i != index ==> Stored(i) == old(Stored(i))
    {
      hide Item2048, L1;
      ghost var before := data[..];
      Store(index, item);
      assert Replaced(before, data[..], index, item);
      ItemReplaced(before, data[..], index, item);
      L1Stays(light, before, data[..], index);
      forall i | 0 <= i < numItems / 2 && i != index ensures Stored(i) == before[ITEM_WORDS * i..ITEM_WORDS * i + ITEM_WORDS] {
        OthersStay(before, data[..], index, item, i);
      }
    }

    method Store(i: nat, item: seq<word>)
      requires |item| == ITEM_WORDS && ITEM_WORDS * i + ITEM_WORDS <= data.Length
      modifies data
      ensures forall k :: 0 <= k < data.Length ==> (data[k] ==
        if ITEM_WORDS * i <= k < ITEM_WORDS * i + ITEM_WORDS then item[k - ITEM_WORDS * i] else old(data[k]))
    {
      for j := 0 to ITEM_WORDS
        invariant forall k :: 0 <= k < data.Length ==> (data[k] ==
          if ITEM_WORDS * i <= k < ITEM_WORDS * i + j then item[k - ITEM_WORDS * i] else old(data[k]))
      {
        data[ITEM_WORDS * i + j] := item[j];
      }
    }
  }
}

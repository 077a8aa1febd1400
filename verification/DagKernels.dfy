/** Generation of the dataset on a GPU: the OpenCL kernel with its reciprocal division, the CUDA kernel
    whose threads work in quads, and the host loops that launch them. */
module DagKernels {
  import opened Arith
  import opened Words
  import opened Dataset
  import opened FastMod
  import K = Keccak
  import KeccakCl
  import Primes
  import Sponge

  // keccak_f1600 of the CUDA kernel, with the padding of a 64-byte message.
  method HashNode(node: Node) returns (h: Node)
    ensures h == Keccak512(node)
  {
    hide K.F1600, LaneOf, Keccak512;
    var st := new bv64[25](_ => 0);
    var lanes := LanesOf(node);
    for i := 0 to 8
      invariant st[..i] == lanes[..i]
    {
      st[i] := lanes[i];
    }
    assert st[..8] == lanes;
    Sponge.HashNodeGpu(st);
    Keccak512Gpu(node);
    h := NodeOf(st[..8]);
  }

  function Pairs(node: Node): (p: seq<KeccakCl.UInt2>)
    ensures |p| == 8
  {
    seq(8, i requires 0 <= i < 8 => KeccakCl.UInt2(node[2 * i], node[2 * i + 1]))
  }

  const PADDING := KeccakCl.UInt2(0x0000_0001, 0x8000_0000)

  // SHA3_512 of the OpenCL kernel.
  method HashNodeCl(node: Node) returns (h: Node)
    ensures h == Keccak512(node)
  {
    hide K.F1600, Keccak512, KeccakCl.Lane, HalfOf;
    var s := new KeccakCl.UInt2[25](_ => KeccakCl.UInt2(0, 0));
    var pairs := Pairs(node);
    for i := 0 to 8
      invariant s[..i] == pairs[..i]
    {
      s[i] := pairs[i];
    }
    assert s[..8] == pairs;
    for i := 8 to 25
      invariant s[..8] == pairs && forall k :: 8 <= k < i ==> s[k] == KeccakCl.UInt2(0, 0)
    {
      s[i] := KeccakCl.UInt2(0, 0);
    }
    s[8] := PADDING;
    BlockOfPairs(node, s[..]);
    KeccakCl.PermuteCl(s);
    Keccak512Gpu(node);
    h := NodeOfPairs(s[..]);
    PairsAreLanes(s[..]);
  }

  function NodeOfPairs(s: seq<KeccakCl.UInt2>): Node
    requires |s| == 25
  {
    seq(NODE_WORDS, k requires 0 <= k < NODE_WORDS => if k % 2 == 0 then s[k / 2].x else s[k / 2].y)
  }

  lemma BlockOfPairs(node: Node, s: seq<KeccakCl.UInt2>)
    requires |s| == 25 && s[..8] == Pairs(node) && s[8] == PADDING
    requires forall k :: 9 <= k < 25 ==> s[k] == KeccakCl.UInt2(0, 0)
    ensures KeccakCl.LanesOf(s) == Sponge.NodeBlock(LanesOf(node))
  {
    forall i | 0 <= i < 25 ensures KeccakCl.LanesOf(s)[i] == Sponge.NodeBlock(LanesOf(node))[i] {
      if i < 8 {
        assert s[i] == s[..8][i];
      }
    }
  }

  lemma PairsAreLanes(s: seq<KeccakCl.UInt2>)
    requires |s| == 25
    ensures NodeOfPairs(s) == NodeOf(KeccakCl.LanesOf(s)[..8])
  {
    hide KeccakCl.Lane, HalfOf;
    forall k | 0 <= k < NODE_WORDS ensures NodeOfPairs(s)[k] == NodeOf(KeccakCl.LanesOf(s)[..8])[k] {
      Halves(s[k / 2]);
    }
  }

  lemma Halves(v: KeccakCl.UInt2)
    ensures HalfOf(KeccakCl.Lane(v), 0) == v.x && HalfOf(KeccakCl.Lane(v), 1) == v.y
  {
  }

  // Items below n are in place, and the rest of the buffer is as it was.
  ghost predicate Filled(dag: seq<Node>, was: seq<Node>, light: seq<Node>, n: nat)
    requires |light| > 0
  {
    && |dag| == |was|
    && forall j :: 0 <= j < |dag| ==> (dag[j] == if j < n then Item512(light, j) else was[j])
  }

  const DATASET_PARENTS := 256  // ETHASH_DATASET_PARENTS of both kernels

  // The argument light_words of the OpenCL kernel.
  datatype Modulus = Modulus(reciprocal: nat, increment: nat, shift: nat, divisor: nat) {
    ghost predicate Valid() { 0 < divisor < FastMod.TWO32 && Works(divisor, reciprocal, increment, shift) }

    function Mod(a: nat): int
      requires a < FastMod.TWO32
    {
      FastRemainder(a, reciprocal, increment, shift, divisor)
    }
  }

  lemma ModIsMod(m: Modulus, a: nat)
    requires m.Valid() && a < FastMod.TWO32
    ensures m.Mod(a) == a % m.divisor && 0 <= a % m.divisor < m.divisor
  {
    hide FastRemainder, Exact;
  }

  /** One work item of the OpenCL kernel: the item of its node, and nothing past the end of the DAG. */
  method ClItem(node: nat, light: seq<Node>, dag: array<Node>, dagWords: nat, m: Modulus)
    requires m.Valid() && |light| == m.divisor && node < FastMod.TWO32 && dagWords <= dag.Length
    modifies dag
    ensures dag[..] == if node < dagWords then old(dag[..])[node := Item512(light, node)] else old(dag[..])
  {
    hide Keccak512, Fnv1, Low, Modulus.Valid, Modulus.Mod, FnvNode, Words.Xor;
    if node >= dagWords {
      return;
    }
    ModIsMod(m, node);
    var start := light[m.Mod(node)];
    var dagNode := HashNodeCl(start[0 := Words.Xor(start[0], Low(node))]);
    for i := 0 to DATASET_PARENTS
      invariant dagNode == ItemRounds(light, Low(node), i, ItemStart(light, node))
      modifies {}
    {
      var x := Fnv1(Low(node) ^ Low(i), dagNode[i % NODE_WORDS]);
      ModIsMod(m, Index(x));
      dagNode := FnvNode(dagNode, light[m.Mod(Index(x))]);
    }
    dagNode := HashNodeCl(dagNode);
    dag[node] := dagNode;
    assert dagNode == Item512(light, node);
    assert dag[..] == old(dag[..])[node := dagNode];
  }

  // A launch: work items start to start + count, where node indices are 32-bit.
  method ClLaunch(start: nat, count: nat, light: seq<Node>, dag: array<Node>, dagWords: nat, m: Modulus,
                  ghost was: seq<Node>) returns (ghost nodes: seq<nat>)
    requires m.Valid() && |light| == m.divisor && |light| > 0 && dagWords <= dag.Length
    requires start <= dagWords && start + count <= FastMod.TWO32 && Filled(dag[..], was, light, start)
    modifies dag
    ensures Filled(dag[..], was, light, Smaller(start + count, dagWords))
    ensures nodes == Range(start, Smaller(start + count, dagWords))
  {
    hide Item512, Modulus.Valid, Filled, Range;
    nodes := [];
    NoRange(start);
    for gid := 0 to count
      invariant Filled(dag[..], was, light, Smaller(start + gid, dagWords))
      invariant nodes == Range(start, Smaller(start + gid, dagWords))
    {
      ghost var before := dag[..];
      ClItem(start + gid, light, dag, dagWords, m);
      if start + gid < dagWords {
        FilledStep(before, was, light, start + gid);
        RangeStep(start, start + gid);
        nodes := nodes + [start + gid];
      }
    }
  }

  function Smaller(a: nat, b: nat): nat { if a < b then a else b }

  function Range(a: nat, b: nat): seq<nat>
    requires a <= b
  {
    seq(b - a, i requires 0 <= i < b - a => a + i)
  }

  lemma RangeConcat(a: nat, b: nat, c: nat)
    requires a <= b <= c
    ensures Range(a, b) + Range(b, c) == Range(a, c)
  {
  }

  // The guard of the chunk loop; the difference is taken modulo 2^32.
  predicate Continues(start: nat, workItems: nat, chunk: nat) {
    start <= (workItems - chunk) % FastMod.TWO32
  }

  /** The chunk loop goes on exactly while a whole chunk is left, unless there are fewer items than a chunk has. */
  lemma ChunkStep(start: nat, workItems: nat, chunk: nat)
    requires chunk < FastMod.TWO32 && workItems < FastMod.TWO32
    ensures chunk <= workItems ==> (Continues(start, workItems, chunk) <==> start + chunk <= workItems)
    ensures workItems < chunk ==> (Continues(start, workItems, chunk) <==> start + chunk <= workItems + FastMod.TWO32)
  {
    if chunk <= workItems {
      DivUnique(workItems - chunk, FastMod.TWO32, 0, workItems - chunk);
    } else {
      DivUnique(workItems - chunk, FastMod.TWO32, -1, workItems - chunk + FastMod.TWO32);
    }
  }

  lemma NoRange(a: nat)
    ensures Range(a, a) == []
  {
  }

  lemma RangeStep(a: nat, b: nat)
    requires a <= b
    ensures Range(a, b) + [b] == Range(a, b + 1)
  {
  }

  lemma FilledStep(dag: seq<Node>, was: seq<Node>, light: seq<Node>, n: nat)
    requires |light| > 0 && n < |dag| && Filled(dag, was, light, n)
    ensures Filled(dag[n := Item512(light, n)], was, light, n + 1)
  {
    hide Item512;
  }

  /** The launches of the OpenCL host, for every group size the miner admits and every number of items an epoch can
      have: every item is written, each by one work item, in order. */
  method GenerateDagCl(light: seq<Node>, dag: array<Node>, localWorkSize: nat) returns (ghost nodes: seq<nat>)
    requires 0 < |light| < FastMod.TWO32 && 0 < localWorkSize <= 256
    requires 2 * Primes.LEAST_ITEMS <= dag.Length && dag.Length + 256 <= FastMod.TWO32
    modifies dag
    ensures forall j :: 0 <= j < dag.Length ==> dag[j] == Item512(light, j)
    ensures nodes == Range(0, dag.Length)
  {
    hide Item512, Works, Continues, Range;
    var reciprocal, increment, shift := CalculateFastModData(|light|);
    var m := Modulus(reciprocal, increment, shift, |light|);
    var workItems := dag.Length;
    var chunk := 10000 * localWorkSize;
    ghost var was := dag[..];
    var start := 0;
    nodes := [];
    NoRange(0);
    while Continues(start, workItems, chunk)
      invariant start <= workItems
      invariant Filled(dag[..], was, light, Smaller(start, workItems))
      invariant nodes == Range(0, Smaller(start, workItems))
      decreases FastMod.TWO32 - start
    {
      ChunkStep(start, workItems, chunk);
      ghost var more := ClLaunch(start, chunk, light, dag, workItems, m, was);
      RangeConcat(0, start, Smaller(start + chunk, workItems));
      nodes := nodes + more;
      start := start + chunk;
    }
    if start < workItems {
      var groupsLeft := (workItems - start + localWorkSize - 1) / localWorkSize;
      Rounded(workItems - start, localWorkSize);
      ghost var more := ClLaunch(start, groupsLeft * localWorkSize, light, dag, workItems, m, was);
      RangeConcat(0, start, workItems);
      nodes := nodes + more;
    }
  }

  // A count rounded up to whole groups.
  lemma Rounded(n: nat, size: nat)
    requires n > 0 && size > 0
    ensures n <= (n + size - 1) / size * size < n + size
  {
    var q := (n + size - 1) / size;
    assert n + size - 1 == size * q + (n + size - 1) % size;
    assert q * size == size * q;
  }

  // Four words of a node, the uint4s of the CUDA kernel.
  type Row = r: seq<word> | |r| == 4 witness [0, 0, 0, 0]

  function RowOf(n: Node, w: nat): Row
    requires w < 4
  {
    [n[4 * w], n[4 * w + 1], n[4 * w + 2], n[4 * w + 3]]
  }

  function SetRow(n: Node, w: nat, r: Row): Node
    requires w < 4
  {
    seq(NODE_WORDS, i requires 0 <= i < NODE_WORDS => if 4 * w <= i < 4 * w + 4 then r[i - 4 * w] else n[i])
  }

  function FnvRow(a: Row, b: Row): Row {
    [Fnv1(a[0], b[0]), Fnv1(a[1], b[1]), Fnv1(a[2], b[2]), Fnv1(a[3], b[3])]
  }

  // A node with its first w rows mixed with those of a parent.
  function MixedRows(n: Node, p: Node, w: nat): Node
    requires w <= 4
  {
    seq(NODE_WORDS, i requires 0 <= i < NODE_WORDS => if i < 4 * w then Fnv1(n[i], p[i]) else n[i])
  }

  lemma MixRow(n: Node, p: Node, w: nat)
    requires w < 4
    ensures var m := MixedRows(n, p, w);
      SetRow(m, w, FnvRow(RowOf(m, w), RowOf(p, w))) == MixedRows(n, p, w + 1)
  {
    hide Fnv1;
    var m := MixedRows(n, p, w);
    var row := FnvRow(RowOf(m, w), RowOf(p, w));
    var r, want := SetRow(m, w, row), MixedRows(n, p, w + 1);
    forall i | 0 <= i < NODE_WORDS ensures r[i] == want[i] {
      if 4 * w <= i < 4 * w + 4 {
        RowWord(m, p, w, i - 4 * w);
      }
    }
  }

  lemma RowWord(m: Node, p: Node, w: nat, j: nat)
    requires w < 4 && j < 4
    ensures FnvRow(RowOf(m, w), RowOf(p, w))[j] == Fnv1(m[4 * w + j], p[4 * w + j])
  {
    hide Fnv1;
  }

  /** The exchange of parents in a quad: in pass t all threads fetch a row each of the parent of thread t,
      and thread t alone takes the four rows from them. Every thread ends with its own parent mixed in. */
  method MixQuad(light: seq<Node>, parents: seq<nat>, nodes: array<Node>)
    requires |parents| == nodes.Length == 4 && forall t :: 0 <= t < 4 ==> parents[t] < |light|
    modifies nodes
    ensures forall t :: 0 <= t < 4 ==> nodes[t] == FnvNode(old(nodes[t]), light[parents[t]])
  {
    hide Fnv1, SetRow, RowOf, FnvRow;
    for t := 0 to 4
      invariant forall k :: 0 <= k < 4 ==>
        (nodes[k] == if k < t then FnvNode(old(nodes[k]), light[parents[k]]) else old(nodes[k]))
    {
      var p := light[parents[t]];
      var fetched: seq<Row> := [RowOf(p, 0), RowOf(p, 1), RowOf(p, 2), RowOf(p, 3)];
      for w := 0 to 4
        invariant forall k :: 0 <= k < 4 && k != t ==>
          (nodes[k] == if k < t then FnvNode(old(nodes[k]), light[parents[k]]) else old(nodes[k]))
        invariant nodes[t] == MixedRows(old(nodes[t]), p, w)
      {
        MixRow(old(nodes[t]), p, w);
        nodes[t] := SetRow(nodes[t], w, FnvRow(RowOf(nodes[t], w), fetched[w]));
      }
    }
  }

  // The four nodes from base on.
  ghost predicate QuadHolds(nodes: seq<Node>, light: seq<Node>, base: nat, n: nat)
    requires |nodes| == 4 && |light| > 0
  {
    forall t :: 0 <= t < 4 ==> nodes[t] == ItemRounds(light, Low(base + t), n, ItemStart(light, base + t))
  }

  /** The nodes of one quad. */
  method QuadItems(base: nat, light: seq<Node>) returns (nodes: array<Node>)
    requires |light| > 0
    ensures fresh(nodes) && nodes.Length == 4 && forall t :: 0 <= t < 4 ==> nodes[t] == Item512(light, base + t)
  {
    hide Keccak512, Fnv1, Low, FnvNode, Seeded;
    nodes := StartQuad(base, light);
    for i := 0 to DATASET_PARENTS
      invariant QuadHolds(nodes[..], light, base, i)
    {
      var parents := ParentsOf(light, base, i, nodes[..]);
      MixQuad(light, parents, nodes);
    }
    FinishQuad(nodes);
  }

  method StartQuad(base: nat, light: seq<Node>) returns (nodes: array<Node>)
    requires |light| > 0
    ensures fresh(nodes) && nodes.Length == 4 && QuadHolds(nodes[..], light, base, 0)
  {
    hide Keccak512, Low, Words.Xor;
    nodes := new Node[4](_ => seq(NODE_WORDS, _ => 0));
    for t := 0 to 4
      invariant forall k :: 0 <= k < t ==> nodes[k] == ItemStart(light, base + k)
    {
      var start := light[(base + t) % |light|];
      var h := HashNode(start[0 := Words.Xor(start[0], Low(base + t))]);
      nodes[t] := h;
    }
  }

  method FinishQuad(nodes: array<Node>)
    requires nodes.Length == 4
    modifies nodes
    ensures forall t :: 0 <= t < 4 ==> nodes[t] == Keccak512(old(nodes[t]))
  {
    hide Keccak512;
    for t := 0 to 4
      invariant forall k :: 0 <= k < 4 ==> (nodes[k] == if k < t then Keccak512(old(nodes[k])) else old(nodes[k]))
    {
      var h := HashNode(nodes[t]);
      nodes[t] := h;
    }
  }

  function ParentsOf(light: seq<Node>, base: nat, i: nat, nodes: seq<Node>): (p: seq<nat>)
    requires |light| > 0 && |nodes| == 4
    ensures |p| == 4 && forall t :: 0 <= t < 4 ==> p[t] < |light|
  {
    seq(4, t requires 0 <= t < 4 => ParentOf(light, Low(base + t), i, nodes[t]))
  }

  /** The stores of a quad: in pass t the threads write the four rows of node t, if it is in the DAG. */
  method WriteQuad(base: nat, nodes: array<Node>, dag: array<Node>)
    requires nodes.Length == 4 && nodes != dag
    modifies dag
    ensures forall j :: 0 <= j < dag.Length ==>
      (dag[j] == if base <= j < base + 4 then nodes[j - base] else old(dag[j]))
  {
    for t := 0 to 4
      invariant forall j :: 0 <= j < dag.Length ==>
        (dag[j] == if base <= j < base + t then nodes[j - base] else old(dag[j]))
    {
      if base + t < dag.Length {
        WriteNode(base + t, nodes[t], dag);
      }
    }
  }

  method WriteNode(j: nat, n: Node, dag: array<Node>)
    requires j < dag.Length
    modifies dag
    ensures dag[..] == old(dag[..])[j := n]
  {
    hide SetRow, RowOf;
    for thread := 0 to 4
      invariant dag[..] == old(dag[..])[j := dag[j]]
      invariant forall i :: 0 <= i < 4 * thread ==> dag[j][i] == n[i]
    {
      SetsRow(dag[j], thread, n);
      dag[j] := SetRow(dag[j], thread, RowOf(n, thread));
    }
    assert dag[j] == n;
  }

  lemma SetsRow(m: Node, w: nat, n: Node)
    requires w < 4
    ensures forall i :: 0 <= i < NODE_WORDS ==>
      (SetRow(m, w, RowOf(n, w))[i] == if 4 * w <= i < 4 * w + 4 then n[i] else m[i])
  {
  }

  /** One launch of the CUDA kernel, quad by quad. */
  method CudaLaunch(start: nat, count: nat, light: seq<Node>, dag: array<Node>, ghost was: seq<Node>)
    returns (ghost nodes: seq<nat>)
    requires |light| > 0 && start % 4 == 0 && count % 4 == 0 && start <= dag.Length
    requires Filled(dag[..], was, light, start)
    modifies dag
    ensures Filled(dag[..], was, light, Smaller(start + count, dag.Length))
    ensures nodes == Range(start, Smaller(start + count, dag.Length))
  {
    hide Item512, Range;
    nodes := [];
    NoRange(start);
    var rounded := (dag.Length + 3) / 4 * 4;
    for q := 0 to count / 4
      invariant Filled(dag[..], was, light, Smaller(start + 4 * q, dag.Length))
      invariant nodes == Range(start, Smaller(start + 4 * q, dag.Length))
    {
      var base := start + 4 * q;
      if base < rounded {
        var quad := QuadItems(base, light);
        WriteQuad(base, quad, dag);
        RangeConcat(start, base, Smaller(base + 4, dag.Length));
        nodes := nodes + Range(base, Smaller(base + 4, dag.Length));
      }
    }
  }

  /** The launches of the CUDA host: every item is written, each by one quad, in order. */
  method GenerateDagCuda(light: seq<Node>, dag: array<Node>, blocks: nat, threads: nat) returns (ghost nodes: seq<nat>)
    requires |light| > 0 && 0 < blocks && 0 < threads && threads % 4 == 0 && blocks * threads < FastMod.TWO32
    requires dag.Length < FastMod.TWO32
    modifies dag
    ensures forall j :: 0 <= j < dag.Length ==> dag[j] == Item512(light, j)
    ensures nodes == Range(0, dag.Length)
  {
    hide Item512, Range;
    var work := dag.Length;
    var size := blocks * threads;
    WholeQuads(blocks, threads);
    var fullRuns := work / size;
    var restWork := work % size;
    if restWork > 0 {
      fullRuns := fullRuns + 1;
    }
    Runs(work, size, fullRuns);
    ghost var was := dag[..];
    nodes := [];
    NoRange(0);
    for i := 0 to fullRuns
      invariant Filled(dag[..], was, light, Smaller(i * size, work))
      invariant nodes == Range(0, Smaller(i * size, work))
    {
      RunStart(work, size, fullRuns, i);
      ghost var more := CudaLaunch(i * size, size, light, dag, was);
      RangeConcat(0, i * size, Smaller(i * size + size, work));
      nodes := nodes + more;
    }
  }

  lemma WholeQuads(blocks: nat, threads: nat)
    requires blocks > 0 && threads > 0 && threads % 4 == 0
    ensures blocks * threads > 0 && blocks * threads % 4 == 0
  {
    assert blocks * threads == 4 * (blocks * (threads / 4));
    MulLe(threads, 1, blocks);
  }

  // The number of runs rounds work / size up.
  lemma Runs(work: nat, size: nat, runs: nat)
    requires size > 0 && runs == work / size + (if work % size > 0 then 1 else 0)
    ensures runs * size >= work
  {
    assert work == size * (work / size) + work % size;
    assert (work / size + 1) * size == size * (work / size) + size;
    assert work / size * size == size * (work / size);
  }

  lemma RunStart(work: nat, size: nat, runs: nat, i: nat)
    requires size > 0 && size % 4 == 0 && runs == work / size + (if work % size > 0 then 1 else 0) && i < runs
    ensures 0 <= i * size <= work && i * size % 4 == 0 && (i + 1) * size == i * size + size
  {
    assert i * size == 4 * (i * (size / 4));
    MulLe(size, i, work / size);
    assert work == size * (work / size) + work % size;
  }
}

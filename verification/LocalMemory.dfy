/** The end of a hash in a work group of several groups of lanes. The words through which the groups pass their
    addresses are those in which group 0 collects its lane hashes, and between the barrier of the last loop and the
    next one every group still reads its address and then writes its hashes, at its own pace. */
module LocalMemory {
  import opened Words
  import opened Program

  datatype Access = ReadAddress(group: nat) | WriteHashes(group: nat)

  // share[0].uint32s, and the addresses read from it. The hashes of the other groups go to words of their own.
  datatype Memory = Memory(words: seq<word>, read: map<nat, word>)

  function Do(m: Memory, hashes: seq<word>, a: Access): Memory {
    match a
    case ReadAddress(g) => if g < |m.words| then m.(read := m.read[g := m.words[g]]) else m
    case WriteHashes(g) => if g == 0 then m.(words := hashes) else m
  }

  function After(addresses: seq<word>, hashes: seq<word>, order: seq<Access>): Memory
    decreases |order|
  {
    if |order| == 0 then Memory(addresses, map[])
    else Do(After(addresses, hashes, order[..|order| - 1]), hashes, order[|order| - 1])
  }

  // Each group reads its address once, and before it writes.
  ghost predicate InProgramOrder(order: seq<Access>) {
    forall i, j :: 0 <= i < j < |order| && order[j].ReadAddress? ==>
      order[i] != order[j] && order[i] != WriteHashes(order[j].group)
  }

  lemma {:induction false} WordsAfter(addresses: seq<word>, hashes: seq<word>, order: seq<Access>)
    ensures After(addresses, hashes, order).words == if WriteHashes(0) in order then hashes else addresses
  {
    if |order| > 0 {
      var before, a := order[..|order| - 1], order[|order| - 1];
      WordsAfter(addresses, hashes, before);
      assert order == before + [a];
    }
  }

  /** What a group takes for its address: its own, or the hash of a lane of group 0 if that was written first. */
  lemma {:induction false} AddressRead(addresses: seq<word>, hashes: seq<word>, order: seq<Access>, g: nat, i: nat)
    requires |addresses| == |hashes| == LANES && g < LANES && InProgramOrder(order)
    requires i < |order| && order[i] == ReadAddress(g)
    ensures var read := After(addresses, hashes, order).read;
      g in read && read[g] == if WriteHashes(0) in order[..i] then hashes[g] else addresses[g]
  {
    var n := |order| - 1;
    var before := order[..n];
    WordsAfter(addresses, hashes, before);
    if i < n {
      assert before[..i] == order[..i];
      AddressRead(addresses, hashes, before, g, i);
    }
  }

  /** In an order of accesses a group gets its own address whatever the values are exactly if group 0 has not written
      its hashes by then; in every order group 0 does. */
  lemma AddressSurvives(order: seq<Access>, g: nat, i: nat)
    requires g < LANES && InProgramOrder(order) && i < |order| && order[i] == ReadAddress(g)
    ensures (forall addresses: seq<word>, hashes: seq<word> :: |addresses| == |hashes| == LANES ==>
               g in After(addresses, hashes, order).read && After(addresses, hashes, order).read[g] == addresses[g])
      <==> WriteHashes(0) !in order[..i]
    ensures g == 0 ==> WriteHashes(0) !in order[..i]
  {
    forall addresses: seq<word>, hashes: seq<word> | |addresses| == |hashes| == LANES
      ensures g in After(addresses, hashes, order).read
      ensures WriteHashes(0) !in order[..i] ==> After(addresses, hashes, order).read[g] == addresses[g]
    {
      AddressRead(addresses, hashes, order, g, i);
    }
    if WriteHashes(0) in order[..i] {
      var addresses, hashes: seq<word> := seq(LANES, _ => 0), seq(LANES, _ => 1);
      AddressRead(addresses, hashes, order, g, i);
      assert After(addresses, hashes, order).read[g] == 1;
    }
  }

  /** Two groups in two wavefronts: group 0 finishes the hash before group 1 has taken its address. */
  lemma AddressLost(addresses: seq<word>, hashes: seq<word>)
    requires |addresses| == |hashes| == LANES && addresses[1] != hashes[1]
    ensures var order := [ReadAddress(0), WriteHashes(0), ReadAddress(1), WriteHashes(1)];
      InProgramOrder(order) && 1 in After(addresses, hashes, order).read
      && After(addresses, hashes, order).read[1] != addresses[1]
  {
    var order := [ReadAddress(0), WriteHashes(0), ReadAddress(1), WriteHashes(1)];
    assert order[..2][1] == WriteHashes(0);
    AddressRead(addresses, hashes, order, 1, 2);
  }

  /** The accesses of a whole work group between the two barriers, and what group 0 writes. */
  datatype Ending = Ending(order: seq<Access>, hashes: seq<word>) {
    ghost predicate Valid(groups: nat) {
      && |hashes| == LANES && InProgramOrder(order)
      && forall g: nat :: g < groups ==> ReadAddress(g) in order
    }

    // Group 0 has written its hashes before the group reads.
    ghost predicate Overwrites(g: nat) {
      exists i :: 0 <= i < |order| && order[i] == ReadAddress(g) && WriteHashes(0) in order[..i]
    }

    // What the group takes for its address.
    ghost function Taken(g: nat, own: word): word {
      if g < |hashes| && Overwrites(g) then hashes[g] else own
    }
  }

  lemma Group0IsSafe(e: Ending, groups: nat)
    requires e.Valid(groups)
    ensures !e.Overwrites(0)
  {
  }

  /** The accesses on the shared words, as one group sees them. */
  method ReadThrough(e: Ending, addresses: array<word>, g: nat) returns (address: word)
    requires addresses.Length == LANES && g < LANES && e.Valid(g + 1)
    modifies addresses
    ensures address == e.Taken(g, old(addresses[g]))
  {
    ghost var own := addresses[..];
    address := addresses[g];
    for i := 0 to |e.order|
      invariant addresses[..] == After(own, e.hashes, e.order[..i]).words
      invariant g in After(own, e.hashes, e.order[..i]).read ==> address == After(own, e.hashes, e.order[..i]).read[g]
    {
      assert e.order[..i + 1][..i] == e.order[..i];
      match e.order[i]
      case ReadAddress(k) =>
        if k == g {
          address := addresses[g];
        }
      case WriteHashes(k) =>
        if k == 0 {
          for j := 0 to LANES
            invariant addresses[..j] == e.hashes[..j]
            invariant addresses[j..] == After(own, e.hashes, e.order[..i]).words[j..]
          {
            addresses[j] := e.hashes[j];
          }
        }
    }
    assert e.order[..|e.order|] == e.order;
    ghost var i :| 0 <= i < |e.order| && e.order[i] == ReadAddress(g);
    AddressRead(own, e.hashes, e.order, g, i);
  }
}

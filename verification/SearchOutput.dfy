/** The output buffer of the search kernel: how the work items of a launch, in whatever order the device runs their
    groups, share its slots, its counter and its abort flag. */
module SearchOutput {
  import opened Program
  import opened ProgPowHash

  const MAX_OUTPUTS := 15  // c_maxSearchResults

  datatype Hit = Hit(gid: nat, mix: Hash256)

  /** What a launch does to the buffer, step by step: a group of lanes begins, a work item comes to its test, or the
      host sets the abort flag. */
  datatype Event = Begin(group: nat) | Test(gid: nat) | Kick

  // The counter, the flag, the slots taken, and the work items that have begun and not come to their test.
  datatype Output = Output(count: nat, abort: bool, rslt: seq<Hit>, live: set<nat>)

  const CLEAR := Output(0, false, [], {})

  function Group(gid: nat): nat { gid / LANES }

  function Items(group: nat): set<nat> {
    set gid: nat | gid < LANES * group + LANES && Group(gid) == group
  }

  // The kernel's test on the results of all work items of a launch.
  predicate Passes(rs: seq<Result>, target: int, gid: nat) { gid < |rs| && Top64(rs[gid].final) as int <= target }

  function Step(rs: seq<Result>, target: int, k: Output, e: Event): Output {
    match e
    case Begin(g) => if k.abort then k else k.(live := k.live + Items(g))
    case Test(gid) =>
      if gid !in k.live then k
      else if !Passes(rs, target, gid) then k.(live := k.live - {gid})
      else
        Output(k.count + 1, true, if k.count < MAX_OUTPUTS then k.rslt + [Hit(gid, rs[gid].mix)] else k.rslt,
               k.live - {gid})
    case Kick => k.(abort := true)
  }

  function Run(rs: seq<Result>, target: int, events: seq<Event>): Output
    decreases |events|
  {
    if |events| == 0 then CLEAR
    else Step(rs, target, Run(rs, target, events[..|events| - 1]), events[|events| - 1])
  }

  // The hits in the order in which their work items come to the test.
  function Arrivals(rs: seq<Result>, target: int, events: seq<Event>): seq<Hit>
    decreases |events|
  {
    if |events| == 0 then []
    else
      var before, e := events[..|events| - 1], events[|events| - 1];
      Arrivals(rs, target, before)
      + (if e.Test? && e.gid in Run(rs, target, before).live && Passes(rs, target, e.gid)
         then [Hit(e.gid, rs[e.gid].mix)] else [])
  }

  // What fits in the slots.
  function First(a: seq<Hit>): seq<Hit> { if |a| <= MAX_OUTPUTS then a else a[..MAX_OUTPUTS] }

  lemma FirstAppend(a: seq<Hit>, h: Hit)
    ensures First(a + [h]) == if |a| < MAX_OUTPUTS then First(a) + [h] else First(a)
  {
    assert |a| >= MAX_OUTPUTS ==> (a + [h])[..MAX_OUTPUTS] == a[..MAX_OUTPUTS];
  }

  /** In every order of events, the counter counts the arrivals, the slots hold the first fifteen of them, and the
      flag is up exactly after an arrival or a kick. */
  lemma {:induction false} SlotsHoldFirst(rs: seq<Result>, target: int, events: seq<Event>)
    ensures var k, a := Run(rs, target, events), Arrivals(rs, target, events);
      k.count == |a| && k.rslt == First(a) && (k.abort <==> |a| > 0 || Kick in events)
  {
    hide Top64, Items;
    if |events| > 0 {
      var before, e := events[..|events| - 1], events[|events| - 1];
      SlotsHoldFirst(rs, target, before);
      assert events == before + [e];
      assert Kick in events <==> Kick in before || e == Kick;
      if e.Test? && e.gid in Run(rs, target, before).live && Passes(rs, target, e.gid) {
        FirstAppend(Arrivals(rs, target, before), Hit(e.gid, rs[e.gid].mix));
      }
    }
  }

  // The first beginning of a group, and the first test of a work item after it.
  function BeganAt(events: seq<Event>, g: nat): (i: int)
    ensures -1 <= i < |events| && (i >= 0 ==> events[i] == Begin(g))
    ensures i >= 0 <==> Begin(g) in events
  {
    if |events| == 0 then -1
    else
      var n := |events| - 1;
      assert events == events[..n] + [events[n]];
      var i := BeganAt(events[..n], g);
      if i >= 0 then i else if events[n] == Begin(g) then n else -1
  }

  function TestedAt(events: seq<Event>, gid: nat): (i: int)
    ensures -1 <= i < |events| && (i >= 0 ==> events[i] == Test(gid))
  {
    if |events| == 0 then -1
    else
      var n := |events| - 1;
      var i := TestedAt(events[..n], gid);
      if i >= 0 then i else if events[n] == Test(gid) && BeganAt(events[..n], Group(gid)) >= 0 then n else -1
  }

  // No group begins twice.
  ghost predicate Scheduled(events: seq<Event>) {
    forall i, j :: 0 <= i < j < |events| && events[i].Begin? ==> events[i] != events[j]
  }

  // The group of the work item began with the flag up.
  predicate TurnedAway(rs: seq<Result>, target: int, events: seq<Event>, gid: nat) {
    BeganAt(events, Group(gid)) >= 0 && Run(rs, target, events[..BeganAt(events, Group(gid))]).abort
  }

  predicate Tested(rs: seq<Result>, target: int, events: seq<Event>, gid: nat) {
    !TurnedAway(rs, target, events, gid) && TestedAt(events, gid) >= 0
  }

  // How many hits arrived before the work item came to its test.
  function Slot(rs: seq<Result>, target: int, events: seq<Event>, gid: nat): nat
    requires TestedAt(events, gid) >= 0
  {
    |Arrivals(rs, target, events[..TestedAt(events, gid)])|
  }

  // Where a work item stands: it hashes from the beginning of its group until its test, and a hit is in its slot.
  ghost predicate Stands(rs: seq<Result>, target: int, events: seq<Event>, gid: nat) {
    var k, a := Run(rs, target, events), Arrivals(rs, target, events);
    && (gid in k.live <==> BeganAt(events, Group(gid)) >= 0 && !TurnedAway(rs, target, events, gid)
                           && TestedAt(events, gid) < 0)
    && (Tested(rs, target, events, gid) && Passes(rs, target, gid) ==>
          Slot(rs, target, events, gid) < |a| && a[Slot(rs, target, events, gid)] == Hit(gid, rs[gid].mix))
    && (forall i :: 0 <= i < |a| && a[i].gid == gid ==>
          Tested(rs, target, events, gid) && Passes(rs, target, gid) && i == Slot(rs, target, events, gid))
  }

  lemma {:induction false} StartsFirst(events: seq<Event>, gid: nat)
    ensures TestedAt(events, gid) >= 0 ==> 0 <= BeganAt(events, Group(gid)) < TestedAt(events, gid)
  {
    if |events| > 0 {
      StartsFirst(events[..|events| - 1], gid);
    }
  }

  // A later event moves neither a beginning nor a test that has been.
  lemma Lasts(rs: seq<Result>, target: int, before: seq<Event>, e: Event, gid: nat)
    ensures var events := before + [e];
      && (BeganAt(before, Group(gid)) >= 0 ==>
            BeganAt(events, Group(gid)) == BeganAt(before, Group(gid))
            && (TurnedAway(rs, target, events, gid) <==> TurnedAway(rs, target, before, gid)))
      && (TestedAt(before, gid) >= 0 ==>
            TestedAt(events, gid) == TestedAt(before, gid)
            && Slot(rs, target, events, gid) == Slot(rs, target, before, gid))
  {
    hide Run, Arrivals;
    var events := before + [e];
    assert events[..|before|] == before;
    var i, j := BeganAt(before, Group(gid)), TestedAt(before, gid);
    assert i >= 0 ==> events[..i] == before[..i];
    assert j >= 0 ==> events[..j] == before[..j];
  }

  // One more event, on the run and on the places of a work item.
  lemma Extends(rs: seq<Result>, target: int, before: seq<Event>, e: Event, gid: nat)
    ensures var events, k := before + [e], Run(rs, target, before);
      && Run(rs, target, events) == Step(rs, target, k, e)
      && Arrivals(rs, target, events) == Arrivals(rs, target, before)
           + (if e.Test? && e.gid in k.live && Passes(rs, target, e.gid) then [Hit(e.gid, rs[e.gid].mix)] else [])
      && (BeganAt(before, Group(gid)) < 0 ==>
            (BeganAt(events, Group(gid)) == if e == Begin(Group(gid)) then |before| else -1)
            && (TurnedAway(rs, target, events, gid) <==> e == Begin(Group(gid)) && k.abort))
      && (TestedAt(before, gid) < 0 ==>
            TestedAt(events, gid) ==
              if e == Test(gid) && BeganAt(before, Group(gid)) >= 0 then |before| else -1)
  {
    hide Step, Passes;
    var events := before + [e];
    assert events[..|before|] == before;
  }

  lemma OtherEvent(rs: seq<Result>, target: int, before: seq<Event>, e: Event, gid: nat)
    requires Stands(rs, target, before, gid) && e != Begin(Group(gid)) && e != Test(gid)
    ensures Stands(rs, target, before + [e], gid)
  {
    hide Passes, Run, Arrivals, BeganAt, TestedAt, TurnedAway, Slot;
    Extends(rs, target, before, e, gid);
    Lasts(rs, target, before, e, gid);
    StartsFirst(before, gid);
  }

  lemma GroupBegins(rs: seq<Result>, target: int, before: seq<Event>, gid: nat)
    requires Stands(rs, target, before, gid) && BeganAt(before, Group(gid)) < 0
    ensures Stands(rs, target, before + [Begin(Group(gid))], gid)
  {
    hide Passes, Run, Arrivals, BeganAt, TestedAt, TurnedAway, Slot;
    Extends(rs, target, before, Begin(Group(gid)), gid);
    Lasts(rs, target, before, Begin(Group(gid)), gid);
    StartsFirst(before, gid);
  }

  lemma ItemTested(rs: seq<Result>, target: int, before: seq<Event>, gid: nat)
    requires Stands(rs, target, before, gid)
    ensures Stands(rs, target, before + [Test(gid)], gid)
  {
    hide Passes, Run, Arrivals, BeganAt, TestedAt, TurnedAway;
    var events := before + [Test(gid)];
    Extends(rs, target, before, Test(gid), gid);
    Lasts(rs, target, before, Test(gid), gid);
    StartsFirst(before, gid);
    assert events[..|before|] == before;
  }

  lemma {:induction false} ItemStands(rs: seq<Result>, target: int, events: seq<Event>, gid: nat)
    requires Scheduled(events)
    ensures Stands(rs, target, events, gid)
  {
    hide Stands;
    if |events| == 0 {
      assert Stands(rs, target, [], gid) by { NothingStands(rs, target, gid); }
    } else {
      var before, e := events[..|events| - 1], events[|events| - 1];
      ItemStands(rs, target, before, gid);
      assert events == before + [e];
      if e == Begin(Group(gid)) {
        GroupBegins(rs, target, before, gid);
      } else if e == Test(gid) {
        ItemTested(rs, target, before, gid);
      } else {
        OtherEvent(rs, target, before, e, gid);
      }
    }
  }

  lemma NothingStands(rs: seq<Result>, target: int, gid: nat)
    ensures Stands(rs, target, [], gid)
  {
  }

  // The buffer names the work item.
  ghost predicate Reported(k: Output, gid: nat) { exists i :: 0 <= i < |k.rslt| && k.rslt[i].gid == gid }

  /** A work item that passes the test goes unreported exactly if its group began with the flag up or all fifteen
      slots were taken when it came to its test. */
  lemma MissedExactly(rs: seq<Result>, target: int, events: seq<Event>, gid: nat)
    requires Scheduled(events) && Passes(rs, target, gid)
    requires TurnedAway(rs, target, events, gid) || TestedAt(events, gid) >= 0
    ensures !Reported(Run(rs, target, events), gid) <==>
      TurnedAway(rs, target, events, gid) || Run(rs, target, events[..TestedAt(events, gid)]).count >= MAX_OUTPUTS
  {
    hide Passes, Run, Arrivals, BeganAt, TestedAt, TurnedAway;
    ItemStands(rs, target, events, gid);
    SlotsHoldFirst(rs, target, events);
    var k, a := Run(rs, target, events), Arrivals(rs, target, events);
    if !TurnedAway(rs, target, events, gid) {
      SlotsHoldFirst(rs, target, events[..TestedAt(events, gid)]);
      var s := Slot(rs, target, events, gid);
      if s < MAX_OUTPUTS {
        assert k.rslt[s].gid == gid;
      } else {
        assert forall i :: 0 <= i < |k.rslt| ==> k.rslt[i] == a[i];
      }
    }
  }

  /** Every report is of a work item that passed the test, with that item's mix hash, and no item is reported twice. */
  lemma ReportsAreGenuine(rs: seq<Result>, target: int, events: seq<Event>, i: nat)
    requires Scheduled(events) && i < |Run(rs, target, events).rslt|
    ensures var h := Run(rs, target, events).rslt[i];
      && Passes(rs, target, h.gid) && h.mix == rs[h.gid].mix
      && forall j :: 0 <= j < |Run(rs, target, events).rslt| && j != i ==> Run(rs, target, events).rslt[j].gid != h.gid
  {
    hide Run, Arrivals, BeganAt, TestedAt, TurnedAway, Top64;
    SlotsHoldFirst(rs, target, events);
    var a := Arrivals(rs, target, events);
    assert forall j :: 0 <= j < |Run(rs, target, events).rslt| ==> Run(rs, target, events).rslt[j] == a[j];
    ItemStands(rs, target, events, a[i].gid);
  }

  // Every work item has been turned away or has come to its test.
  ghost predicate Through(rs: seq<Result>, target: int, events: seq<Event>) {
    forall gid: nat :: gid < |rs| ==> TurnedAway(rs, target, events, gid) || TestedAt(events, gid) >= 0
  }

  // The work items that pass the test.
  function Passing(rs: seq<Result>, target: int): set<nat> { set gid: nat | gid < |rs| && Passes(rs, target, gid) }

  // As many hits as names, if every name is that of one hit.
  lemma {:induction false} AsManyHits(a: seq<Hit>, names: set<nat>)
    requires forall i, j :: 0 <= i < j < |a| ==> a[i].gid != a[j].gid
    requires forall i :: 0 <= i < |a| ==> a[i].gid in names
    requires forall gid :: gid in names ==> exists i :: 0 <= i < |a| && a[i].gid == gid
    ensures |a| == |names|
  {
    if |a| > 0 {
      var before, last := a[..|a| - 1], a[|a| - 1].gid;
      forall gid | gid in names - {last} ensures exists i :: 0 <= i < |before| && before[i].gid == gid {
        var i :| 0 <= i < |a| && a[i].gid == gid;
        assert before[i].gid == gid;
      }
      AsManyHits(before, names - {last});
    }
  }

  // If no passing work item is turned away, the counter ends at their number.
  lemma CountsPassing(rs: seq<Result>, target: int, events: seq<Event>)
    requires Scheduled(events) && Through(rs, target, events)
    requires forall gid :: Passes(rs, target, gid) ==> !TurnedAway(rs, target, events, gid)
    ensures Run(rs, target, events).count == |Passing(rs, target)|
  {
    hide Run, Arrivals, BeganAt, TestedAt, TurnedAway, Top64;
    var a, names := Arrivals(rs, target, events), Passing(rs, target);
    SlotsHoldFirst(rs, target, events);
    forall i | 0 <= i < |a| ensures a[i].gid in names && forall j :: i < j < |a| ==> a[i].gid != a[j].gid {
      ItemStands(rs, target, events, a[i].gid);
    }
    forall gid | gid in names ensures exists i :: 0 <= i < |a| && a[i].gid == gid {
      ItemStands(rs, target, events, gid);
      assert a[Slot(rs, target, events, gid)].gid == gid;
    }
    AsManyHits(a, names);
  }

  /** A launch reports every work item that passes the test exactly if none of them was turned away and at most fifteen
      pass. */
  lemma CompleteExactly(rs: seq<Result>, target: int, events: seq<Event>)
    requires Scheduled(events) && Through(rs, target, events)
    ensures (forall gid :: Passes(rs, target, gid) ==> Reported(Run(rs, target, events), gid)) <==>
      (forall gid :: Passes(rs, target, gid) ==> !TurnedAway(rs, target, events, gid))
      && |Passing(rs, target)| <= MAX_OUTPUTS
  {
    hide Run, Arrivals, BeganAt, TestedAt, TurnedAway, Top64, Reported, Passing;
    var k, a := Run(rs, target, events), Arrivals(rs, target, events);
    SlotsHoldFirst(rs, target, events);
    forall gid | Passes(rs, target, gid)
      ensures Reported(k, gid) ==> !TurnedAway(rs, target, events, gid)
      ensures !TurnedAway(rs, target, events, gid) && k.count <= MAX_OUTPUTS ==> Reported(k, gid)
    {
      MissedExactly(rs, target, events, gid);
      ItemStands(rs, target, events, gid);
      if !TurnedAway(rs, target, events, gid) {
        SlotsHoldFirst(rs, target, events[..TestedAt(events, gid)]);
      }
    }
    if forall gid :: Passes(rs, target, gid) ==> !TurnedAway(rs, target, events, gid) {
      CountsPassing(rs, target, events);
    }
    if k.count > MAX_OUTPUTS {
      Sixteenth(rs, target, events);
    }
  }

  // The sixteenth arrival is not reported.
  lemma Sixteenth(rs: seq<Result>, target: int, events: seq<Event>)
    requires Scheduled(events) && |Arrivals(rs, target, events)| > MAX_OUTPUTS
    ensures var gid := Arrivals(rs, target, events)[MAX_OUTPUTS].gid;
      Passes(rs, target, gid) && !Reported(Run(rs, target, events), gid)
  {
    hide Run, Arrivals, BeganAt, TestedAt, TurnedAway, Passes;
    var gid := Arrivals(rs, target, events)[MAX_OUTPUTS].gid;
    ItemStands(rs, target, events, gid);
    MissedExactly(rs, target, events, gid);
    SlotsHoldFirst(rs, target, events[..TestedAt(events, gid)]);
  }

  // What has been tested in the front of a schedule has been tested there in the whole of it.
  lemma {:induction false} TestedThere(events: seq<Event>, m: nat, gid: nat)
    requires m <= |events| && TestedAt(events[..m], gid) >= 0
    ensures TestedAt(events, gid) == TestedAt(events[..m], gid)
  {
    var n := |events| - 1;
    if m <= n {
      assert events[..n][..m] == events[..m];
      TestedThere(events[..n], m, gid);
    } else {
      assert events[..m] == events;
    }
  }

  // With one passing work item and no kick, nothing has arrived before that item's test.
  lemma NoneBefore(rs: seq<Result>, target: int, events: seq<Event>, gid: nat, m: nat)
    requires Scheduled(events) && m <= |events| && Kick !in events
    requires forall other :: Passes(rs, target, other) ==> other == gid
    requires TestedAt(events[..m], gid) < 0
    ensures |Arrivals(rs, target, events[..m])| == 0 && !Run(rs, target, events[..m]).abort
  {
    hide Run, Arrivals, BeganAt, TestedAt, TurnedAway, Passes;
    var a := Arrivals(rs, target, events[..m]);
    SlotsHoldFirst(rs, target, events[..m]);
    assert Kick !in events[..m];
    if |a| > 0 {
      ItemStands(rs, target, events[..m], a[0].gid);
    }
  }

  /** A work item that alone passes the test is reported whatever the order of events, if the host does not kick. */
  lemma LoneHitIsReported(rs: seq<Result>, target: int, events: seq<Event>, gid: nat)
    requires Scheduled(events) && Through(rs, target, events) && Kick !in events && Passes(rs, target, gid)
    requires forall other :: Passes(rs, target, other) ==> other == gid
    ensures Run(rs, target, events).count == 1 && Run(rs, target, events).rslt == [Hit(gid, rs[gid].mix)]
  {
    hide Run, Arrivals, BeganAt, TestedAt, Top64;
    var s := BeganAt(events, Group(gid));
    if s >= 0 {
      if TestedAt(events[..s], gid) >= 0 {
        TestedThere(events, s, gid);
        StartsFirst(events, gid);
      }
      NoneBefore(rs, target, events, gid, s);
    }
    var f := TestedAt(events, gid);
    if TestedAt(events[..f], gid) >= 0 {
      TestedThere(events, f, gid);
    }
    NoneBefore(rs, target, events, gid, f);
    ItemStands(rs, target, events, gid);
    SlotsHoldFirst(rs, target, events);
    var a := Arrivals(rs, target, events);
    if |a| > 1 {
      ItemStands(rs, target, events, a[1].gid);
    }
  }

  // One group whose lanes come to their tests in order.
  function InOrder(n: nat): (events: seq<Event>)
    ensures |events| == n + 1
  {
    if n == 0 then [Begin(0)] else InOrder(n - 1) + [Test(n - 1)]
  }

  // n lanes of a group in which every lane passes have come to their tests, in order.
  ghost predicate Ordered(rs: seq<Result>, k: Output, n: nat)
    requires n <= LANES <= |rs|
  {
    && k.count == n && |k.rslt| == (if n <= MAX_OUTPUTS then n else MAX_OUTPUTS)
    && (forall i :: 0 <= i < |k.rslt| ==> k.rslt[i] == Hit(i, rs[i].mix))
    && (forall gid: nat :: n <= gid < LANES ==> gid in k.live)
  }

  lemma OrderedStep(rs: seq<Result>, target: int, k: Output, n: nat)
    requires n < LANES <= |rs| && Ordered(rs, k, n) && Passes(rs, target, n)
    ensures Ordered(rs, Step(rs, target, k, Test(n)), n + 1)
  {
    hide Top64;
  }

  lemma OrderedStart(rs: seq<Result>, target: int)
    requires LANES <= |rs|
    ensures Ordered(rs, Run(rs, target, InOrder(0)), 0)
  {
    hide Passes;
    assert InOrder(0)[..0] == [];
  }

  lemma {:induction false} InOrderArrives(rs: seq<Result>, target: int, n: nat)
    requires n <= LANES <= |rs| && forall gid: nat :: gid < LANES ==> Passes(rs, target, gid)
    ensures Ordered(rs, Run(rs, target, InOrder(n)), n)
  {
    hide Passes, Ordered, Step;
    if n == 0 {
      OrderedStart(rs, target);
    } else {
      InOrderArrives(rs, target, n - 1);
      assert InOrder(n)[..n] == InOrder(n - 1);
      OrderedStep(rs, target, Run(rs, target, InOrder(n - 1)), n - 1);
    }
  }

  /** Under a boundary that every hash meets, the sixteen hits of one group count sixteen, and the last is lost. */
  lemma SixteenHits(rs: seq<Result>, target: int)
    requires |rs| == LANES && target == 0xffff_ffff_ffff_ffff
    ensures Run(rs, target, InOrder(LANES)).count == 16 && |Run(rs, target, InOrder(LANES)).rslt| == MAX_OUTPUTS
    ensures !Reported(Run(rs, target, InOrder(LANES)), 15)
  {
    assert forall gid: nat :: gid < LANES ==> Passes(rs, target, gid) by { hide Top64; }
    InOrderArrives(rs, target, LANES);
  }

  /** The buffer in device memory. */
  class SearchResults {
    const rslt: array<Hit>
    var count: nat
    var abort: bool

    ghost predicate Valid() { rslt.Length == MAX_OUTPUTS }

    // The slots that have been written.
    function Taken(): seq<Hit>
      requires Valid()
      reads this, rslt
    {
      if count <= MAX_OUTPUTS then rslt[..count] else rslt[..]
    }

    ghost predicate Holds(k: Output)
      requires Valid()
      reads this, rslt
    {
      count == k.count && abort == k.abort && Taken() == k.rslt
    }

    constructor ()
      ensures Valid() && fresh(rslt) && Holds(CLEAR)
    {
      rslt := new Hit[MAX_OUTPUTS](_ => Hit(0, NO_MIX));
      count, abort := 0, false;
    }

    // The end of a work item whose hash passed.
    method Report(hit: Hit)
      requires Valid()
      modifies this`count, this`abort, rslt
      ensures count == old(count) + 1 && abort
      ensures Taken() == if old(count) < MAX_OUTPUTS then old(Taken()) + [hit] else old(Taken())
    {
      var slot := count;
      count := count + 1;
      if slot < MAX_OUTPUTS {
        rslt[slot] := hit;
      }
      abort := true;
    }
  }
}

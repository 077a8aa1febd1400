/** The work loop of the OpenCL miner: which work package, start nonce, program and dataset each launch
    uses, what the solutions that it finds are submitted with, and what ends the loop. */
module ClWorkLoop {
  import Program
  import SearchOutput
  import opened FastMod

  // A header of 0 is no work. The elements are those of the epoch's dataset, in items of 2048 bits.
  datatype Package = Package(header: nat, block: Program.Int32, epoch: int, elements: nat, startNonce: nat)

  function Period(p: Package): int { Program.Period(p.block) }

  // What a change of epoch comes to: the dataset is generated, there is no room for it and the miner is paused, or it
  // fails.
  datatype Init = Generated | Skipped | Failed

  // One turn of the loop: the package that is current for the farm, the work items that the launch
  // before it counted, and the outcome of a change of epoch. A miner that has paused itself sees no package.
  datatype Turn = Turn(next: Package, gids: seq<nat>, init: Init)

  // A compiled search kernel: the program of a period with an element count built in.
  datatype Code = NoCode | Code(period: int, elements: nat)

  datatype Dag = NoDag | Dag(epoch: int)

  // A launch: in which turn, of what work from what nonce, with which program and which dataset.
  datatype Launch = Launch(turn: nat, work: Package, start: nat, code: Code, dag: Dag)

  datatype Solution = Solution(nonce: nat, work: Package)

  // The work of a launch as it is submitted: with the start nonce of that launch.
  function Submitted(l: Launch): Package { l.work.(startNonce := l.start) }

  // The solutions for what a launch found.
  function Reported(l: Launch, gids: seq<nat>): (r: seq<Solution>)
    ensures |r| == |gids|
  {
    seq(|gids|, i requires 0 <= i < |gids| => Solution((l.start + gids[i]) % TWO64, Submitted(l)))
  }

  // The launches are of turns that there are.
  ghost predicate Timely(turns: seq<Turn>, launches: seq<Launch>) {
    forall l :: 0 <= l < |launches| ==> launches[l].turn < |turns|
  }

  // What is submitted in all: for every launch whose next turn launches again, what it found; what other
  // launches found is dropped.
  function AllReported(turns: seq<Turn>, launches: seq<Launch>, n: nat): seq<Solution>
    requires n <= |launches| && Timely(turns, launches)
  {
    if n <= 1 then []
    else
      var before := AllReported(turns, launches, n - 1);
      if launches[n - 1].turn == launches[n - 2].turn + 1
      then before + Reported(launches[n - 2], turns[launches[n - 1].turn].gids)
      else before
  }

  lemma {:induction false} ReportedOfMore(turns: seq<Turn>, launches: seq<Launch>, more: seq<Launch>, n: nat)
    requires n <= |launches| && Timely(turns, launches)
    requires Timely(turns, more)
    ensures AllReported(turns, launches + more, n) == AllReported(turns, launches, n)
  {
    if n > 1 {
      ReportedOfMore(turns, launches, more, n - 1);
    }
  }

  // A launch found the solution, and it carries the work and counts from the start nonce of that launch.
  ghost predicate FoundBy(turns: seq<Turn>, l: Launch, s: Solution) {
    && s.work == Submitted(l) && l.turn + 1 < |turns|
    && var gids := turns[l.turn + 1].gids;
      exists i :: 0 <= i < |gids| && s.nonce == (l.start + gids[i]) % TWO64
  }

  /** Whatever is submitted, some launch has found. */
  lemma {:induction false} Attributed(turns: seq<Turn>, launches: seq<Launch>, n: nat, s: Solution)
    requires n <= |launches| && Timely(turns, launches)
    requires s in AllReported(turns, launches, n)
    ensures exists l :: 0 <= l < n && FoundBy(turns, launches[l], s)
  {
    var l := launches[n - 2];
    if launches[n - 1].turn == l.turn + 1 && s in Reported(l, turns[l.turn + 1].gids) {
      var i :| 0 <= i < |turns[l.turn + 1].gids| && s == Reported(l, turns[l.turn + 1].gids)[i];
      assert FoundBy(turns, l, s);
    } else {
      Attributed(turns, launches, n - 1, s);
    }
  }

  // The variables of the loop: the kernel that is loaded and whether its arguments have been set, the one
  // compiled ahead with the period it is for, the dataset in memory, and whether the miner has paused itself.
  datatype Locals = Locals(
    current: Package, startNonce: nat, oldPeriod: int, oldEpoch: int, nextPeriod: int, ahead: Code, code: Code,
    argsSet: bool, dag: Dag, paused: bool)

  const INIT := Locals(Package(0, -1, -1, 0, 0), 0, -1, -1, 0, NoCode, NoCode, false, NoDag, false)

  datatype Outcome = Ready | Again | Stop

  // What a package does to the variables before a launch. A package with the header launched last changes
  // nothing; for another one the program, the dataset and the arguments follow, one change a turn. The driver
  // refuses a kernel without its arguments, and nothing can be set while there is no kernel or no dataset.
  function Prepared(s: Locals, next: Package, init: Init): (r: (Locals, Outcome))
    ensures r.0.current == s.current
  {
    var period := Period(next);
    if next.header == s.current.header then (s, if s.argsSet then Ready else Stop)
    else
      var a := if s.nextPeriod == 0 then s.(nextPeriod := period, ahead := Code(period, next.elements)) else s;
      if a.oldPeriod != period then
        (a.(code := if a.nextPeriod == period then a.ahead else Code(period, next.elements), argsSet := false,
            oldPeriod := period, nextPeriod := period + 1, ahead := Code(period + 1, next.elements)), Again)
      else if a.oldEpoch != next.epoch then
        match init
        case Generated => (a.(oldEpoch := next.epoch, dag := Dag(next.epoch)), Again)
        case Skipped => (a.(oldEpoch := next.epoch, paused := true), Again)
        case Failed => (a, Stop)
      else if a.code.NoCode? || a.dag.NoDag? then (a, Stop)
      else (a.(startNonce := next.startNonce, argsSet := true), Ready)
  }

  function Launched(s: Locals, next: Package, globalWorkSize: nat): Locals {
    s.(current := next.(startNonce := s.startNonce), startNonce := (s.startNonce + globalWorkSize) % TWO64)
  }

  // The loop between turns; running: a launch has filled the result buffer since it was read.
  datatype Track = Track(s: Locals, over: bool, running: bool, launches: seq<Launch>)

  const START := Track(INIT, false, false, [])

  // One turn, the t-th. A count above the number of slots makes the read of the results fail.
  function Turned(g: Track, turn: Turn, t: nat, globalWorkSize: nat): Track {
    if g.over then g
    else if g.running && |turn.gids| > SearchOutput.MAX_OUTPUTS then g.(over := true)
    else if turn.next.header == 0 || g.s.paused then g.(running := false)
    else
      var (s, outcome) := Prepared(g.s, turn.next, turn.init);
      match outcome
      case Again => g.(s := s, running := false)
      case Stop => g.(s := s, over := true)
      case Ready =>
        Track(Launched(s, turn.next, globalWorkSize), false, true,
              g.launches + [Launch(t, turn.next, s.startNonce, s.code, s.dag)])
  }

  // The first t turns.
  function Run(turns: seq<Turn>, globalWorkSize: nat, t: nat): Track
    requires t <= |turns|
  {
    if t == 0 then START else Turned(Run(turns, globalWorkSize, t - 1), turns[t - 1], t - 1, globalWorkSize)
  }

  lemma {:induction false} OverStays(turns: seq<Turn>, globalWorkSize: nat, t: nat, u: nat)
    requires t <= u <= |turns| && Run(turns, globalWorkSize, t).over
    ensures Run(turns, globalWorkSize, u) == Run(turns, globalWorkSize, t)
  {
    if t < u {
      OverStays(turns, globalWorkSize, t, u - 1);
    }
  }

  /** The handling of a package, up to the arguments of the kernel. */
  method Prepare(s: Locals, next: Package, init: Init) returns (r: Locals, outcome: Outcome)
    ensures (r, outcome) == Prepared(s, next, init)
  {
    hide Period;
    r, outcome := s, Ready;
    if s.current.header != next.header {
      var period := Period(next);
      if r.nextPeriod == 0 {
        r := r.(nextPeriod := period, ahead := Code(period, next.elements));
      }
      if r.oldPeriod != period {
        if period != r.nextPeriod {
          r := r.(nextPeriod := period, ahead := Code(period, next.elements));
        }
        r := r.(code := r.ahead, argsSet := false, oldPeriod := period);
        r := r.(nextPeriod := period + 1, ahead := Code(period + 1, next.elements));
        outcome := Again;
      } else if r.oldEpoch != next.epoch {
        if init == Failed {
          outcome := Stop;
        } else {
          r := if init == Generated then r.(dag := Dag(next.epoch)) else r.(paused := true);
          r := r.(oldEpoch := next.epoch);
          outcome := Again;
        }
      } else if r.code.NoCode? || r.dag.NoDag? {
        outcome := Stop;
      } else {
        r := r.(startNonce := next.startNonce, argsSet := true);
      }
    }
    if outcome == Ready && !r.argsSet {
      outcome := Stop;
    }
  }

  /** What the packages alone decide: whether the loop has ended or the miner has paused itself, and the last turns that
      launched, that loaded a program, whose package that program was compiled for, that asked for a dataset, and that
      generated one; -1 for none. */
  datatype Past = Past(
    over: bool, paused: bool, launchedAt: int, loadedAt: int, compiledAt: int, askedAt: int, generatedAt: int)

  const NOTHING := Past(false, false, -1, -1, -1, -1, -1)

  ghost predicate Within(p: Past, t: nat) {
    && -1 <= p.launchedAt < t && -1 <= p.loadedAt < t && -1 <= p.compiledAt < t && -1 <= p.askedAt < t
    && -1 <= p.generatedAt < t && (p.loadedAt >= 0 ==> p.compiledAt >= 0)
    && (p.launchedAt >= 0 ==> p.launchedAt != p.loadedAt)
  }

  function HeaderAt(turns: seq<Turn>, i: int): nat
    requires -1 <= i < |turns|
  {
    if i < 0 then 0 else turns[i].next.header
  }

  function PeriodAt(turns: seq<Turn>, i: int): int
    requires -1 <= i < |turns|
  {
    if i < 0 then -1 else Period(turns[i].next)
  }

  function EpochAt(turns: seq<Turn>, i: int): int
    requires -1 <= i < |turns|
  {
    if i < 0 then -1 else turns[i].next.epoch
  }

  // The turn compiled for: a successor of the loaded period has been compiled ahead, when that was loaded.
  function CompiledFor(turns: seq<Turn>, p: Past, t: nat): int
    requires t < |turns| && Within(p, t)
  {
    if p.loadedAt >= 0 && PeriodAt(turns, p.loadedAt) + 1 == Period(turns[t].next) != 0 then p.loadedAt else t
  }

  function Passed(turns: seq<Turn>, p: Past, t: nat): (q: Past)
    requires t < |turns| && Within(p, t)
    ensures Within(q, t + 1)
  {
    var next := turns[t].next;
    if p.over || (0 <= p.launchedAt == t - 1 && |turns[t].gids| > SearchOutput.MAX_OUTPUTS) then p.(over := true)
    else if next.header == 0 || p.paused then p
    else if next.header == HeaderAt(turns, p.launchedAt) then
      if p.loadedAt > p.launchedAt then p.(over := true) else p.(launchedAt := t)
    else if Period(next) != PeriodAt(turns, p.loadedAt) then p.(loadedAt := t, compiledAt := CompiledFor(turns, p, t))
    else if next.epoch != EpochAt(turns, p.askedAt) then
      match turns[t].init
      case Generated => p.(askedAt := t, generatedAt := t)
      case Skipped => p.(askedAt := t, paused := true)
      case Failed => p.(over := true)
    else if p.loadedAt < 0 || p.generatedAt < 0 then p.(over := true)
    else p.(launchedAt := t)
  }

  function Before(turns: seq<Turn>, t: nat): (p: Past)
    requires t <= |turns|
    ensures Within(p, t)
  {
    if t == 0 then NOTHING else Passed(turns, Before(turns, t - 1), t - 1)
  }

  lemma OneTurn(turns: seq<Turn>, t: nat)
    requires t < |turns|
    ensures Before(turns, t + 1) == Passed(turns, Before(turns, t), t)
  {
  }

  predicate Launches(turns: seq<Turn>, t: nat)
    requires t < |turns|
  {
    Before(turns, t + 1).launchedAt == t
  }

  // The program and the dataset of a turn.
  function CodeAt(turns: seq<Turn>, t: nat): Code
    requires t <= |turns|
  {
    var p := Before(turns, t);
    if p.loadedAt < 0 then NoCode else Code(PeriodAt(turns, p.loadedAt), turns[p.compiledAt].next.elements)
  }

  function DagAt(turns: seq<Turn>, t: nat): Dag
    requires t <= |turns|
  {
    var p := Before(turns, t);
    if p.generatedAt < 0 then NoDag else Dag(turns[p.generatedAt].next.epoch)
  }

  // The variables after t turns, told from the turns.
  ghost predicate Mirrors(turns: seq<Turn>, t: nat, s: Locals)
    requires t <= |turns|
  {
    var p := Before(turns, t);
    && s.current.header == HeaderAt(turns, p.launchedAt) && (p.launchedAt >= 0 ==> s.current.header != 0)
    && s.oldPeriod == PeriodAt(turns, p.loadedAt) && s.oldEpoch == EpochAt(turns, p.askedAt)
    && s.code == CodeAt(turns, t) && s.dag == DagAt(turns, t) && s.paused == p.paused
    && (s.argsSet <==> p.launchedAt > p.loadedAt)
    && (if s.oldPeriod >= 0
        then s.nextPeriod == s.oldPeriod + 1 && s.ahead == Code(s.nextPeriod, turns[p.loadedAt].next.elements)
        else s.oldPeriod == -1 && -1 <= s.nextPeriod <= 0)
  }

  lemma PeriodRange(p: Package)
    ensures -1 <= Period(p)
  {
  }

  // What the turns tell is the same when none of the marks has moved.
  lemma MirrorsLater(turns: seq<Turn>, t: nat, s: Locals)
    requires t < |turns| && Mirrors(turns, t, s)
    requires Before(turns, t + 1) == Before(turns, t).(over := Before(turns, t + 1).over)
    ensures Mirrors(turns, t + 1, s)
  {
    hide Before, Period;
  }

  lemma RepeatMirrors(turns: seq<Turn>, t: nat, s: Locals, globalWorkSize: nat)
    requires t < |turns| && Mirrors(turns, t, s) && s.argsSet && 0 != turns[t].next.header == s.current.header
    requires Before(turns, t + 1) == Before(turns, t).(launchedAt := t)
    ensures Mirrors(turns, t + 1, Launched(s, turns[t].next, globalWorkSize))
  {
    hide Before, Period;
  }

  lemma LoadMirrors(turns: seq<Turn>, t: nat, s: Locals, init: Init)
    requires t < |turns| && Mirrors(turns, t, s)
    requires turns[t].next.header != s.current.header && Period(turns[t].next) != s.oldPeriod
    requires Before(turns, t + 1)
      == Before(turns, t).(loadedAt := t, compiledAt := CompiledFor(turns, Before(turns, t), t))
    ensures Mirrors(turns, t + 1, Prepared(s, turns[t].next, init).0)
  {
    hide Before, Period;
    PeriodRange(turns[t].next);
  }

  lemma AskMirrors(turns: seq<Turn>, t: nat, s: Locals, init: Init)
    requires t < |turns| && Mirrors(turns, t, s) && init != Failed
    requires turns[t].next.header != s.current.header && Period(turns[t].next) == s.oldPeriod
    requires turns[t].next.epoch != s.oldEpoch
    requires Before(turns, t + 1) == Before(turns, t).(
      askedAt := t, generatedAt := if init == Generated then t else Before(turns, t).generatedAt,
      paused := init == Skipped || Before(turns, t).paused)
    ensures Mirrors(turns, t + 1, Prepared(s, turns[t].next, init).0)
  {
    hide Before, Period;
    PeriodRange(turns[t].next);
  }

  lemma ArmMirrors(turns: seq<Turn>, t: nat, s: Locals, init: Init, globalWorkSize: nat)
    requires t < |turns| && Mirrors(turns, t, s)
    requires turns[t].next.header != 0 && turns[t].next.header != s.current.header
    requires Period(turns[t].next) == s.oldPeriod && turns[t].next.epoch == s.oldEpoch
    requires !s.code.NoCode? && !s.dag.NoDag?
    requires Before(turns, t + 1) == Before(turns, t).(launchedAt := t)
    ensures Mirrors(turns, t + 1, Launched(Prepared(s, turns[t].next, init).0, turns[t].next, globalWorkSize))
  {
    hide Before, Period;
    PeriodRange(turns[t].next);
  }

  // The loop and its past go together: they end together, and launch in the same turns.
  ghost predicate Together(turns: seq<Turn>, t: nat, g: Track)
    requires t <= |turns|
  {
    var p := Before(turns, t);
    g.over == p.over && (g.over || (Mirrors(turns, t, g.s) && (g.running <==> 0 <= p.launchedAt == t - 1)))
  }

  lemma TurnMirrors(turns: seq<Turn>, t: nat, g: Track, globalWorkSize: nat)
    requires t < |turns| && Together(turns, t, g)
    ensures Together(turns, t + 1, Turned(g, turns[t], t, globalWorkSize))
  {
    hide Period, Mirrors;
    var p, q, s, next := Before(turns, t), Before(turns, t + 1), g.s, turns[t].next;
    if !g.over {
      Marks(turns, t, s);
      if next.header == 0 || s.paused {
        MirrorsLater(turns, t, s);
      } else if next.header == s.current.header {
        if s.argsSet && !q.over {
          RepeatMirrors(turns, t, s, globalWorkSize);
        }
      } else if Period(next) != s.oldPeriod {
        if !q.over {
          LoadMirrors(turns, t, s, turns[t].init);
        }
      } else if next.epoch != s.oldEpoch {
        if !q.over {
          AskMirrors(turns, t, s, turns[t].init);
        }
      } else if !q.over {
        ArmMirrors(turns, t, s, turns[t].init, globalWorkSize);
      }
    }
  }

  lemma Marks(turns: seq<Turn>, t: nat, s: Locals)
    requires t <= |turns| && Mirrors(turns, t, s)
    ensures var p := Before(turns, t);
      && s.current.header == HeaderAt(turns, p.launchedAt) && (p.launchedAt >= 0 ==> s.current.header != 0)
      && s.oldPeriod == PeriodAt(turns, p.loadedAt) && s.oldEpoch == EpochAt(turns, p.askedAt)
      && (s.argsSet <==> p.launchedAt > p.loadedAt) && s.paused == p.paused
      && (s.code.NoCode? <==> p.loadedAt < 0) && (s.dag.NoDag? <==> p.generatedAt < 0)
  {
    hide Before, Period;
  }

  lemma {:induction false} RunMirrors(turns: seq<Turn>, globalWorkSize: nat, t: nat)
    requires t <= |turns|
    ensures Together(turns, t, Run(turns, globalWorkSize, t))
  {
    hide Together, Turned;
    if t == 0 {
      assert Together(turns, 0, START) by { StartMirrors(turns); }
    } else {
      RunMirrors(turns, globalWorkSize, t - 1);
      TurnMirrors(turns, t - 1, Run(turns, globalWorkSize, t - 1), globalWorkSize);
    }
  }

  lemma StartMirrors(turns: seq<Turn>)
    ensures Together(turns, 0, START)
  {
  }

  // The turns that launch, in order.
  function LaunchTurns(turns: seq<Turn>, t: nat): seq<nat>
    requires t <= |turns|
  {
    if t == 0 then []
    else LaunchTurns(turns, t - 1) + (if Launches(turns, t - 1) then [t - 1] else [])
  }

  lemma {:induction false} InLaunchTurns(turns: seq<Turn>, t: nat, u: nat)
    requires t <= |turns|
    ensures u in LaunchTurns(turns, t) <==> u < t && Launches(turns, u)
  {
    hide Launches;
    if t > 0 {
      InLaunchTurns(turns, t - 1, u);
    }
  }

  // A launch is of its turn's package, with the program and the dataset that the turns before it have left.
  ghost predicate Told(turns: seq<Turn>, l: Launch) {
    && l.turn < |turns| && l.work == turns[l.turn].next && l.work.header != 0
    && l.code == CodeAt(turns, l.turn) && l.dag == DagAt(turns, l.turn)
  }

  ghost predicate Listed(turns: seq<Turn>, t: nat, launches: seq<Launch>)
    requires t <= |turns|
  {
    && |launches| == |LaunchTurns(turns, t)|
    && forall l :: 0 <= l < |launches| ==> launches[l].turn == LaunchTurns(turns, t)[l] && Told(turns, launches[l])
  }

  /** In every run the launches are those of the turns that launch, and each has the package of its turn, the program
      of the period loaded last with the element count of the package it was compiled for, and the dataset generated
      last. */
  lemma {:induction false} LaunchesAreTold(turns: seq<Turn>, globalWorkSize: nat, t: nat)
    requires t <= |turns|
    ensures Listed(turns, t, Run(turns, globalWorkSize, t).launches)
  {
    hide Told, Turned, Together, Launches;
    if t > 0 {
      LaunchesAreTold(turns, globalWorkSize, t - 1);
      RunMirrors(turns, globalWorkSize, t - 1);
      LaunchTold(turns, t - 1, Run(turns, globalWorkSize, t - 1), globalWorkSize);
    }
  }

  lemma LaunchTold(turns: seq<Turn>, t: nat, g: Track, globalWorkSize: nat)
    requires t < |turns| && Together(turns, t, g)
    ensures var h := Turned(g, turns[t], t, globalWorkSize);
      if Launches(turns, t) then
        |h.launches| == |g.launches| + 1 && h.launches[..|g.launches|] == g.launches
        && h.launches[|g.launches|].turn == t && Told(turns, h.launches[|g.launches|])
      else h.launches == g.launches
  {
    hide Period, Before;
    OneTurn(turns, t);
    if !g.over {
      Marks(turns, t, g.s);
      assert g.s.code == CodeAt(turns, t) && g.s.dag == DagAt(turns, t);
    }
    hide Mirrors, CodeAt, DagAt;
  }

  // A turn that launches the header launched last.
  predicate Repeats(turns: seq<Turn>, t: nat)
    requires t < |turns|
  {
    Launches(turns, t) && turns[t].next.header == HeaderAt(turns, Before(turns, t).launchedAt)
  }

  ghost predicate PeriodsFit(launches: seq<Launch>) {
    forall l :: 0 <= l < |launches| ==> launches[l].code.Code? && launches[l].code.period == Period(launches[l].work)
  }

  ghost predicate ElementsFit(launches: seq<Launch>) {
    forall l :: 0 <= l < |launches| ==> launches[l].code.Code? && launches[l].code.elements == launches[l].work.elements
  }

  ghost predicate DagsFit(launches: seq<Launch>) {
    forall l :: 0 <= l < |launches| ==> launches[l].dag == Dag(launches[l].work.epoch)
  }

  // A launching turn has a program and a dataset, and without a repeated header those of its period and epoch.
  lemma LaunchingTurn(turns: seq<Turn>, t: nat)
    requires t < |turns| && Launches(turns, t)
    ensures var p := Before(turns, t);
      && turns[t].next.header != 0 && !p.paused
      && (!Repeats(turns, t) ==>
            0 <= p.loadedAt && 0 <= p.generatedAt && PeriodAt(turns, p.loadedAt) == Period(turns[t].next)
            && EpochAt(turns, p.askedAt) == turns[t].next.epoch)
      && (Repeats(turns, t) ==> p.loadedAt < p.launchedAt && Before(turns, t + 1) == p.(launchedAt := t))
  {
    hide Period;
  }

  lemma {:induction false} LaunchedHas(turns: seq<Turn>, t: nat)
    requires t <= |turns| && Before(turns, t).launchedAt >= 0
    ensures Before(turns, t).loadedAt >= 0 && Before(turns, t).generatedAt >= 0
  {
    hide Period, Before;
    OneTurn(turns, t - 1);
    if Before(turns, t - 1).launchedAt >= 0 {
      LaunchedHas(turns, t - 1);
    }
  }

  // What a launching turn runs.
  lemma LaunchingRuns(turns: seq<Turn>, t: nat)
    requires t < |turns| && Launches(turns, t)
    ensures var p := Before(turns, t);
      && 0 <= p.loadedAt && 0 <= p.compiledAt && 0 <= p.generatedAt
      && CodeAt(turns, t) == Code(PeriodAt(turns, p.loadedAt), turns[p.compiledAt].next.elements)
      && DagAt(turns, t) == Dag(turns[p.generatedAt].next.epoch)
  {
    hide Period;
    LaunchingTurn(turns, t);
    if Repeats(turns, t) {
      LaunchedHas(turns, t);
    }
  }

  // The launches and the launching turns are the same.
  ghost predicate Launching(turns: seq<Turn>, t: nat, launches: seq<Launch>)
    requires t <= |turns|
  {
    && (forall l :: 0 <= l < |launches| ==>
          launches[l].turn < t && Launches(turns, launches[l].turn) && Told(turns, launches[l]))
    && (forall u: nat :: u < t && Launches(turns, u) ==> exists l :: 0 <= l < |launches| && launches[l].turn == u)
  }

  lemma RunLaunching(turns: seq<Turn>, globalWorkSize: nat, t: nat)
    requires t <= |turns|
    ensures Launching(turns, t, Run(turns, globalWorkSize, t).launches)
  {
    hide Run, Launches, Told;
    var launches, us := Run(turns, globalWorkSize, t).launches, LaunchTurns(turns, t);
    LaunchesAreTold(turns, globalWorkSize, t);
    forall l | 0 <= l < |launches| ensures launches[l].turn < t && Launches(turns, launches[l].turn) {
      InLaunchTurns(turns, t, us[l]);
    }
    forall u: nat | u < t && Launches(turns, u) ensures exists l :: 0 <= l < |launches| && launches[l].turn == u {
      InLaunchTurns(turns, t, u);
      var l :| 0 <= l < |us| && us[l] == u;
      assert launches[l].turn == u;
    }
  }

  /** Every launch runs the program of its own period exactly if no turn repeats the header launched last while the
      period loaded is not its own. */
  lemma PeriodsFitExactly(turns: seq<Turn>, globalWorkSize: nat, t: nat)
    requires t <= |turns|
    ensures PeriodsFit(Run(turns, globalWorkSize, t).launches) <==>
      forall u :: 0 <= u < t && Repeats(turns, u) ==>
        PeriodAt(turns, Before(turns, u).loadedAt) == Period(turns[u].next)
  {
    hide Period, Run, Before, Launches, CodeAt, DagAt;
    RunLaunching(turns, globalWorkSize, t);
    forall u: nat | u < t && Launches(turns, u)
      ensures CodeAt(turns, u).Code? && CodeAt(turns, u).period == PeriodAt(turns, Before(turns, u).loadedAt)
      ensures Repeats(turns, u) || CodeAt(turns, u).period == Period(turns[u].next)
    {
      LaunchingTurn(turns, u);
      LaunchingRuns(turns, u);
    }
  }

  /** Every launch runs a program with the element count of its own dataset exactly if no turn launches a package with
      another count than the package the loaded program was compiled for. */
  lemma ElementsFitExactly(turns: seq<Turn>, globalWorkSize: nat, t: nat)
    requires t <= |turns|
    ensures ElementsFit(Run(turns, globalWorkSize, t).launches) <==>
      forall u :: 0 <= u < t && Launches(turns, u) ==>
        0 <= Before(turns, u).compiledAt && turns[Before(turns, u).compiledAt].next.elements == turns[u].next.elements
  {
    hide Period, Run, Before, Launches, CodeAt, DagAt;
    RunLaunching(turns, globalWorkSize, t);
    forall u: nat | u < t && Launches(turns, u)
      ensures 0 <= Before(turns, u).compiledAt && CodeAt(turns, u).Code?
      ensures CodeAt(turns, u).elements == turns[Before(turns, u).compiledAt].next.elements
    {
      LaunchingRuns(turns, u);
    }
  }

  /** Every launch reads the dataset of its own epoch exactly if no turn launches a package of another epoch than the
      one generated last. */
  lemma DagsFitExactly(turns: seq<Turn>, globalWorkSize: nat, t: nat)
    requires t <= |turns|
    ensures DagsFit(Run(turns, globalWorkSize, t).launches) <==>
      forall u :: 0 <= u < t && Launches(turns, u) ==>
        0 <= Before(turns, u).generatedAt && turns[Before(turns, u).generatedAt].next.epoch == turns[u].next.epoch
  {
    hide Period, Run, Before, Launches, CodeAt, DagAt;
    RunLaunching(turns, globalWorkSize, t);
    forall u: nat | u < t && Launches(turns, u)
      ensures 0 <= Before(turns, u).generatedAt
      ensures DagAt(turns, u) == Dag(turns[Before(turns, u).generatedAt].next.epoch)
    {
      LaunchingRuns(turns, u);
    }
  }

  // The turn has work, the loop goes on, and the results of the launch before it can be read.
  predicate Served(turns: seq<Turn>, t: nat)
    requires t < |turns|
  {
    && !Before(turns, t).over && !Before(turns, t).paused && turns[t].next.header != 0
    && (0 <= Before(turns, t).launchedAt == t - 1 ==> |turns[t].gids| <= SearchOutput.MAX_OUTPUTS)
  }

  /** A package with the header launched last ends the loop exactly if a program has been loaded since that launch, for
      the arguments of the new kernel are not set; otherwise it is launched. */
  lemma RepeatEndsExactly(turns: seq<Turn>, globalWorkSize: nat, t: nat)
    requires t < |turns| && Served(turns, t) && turns[t].next.header == HeaderAt(turns, Before(turns, t).launchedAt)
    ensures Run(turns, globalWorkSize, t + 1).over <==> Before(turns, t).loadedAt > Before(turns, t).launchedAt
    ensures Run(turns, globalWorkSize, t + 1).over <==> !Launches(turns, t)
  {
    hide Period, Run;
    RunMirrors(turns, globalWorkSize, t + 1);
  }

  /** A launch that counts more hits than there are slots ends the loop, in the next turn and whatever its package. */
  lemma OverfullEnds(turns: seq<Turn>, globalWorkSize: nat, t: nat)
    requires t + 1 < |turns| && Launches(turns, t)
    ensures Run(turns, globalWorkSize, t + 2).over || |turns[t + 1].gids| <= SearchOutput.MAX_OUTPUTS
    ensures !Run(turns, globalWorkSize, t + 1).over
  {
    hide Period, Run;
    RunMirrors(turns, globalWorkSize, t + 1);
    RunMirrors(turns, globalWorkSize, t + 2);
  }

  lemma {:induction false} LaunchedThere(turns: seq<Turn>, t: nat)
    requires t <= |turns| && Before(turns, t).launchedAt >= 0
    ensures Launches(turns, Before(turns, t).launchedAt)
  {
    hide Period, Before;
    OneTurn(turns, t - 1);
    if Before(turns, t).launchedAt < t - 1 {
      LaunchedThere(turns, t - 1);
    }
  }

  // Equal headers belong to the same block, and to the same epoch.
  ghost predicate HeadersNameBlocks(turns: seq<Turn>) {
    forall i, j :: 0 <= i < |turns| && 0 <= j < |turns| && turns[i].next.header == turns[j].next.header != 0 ==>
      turns[i].next.block == turns[j].next.block
  }

  ghost predicate HeadersNameEpochs(turns: seq<Turn>) {
    forall i, j :: 0 <= i < |turns| && 0 <= j < |turns| && turns[i].next.header == turns[j].next.header != 0 ==>
      turns[i].next.epoch == turns[j].next.epoch
  }

  // If no program has been loaded since a launch, the one loaded is that launch's.
  lemma {:induction false} StillLoaded(turns: seq<Turn>, a: nat, m: nat)
    requires a < m <= |turns| && Before(turns, m).launchedAt == a && Before(turns, m).loadedAt < a
    ensures Before(turns, m).loadedAt == Before(turns, a).loadedAt
  {
    hide Period, Before;
    OneTurn(turns, m - 1);
    if a + 1 < m {
      StillLoaded(turns, a, m - 1);
    }
  }

  lemma {:induction false} LaunchFits(turns: seq<Turn>, u: nat)
    requires HeadersNameBlocks(turns) && u < |turns| && Launches(turns, u)
    ensures PeriodAt(turns, Before(turns, u).loadedAt) == Period(turns[u].next)
  {
    hide Program.Period, Before, Launches;
    LaunchingTurn(turns, u);
    if Repeats(turns, u) {
      var a := Before(turns, u).launchedAt;
      LaunchedThere(turns, u);
      StillLoaded(turns, a, u);
      LaunchFits(turns, a);
    }
  }

  /** In every run each launch uses the program of its package's period, whatever the order of the packages, if equal
      headers mean equal blocks. */
  lemma PeriodsAlwaysFit(turns: seq<Turn>, globalWorkSize: nat, t: nat)
    requires t <= |turns| && HeadersNameBlocks(turns)
    ensures PeriodsFit(Run(turns, globalWorkSize, t).launches)
  {
    hide Period, Run, Before, Launches, HeadersNameBlocks;
    PeriodsFitExactly(turns, globalWorkSize, t);
    forall u | 0 <= u < t && Repeats(turns, u)
      ensures PeriodAt(turns, Before(turns, u).loadedAt) == Period(turns[u].next)
    {
      LaunchFits(turns, u);
    }
  }

  // A dataset asked for has been generated, unless the miner has paused itself.
  lemma {:induction false} GeneratedAsAsked(turns: seq<Turn>, t: nat)
    requires t <= |turns|
    ensures Before(turns, t).paused || Before(turns, t).askedAt == Before(turns, t).generatedAt
  {
    hide Period, Before;
    if t == 0 {
      assert Before(turns, 0) == NOTHING by { NothingBefore(turns); }
    } else {
      OneTurn(turns, t - 1);
      GeneratedAsAsked(turns, t - 1);
    }
  }

  lemma NothingBefore(turns: seq<Turn>)
    ensures Before(turns, 0) == NOTHING
  {
  }

  /** A device without room for a dataset never launches again: the miner pauses itself, and only the change of epoch
      that it no longer reaches would take the pause back. */
  lemma {:induction false} SkipIsForGood(turns: seq<Turn>, globalWorkSize: nat, t: nat, u: nat)
    requires t <= u <= |turns| && Before(turns, t).paused
    ensures Before(turns, u).paused && Run(turns, globalWorkSize, u).launches == Run(turns, globalWorkSize, t).launches
  {
    hide Period, Before, Prepared;
    if t < u {
      SkipIsForGood(turns, globalWorkSize, t, u - 1);
      OneTurn(turns, u - 1);
      RunMirrors(turns, globalWorkSize, u - 1);
    }
  }

  // Packages come in order: once another header has come, the old one does not come back.
  ghost predicate Orderly(turns: seq<Turn>) {
    forall i, j, k :: 0 <= i < j < k < |turns| && turns[i].next.header == turns[k].next.header != 0 ==>
      turns[j].next.header == 0 || turns[j].next.header == turns[i].next.header
  }

  // Between a launch and the next package of its header, packages in order move no mark.
  lemma {:induction false} Still(turns: seq<Turn>, a: nat, m: nat)
    requires a < m <= |turns| && Launches(turns, a) && Before(turns, m).launchedAt == a
    requires turns[a].next.header != 0
    requires forall v :: a < v < m ==> turns[v].next.header == 0 || turns[v].next.header == turns[a].next.header
    ensures var p, q := Before(turns, a), Before(turns, m); q == p.(over := q.over, launchedAt := a)
  {
    hide Period, Before;
    OneTurn(turns, m - 1);
    if a + 1 < m {
      Still(turns, a, m - 1);
    }
  }

  lemma {:induction false} OrderlyLaunch(turns: seq<Turn>, u: nat)
    requires Orderly(turns) && HeadersNameEpochs(turns) && u < |turns| && Launches(turns, u)
    ensures EpochAt(turns, Before(turns, u).generatedAt) == turns[u].next.epoch
  {
    hide Period, Before, Launches;
    LaunchingTurn(turns, u);
    GeneratedAsAsked(turns, u);
    if Repeats(turns, u) {
      var a := Before(turns, u).launchedAt;
      LaunchedThere(turns, u);
      Still(turns, a, u);
      OrderlyLaunch(turns, a);
    }
  }

  /** Packages that come in order never lead to a launch with the dataset of another epoch, nor to one that the driver
      refuses. */
  lemma OrderlyFits(turns: seq<Turn>, globalWorkSize: nat, t: nat)
    requires t <= |turns| && Orderly(turns) && HeadersNameEpochs(turns)
    ensures DagsFit(Run(turns, globalWorkSize, t).launches)
    ensures forall u: nat ::
      u < t && Served(turns, u) && turns[u].next.header == HeaderAt(turns, Before(turns, u).launchedAt) ==>
        Launches(turns, u)
  {
    hide Period, Run, Before, Launches, Orderly, HeadersNameEpochs, Served;
    DagsFitExactly(turns, globalWorkSize, t);
    forall u: nat | u < t && Launches(turns, u)
      ensures 0 <= Before(turns, u).generatedAt
      ensures EpochAt(turns, Before(turns, u).generatedAt) == turns[u].next.epoch
    {
      OrderlyLaunch(turns, u);
      LaunchingRuns(turns, u);
    }
    forall u: nat | u < t && Served(turns, u) && turns[u].next.header == HeaderAt(turns, Before(turns, u).launchedAt)
      ensures Launches(turns, u)
    {
      OrderlyRepeat(turns, u);
    }
  }

  lemma OrderlyRepeat(turns: seq<Turn>, u: nat)
    requires Orderly(turns) && u < |turns| && Served(turns, u)
    requires turns[u].next.header == HeaderAt(turns, Before(turns, u).launchedAt)
    ensures Launches(turns, u)
  {
    hide Period;
    var a := Before(turns, u).launchedAt;
    LaunchedThere(turns, u);
    Still(turns, a, u);
  }

  // A turn with nothing to report and room for the dataset, and what three of them leave of a first package: its
  // program, its dataset, and its launch.
  function Plain(p: Package): Turn { Turn(p, [], Generated) }

  function FirstLaunch(a: Package): Launch {
    Launch(2, a, a.startNonce, Code(Period(a), a.elements), Dag(a.epoch))
  }

  function Opened(a: Package): Locals {
    Launched(
      INIT.(code := Code(Period(a), a.elements), oldPeriod := Period(a), nextPeriod := Period(a) + 1,
            ahead := Code(Period(a) + 1, a.elements), oldEpoch := a.epoch, dag := Dag(a.epoch),
            startNonce := a.startNonce, argsSet := true), a, 1)
  }

  ghost predicate Opens(turns: seq<Turn>, a: Package) {
    && |turns| == 5 && turns[0] == turns[1] == turns[2] == Plain(a)
    && a.header != 0 && Period(a) >= 0 && a.epoch != -1
  }

  lemma Opening(turns: seq<Turn>, a: Package)
    requires Opens(turns, a)
    ensures Run(turns, 1, 3) == Track(Opened(a), false, true, [FirstLaunch(a)])
  {
    hide Period;
    var s1 := INIT.(code := Code(Period(a), a.elements), oldPeriod := Period(a), nextPeriod := Period(a) + 1,
                    ahead := Code(Period(a) + 1, a.elements));
    assert Run(turns, 1, 1) == Track(s1, false, false, []);
    assert Run(turns, 1, 2) == Track(s1.(oldEpoch := a.epoch, dag := Dag(a.epoch)), false, false, []);
  }

  /** Two packages in order, of one period and of two epochs: the second is launched on its own dataset with the
      element count of the first. */
  lemma StaleElements(turns: seq<Turn>, a: Package, b: Package)
    requires Opens(turns, a) && turns[3] == turns[4] == Plain(b) && b.header != 0 && a.header != b.header
    requires Period(a) == Period(b) && a.epoch != b.epoch && a.elements != b.elements
    ensures var launches := Run(turns, 1, 5).launches;
      && PeriodsFit(launches) && DagsFit(launches) && !ElementsFit(launches)
      && |launches| == 2 && launches[1].work == b && launches[1].code.elements == a.elements
  {
    hide Period;
    Opening(turns, a);
    var stale := Launch(4, b, b.startNonce, Code(Period(a), a.elements), Dag(b.epoch));
    var s := Opened(a).(oldEpoch := b.epoch, dag := Dag(b.epoch));
    assert Run(turns, 1, 4) == Track(s, false, false, [FirstLaunch(a)]);
    assert Run(turns, 1, 5).launches == [FirstLaunch(a)] + [stale];
    assert ([FirstLaunch(a)] + [stale])[1] == stale;
  }

  /** A header that comes back after a package of its period and of another epoch is launched on the other dataset. */
  lemma StaleDataset(turns: seq<Turn>, a: Package, b: Package)
    requires Opens(turns, a) && turns[3] == Plain(b) && turns[4] == Plain(a) && b.header != 0 && a.header != b.header
    requires Period(a) == Period(b) && a.epoch != b.epoch
    ensures var launches := Run(turns, 1, 5).launches;
      && PeriodsFit(launches) && ElementsFit(launches) && !DagsFit(launches)
      && |launches| == 2 && launches[1].work == a && launches[1].dag == Dag(b.epoch)
  {
    hide Period;
    Opening(turns, a);
    var s := Opened(a).(oldEpoch := b.epoch, dag := Dag(b.epoch));
    var stale := Launch(4, a, s.startNonce, Code(Period(a), a.elements), Dag(b.epoch));
    assert Run(turns, 1, 4) == Track(s, false, false, [FirstLaunch(a)]);
    assert Run(turns, 1, 5).launches == [FirstLaunch(a)] + [stale];
    assert ([FirstLaunch(a)] + [stale])[1] == stale;
  }

  /** One header for two blocks of different periods: the second is launched with the program of the first. */
  lemma OneHeaderTwoBlocks(turns: seq<Turn>, a: Package, b: Package)
    requires Opens(turns, a) && turns[3] == Plain(b) && a.header == b.header && Period(a) != Period(b)
    ensures !PeriodsFit(Run(turns, 1, 4).launches)
  {
    hide Period;
    Opening(turns, a);
    var wrong := Launch(3, b, Opened(a).startNonce, Code(Period(a), a.elements), Dag(a.epoch));
    assert Run(turns, 1, 4).launches == [FirstLaunch(a)] + [wrong];
    assert ([FirstLaunch(a)] + [wrong])[1] == wrong;
  }

  /** A header that comes back after a package of another period ends the loop. */
  lemma OldHeaderEnds(turns: seq<Turn>, a: Package, b: Package)
    requires Opens(turns, a) && turns[3] == Plain(b) && turns[4] == Plain(a) && b.header != 0 && a.header != b.header
    requires Period(a) != Period(b)
    ensures !Run(turns, 1, 4).over && Run(turns, 1, 5).over
  {
    hide Period;
    Opening(turns, a);
    var h := Run(turns, 1, 4);
    assert !h.over && h.s.current.header == a.header && !h.s.argsSet;
  }

  // A new header starts at its package's nonce, and a repeated one goes on where the launch before it ended.
  ghost predicate StartsFit(launches: seq<Launch>, globalWorkSize: nat) {
    forall l :: 0 <= l < |launches| ==> (launches[l].start ==
      if l > 0 && launches[l].work.header == launches[l - 1].work.header
      then (launches[l - 1].start + globalWorkSize) % TWO64 else launches[l].work.startNonce)
  }

  // Where the next launch of the header launched last would start, and what is being worked on.
  ghost predicate Follows(g: Track, globalWorkSize: nat) {
    if |g.launches| == 0 then g.s.current.header == 0
    else
      var last := g.launches[|g.launches| - 1];
      g.s.current == Submitted(last) && g.s.startNonce == (last.start + globalWorkSize) % TWO64
  }

  /** In every run launches of one header cover consecutive nonces from the package's start nonce on. */
  lemma {:induction false} NoncesAdvance(turns: seq<Turn>, globalWorkSize: nat, t: nat)
    requires t <= |turns|
    ensures StartsFit(Run(turns, globalWorkSize, t).launches, globalWorkSize)
    ensures Run(turns, globalWorkSize, t).over || Follows(Run(turns, globalWorkSize, t), globalWorkSize)
  {
    hide StartsFit, Follows, Turned;
    if t == 0 {
      NoStarts(globalWorkSize);
    } else {
      NoncesAdvance(turns, globalWorkSize, t - 1);
      TurnAdvances(Run(turns, globalWorkSize, t - 1), turns[t - 1], t - 1, globalWorkSize);
    }
  }

  lemma TurnAdvances(g: Track, turn: Turn, t: nat, globalWorkSize: nat)
    requires StartsFit(g.launches, globalWorkSize) && (g.over || Follows(g, globalWorkSize))
    ensures StartsFit(Turned(g, turn, t, globalWorkSize).launches, globalWorkSize)
    ensures Turned(g, turn, t, globalWorkSize).over || Follows(Turned(g, turn, t, globalWorkSize), globalWorkSize)
  {
    hide Period, StartsFit;
    var (s, outcome) := Prepared(g.s, turn.next, turn.init);
    if !g.over && turn.next.header != 0 && outcome == Ready {
      StartsAdded(g.launches, Launch(t, turn.next, s.startNonce, s.code, s.dag), globalWorkSize);
    }
  }

  lemma NoStarts(globalWorkSize: nat)
    ensures StartsFit([], globalWorkSize) && Follows(START, globalWorkSize)
  {
  }

  lemma StartsAdded(launches: seq<Launch>, l: Launch, globalWorkSize: nat)
    requires StartsFit(launches, globalWorkSize)
    requires l.start == if |launches| > 0 && l.work.header == launches[|launches| - 1].work.header
      then (launches[|launches| - 1].start + globalWorkSize) % TWO64 else l.work.startNonce
    ensures StartsFit(launches + [l], globalWorkSize)
  {
  }

  // The launches are of turns gone by, and the buffer is full only after a launch of the turn before.
  ghost predicate Kept(t: nat, g: Track) {
    && (forall l :: 0 <= l < |g.launches| ==> g.launches[l].turn < t)
    && (!g.over ==> (g.running <==> |g.launches| > 0 && g.launches[|g.launches| - 1].turn + 1 == t))
  }

  lemma {:induction false} RunKeeps(turns: seq<Turn>, globalWorkSize: nat, t: nat)
    requires t <= |turns|
    ensures Kept(t, Run(turns, globalWorkSize, t))
  {
    hide Prepared;
    if t > 0 {
      RunKeeps(turns, globalWorkSize, t - 1);
    }
  }

  /** One turn of the loop: the read of the results, the package, the launch and the report of what was read. */
  method RunTurn(turn: Turn, t: nat, globalWorkSize: nat, s0: Locals, running0: bool, launches0: seq<Launch>)
    returns (s: Locals, running: bool, launches: seq<Launch>, more: seq<Solution>, over: bool)
    requires Kept(t, Track(s0, false, running0, launches0))
    requires Follows(Track(s0, false, running0, launches0), globalWorkSize)
    ensures var g := Turned(Track(s0, false, running0, launches0), turn, t, globalWorkSize);
      launches == g.launches && over == g.over && (!over ==> s == g.s && running == g.running)
    ensures more == if running0 && |launches| > |launches0|
                    then Reported(launches0[|launches0| - 1], turn.gids) else []
  {
    hide Reported, Prepared;
    s, running, launches, more, over := s0, false, launches0, [], false;
    var results := if running0 then turn.gids else [];
    if |results| > SearchOutput.MAX_OUTPUTS {
      over := true;
      return;
    }
    if turn.next.header == 0 || s0.paused {
      return;
    }
    var outcome;
    s, outcome := Prepare(s0, turn.next, turn.init);
    if outcome != Ready {
      over := outcome == Stop;
      return;
    }
    more := Report(s.current, results);
    if running0 {
      ReportIs(s.current, launches0[|launches0| - 1], results, more);
    }
    launches := launches0 + [Launch(t, turn.next, s.startNonce, s.code, s.dag)];
    s, running := Launched(s, turn.next, globalWorkSize), true;
  }

  // One more turn, seen from all that is submitted.
  lemma TurnReports(turns: seq<Turn>, globalWorkSize: nat, t: nat, g: Track, more: seq<Solution>)
    requires t < |turns| && Kept(t, g) && !g.over
    requires var h := Turned(g, turns[t], t, globalWorkSize);
      more == if g.running && |h.launches| > |g.launches|
              then Reported(g.launches[|g.launches| - 1], turns[t].gids) else []
    ensures var h := Turned(g, turns[t], t, globalWorkSize);
      && Timely(turns, g.launches) && Timely(turns, h.launches)
      && AllReported(turns, h.launches, |h.launches|) == AllReported(turns, g.launches, |g.launches|) + more
  {
    hide Prepared, AllReported, Reported;
    var (s, outcome) := Prepared(g.s, turns[t].next, turns[t].init);
    LaunchAdded(turns, g.launches, Launch(t, turns[t].next, s.startNonce, s.code, s.dag));
  }

  /** workLoop. In every run the solutions submitted are those of the launches that found them, with the work
      and the start nonce of that launch. The loop fails when a read, a launch or a change of epoch does. */
  method WorkLoop(turns: seq<Turn>, globalWorkSize: nat)
    returns (launches: seq<Launch>, solutions: seq<Solution>, over: bool)
    ensures launches == Run(turns, globalWorkSize, |turns|).launches && over == Run(turns, globalWorkSize, |turns|).over
    ensures Timely(turns, launches) && solutions == AllReported(turns, launches, |launches|)
  {
    hide AllReported, Reported, Turned, StartsFit, Follows, Kept;
    var s, running, more := INIT, false, [];
    launches, solutions, over := [], [], false;
    NothingReported(turns);
    for t := 0 to |turns|
      invariant !over && Run(turns, globalWorkSize, t) == Track(s, false, running, launches)
      invariant Timely(turns, launches) && solutions == AllReported(turns, launches, |launches|)
    {
      RunKeeps(turns, globalWorkSize, t);
      NoncesAdvance(turns, globalWorkSize, t);
      ghost var g := Run(turns, globalWorkSize, t);
      s, running, launches, more, over := RunTurn(turns[t], t, globalWorkSize, s, running, launches);
      TurnReports(turns, globalWorkSize, t, g, more);
      solutions := solutions + more;
      if over {
        OverStays(turns, globalWorkSize, t + 1, |turns|);
        break;
      }
    }
  }

  method Report(current: Package, gids: seq<nat>) returns (solutions: seq<Solution>)
    ensures |solutions| == |gids|
    ensures forall i :: 0 <= i < |gids| ==> solutions[i] == Solution((current.startNonce + gids[i]) % TWO64, current)
  {
    solutions := [];
    for i := 0 to |gids|
      invariant |solutions| == i
      invariant forall k :: 0 <= k < i ==> solutions[k] == Solution((current.startNonce + gids[k]) % TWO64, current)
    {
      solutions := solutions + [Solution((current.startNonce + gids[i]) % TWO64, current)];
    }
  }

  lemma ReportIs(current: Package, l: Launch, gids: seq<nat>, solutions: seq<Solution>)
    requires current == Submitted(l) && |solutions| == |gids|
    requires forall i :: 0 <= i < |gids| ==> solutions[i] == Solution((current.startNonce + gids[i]) % TWO64, current)
    ensures solutions == Reported(l, gids)
  {
  }

  lemma NothingReported(turns: seq<Turn>)
    ensures AllReported(turns, [], 0) == []
  {
  }

  lemma LaunchAdded(turns: seq<Turn>, launches: seq<Launch>, l: Launch)
    requires Timely(turns, launches) && l.turn < |turns|
    ensures var last := |launches| - 1;
      AllReported(turns, launches + [l], |launches| + 1) == AllReported(turns, launches, |launches|)
      + (if last >= 0 && l.turn == launches[last].turn + 1 then Reported(launches[last], turns[l.turn].gids) else [])
  {
    ReportedOfMore(turns, launches, [l], |launches|);
  }
}

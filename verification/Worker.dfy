/** The start, stop and kill protocol of libdevcore/Worker: an atomic state shared by the worker thread and
    the callers of startWorking, triggerStopWorking, stopWorking and the destructor, who hold a lock. */
module Worker {
  datatype WorkerState = Starting | Started | Stopping | Stopped | Killing

  // Where the thread is: at the test of its outer loop, at its exchange of Starting for Started, in
  // workLoop, at the exchange after it, at the restoring of what that found, waiting, or at an end.
  datatype Thread = NoThread | Test | TryStart | InLoop | Leave | Restore(ex: WorkerState) | Spin | Exited

  // Where the lock holder is: nobody holds it, or somebody waits in startWorking, in stopWorking or in
  // the destructor.
  datatype Control = Idle | AwaitStart | AwaitStop | Join

  // quiet records that a stopWorking has returned and no startWorking has begun since.
  datatype State = State(s: WorkerState, thread: Thread, control: Control, quiet: bool)

  const INIT := State(Starting, NoThread, Idle, false)

  // One atomic step of either side. A compare-exchange may fail for no reason (spurious).
  datatype Move =
    | ThreadMove(spurious: bool)
    | LoopReturns
    | StartWorking(spurious: bool)
    | TriggerStop(spurious: bool)
    | StopWorking(spurious: bool)
    | Destroy
    | ControlMove

  // compare_exchange_weak.
  function Exchanged(s: WorkerState, from: WorkerState, to: WorkerState, spurious: bool): WorkerState {
    if s == from && !spurious then to else s
  }

  function ThreadStep(st: State, spurious: bool): State {
    match st.thread
    case Test => st.(thread := if st.s == Killing then Exited else TryStart)
    case TryStart => st.(s := Exchanged(st.s, Starting, Started, spurious), thread := InLoop)
    case Leave => st.(s := Stopped, thread := Restore(st.s))
    case Restore(ex) => st.(s := if ex == Killing || ex == Starting then ex else st.s, thread := Spin)
    case Spin => if st.s == Stopped then st else st.(thread := Test)
    case _ => st
  }

  // The first step of a caller, who has just taken the lock.
  function Begin(st: State, m: Move): State {
    match m
    case StartWorking(spurious) =>
      if st.thread == NoThread then State(Starting, Test, AwaitStart, false)
      else State(Exchanged(st.s, Stopped, Starting, spurious), st.thread, AwaitStart, false)
    case TriggerStop(spurious) =>
      if st.thread == NoThread then st else st.(s := Exchanged(st.s, Started, Stopping, spurious))
    case StopWorking(spurious) =>
      if st.thread == NoThread then st.(quiet := true)
      else st.(s := Exchanged(st.s, Started, Stopping, spurious), control := AwaitStop)
    case Destroy => if st.thread == NoThread then st else st.(s := Killing, control := Join)
    case _ => st
  }

  function ControlStep(st: State): State {
    match st.control
    case AwaitStart => if st.s == Starting then st else st.(control := Idle)
    case AwaitStop => if st.s == Stopped then st.(control := Idle, quiet := true) else st
    case Join => if st.thread == Exited then st.(thread := NoThread, control := Idle) else st
    case Idle => st
  }

  // A step that cannot be taken changes nothing.
  function Step(st: State, m: Move): State {
    match m
    case ThreadMove(spurious) => ThreadStep(st, spurious)
    case LoopReturns => if st.thread == InLoop then st.(thread := Leave) else st
    case ControlMove => ControlStep(st)
    case _ => if st.control == Idle then Begin(st, m) else st
  }

  function Run(moves: seq<Move>): State {
    if |moves| == 0 then INIT else Step(Run(moves[..|moves| - 1]), moves[|moves| - 1])
  }

  lemma RunOfOneMore(moves: seq<Move>, m: Move)
    ensures Run(moves + [m]) == Step(Run(moves), m)
  {
    assert (moves + [m])[..|moves|] == moves;
  }

  // The thread's compare-exchange never fails without a reason.
  predicate Reliable(moves: seq<Move>) {
    forall i :: 0 <= i < |moves| && moves[i].ThreadMove? ==> !moves[i].spurious
  }

  // Running workLoop, or bound to enter it.
  predicate Working(st: State) {
    st.thread == InLoop || st.thread == TryStart || (st.thread == Test && st.s != Killing)
  }

  ghost predicate Inv(st: State) {
    && (st.control == Join ==> st.thread != NoThread && (st.s == Killing || st.thread == Restore(Killing)))
    && (st.s == Starting && st.thread != NoThread ==> st.control == AwaitStart)
    && (match st.thread
        case NoThread => st.control == Idle
        case Test => st.s == Starting || (st.s == Killing && st.control == Join)
        case TryStart => st.s == Starting || (st.s == Killing && st.control == Join)
        case InLoop => st.s == Started || st.s == Stopping || (st.s == Killing && st.control == Join)
        case Leave => st.s == Started || st.s == Stopping || (st.s == Killing && st.control == Join)
        case Restore(ex) =>
          if ex == Killing then st.s == Stopped && st.control == Join
          else (ex == Started || ex == Stopping) && Parked(st)
        case Spin => Parked(st)
        case Exited => st.s == Killing && st.control == Join)
    && (st.quiet && st.thread != NoThread ==>
          !Working(st) && st.thread != Leave && st.s != Starting && st.control != AwaitStart)
  }

  predicate Parked(st: State) {
    st.s == Stopped || st.s == Starting || (st.s == Killing && st.control == Join)
  }

  lemma StepKeeps(st: State, m: Move)
    requires Inv(st) && (m.ThreadMove? ==> !m.spurious)
    ensures Inv(Step(st, m))
  {
  }

  lemma {:induction false} RunKeeps(moves: seq<Move>)
    requires Reliable(moves)
    ensures Inv(Run(moves))
  {
    if |moves| > 0 {
      RunKeeps(moves[..|moves| - 1]);
      StepKeeps(Run(moves[..|moves| - 1]), moves[|moves| - 1]);
    }
  }

  /** In every interleaving the state is Stopped only while the thread is outside workLoop; and since a
      stopWorking returned, the loop has not run and will not until the next startWorking. */
  lemma StoppedIsOutside(moves: seq<Move>)
    requires Reliable(moves)
    ensures Run(moves).s == Stopped ==> !Working(Run(moves)) && Run(moves).thread != Leave
    ensures Run(moves).quiet ==> !Working(Run(moves)) && Run(moves).thread != Leave
  {
    RunKeeps(moves);
  }

  /** Once the destructor has set Killing, it is what the outer loop sees at its next test, and the thread
      never blocks in a state that the destructor is not told of. */
  lemma KillingIsSeen(moves: seq<Move>)
    requires Reliable(moves) && Run(moves).control == Join
    ensures Run(moves).thread == Test ==> Run(moves).s == Killing
    ensures Run(moves).thread == Spin ==> Run(moves).s == Killing
  {
    RunKeeps(moves);
  }

  /** startWorking returns only when the thread has taken notice: nobody else finds the state Starting. */
  lemma StartIsTaken(moves: seq<Move>)
    requires Reliable(moves) && Run(moves).thread != NoThread && Run(moves).control == Idle
    ensures Run(moves).s != Starting
  {
    RunKeeps(moves);
  }

  // Steps of the thread, and returns of workLoop, that remain before the thread has exited.
  function StepsToExit(t: Thread): nat {
    match t
    case NoThread => 0
    case Exited => 0
    case Test => 1
    case Spin => 2
    case Restore(_) => 3
    case Leave => 4
    case InLoop => 5
    case TryStart => 6
  }

  /** The destructor waits for at most six steps of the thread: each brings it closer to its end. */
  lemma KilledExits(moves: seq<Move>)
    requires Reliable(moves) && Run(moves).control == Join
    ensures var st := Run(moves);
      var after := if st.thread == InLoop then Step(st, LoopReturns) else Step(st, ThreadMove(false));
      && StepsToExit(st.thread) <= 6 && (st.thread != Exited ==> StepsToExit(after.thread) < StepsToExit(st.thread))
      && (Step(st, ControlMove).control == Idle <==> st.thread == Exited)
      && (st.thread == Exited ==> Step(st, ControlMove) == st.(thread := NoThread, control := Idle))
  {
    RunKeeps(moves);
  }

  // Steps that remain before a thread asked to start has taken Starting.
  function StepsToStart(t: Thread): nat {
    match t
    case Restore(_) => 4
    case Spin => 3
    case Test => 2
    case TryStart => 1
    case _ => 0
  }

  // How many of the moves are steps of the thread.
  function ThreadSteps(moves: seq<Move>): nat {
    if |moves| == 0 then 0
    else ThreadSteps(moves[..|moves| - 1]) + if moves[|moves| - 1].ThreadMove? then 1 else 0
  }

  /** startWorking waits for at most four steps of the thread, and for none once the state is not Starting. */
  lemma StartReturns(moves: seq<Move>)
    requires Reliable(moves) && Run(moves).control == AwaitStart
    ensures var st := Run(moves);
      var after := Step(st, ThreadMove(false));
      && (Step(st, ControlMove).control == Idle <==> st.s != Starting)
      && (st.s == Starting ==>
            && 0 < StepsToStart(st.thread) <= 4
            && (after.s != Starting || StepsToStart(after.thread) < StepsToStart(st.thread)))
  {
    RunKeeps(moves);
  }

  lemma StartSteps(st: State, m: Move)
    requires Inv(st) && st.control == AwaitStart && st.s == Starting && (m.ThreadMove? ==> !m.spurious)
    ensures !m.ThreadMove? ==> Step(st, m) == st
    ensures m.ThreadMove? && StepsToStart(st.thread) == 1 ==> Step(st, m) == st.(s := Started, thread := InLoop)
    ensures m.ThreadMove? && StepsToStart(st.thread) > 1 ==>
      var after := Step(st, m);
      after == st.(thread := after.thread) && StepsToStart(after.thread) == StepsToStart(st.thread) - 1
  {
  }

  /** Whatever else happens while startWorking waits, the thread's next steps, as many as StepsToStart says, lead
      it into workLoop with the state Started; before the last of them the state is Starting and nothing is lost. */
  lemma {:induction false} StartSucceeds(moves: seq<Move>, more: seq<Move>)
    requires Reliable(moves) && Reliable(more) && Run(moves).control == AwaitStart && Run(moves).s == Starting
    ensures var st, after := Run(moves), Run(moves + more);
      && (ThreadSteps(more) < StepsToStart(st.thread) ==>
            && after == st.(thread := after.thread)
            && StepsToStart(after.thread) == StepsToStart(st.thread) - ThreadSteps(more))
      && (ThreadSteps(more) == StepsToStart(st.thread) && |more| > 0 && more[|more| - 1].ThreadMove? ==>
            after == st.(s := Started, thread := InLoop))
    decreases more
  {
    RunKeeps(moves);
    StartReturns(moves);
    if |more| == 0 {
      assert moves + more == moves;
    } else {
      var before, m := more[..|more| - 1], more[|more| - 1];
      assert moves + more == moves + before + [m];
      StartSucceeds(moves, before);
      RunOfOneMore(moves + before, m);
      RunKeeps(moves + before);
      if ThreadSteps(before) < StepsToStart(Run(moves).thread) {
        StartSteps(Run(moves + before), m);
      }
    }
  }

  // What workLoop is told.
  predicate ShouldStop(st: State) { st.s != Started }

  predicate Ends(m: Move) { m.LoopReturns? }

  predicate Asks(m: Move) { m.TriggerStop? || m.StopWorking? || m.Destroy? }

  lemma LoopStep(st: State, m: Move)
    requires Inv(st) && st.thread == InLoop && !Ends(m)
    ensures Step(st, m).thread == InLoop
    ensures ShouldStop(st) ==> ShouldStop(Step(st, m))
    ensures !ShouldStop(st) && !Asks(m) ==> !ShouldStop(Step(st, m))
  {
  }

  /** While workLoop runs it is not told to stop before somebody asks, and once told it is not told otherwise. */
  lemma {:induction false} ToldToStop(moves: seq<Move>, more: seq<Move>)
    requires Reliable(moves) && Reliable(more) && Run(moves).thread == InLoop
    requires forall i :: 0 <= i < |more| ==> !Ends(more[i])
    ensures var st, after := Run(moves), Run(moves + more);
      && after.thread == InLoop
      && (ShouldStop(st) ==> ShouldStop(after))
      && (!ShouldStop(st) && (forall i :: 0 <= i < |more| ==> !Asks(more[i])) ==> !ShouldStop(after))
    decreases more
  {
    if |more| == 0 {
      assert moves + more == moves;
    } else {
      var before, m := more[..|more| - 1], more[|more| - 1];
      assert moves + more == moves + before + [m];
      assert forall i :: 0 <= i < |before| ==> before[i] == more[i];
      ToldToStop(moves, before);
      RunOfOneMore(moves + before, m);
      RunKeeps(moves + before);
      LoopStep(Run(moves + before), m);
    }
  }

  /** triggerStopWorking and stopWorking leave Stopping where they find Started, unless their exchange fails without a
      reason; then, as where they find anything else, they leave the state as it is. The destructor always tells. */
  lemma AskedToStop(moves: seq<Move>, spurious: bool)
    requires Reliable(moves) && Run(moves).thread == InLoop && Run(moves).control == Idle
    ensures var st := Run(moves);
      var trigger, stop := Step(st, TriggerStop(spurious)), Step(st, StopWorking(spurious));
      && trigger.s == stop.s == (if st.s == Started && !spurious then Stopping else st.s)
      && trigger == st.(s := trigger.s) && stop == st.(s := stop.s, control := AwaitStop)
      && (ShouldStop(trigger) <==> ShouldStop(st) || !spurious)
      && ShouldStop(Step(st, Destroy))
  {
    RunKeeps(moves);
  }

  /** quiet says what it is to record: a stopWorking has returned and no startWorking has begun since. */
  lemma QuietRecords(moves: seq<Move>, m: Move)
    ensures !Run([]).quiet
    ensures var st, after := Run(moves), Run(moves + [m]);
      var returned := after.control == Idle && (st.control == AwaitStop || (m.StopWorking? && st.control == Idle));
      after.quiet <==> returned || (st.quiet && !(m.StartWorking? && st.control == Idle))
  {
    RunOfOneMore(moves, m);
  }

  // Steps that remain before a thread asked to stop has set Stopped.
  function StepsToStop(t: Thread): nat {
    match t
    case InLoop => 2
    case Leave => 1
    case _ => 0
  }

  /** stopWorking waits for at most the return of workLoop and one more step. */
  lemma StopReturns(moves: seq<Move>)
    requires Reliable(moves) && Run(moves).control == AwaitStop
    ensures var st := Run(moves);
      var after := if st.thread == InLoop then Step(st, LoopReturns) else Step(st, ThreadMove(false));
      && (Step(st, ControlMove).control == Idle <==> st.s == Stopped)
      && StepsToStop(st.thread) <= 2
      && (if StepsToStop(st.thread) == 0 then st.s == Stopped else StepsToStop(after.thread) < StepsToStop(st.thread))
  {
    RunKeeps(moves);
  }

  // The thread's exchange fails without a reason, and startWorking returns in the moment in which the
  // thread has set Stopped and not yet restored Starting.
  lemma SpuriousStart() returns (moves: seq<Move>)
    ensures Run(moves) == State(Stopped, Restore(Starting), Idle, false)
  {
    moves := [];
    RunOfOneMore(moves, StartWorking(false));
    moves := moves + [StartWorking(false)];
    RunOfOneMore(moves, ThreadMove(false));
    moves := moves + [ThreadMove(false)];
    RunOfOneMore(moves, ThreadMove(true));
    moves := moves + [ThreadMove(true)];
    RunOfOneMore(moves, LoopReturns);
    moves := moves + [LoopReturns];
    RunOfOneMore(moves, ThreadMove(false));
    moves := moves + [ThreadMove(false)];
    RunOfOneMore(moves, ControlMove);
    moves := moves + [ControlMove];
  }

  /** One failure without a reason of the thread's exchange is enough to lose both properties: the thread
      goes on to enter workLoop after stopWorking has returned, and it overwrites Killing. */
  lemma SpuriousFailure()
    ensures exists moves :: Run(moves).quiet && Working(Run(moves))
    ensures exists moves :: Run(moves).control == Join && Run(moves).thread == Test && Run(moves).s != Killing
  {
    var start := SpuriousStart();
    RunOfOneMore(start, StopWorking(false));
    var stop := start + [StopWorking(false)];
    RunOfOneMore(stop, ControlMove);
    stop := stop + [ControlMove];
    Resumes(stop);
    RunOfOneMore(start, Destroy);
    Resumes(start + [Destroy]);
  }

  lemma Resumes(moves: seq<Move>)
    requires Run(moves).thread == Restore(Starting)
    ensures exists more :: Run(more) == Run(moves).(s := Starting, thread := Test)
  {
    RunOfOneMore(moves, ThreadMove(false));
    RunOfOneMore(moves + [ThreadMove(false)], ThreadMove(false));
    assert Run(moves + [ThreadMove(false)] + [ThreadMove(false)]) == Run(moves).(s := Starting, thread := Test);
  }
}

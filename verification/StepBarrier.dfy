/**
  The barrier of the multi-threaded step: a coordinator and one worker per entry of the evaluation
  list share a counter, its mutex, a done event, and one start event per worker.

  Every shared access is a step of its own, and any enabled party may take the next one. Events reset
  themselves when a wait returns.
*/
module StepBarrier {
  import opened Collections

  /** Effect of a phase that the coordinator runs alone, with no worker stepping. */
  datatype Phase<+C> = Phase(comps: seq<C>, ok: bool)

  /** Effect of one communication step on its own component. */
  datatype StepResult<+C> = StepResult(comp: C, finished: bool, failed: bool)

  /**
    What the threads compute. A communication step sees its own component and the values that all
    components published at the last communication point.
  */
  datatype Program<!C> = Program(
    n: nat,
    prepare: seq<C> -> Phase<C>,
    step: (nat, seq<C>, C) -> StepResult<C>,
    enter: seq<C> -> Phase<C>)

  ghost predicate ValidProgram<C(!new)>(p: Program<C>) {
    && (forall c: seq<C> :: |c| == p.n ==> |p.prepare(c).comps| == p.n)
    && (forall c: seq<C> :: |c| == p.n ==> |p.enter(c).comps| == p.n)
  }

  /** Where a worker stands in `ParallelMTCompDoStepWrapper` and, below it, in `DoStepThreadCounterDecrease`. */
  datatype WorkerPc =
    | WaitStart
    | Woken
    | Stepping
    | AtLock
    | InLock
    | Decrement
    | TestZero
    | Signal
    | Unlock
    | Exited

  /** Where the coordinator stands in `ParallelMTDoStep` or in the destructor. */
  datatype CoordPc =
    | Idle
    | Setup
    | Starting(next: nat)
    | Waiting
    | Checking
    | Communicate
    | Failed
    | Stopping(next: nat)
    | Releasing(next: nat)
    | Joining(next: nat)
    | Done

  /**
    `round` counts the counter set-ups, `steps[i]` the communication steps worker `i` has completed,
    `doneSets` how often the done event was set; the rest is the state of the program.
  */
  datatype State<C> = State(
    comps: seq<C>,
    snapshot: seq<C>,
    failed: seq<bool>,
    aComponentFinished: bool,
    count: nat,
    mutexHeld: bool,
    doneEvent: bool,
    start: seq<bool>,
    finished: seq<bool>,
    pc: seq<WorkerPc>,
    coord: CoordPc,
    round: nat,
    steps: seq<nat>,
    doneSets: nat)

  function InitState<C>(p: Program<C>, comps: seq<C>): State<C>
    requires |comps| == p.n
  {
    State(comps, comps, seq(p.n, _ => false), false, 0, false, false, seq(p.n, _ => false), seq(p.n, _ => false),
          seq(p.n, _ => WaitStart), Idle, 0, seq(p.n, _ => 0), 0)
  }

  predicate Sized<C>(p: Program<C>, s: State<C>) {
    && |s.comps| == |s.snapshot| == |s.failed| == p.n
    && |s.start| == |s.finished| == |s.pc| == |s.steps| == p.n
  }

  // ---------------------------------------------------------------------------------------------
  // Steps

  predicate WorkerEnabled<C>(p: Program<C>, s: State<C>, i: nat)
    requires Sized(p, s)
  {
    && i < p.n
    && match s.pc[i] {
         case WaitStart => s.start[i]
         case AtLock => !s.mutexHeld
         case Exited => false
         case _ => true
       }
  }

  function WorkerNext<C>(p: Program<C>, s: State<C>, i: nat): State<C>
    requires Sized(p, s) && WorkerEnabled(p, s, i)
  {
    match s.pc[i]
    case WaitStart => s.(start := s.start[i := false], pc := s.pc[i := Woken])
    case Woken => s.(pc := s.pc[i := if s.finished[i] then Exited else Stepping])
    case Stepping =>
      var r := p.step(i, s.snapshot, s.comps[i]);
      s.(comps := s.comps[i := r.comp],
         failed := s.failed[i := r.failed],
         aComponentFinished := s.aComponentFinished || r.finished,
         steps := s.steps[i := s.steps[i] + 1],
         pc := s.pc[i := AtLock])
    case AtLock => s.(mutexHeld := true, pc := s.pc[i := InLock])
    case InLock => s.(pc := s.pc[i := if s.count > 0 then Decrement else Unlock])
    case Decrement => s.(count := if s.count > 0 then s.count - 1 else 0, pc := s.pc[i := TestZero])
    case TestZero => s.(pc := s.pc[i := if s.count == 0 then Signal else Unlock])
    case Signal => s.(doneEvent := true, doneSets := s.doneSets + 1, pc := s.pc[i := Unlock])
    case Unlock => s.(mutexHeld := false, pc := s.pc[i := WaitStart])
  }

  predicate CoordEnabled<C>(p: Program<C>, s: State<C>)
    requires Sized(p, s)
  {
    match s.coord
    case Waiting => s.doneEvent
    case Joining(i) => i < p.n && s.pc[i] == Exited
    case Done => false
    case _ => true
  }

  /** `stop` is the choice, made between two rounds, to shut down. */
  ghost function CoordNext<C(!new)>(p: Program<C>, s: State<C>, stop: bool): State<C>
    requires ValidProgram(p) && Sized(p, s) && CoordEnabled(p, s)
  {
    match s.coord
    case Idle =>
      if stop then s.(coord := Stopping(0))
      else
        var r := p.prepare(s.comps);
        if r.ok then s.(comps := r.comps, snapshot := r.comps, coord := Setup) else s.(coord := Failed)
    case Setup => s.(count := p.n, round := s.round + 1, coord := Starting(0))
    case Starting(i) =>
      if i < p.n then s.(start := s.start[i := true], coord := Starting(i + 1)) else s.(coord := Waiting)
    case Waiting => s.(doneEvent := false, coord := Checking)
    case Checking => s.(coord := if true in s.failed then Failed else Communicate)
    case Communicate =>
      var r := p.enter(s.comps);
      if r.ok then s.(comps := r.comps, coord := Idle) else s.(coord := Failed)
    case Failed => s.(coord := Stopping(0))
    case Stopping(i) =>
      if i < p.n then s.(finished := s.finished[i := true], coord := Releasing(i)) else s.(coord := Done)
    case Releasing(i) =>
      if i < p.n then s.(start := s.start[i := true], coord := Joining(i)) else s.(coord := Done)
    case Joining(i) => s.(coord := Stopping(i + 1))
  }

  ghost predicate Next<C(!new)>(p: Program<C>, s: State<C>, t: State<C>)
    requires ValidProgram(p) && Sized(p, s)
  {
    || (exists i: nat :: WorkerEnabled(p, s, i) && t == WorkerNext(p, s, i))
    || (exists stop :: CoordEnabled(p, s) && t == CoordNext(p, s, stop))
  }

  /** A run from `comps`: every state follows from the one before by some party's step. */
  ghost predicate IsRun<C(!new)>(p: Program<C>, comps: seq<C>, run: seq<State<C>>)
    requires ValidProgram(p)
  {
    && |comps| == p.n
    && |run| > 0
    && run[0] == InitState(p, comps)
    && (forall k :: 0 <= k < |run| ==> Sized(p, run[k]))
    && (forall k :: 0 <= k < |run| - 1 ==> Next(p, run[k], run[k + 1]))
  }

  // ---------------------------------------------------------------------------------------------
  // The serial reference

  /** What the components are after `round` serial rounds, and whether all of them succeeded. */
  datatype Serial<+C> = Serial(comps: seq<C>, aComponentFinished: bool, ok: bool)

  function StepOf<C>(p: Program<C>, snapshot: seq<C>, i: nat): StepResult<C>
    requires i < |snapshot|
  {
    p.step(i, snapshot, snapshot[i])
  }

  /** One serial round; an error anywhere ends the simulation. */
  ghost function SerialRound<C(!new)>(p: Program<C>, s: Serial<C>): (t: Serial<C>)
    requires ValidProgram(p) && |s.comps| == p.n
    ensures |t.comps| == p.n
  {
    var r := p.prepare(s.comps);
    if !s.ok || !r.ok then s.(ok := false)
    else if exists i :: 0 <= i < p.n && StepOf(p, r.comps, i).failed then s.(ok := false)
    else
      var e := p.enter(seq(p.n, i requires 0 <= i < p.n => StepOf(p, r.comps, i).comp));
      if !e.ok then s.(ok := false)
      else Serial(e.comps, s.aComponentFinished || exists i :: 0 <= i < p.n && StepOf(p, r.comps, i).finished, true)
  }

  ghost function SerialRun<C(!new)>(p: Program<C>, comps: seq<C>, rounds: nat): (t: Serial<C>)
    requires ValidProgram(p) && |comps| == p.n
    ensures |t.comps| == p.n
  {
    if rounds == 0 then Serial(comps, false, true) else SerialRound(p, SerialRun(p, comps, rounds - 1))
  }

  // ---------------------------------------------------------------------------------------------
  // The invariant

  /** Worker `i` has been, or is about to be, started in the current phase but has not reacted yet. */
  predicate Unstarted(c: CoordPc, i: nat) {
    match c
    case Setup => true
    case Starting(j) => i >= j
    case Stopping(j) => i >= j
    case Releasing(j) => i >= j
    case Joining(j) => i > j
    case _ => false
  }

  predicate InRound(c: CoordPc) {
    c.Starting? || c.Waiting?
  }

  predicate ShuttingDown(c: CoordPc) {
    c.Stopping? || c.Releasing? || c.Joining? || c.Done?
  }

  /** The worker has still to decrement the counter in this round. */
  predicate Owes<C>(s: State<C>, i: nat)
    requires i < |s.pc| == |s.start|
  {
    InRound(s.coord) && (Unstarted(s.coord, i) || s.start[i] || s.pc[i] in {Woken, Stepping, AtLock, InLock, Decrement})
  }

  /** The worker has finished its communication step of this round. */
  predicate Stepped<C>(s: State<C>, i: nat)
    requires i < |s.pc| == |s.start|
  {
    !Unstarted(s.coord, i) && !s.start[i] && s.pc[i] !in {Woken, Stepping}
  }

  predicate HoldsMutex(pc: WorkerPc) {
    pc in {InLock, Decrement, TestZero, Signal, Unlock}
  }

  function Owing<C>(p: Program<C>, s: State<C>): set<nat>
    requires Sized(p, s)
  {
    set i: nat | i < p.n && Owes(s, i)
  }

  /** The coordinator's position makes sense. */
  predicate CoordOk<C>(p: Program<C>, c: CoordPc) {
    match c
    case Starting(j) => j <= p.n
    case Stopping(j) => j <= p.n
    case Releasing(j) => j < p.n
    case Joining(j) => j < p.n
    case _ => true
  }

  /** What one worker may be doing, given where the coordinator is. */
  predicate WorkerOk<C>(p: Program<C>, s: State<C>, i: nat)
    requires Sized(p, s) && i < p.n
  {
    && (s.start[i] ==> s.pc[i] in {WaitStart, Unlock})
    && (Unstarted(s.coord, i) ==> !s.start[i] && s.pc[i] in {WaitStart, Unlock})
    && (!InRound(s.coord) && !ShuttingDown(s.coord) ==> !s.start[i] && s.pc[i] in {WaitStart, Unlock})
    && (ShuttingDown(s.coord) ==> s.pc[i] in {WaitStart, Unlock, Woken, Exited})
    && (s.finished[i] <==> ShuttingDown(s.coord) && (!Unstarted(s.coord, i) || s.coord == Releasing(i)))
    && (s.pc[i] == Exited ==> s.finished[i] && !Unstarted(s.coord, i))
    && (ShuttingDown(s.coord) && !Unstarted(s.coord, i) ==> s.start[i] || s.pc[i] in {Woken, Exited})
    && (ShuttingDown(s.coord) && !Unstarted(s.coord, i) && s.coord != Joining(i) ==> s.pc[i] == Exited)
  }

  ghost predicate WorkersOk<C>(p: Program<C>, s: State<C>)
    requires Sized(p, s)
  {
    forall i: nat :: i < p.n ==> WorkerOk(p, s, i)
  }

  /** At most one worker holds the mutex, and the flag says whether one does. */
  ghost predicate MutexOk<C>(p: Program<C>, s: State<C>)
    requires Sized(p, s)
  {
    && (forall i: nat, j: nat :: i < p.n && j < p.n && HoldsMutex(s.pc[i]) && HoldsMutex(s.pc[j]) ==> i == j)
    && (s.mutexHeld <==> exists i: nat :: i < p.n && HoldsMutex(s.pc[i]))
  }

  /** Some worker has taken the counter to zero and is on its way to set the done event. */
  ghost predicate AboutToSignal<C>(p: Program<C>, s: State<C>)
    requires Sized(p, s)
  {
    exists i: nat :: i < p.n && s.pc[i] in {TestZero, Signal}
  }

  /** The counter counts the decrements outstanding; the last of them sets the done event, once. */
  ghost predicate CounterOk<C>(p: Program<C>, s: State<C>)
    requires Sized(p, s)
  {
    && s.count == |Owing(p, s)|
    && (InRound(s.coord) && s.count == 0 ==> (s.doneEvent <==> !AboutToSignal(p, s)))
    && (s.doneEvent ==> InRound(s.coord) && s.count == 0)
    && (s.count > 0 ==> forall i: nat :: i < p.n ==> s.pc[i] != Signal)
    && s.doneSets == (if InRound(s.coord) && !s.doneEvent then s.round - 1 else s.round)
    && (InRound(s.coord) || s.coord in {Checking, Communicate} ==> s.round > 0)
  }

  /** Every worker has done one communication step per round, the one of this round perhaps not yet. */
  ghost predicate StepsOk<C>(p: Program<C>, s: State<C>)
    requires Sized(p, s)
  {
    forall i: nat :: i < p.n ==>
      s.steps[i] == if InRound(s.coord) && !Stepped(s, i) then s.round - 1 else s.round
  }

  ghost predicate SyncInv<C>(p: Program<C>, s: State<C>) {
    && Sized(p, s)
    && CoordOk(p, s.coord)
    && WorkersOk(p, s)
    && MutexOk(p, s)
    && CounterOk(p, s)
    && StepsOk(p, s)
  }

  // ---------------------------------------------------------------------------------------------
  // The invariant is kept

  lemma InitSync<C>(p: Program<C>, comps: seq<C>)
    requires |comps| == p.n
    ensures SyncInv(p, InitState(p, comps))
  {
    assert Owing(p, InitState(p, comps)) == {};
  }

  /** The program counter of a worker after its step. */
  function NextPc<C>(p: Program<C>, s: State<C>, i: nat): WorkerPc
    requires Sized(p, s) && WorkerEnabled(p, s, i)
  {
    match s.pc[i]
    case WaitStart => Woken
    case Woken => if s.finished[i] then Exited else Stepping
    case Stepping => AtLock
    case AtLock => InLock
    case InLock => if s.count > 0 then Decrement else Unlock
    case Decrement => TestZero
    case TestZero => if s.count == 0 then Signal else Unlock
    case Signal => Unlock
    case Unlock => WaitStart
  }

  /** A worker's step, field by field. */
  lemma WorkerEffect<C>(p: Program<C>, s: State<C>, i: nat)
    requires Sized(p, s) && WorkerEnabled(p, s, i)
    ensures var t := WorkerNext(p, s, i);
      && Sized(p, t)
      && t.coord == s.coord && t.finished == s.finished && t.round == s.round && t.snapshot == s.snapshot
      && t.pc == s.pc[i := NextPc(p, s, i)]
      && t.start == (if s.pc[i] == WaitStart then s.start[i := false] else s.start)
      && t.steps == (if s.pc[i] == Stepping then s.steps[i := s.steps[i] + 1] else s.steps)
      && t.count == (if s.pc[i] == Decrement && s.count > 0 then s.count - 1 else s.count)
      && t.mutexHeld == (s.pc[i] == AtLock || (s.mutexHeld && s.pc[i] != Unlock))
      && t.doneEvent == (s.doneEvent || s.pc[i] == Signal)
      && t.doneSets == (if s.pc[i] == Signal then s.doneSets + 1 else s.doneSets)
  {
    hide WorkerNext, NextPc, Sized;
    WorkerEffectShape(p, s, i);
    WorkerEffectShared(p, s, i);
  }

  lemma WorkerEffectShape<C>(p: Program<C>, s: State<C>, i: nat)
    requires Sized(p, s) && WorkerEnabled(p, s, i)
    ensures var t := WorkerNext(p, s, i);
      && Sized(p, t)
      && t.coord == s.coord && t.finished == s.finished && t.round == s.round && t.snapshot == s.snapshot
      && t.pc == s.pc[i := NextPc(p, s, i)]
      && t.start == (if s.pc[i] == WaitStart then s.start[i := false] else s.start)
      && t.steps == (if s.pc[i] == Stepping then s.steps[i := s.steps[i] + 1] else s.steps)
  {
  }

  lemma WorkerEffectShared<C>(p: Program<C>, s: State<C>, i: nat)
    requires Sized(p, s) && WorkerEnabled(p, s, i)
    ensures var t := WorkerNext(p, s, i);
      && t.count == (if s.pc[i] == Decrement && s.count > 0 then s.count - 1 else s.count)
      && t.mutexHeld == (s.pc[i] == AtLock || (s.mutexHeld && s.pc[i] != Unlock))
      && t.doneEvent == (s.doneEvent || s.pc[i] == Signal)
      && t.doneSets == (if s.pc[i] == Signal then s.doneSets + 1 else s.doneSets)
  {
  }

  lemma WorkerDataEffect<C>(p: Program<C>, s: State<C>, i: nat)
    requires Sized(p, s) && WorkerEnabled(p, s, i)
    ensures var t := WorkerNext(p, s, i);
      if s.pc[i] != Stepping then
        t.comps == s.comps && t.failed == s.failed && t.aComponentFinished == s.aComponentFinished
      else
        var r := p.step(i, s.snapshot, s.comps[i]);
        && t.comps == s.comps[i := r.comp]
        && t.failed == s.failed[i := r.failed]
        && t.aComponentFinished == (s.aComponentFinished || r.finished)
  {
  }

  lemma WorkerKeepsWorkers<C>(p: Program<C>, s: State<C>, i: nat)
    requires SyncInv(p, s) && WorkerEnabled(p, s, i)
    ensures Sized(p, WorkerNext(p, s, i)) && WorkersOk(p, WorkerNext(p, s, i))
  {
    hide MutexOk, StepsOk, CounterOk, CoordOk, WorkerNext;
    WorkerEffect(p, s, i);
    var t := WorkerNext(p, s, i);
    assert WorkerOk(p, s, i);
    forall j: nat | j < p.n
      ensures WorkerOk(p, t, j)
    {
      assert WorkerOk(p, s, j);
    }
  }

  lemma WorkerKeepsMutex<C>(p: Program<C>, s: State<C>, i: nat)
    requires SyncInv(p, s) && WorkerEnabled(p, s, i)
    ensures Sized(p, WorkerNext(p, s, i)) && MutexOk(p, WorkerNext(p, s, i))
  {
    hide WorkersOk, StepsOk, CounterOk, CoordOk, WorkerNext;
    WorkerEffect(p, s, i);
    var t := WorkerNext(p, s, i);
    assert t.pc[i] == NextPc(p, s, i);
    if s.mutexHeld && !HoldsMutex(s.pc[i]) {
      var j: nat :| j < p.n && HoldsMutex(s.pc[j]);
      assert HoldsMutex(t.pc[j]);
    }
  }

  lemma WorkerKeepsSteps<C>(p: Program<C>, s: State<C>, i: nat)
    requires SyncInv(p, s) && WorkerEnabled(p, s, i)
    ensures Sized(p, WorkerNext(p, s, i)) && StepsOk(p, WorkerNext(p, s, i))
  {
    hide MutexOk, CounterOk, CoordOk, WorkerNext;
    WorkerEffect(p, s, i);
    assert WorkerOk(p, s, i);
    hide WorkersOk;
  }

  /** Who owes a decrement changes only when a worker decrements. */
  lemma WorkerKeepsOwing<C>(p: Program<C>, s: State<C>, i: nat)
    requires SyncInv(p, s) && WorkerEnabled(p, s, i)
    ensures Sized(p, WorkerNext(p, s, i))
    ensures Owing(p, WorkerNext(p, s, i)) == Owing(p, s) - (if s.pc[i] == Decrement then {i} else {})
    ensures s.pc[i] in {InLock, Decrement} ==> i in Owing(p, s) && s.count > 0
  {
    hide MutexOk, StepsOk, CoordOk, WorkerNext;
    WorkerEffect(p, s, i);
    var t := WorkerNext(p, s, i);
    assert WorkerOk(p, s, i);
    hide WorkersOk;
    assert t.pc[i] == NextPc(p, s, i);
    assert s.pc[i] in {InLock, Decrement} ==> i in Owing(p, s);
    assert Owes(t, i) <==> Owes(s, i) && s.pc[i] != Decrement;
    assert forall j: nat :: j < p.n && j != i ==> (Owes(t, j) <==> Owes(s, j));
  }

  lemma WorkerKeepsSignal<C>(p: Program<C>, s: State<C>, i: nat)
    requires SyncInv(p, s) && WorkerEnabled(p, s, i)
    ensures Sized(p, WorkerNext(p, s, i))
    ensures AboutToSignal(p, WorkerNext(p, s, i)) <==>
      || s.pc[i] == Decrement
      || (s.pc[i] == TestZero && s.count == 0)
      || (s.pc[i] !in {TestZero, Signal} && AboutToSignal(p, s))
  {
    hide StepsOk, CoordOk, Owing, CounterOk, WorkersOk, WorkerNext;
    WorkerEffect(p, s, i);
    var t := WorkerNext(p, s, i);
    assert t.pc[i] == NextPc(p, s, i);
    assert forall j: nat :: j < p.n && j != i ==> t.pc[j] == s.pc[j];
    if j: nat :| j < p.n && j != i && s.pc[j] in {TestZero, Signal} {
      assert t.pc[j] in {TestZero, Signal};
    }
  }

  lemma WorkerKeepsCounter<C>(p: Program<C>, s: State<C>, i: nat)
    requires SyncInv(p, s) && WorkerEnabled(p, s, i)
    ensures Sized(p, WorkerNext(p, s, i)) && CounterOk(p, WorkerNext(p, s, i))
  {
    hide StepsOk, CoordOk, Owing, AboutToSignal, WorkerNext, MutexOk;
    WorkerEffect(p, s, i);
    var t := WorkerNext(p, s, i);
    assert WorkerOk(p, s, i);
    hide WorkersOk;
    WorkerKeepsOwing(p, s, i);
    WorkerKeepsSignal(p, s, i);
    assert t.pc[i] == NextPc(p, s, i);
    if s.pc[i] in {TestZero, Signal} {
      IsAboutToSignal(p, s, i);
    }
  }

  lemma IsAboutToSignal<C>(p: Program<C>, s: State<C>, i: nat)
    requires Sized(p, s) && i < p.n && s.pc[i] in {TestZero, Signal}
    ensures AboutToSignal(p, s)
  {
  }

  /** From where to where the coordinator moves. */
  predicate CoordMoves<C>(p: Program<C>, c: CoordPc, d: CoordPc) {
    match c
    case Idle => d in {Stopping(0), Setup, Failed}
    case Setup => d == Starting(0)
    case Starting(i) => d == if i < p.n then Starting(i + 1) else Waiting
    case Waiting => d == Checking
    case Checking => d in {Failed, Communicate}
    case Communicate => d in {Idle, Failed}
    case Failed => d == Stopping(0)
    case Stopping(i) => d == if i < p.n then Releasing(i) else Done
    case Releasing(i) => d == Joining(i)
    case Joining(i) => d == Stopping(i + 1)
    case Done => false
  }

  /** A coordinator's step, field by field. */
  lemma CoordEffect<C(!new)>(p: Program<C>, s: State<C>, stop: bool)
    requires ValidProgram(p) && Sized(p, s) && CoordEnabled(p, s) && CoordOk(p, s.coord)
    ensures var t := CoordNext(p, s, stop);
      && Sized(p, t)
      && t.pc == s.pc && t.steps == s.steps && t.mutexHeld == s.mutexHeld && t.doneSets == s.doneSets
      && CoordMoves(p, s.coord, t.coord)
      && t.count == (if s.coord == Setup then p.n else s.count)
      && t.round == (if s.coord == Setup then s.round + 1 else s.round)
      && t.doneEvent == (s.doneEvent && s.coord != Waiting)
      && t.start == (
           if (s.coord.Starting? || s.coord.Releasing?) && s.coord.next < p.n then s.start[s.coord.next := true]
           else s.start)
      && t.finished == (
           if s.coord.Stopping? && s.coord.next < p.n then s.finished[s.coord.next := true] else s.finished)
  {
    hide CoordNext, CoordMoves, ValidProgram;
    CoordEffectShape(p, s, stop);
    CoordEffectSize(p, s, stop);
    CoordEffectPlace(p, s, stop);
    CoordEffectEvents(p, s, stop);
  }

  lemma CoordEffectShape<C(!new)>(p: Program<C>, s: State<C>, stop: bool)
    requires ValidProgram(p) && Sized(p, s) && CoordEnabled(p, s) && CoordOk(p, s.coord)
    ensures var t := CoordNext(p, s, stop);
      t.pc == s.pc && t.steps == s.steps && t.mutexHeld == s.mutexHeld && t.doneSets == s.doneSets
  {
    hide ValidProgram;
  }

  lemma CoordEffectSize<C(!new)>(p: Program<C>, s: State<C>, stop: bool)
    requires ValidProgram(p) && Sized(p, s) && CoordEnabled(p, s) && CoordOk(p, s.coord)
    ensures Sized(p, CoordNext(p, s, stop))
  {
  }

  lemma CoordEffectPlace<C(!new)>(p: Program<C>, s: State<C>, stop: bool)
    requires ValidProgram(p) && Sized(p, s) && CoordEnabled(p, s) && CoordOk(p, s.coord)
    ensures CoordMoves(p, s.coord, CoordNext(p, s, stop).coord)
  {
    hide ValidProgram;
  }

  lemma CoordEffectEvents<C(!new)>(p: Program<C>, s: State<C>, stop: bool)
    requires ValidProgram(p) && Sized(p, s) && CoordEnabled(p, s) && CoordOk(p, s.coord)
    ensures var t := CoordNext(p, s, stop);
      && t.count == (if s.coord == Setup then p.n else s.count)
      && t.round == (if s.coord == Setup then s.round + 1 else s.round)
      && t.doneEvent == (s.doneEvent && s.coord != Waiting)
      && t.start == (
           if (s.coord.Starting? || s.coord.Releasing?) && s.coord.next < p.n then s.start[s.coord.next := true]
           else s.start)
      && t.finished == (
           if s.coord.Stopping? && s.coord.next < p.n then s.finished[s.coord.next := true] else s.finished)
  {
  }

  /** When the coordinator has seen the done event, every worker is at rest again. */
  lemma WaitMeansRest<C>(p: Program<C>, s: State<C>, i: nat)
    requires SyncInv(p, s) && s.coord == Waiting && s.doneEvent && i < p.n
    ensures !s.start[i] && s.pc[i] in {WaitStart, Unlock} && Stepped(s, i)
  {
    hide MutexOk, StepsOk;
    assert Owing(p, s) == {};
    assert i !in Owing(p, s);
    assert !AboutToSignal(p, s);
    assert WorkerOk(p, s, i);
  }

  lemma CoordKeepsWorkers<C(!new)>(p: Program<C>, s: State<C>, stop: bool)
    requires ValidProgram(p) && SyncInv(p, s) && CoordEnabled(p, s)
    ensures Sized(p, CoordNext(p, s, stop)) && WorkersOk(p, CoordNext(p, s, stop))
    ensures CoordOk(p, CoordNext(p, s, stop).coord)
  {
    hide ValidProgram, MutexOk, StepsOk, CounterOk, CoordNext;
    CoordEffect(p, s, stop);
    var t := CoordNext(p, s, stop);
    forall j: nat | j < p.n
      ensures WorkerOk(p, t, j)
    {
      assert WorkerOk(p, s, j);
      if s.coord == Waiting {
        WaitMeansRest(p, s, j);
      }
    }
  }

  lemma CoordKeepsMutex<C(!new)>(p: Program<C>, s: State<C>, stop: bool)
    requires ValidProgram(p) && SyncInv(p, s) && CoordEnabled(p, s)
    ensures Sized(p, CoordNext(p, s, stop)) && MutexOk(p, CoordNext(p, s, stop))
  {
    hide ValidProgram, WorkersOk, StepsOk, CounterOk, CoordNext;
    CoordEffect(p, s, stop);
    assert forall i: nat :: i < p.n ==> CoordNext(p, s, stop).pc[i] == s.pc[i];
  }

  lemma CoordKeepsSteps<C(!new)>(p: Program<C>, s: State<C>, stop: bool)
    requires ValidProgram(p) && SyncInv(p, s) && CoordEnabled(p, s)
    ensures Sized(p, CoordNext(p, s, stop)) && StepsOk(p, CoordNext(p, s, stop))
  {
    hide ValidProgram, MutexOk, CounterOk, CoordNext;
    CoordEffect(p, s, stop);
    var t := CoordNext(p, s, stop);
    forall j: nat | j < p.n
      ensures t.steps[j] == if InRound(t.coord) && !Stepped(t, j) then t.round - 1 else t.round
    {
      assert WorkerOk(p, s, j);
      if s.coord == Waiting {
        WaitMeansRest(p, s, j);
      }
    }
  }

  lemma CoordKeepsOwing<C(!new)>(p: Program<C>, s: State<C>, stop: bool)
    requires ValidProgram(p) && SyncInv(p, s) && CoordEnabled(p, s)
    ensures Sized(p, CoordNext(p, s, stop))
    ensures Owing(p, CoordNext(p, s, stop)) == if s.coord == Setup then Below(p.n) else Owing(p, s)
  {
    hide ValidProgram, MutexOk, StepsOk, CounterOk, CoordNext;
    CoordEffect(p, s, stop);
    var t := CoordNext(p, s, stop);
    forall j: nat | j < p.n
      ensures Owes(t, j) <==> if s.coord == Setup then true else Owes(s, j)
    {
      assert WorkerOk(p, s, j);
      if s.coord == Waiting {
        WaitMeansRest(p, s, j);
      }
    }
  }

  lemma CoordKeepsCounter<C(!new)>(p: Program<C>, s: State<C>, stop: bool)
    requires ValidProgram(p) && SyncInv(p, s) && CoordEnabled(p, s) && p.n > 0
    ensures Sized(p, CoordNext(p, s, stop)) && CounterOk(p, CoordNext(p, s, stop))
  {
    hide ValidProgram, MutexOk, StepsOk, WorkersOk, CoordNext, Owing;
    CoordEffect(p, s, stop);
    CoordKeepsOwing(p, s, stop);
    var t := CoordNext(p, s, stop);
    assert forall i: nat :: i < p.n ==> t.pc[i] == s.pc[i];
    assert AboutToSignal(p, s) <==> AboutToSignal(p, t);
    if s.coord == Setup {
      hide AboutToSignal;
      NoSignalOutside(p, s);
    }
  }

  lemma NoSignalOutside<C>(p: Program<C>, s: State<C>)
    requires SyncInv(p, s) && !InRound(s.coord)
    ensures forall i: nat :: i < p.n ==> s.pc[i] !in {InLock, Decrement, TestZero, Signal}
  {
    hide MutexOk, StepsOk, CounterOk;
    forall i: nat | i < p.n
      ensures s.pc[i] !in {InLock, Decrement, TestZero, Signal}
    {
      assert WorkerOk(p, s, i);
    }
  }

  /** Every step of every party keeps the invariant. */
  lemma NextKeepsSync<C(!new)>(p: Program<C>, s: State<C>, t: State<C>)
    requires ValidProgram(p) && p.n > 0 && SyncInv(p, s) && Next(p, s, t)
    ensures SyncInv(p, t)
  {
    hide ValidProgram, MutexOk, StepsOk, CounterOk, WorkersOk, CoordNext, WorkerNext;
    if i: nat :| WorkerEnabled(p, s, i) && t == WorkerNext(p, s, i) {
      WorkerKeepsWorkers(p, s, i);
      WorkerKeepsMutex(p, s, i);
      WorkerKeepsSteps(p, s, i);
      WorkerKeepsCounter(p, s, i);
      WorkerEffect(p, s, i);
    } else {
      var stop :| CoordEnabled(p, s) && t == CoordNext(p, s, stop);
      CoordKeepsWorkers(p, s, stop);
      CoordKeepsMutex(p, s, stop);
      CoordKeepsSteps(p, s, stop);
      CoordKeepsCounter(p, s, stop);
    }
  }

  /** The invariant holds in every state of every run. */
  lemma {:induction false} RunKeepsSync<C(!new)>(p: Program<C>, comps: seq<C>, run: seq<State<C>>, k: nat)
    requires ValidProgram(p) && p.n > 0 && IsRun(p, comps, run) && k < |run|
    ensures SyncInv(p, run[k])
  {
    hide ValidProgram, SyncInv;
    if k == 0 {
      InitSync(p, comps);
    } else {
      RunKeepsSync(p, comps, run, k - 1);
      NextKeepsSync(p, run[k - 1], run[k]);
    }
  }

  // ---------------------------------------------------------------------------------------------
  // What the barrier guarantees

  /**
    When the coordinator passes `Wait` in round `k`, every worker has completed exactly `k`
    communication steps, none is inside one, and none can begin another before it is started again.
  */
  lemma WaitPassesAfterAllSteps<C(!new)>(p: Program<C>, comps: seq<C>, run: seq<State<C>>, k: nat, i: nat)
    requires ValidProgram(p) && p.n > 0 && IsRun(p, comps, run) && k < |run| && i < p.n
    requires run[k].coord == Waiting && CoordEnabled(p, run[k])
    ensures run[k].steps[i] == run[k].round
    ensures run[k].pc[i] in {WaitStart, Unlock} && !run[k].start[i]
  {
    hide ValidProgram, MutexOk, CounterOk, WorkersOk;
    RunKeepsSync(p, comps, run, k);
    WaitMeansRest(p, run[k], i);
  }

  /** No worker is in a communication step that it was not started for in this very round. */
  lemma NoEarlyStep<C(!new)>(p: Program<C>, comps: seq<C>, run: seq<State<C>>, k: nat, i: nat)
    requires ValidProgram(p) && p.n > 0 && IsRun(p, comps, run) && k < |run| && i < p.n
    requires run[k].pc[i] == Stepping
    ensures InRound(run[k].coord) && !Unstarted(run[k].coord, i)
    ensures run[k].steps[i] + 1 == run[k].round
  {
    hide ValidProgram, MutexOk;
    RunKeepsSync(p, comps, run, k);
    assert WorkerOk(p, run[k], i);
  }

  /**
    The set-up of the counter needs no mutex: while the coordinator writes it, no worker is between
    taking the mutex and its last access to the counter.
  */
  lemma SetupNeverRaces<C(!new)>(p: Program<C>, comps: seq<C>, run: seq<State<C>>, k: nat, i: nat)
    requires ValidProgram(p) && p.n > 0 && IsRun(p, comps, run) && k < |run| && i < p.n
    requires run[k].coord == Setup
    ensures run[k].pc[i] !in {AtLock, InLock, Decrement, TestZero, Signal}
    ensures run[k].count == 0 && !run[k].doneEvent
  {
    hide ValidProgram, MutexOk, StepsOk;
    RunKeepsSync(p, comps, run, k);
    assert WorkerOk(p, run[k], i);
    assert Owing(p, run[k]) == {};
  }

  /** The done event is set once per round, and no event is ever set while it is still set. */
  lemma NoWakeupLost<C(!new)>(p: Program<C>, comps: seq<C>, run: seq<State<C>>, k: nat, i: nat)
    requires ValidProgram(p) && p.n > 0 && IsRun(p, comps, run) && k < |run| && i < p.n
    ensures run[k].pc[i] == Signal ==> !run[k].doneEvent && run[k].doneSets + 1 == run[k].round
    ensures run[k].coord in {Starting(i), Releasing(i)} ==> !run[k].start[i]
    ensures run[k].coord == Checking ==> run[k].doneSets == run[k].round
  {
    hide ValidProgram, MutexOk, StepsOk;
    RunKeepsSync(p, comps, run, k);
    assert WorkerOk(p, run[k], i);
    if run[k].pc[i] == Signal {
      IsAboutToSignal(p, run[k], i);
    }
  }

  /** During a round the counter is the number of workers that have not decremented it yet. */
  lemma CountIsOwing<C(!new)>(p: Program<C>, comps: seq<C>, run: seq<State<C>>, k: nat)
    requires ValidProgram(p) && p.n > 0 && IsRun(p, comps, run) && k < |run|
    ensures Sized(p, run[k]) && run[k].count == |Owing(p, run[k])|
  {
    hide ValidProgram, MutexOk, StepsOk, WorkersOk;
    RunKeepsSync(p, comps, run, k);
  }

  /** Some party can always take a step until the destructor has finished. */
  lemma NoDeadlock<C(!new)>(p: Program<C>, s: State<C>)
    requires ValidProgram(p) && p.n > 0 && SyncInv(p, s) && s.coord != Done
    ensures CoordEnabled(p, s) || exists i: nat :: WorkerEnabled(p, s, i)
  {
    hide ValidProgram, StepsOk;
    if s.mutexHeld {
      var h: nat :| h < p.n && HoldsMutex(s.pc[h]);
      assert WorkerEnabled(p, s, h);
    } else if s.coord == Waiting && !s.doneEvent {
      assert !AboutToSignal(p, s);
      NonEmpty(Owing(p, s));
      var i :| i in Owing(p, s);
      assert WorkerOk(p, s, i);
      assert WorkerEnabled(p, s, i);
    } else if s.coord.Joining? && s.pc[s.coord.next] != Exited {
      assert WorkerOk(p, s, s.coord.next);
      assert WorkerEnabled(p, s, s.coord.next);
    }
  }

  lemma NonEmpty(s: set<nat>)
    requires |s| > 0
    ensures exists x :: x in s
  {
  }

  /** Without workers nobody ever sets the done event. */
  lemma {:induction false} EmptyNeverDone<C(!new)>(p: Program<C>, comps: seq<C>, run: seq<State<C>>, k: nat)
    requires ValidProgram(p) && p.n == 0 && IsRun(p, comps, run) && k < |run|
    ensures !run[k].doneEvent
  {
    hide ValidProgram;
    if k > 0 {
      EmptyNeverDone(p, comps, run, k - 1);
      assert Next(p, run[k - 1], run[k]);
    }
  }

  /** With an empty evaluation list the first round reaches `Wait`, and no step follows. */
  lemma EmptyListBlocks<C(!new)>(p: Program<C>) returns (run: seq<State<C>>)
    requires ValidProgram(p) && p.n == 0 && p.prepare([]).ok
    ensures IsRun(p, [], run) && run[|run| - 1].coord == Waiting
    ensures !CoordEnabled(p, run[|run| - 1]) && |run[|run| - 1].pc| == 0
  {
    var s0 := InitState(p, []);
    var s1 := CoordNext(p, s0, false);
    var s2 := CoordNext(p, s1, false);
    var s3 := CoordNext(p, s2, false);
    run := [s0, s1, s2, s3];
    assert Next(p, s0, s1) && Next(p, s1, s2) && Next(p, s2, s3);
    EmptyNeverDone(p, [], run, 3);
  }

  /** Once the destructor runs, no worker enters a communication step; when it is done, all have exited. */
  lemma ShutdownIsQuiet<C(!new)>(p: Program<C>, comps: seq<C>, run: seq<State<C>>, k: nat, i: nat)
    requires ValidProgram(p) && p.n > 0 && IsRun(p, comps, run) && k < |run| && i < p.n
    requires ShuttingDown(run[k].coord)
    ensures run[k].pc[i] in {WaitStart, Unlock, Woken, Exited} && run[k].steps[i] == run[k].round
    ensures run[k].pc[i] == Woken ==> run[k].finished[i]
    ensures run[k].coord == Done ==> run[k].pc[i] == Exited
    ensures k + 1 < |run| ==> ShuttingDown(run[k + 1].coord) && run[k + 1].round == run[k].round
  {
    hide ValidProgram, MutexOk, CounterOk;
    RunKeepsSync(p, comps, run, k);
    assert WorkerOk(p, run[k], i);
    if k + 1 < |run| {
      ShutdownStays(p, run[k], run[k + 1]);
    }
  }

  lemma ShutdownStays<C(!new)>(p: Program<C>, s: State<C>, t: State<C>)
    requires ValidProgram(p) && SyncInv(p, s) && Next(p, s, t) && ShuttingDown(s.coord)
    ensures ShuttingDown(t.coord) && t.round == s.round
  {
    hide ValidProgram, MutexOk, CounterOk, WorkersOk, StepsOk, CoordNext, WorkerNext;
    if i: nat :| WorkerEnabled(p, s, i) && t == WorkerNext(p, s, i) {
      WorkerEffect(p, s, i);
    } else {
      var stop :| CoordEnabled(p, s) && t == CoordNext(p, s, stop);
      CoordEffect(p, s, stop);
    }
  }

  // ---------------------------------------------------------------------------------------------
  // Progress: every step of a round, or of the shutdown, uses up some of a bounded rank

  predicate Busy(c: CoordPc) {
    c.Setup? || InRound(c) || c.Stopping? || c.Releasing? || c.Joining?
  }

  function PcRank(pc: WorkerPc): nat {
    match pc
    case WaitStart => 0
    case Woken => 8
    case Stepping => 7
    case AtLock => 6
    case InLock => 5
    case Decrement => 4
    case TestZero => 3
    case Signal => 2
    case Unlock => 1
    case Exited => 0
  }

  /** An upper bound of the steps worker `i` can still take before it is at rest. */
  function WorkerRank<C>(s: State<C>, i: nat): nat
    requires i < |s.pc| == |s.start|
  {
    (if Unstarted(s.coord, i) then 10 else if s.start[i] then 9 else 0) + PcRank(s.pc[i])
  }

  function SumRanks<C>(s: State<C>, k: nat): nat
    requires k <= |s.pc| == |s.start|
  {
    if k == 0 then 0 else SumRanks(s, k - 1) + WorkerRank(s, k - 1)
  }

  function CoordRank(n: nat, c: CoordPc): int {
    match c
    case Setup => n + 3
    case Starting(j) => n - j + 2
    case Waiting => 1
    case Stopping(j) => 3 * (n - j) + 1
    case Releasing(j) => 3 * (n - j)
    case Joining(j) => 3 * (n - j) - 1
    case _ => 0
  }

  function Rank<C>(p: Program<C>, s: State<C>): int
    requires Sized(p, s)
  {
    CoordRank(p.n, s.coord) + SumRanks(s, p.n)
  }

  lemma {:induction false} SumDrops<C>(s: State<C>, t: State<C>, k: nat)
    requires k <= |s.pc| == |s.start| == |t.pc| == |t.start|
    requires forall i: nat :: i < k ==> WorkerRank(t, i) <= WorkerRank(s, i)
    ensures SumRanks(t, k) <= SumRanks(s, k)
    ensures (exists i: nat :: i < k && WorkerRank(t, i) < WorkerRank(s, i)) ==> SumRanks(t, k) < SumRanks(s, k)
  {
    if k > 0 {
      SumDrops(s, t, k - 1);
    }
  }

  lemma WorkerRankDrops<C>(p: Program<C>, s: State<C>, i: nat)
    requires SyncInv(p, s) && WorkerEnabled(p, s, i)
    ensures Sized(p, WorkerNext(p, s, i)) && Rank(p, WorkerNext(p, s, i)) < Rank(p, s)
  {
    hide MutexOk, CounterOk, StepsOk, WorkerNext;
    WorkerEffect(p, s, i);
    var t := WorkerNext(p, s, i);
    assert WorkerOk(p, s, i);
    assert t.pc[i] == NextPc(p, s, i);
    assert WorkerRank(t, i) < WorkerRank(s, i);
    SumDrops(s, t, p.n);
  }

  lemma CoordRankDrops<C(!new)>(p: Program<C>, s: State<C>, stop: bool)
    requires ValidProgram(p) && SyncInv(p, s) && CoordEnabled(p, s) && Busy(s.coord)
    ensures Sized(p, CoordNext(p, s, stop)) && Rank(p, CoordNext(p, s, stop)) < Rank(p, s)
  {
    hide ValidProgram, WorkersOk, MutexOk, CounterOk, StepsOk, CoordNext, WorkerRank;
    CoordEffect(p, s, stop);
    var t := CoordNext(p, s, stop);
    forall j: nat | j < p.n
      ensures WorkerRank(t, j) <= WorkerRank(s, j)
    {
      CoordKeepsRank(p, s, stop, j);
    }
    SumDrops(s, t, p.n);
  }

  lemma CoordKeepsRank<C(!new)>(p: Program<C>, s: State<C>, stop: bool, j: nat)
    requires ValidProgram(p) && SyncInv(p, s) && CoordEnabled(p, s) && Busy(s.coord) && j < p.n
    ensures Sized(p, CoordNext(p, s, stop)) && WorkerRank(CoordNext(p, s, stop), j) <= WorkerRank(s, j)
  {
    hide ValidProgram, MutexOk, CounterOk, StepsOk, CoordNext;
    CoordEffect(p, s, stop);
    assert WorkerOk(p, s, j);
  }

  lemma RankDrops<C(!new)>(p: Program<C>, s: State<C>, t: State<C>)
    requires ValidProgram(p) && SyncInv(p, s) && Next(p, s, t) && Busy(s.coord)
    ensures Sized(p, t) && Rank(p, t) < Rank(p, s)
  {
    hide ValidProgram, MutexOk, CounterOk, StepsOk, WorkersOk, CoordNext, WorkerNext, Rank;
    if i: nat :| WorkerEnabled(p, s, i) && t == WorkerNext(p, s, i) {
      WorkerRankDrops(p, s, i);
    } else {
      var stop :| CoordEnabled(p, s) && t == CoordNext(p, s, stop);
      CoordRankDrops(p, s, stop);
    }
  }

  lemma {:induction false} RankBounds<C>(p: Program<C>, s: State<C>, k: nat)
    requires SyncInv(p, s) && k <= p.n
    ensures 0 <= SumRanks(s, k)
    ensures s.coord == Setup ==> SumRanks(s, k) <= 11 * k
    ensures CoordRank(p.n, s.coord) >= 0
  {
    hide MutexOk, CounterOk, StepsOk;
    if k > 0 {
      RankBounds(p, s, k - 1);
      assert WorkerOk(p, s, k - 1);
    }
  }

  /** A stretch of a run inside one round, or inside the shutdown, is no longer than its rank allows. */
  lemma {:induction false} BusyIsBounded<C(!new)>(p: Program<C>, comps: seq<C>, run: seq<State<C>>, a: nat, b: nat)
    requires ValidProgram(p) && p.n > 0 && IsRun(p, comps, run) && a <= b < |run|
    requires forall k :: a <= k < b ==> Busy(run[k].coord)
    ensures b - a + Rank(p, run[b]) <= Rank(p, run[a])
    ensures 0 <= Rank(p, run[b])
  {
    hide ValidProgram, SyncInv, Next;
    RunKeepsSync(p, comps, run, b);
    RankBounds(p, run[b], p.n);
    if a < b {
      BusyIsBounded(p, comps, run, a, b - 1);
      RunKeepsSync(p, comps, run, b - 1);
      RankDrops(p, run[b - 1], run[b]);
    }
  }

  /**
    Whatever the scheduling, `Wait` returns at the latest `12 * n + 3` steps after the counter is set
    up: no run stays in the round longer, and by `NoDeadlock` none gets stuck in it.
  */
  lemma RoundEnds<C(!new)>(p: Program<C>, comps: seq<C>, run: seq<State<C>>, a: nat, b: nat)
    requires ValidProgram(p) && p.n > 0 && IsRun(p, comps, run) && a <= b < |run|
    requires run[a].coord == Setup && forall k :: a <= k < b ==> Busy(run[k].coord)
    ensures b - a <= 12 * p.n + 3
  {
    hide ValidProgram, SyncInv, IsRun;
    RunKeepsSync(p, comps, run, a);
    RankBounds(p, run[a], p.n);
    BusyIsBounded(p, comps, run, a, b);
  }

  // ---------------------------------------------------------------------------------------------
  // The threads compute what the serial sweep computes

  /** The state before the round in progress, computed serially. */
  ghost function Before<C(!new)>(p: Program<C>, comps: seq<C>, s: State<C>): (r: Serial<C>)
    requires ValidProgram(p) && |comps| == p.n
    ensures |r.comps| == p.n
  {
    SerialRun(p, comps, if s.round > 0 then s.round - 1 else 0)
  }

  /** In a round the snapshot is fixed, and every worker has applied its step to its own component or nothing. */
  ghost predicate MidRound<C(!new)>(p: Program<C>, before: Serial<C>, s: State<C>)
    requires ValidProgram(p) && Sized(p, s) && |before.comps| == p.n
  {
    && before.ok
    && p.prepare(before.comps) == Phase(s.snapshot, true)
    && (forall i: nat :: i < p.n && Stepped(s, i) ==>
          s.comps[i] == StepOf(p, s.snapshot, i).comp && s.failed[i] == StepOf(p, s.snapshot, i).failed)
    && (forall i: nat :: i < p.n && !Stepped(s, i) ==> s.comps[i] == s.snapshot[i] && !s.failed[i])
    && (s.aComponentFinished <==>
          before.aComponentFinished || exists i: nat :: i < p.n && Stepped(s, i) && StepOf(p, s.snapshot, i).finished)
  }

  ghost predicate BetweenRounds<C(!new)>(p: Program<C>, now: Serial<C>, s: State<C>)
    requires ValidProgram(p) && Sized(p, s) && |now.comps| == p.n
  {
    && now == Serial(s.comps, s.aComponentFinished, true)
    && true !in s.failed
  }

  ghost predicate Prepared<C(!new)>(p: Program<C>, now: Serial<C>, s: State<C>)
    requires ValidProgram(p) && Sized(p, s) && |now.comps| == p.n
  {
    && now.ok
    && p.prepare(now.comps) == Phase(s.comps, true)
    && s.snapshot == s.comps
    && now.aComponentFinished == s.aComponentFinished
    && true !in s.failed
  }

  ghost predicate DataInv<C(!new)>(p: Program<C>, comps: seq<C>, s: State<C>)
    requires ValidProgram(p) && Sized(p, s) && |comps| == p.n
  {
    match s.coord
    case Idle => BetweenRounds(p, SerialRun(p, comps, s.round), s)
    case Setup => Prepared(p, SerialRun(p, comps, s.round), s)
    case Starting(_) => MidRound(p, Before(p, comps, s), s)
    case Waiting => MidRound(p, Before(p, comps, s), s)
    case Checking => MidRound(p, Before(p, comps, s), s)
    case Communicate => MidRound(p, Before(p, comps, s), s) && true !in s.failed
    case Failed => !SerialRun(p, comps, s.round + 1).ok
    case _ => BetweenRounds(p, SerialRun(p, comps, s.round), s) || !SerialRun(p, comps, s.round + 1).ok
  }

  lemma InitData<C(!new)>(p: Program<C>, comps: seq<C>)
    requires ValidProgram(p) && |comps| == p.n
    ensures DataInv(p, comps, InitState(p, comps))
  {
    var s := InitState(p, comps);
    assert s.round == 0 && SerialRun(p, comps, 0) == Serial(comps, false, true);
  }

  /** Which workers have stepped changes only when one completes its communication step. */
  lemma WorkerStepped<C>(p: Program<C>, s: State<C>, i: nat)
    requires SyncInv(p, s) && WorkerEnabled(p, s, i)
    ensures Sized(p, WorkerNext(p, s, i))
    ensures forall j: nat :: j < p.n && j != i ==> (Stepped(WorkerNext(p, s, i), j) <==> Stepped(s, j))
    ensures !ShuttingDown(s.coord) ==> (Stepped(WorkerNext(p, s, i), i) <==> Stepped(s, i) || s.pc[i] == Stepping)
    ensures s.pc[i] == Stepping ==> InRound(s.coord) && !Stepped(s, i)
  {
    hide MutexOk, CounterOk, StepsOk, WorkerNext;
    WorkerEffect(p, s, i);
    var t := WorkerNext(p, s, i);
    assert WorkerOk(p, s, i);
    assert t.pc[i] == NextPc(p, s, i);
  }

  lemma WorkerKeepsData<C(!new)>(p: Program<C>, comps: seq<C>, s: State<C>, i: nat)
    requires ValidProgram(p) && |comps| == p.n && SyncInv(p, s) && WorkerEnabled(p, s, i) && DataInv(p, comps, s)
    ensures Sized(p, WorkerNext(p, s, i)) && DataInv(p, comps, WorkerNext(p, s, i))
  {
    hide ValidProgram, MutexOk, CounterOk, StepsOk, WorkersOk, WorkerNext, SerialRun, Stepped;
    var t := WorkerNext(p, s, i);
    WorkerEffect(p, s, i);
    WorkerDataEffect(p, s, i);
    WorkerStepped(p, s, i);
    if s.pc[i] == Stepping {
      StepKeepsRound(p, Before(p, comps, s), s, i);
    }
  }

  lemma StepKeepsRound<C(!new)>(p: Program<C>, before: Serial<C>, s: State<C>, i: nat)
    requires ValidProgram(p) && SyncInv(p, s) && WorkerEnabled(p, s, i) && s.pc[i] == Stepping
    requires |before.comps| == p.n && MidRound(p, before, s)
    ensures Sized(p, WorkerNext(p, s, i)) && MidRound(p, before, WorkerNext(p, s, i))
  {
    hide ValidProgram, MutexOk, CounterOk, StepsOk, WorkersOk, WorkerNext, Stepped;
    var t := WorkerNext(p, s, i);
    WorkerEffect(p, s, i);
    WorkerDataEffect(p, s, i);
    WorkerStepped(p, s, i);
    assert s.comps[i] == s.snapshot[i];
    assert Stepped(t, i);
    if j: nat :| j < p.n && Stepped(s, j) && StepOf(p, s.snapshot, j).finished {
      assert Stepped(t, j);
    }
  }

  /** An error is for ever. */
  lemma SerialErrorStays<C(!new)>(p: Program<C>, comps: seq<C>, k: nat)
    requires ValidProgram(p) && |comps| == p.n && !SerialRun(p, comps, k).ok
    ensures !SerialRun(p, comps, k + 1).ok
  {
  }

  /** After `Wait` all workers have stepped, so the round has computed what the serial sweep computes. */
  lemma AllStepped<C(!new)>(p: Program<C>, before: Serial<C>, s: State<C>)
    requires ValidProgram(p) && SyncInv(p, s) && |before.comps| == p.n && MidRound(p, before, s)
    requires s.coord in {Checking, Communicate}
    ensures s.comps == seq(p.n, i requires 0 <= i < p.n => StepOf(p, s.snapshot, i).comp)
    ensures true in s.failed <==> exists i :: 0 <= i < p.n && StepOf(p, s.snapshot, i).failed
    ensures s.aComponentFinished <==>
      before.aComponentFinished || exists i :: 0 <= i < p.n && StepOf(p, s.snapshot, i).finished
  {
    hide ValidProgram, MutexOk, CounterOk, StepsOk;
    forall i: nat | i < p.n
      ensures Stepped(s, i)
    {
      assert WorkerOk(p, s, i);
    }
    hide Stepped, WorkersOk, StepOf;
    if i :| 0 <= i < p.n && StepOf(p, s.snapshot, i).failed {
      assert s.failed[i];
    }
    if true in s.failed {
      var i :| 0 <= i < p.n && s.failed[i];
      assert StepOf(p, s.snapshot, i).failed;
    }
  }

  lemma RoundMatches<C(!new)>(p: Program<C>, comps: seq<C>, s: State<C>)
    requires ValidProgram(p) && |comps| == p.n && SyncInv(p, s) && s.round > 0
    requires s.coord in {Checking, Communicate} && MidRound(p, Before(p, comps, s), s)
    ensures true in s.failed ==> !SerialRun(p, comps, s.round).ok
    ensures true !in s.failed ==>
      SerialRun(p, comps, s.round) ==
        if p.enter(s.comps).ok then Serial(p.enter(s.comps).comps, s.aComponentFinished, true)
        else Before(p, comps, s).(ok := false)
  {
    hide SyncInv, StepOf;
    var before := Before(p, comps, s);
    AllStepped(p, before, s);
    assert SerialRun(p, comps, s.round) == SerialRound(p, before);
  }

  lemma SetupStartsRound<C(!new)>(p: Program<C>, comps: seq<C>, s: State<C>)
    requires ValidProgram(p) && |comps| == p.n && SyncInv(p, s) && s.coord == Setup
    requires Prepared(p, SerialRun(p, comps, s.round), s)
    ensures var t := CoordNext(p, s, false); Sized(p, t) && MidRound(p, Before(p, comps, t), t)
  {
    hide WorkersOk, MutexOk, CounterOk, StepsOk, ValidProgram;
    var t := CoordNext(p, s, false);
    assert t.coord == Starting(0) && t.failed == s.failed && t.round == s.round + 1;
    assert forall i: nat :: i < p.n ==> !Stepped(t, i);
  }

  /** A state differing only where the data invariant does not look. */
  lemma MidRoundSame<C(!new)>(p: Program<C>, before: Serial<C>, s: State<C>, t: State<C>)
    requires ValidProgram(p) && Sized(p, s) && Sized(p, t) && |before.comps| == p.n && MidRound(p, before, s)
    requires t.comps == s.comps && t.snapshot == s.snapshot && t.failed == s.failed
    requires t.aComponentFinished == s.aComponentFinished
    requires forall i: nat :: i < p.n ==> (Stepped(s, i) <==> Stepped(t, i))
    ensures MidRound(p, before, t)
  {
    hide Stepped, StepOf;
  }

  lemma RoundStepped<C(!new)>(p: Program<C>, s: State<C>, stop: bool)
    requires ValidProgram(p) && SyncInv(p, s) && CoordEnabled(p, s) && (InRound(s.coord) || s.coord == Checking)
    ensures var t := CoordNext(p, s, stop);
      && Sized(p, t)
      && (forall i: nat :: i < p.n ==> (Stepped(s, i) <==> Stepped(t, i)))
      && t.comps == s.comps && t.snapshot == s.snapshot && t.failed == s.failed
      && t.aComponentFinished == s.aComponentFinished && t.round == s.round
  {
    hide ValidProgram, MutexOk, CounterOk, StepsOk;
    CoordEffect(p, s, stop);
    var t := CoordNext(p, s, stop);
    forall i: nat | i < p.n
      ensures Stepped(s, i) <==> Stepped(t, i)
    {
      assert WorkerOk(p, s, i);
    }
  }

  lemma RoundKeepsData<C(!new)>(p: Program<C>, comps: seq<C>, s: State<C>, stop: bool)
    requires ValidProgram(p) && |comps| == p.n && SyncInv(p, s) && CoordEnabled(p, s) && DataInv(p, comps, s)
    requires InRound(s.coord) || s.coord == Checking
    ensures Sized(p, CoordNext(p, s, stop)) && DataInv(p, comps, CoordNext(p, s, stop))
  {
    var t := CoordNext(p, s, stop);
    CoordEffect(p, s, stop);
    RoundStepped(p, s, stop);
    assert s.round > 0 by { hide *; RoundPositive(p, s); }
    hide SyncInv, MidRound, SerialRun, Stepped, CoordNext, ValidProgram;
    MidRoundSame(p, Before(p, comps, s), s, t);
    if s.coord == Checking {
      RoundMatches(p, comps, s);
      if true in s.failed {
        SerialErrorStays(p, comps, s.round);
      }
      CheckingGoes(p, s, stop);
    }
  }

  lemma RoundPositive<C>(p: Program<C>, s: State<C>)
    requires SyncInv(p, s) && (InRound(s.coord) || s.coord in {Checking, Communicate})
    ensures s.round > 0
  {
    hide MutexOk, StepsOk, WorkersOk;
  }

  lemma CheckingGoes<C(!new)>(p: Program<C>, s: State<C>, stop: bool)
    requires ValidProgram(p) && Sized(p, s) && CoordEnabled(p, s) && s.coord == Checking
    ensures CoordNext(p, s, stop).coord == if true in s.failed then Failed else Communicate
  {
  }

  lemma CommunicateKeepsData<C(!new)>(p: Program<C>, comps: seq<C>, s: State<C>, stop: bool)
    requires ValidProgram(p) && |comps| == p.n && SyncInv(p, s) && CoordEnabled(p, s) && DataInv(p, comps, s)
    requires s.coord == Communicate
    ensures Sized(p, CoordNext(p, s, stop)) && DataInv(p, comps, CoordNext(p, s, stop))
  {
    RoundPositive(p, s);
    hide SyncInv, MidRound, SerialRun;
    RoundMatches(p, comps, s);
    if !p.enter(s.comps).ok {
      SerialErrorStays(p, comps, s.round);
    }
  }

  lemma IdleKeepsData<C(!new)>(p: Program<C>, comps: seq<C>, s: State<C>, stop: bool)
    requires ValidProgram(p) && |comps| == p.n && SyncInv(p, s) && CoordEnabled(p, s) && DataInv(p, comps, s)
    requires s.coord == Idle
    ensures Sized(p, CoordNext(p, s, stop)) && DataInv(p, comps, CoordNext(p, s, stop))
  {
    hide WorkersOk, MutexOk, CounterOk, StepsOk, MidRound;
    if !stop && !p.prepare(s.comps).ok {
      assert SerialRun(p, comps, s.round + 1) == SerialRound(p, SerialRun(p, comps, s.round));
    }
  }

  lemma SetupKeepsData<C(!new)>(p: Program<C>, comps: seq<C>, s: State<C>, stop: bool)
    requires ValidProgram(p) && |comps| == p.n && SyncInv(p, s) && CoordEnabled(p, s) && DataInv(p, comps, s)
    requires s.coord == Setup
    ensures Sized(p, CoordNext(p, s, stop)) && DataInv(p, comps, CoordNext(p, s, stop))
  {
    hide SerialRun, MidRound;
    SetupStartsRound(p, comps, s);
  }

  lemma ShutdownKeepsData<C(!new)>(p: Program<C>, comps: seq<C>, s: State<C>, stop: bool)
    requires ValidProgram(p) && |comps| == p.n && SyncInv(p, s) && CoordEnabled(p, s) && DataInv(p, comps, s)
    requires ShuttingDown(s.coord) || s.coord == Failed
    ensures Sized(p, CoordNext(p, s, stop)) && DataInv(p, comps, CoordNext(p, s, stop))
  {
    hide SerialRun, MidRound, Prepared, SerialRound, ValidProgram, WorkersOk, MutexOk, CounterOk, StepsOk;
  }

  lemma CoordKeepsData<C(!new)>(p: Program<C>, comps: seq<C>, s: State<C>, stop: bool)
    requires ValidProgram(p) && |comps| == p.n && SyncInv(p, s) && CoordEnabled(p, s) && DataInv(p, comps, s)
    ensures Sized(p, CoordNext(p, s, stop)) && DataInv(p, comps, CoordNext(p, s, stop))
  {
    hide SyncInv, DataInv, CoordNext, ValidProgram;
    match s.coord
    case Idle => IdleKeepsData(p, comps, s, stop);
    case Setup => SetupKeepsData(p, comps, s, stop);
    case Starting(_) => RoundKeepsData(p, comps, s, stop);
    case Waiting => RoundKeepsData(p, comps, s, stop);
    case Checking => RoundKeepsData(p, comps, s, stop);
    case Communicate => CommunicateKeepsData(p, comps, s, stop);
    case _ => ShutdownKeepsData(p, comps, s, stop);
  }

  lemma {:induction false} RunKeepsData<C(!new)>(p: Program<C>, comps: seq<C>, run: seq<State<C>>, k: nat)
    requires ValidProgram(p) && p.n > 0 && IsRun(p, comps, run) && k < |run|
    ensures DataInv(p, comps, run[k])
  {
    hide ValidProgram, SyncInv, DataInv, WorkerNext, CoordNext;
    if k == 0 {
      InitData(p, comps);
    } else {
      RunKeepsData(p, comps, run, k - 1);
      RunKeepsSync(p, comps, run, k - 1);
      var s, t := run[k - 1], run[k];
      if i: nat :| WorkerEnabled(p, s, i) && t == WorkerNext(p, s, i) {
        WorkerKeepsData(p, comps, s, i);
      } else {
        var stop :| CoordEnabled(p, s) && t == CoordNext(p, s, stop);
        CoordKeepsData(p, comps, s, stop);
      }
    }
  }

  /**
    Between rounds, in every interleaving, the components and the finish flag are what as many serial
    rounds compute; and the threaded simulation stops with an error only if the serial one does.
  */
  lemma ThreadsMatchSerial<C(!new)>(p: Program<C>, comps: seq<C>, run: seq<State<C>>, k: nat)
    requires ValidProgram(p) && p.n > 0 && IsRun(p, comps, run) && k < |run|
    ensures run[k].coord == Idle ==>
      SerialRun(p, comps, run[k].round) == Serial(run[k].comps, run[k].aComponentFinished, true)
    ensures run[k].coord == Failed ==> !SerialRun(p, comps, run[k].round + 1).ok
  {
    hide ValidProgram, SyncInv, SerialRun;
    RunKeepsData(p, comps, run, k);
  }

  // ---------------------------------------------------------------------------------------------
  // What a round is, told by the program alone

  /** The components at a communication point, and whether one of them has finished so far. */
  datatype Point<+C> = Point(comps: seq<C>, aComponentFinished: bool)

  /** `stepped` holds every component of `mid` after its step, none of which failed. */
  ghost predicate AllDidStep<C>(p: Program<C>, mid: seq<C>, stepped: seq<C>) {
    && |mid| == |stepped| == p.n
    && forall i :: 0 <= i < p.n ==>
         !p.step(i, mid, mid[i]).failed && stepped[i] == p.step(i, mid, mid[i]).comp
  }

  /** A round prepares all components, steps each of them as it stands then, and lets them communicate. */
  ghost predicate IsRound<C(!new)>(p: Program<C>, a: Point<C>, b: Point<C>) {
    exists mid: seq<C>, stepped: seq<C> ::
      && p.prepare(a.comps) == Phase(mid, true)
      && AllDidStep(p, mid, stepped)
      && p.enter(stepped) == Phase(b.comps, true)
      && (b.aComponentFinished <==>
            a.aComponentFinished || exists i :: 0 <= i < p.n && p.step(i, mid, mid[i]).finished)
  }

  ghost predicate NoRoundFrom<C(!new)>(p: Program<C>, a: Point<C>) {
    forall b :: !IsRound(p, a, b)
  }

  ghost predicate IsPointHistory<C(!new)>(p: Program<C>, h: seq<Point<C>>) {
    forall j :: 0 <= j < |h| - 1 ==> IsRound(p, h[j], h[j + 1])
  }

  /** The serial round is such a round, and it fails exactly when there is none. */
  lemma SerialRoundIff<C(!new)>(p: Program<C>, s: Serial<C>, b: Point<C>)
    requires ValidProgram(p) && |s.comps| == p.n && s.ok
    ensures SerialRound(p, s) == Serial(b.comps, b.aComponentFinished, true) <==>
      IsRound(p, Point(s.comps, s.aComponentFinished), b)
  {
    var a, r := Point(s.comps, s.aComponentFinished), p.prepare(s.comps);
    var mid := r.comps;
    forall i | 0 <= i < p.n
      ensures StepOf(p, mid, i) == p.step(i, mid, mid[i])
    {
    }
    if SerialRound(p, s) == Serial(b.comps, b.aComponentFinished, true) {
      var stepped := seq(p.n, i requires 0 <= i < p.n => StepOf(p, mid, i).comp);
      assert AllDidStep(p, mid, stepped);
      assert p.prepare(a.comps) == Phase(mid, true) && p.enter(stepped) == Phase(b.comps, true);
    }
    if IsRound(p, a, b) {
      var mid', stepped: seq<C> :| p.prepare(a.comps) == Phase(mid', true) && AllDidStep(p, mid', stepped) &&
        p.enter(stepped) == Phase(b.comps, true) &&
        (b.aComponentFinished <==>
           a.aComponentFinished || exists i :: 0 <= i < p.n && p.step(i, mid', mid'[i]).finished);
      assert stepped == seq(p.n, i requires 0 <= i < p.n => StepOf(p, mid, i).comp);
    }
  }

  /** The communication points of a serial run without an error. */
  lemma {:induction false} SerialPoints<C(!new)>(p: Program<C>, comps: seq<C>, n: nat) returns (h: seq<Point<C>>)
    requires ValidProgram(p) && |comps| == p.n && SerialRun(p, comps, n).ok
    ensures |h| == n + 1 && h[0] == Point(comps, false) && IsPointHistory(p, h)
    ensures SerialRun(p, comps, n) == Serial(h[n].comps, h[n].aComponentFinished, true)
  {
    if n == 0 {
      h := [Point(comps, false)];
      assert SerialRun(p, comps, 0) == Serial(comps, false, true);
    } else {
      hide SerialRun, SerialRound, IsRound, ValidProgram, IsPointHistory;
      var b := LastRound(p, comps, n);
      var g := SerialPoints(p, comps, n - 1);
      PointHistoryGrows(p, g, b);
      h := g + [b];
    }
  }

  lemma LastRound<C(!new)>(p: Program<C>, comps: seq<C>, n: nat) returns (b: Point<C>)
    requires ValidProgram(p) && |comps| == p.n && n > 0 && SerialRun(p, comps, n).ok
    ensures SerialRun(p, comps, n - 1).ok && SerialRun(p, comps, n) == Serial(b.comps, b.aComponentFinished, true)
    ensures var s := SerialRun(p, comps, n - 1); IsRound(p, Point(s.comps, s.aComponentFinished), b)
  {
    hide IsRound, ValidProgram;
    var s, t := SerialRun(p, comps, n - 1), SerialRun(p, comps, n);
    b := Point(t.comps, t.aComponentFinished);
    SerialRoundOk(p, s);
    SerialRoundIff(p, s, b);
  }

  lemma PointHistoryGrows<C(!new)>(p: Program<C>, h: seq<Point<C>>, b: Point<C>)
    requires |h| > 0 && IsPointHistory(p, h) && IsRound(p, h[|h| - 1], b)
    ensures IsPointHistory(p, h + [b])
  {
    hide IsRound;
  }

  lemma SerialRoundOk<C(!new)>(p: Program<C>, s: Serial<C>)
    requires ValidProgram(p) && |s.comps| == p.n && SerialRound(p, s).ok
    ensures s.ok
  {
  }

  /**
    Whatever the interleaving, between two rounds the threads have led the components through as many rounds as
    they have begun, each of which prepared, stepped and connected all of them.
  */
  lemma ThreadsDoRounds<C(!new)>(p: Program<C>, comps: seq<C>, run: seq<State<C>>, k: nat) returns (h: seq<Point<C>>)
    requires ValidProgram(p) && p.n > 0 && IsRun(p, comps, run) && k < |run| && run[k].coord == Idle
    ensures |h| == run[k].round + 1 && h[0] == Point(comps, false) && IsPointHistory(p, h)
    ensures h[run[k].round] == Point(run[k].comps, run[k].aComponentFinished)
  {
    hide ValidProgram, SerialRun, IsRun;
    ThreadsMatchSerial(p, comps, run, k);
    RunSized(p, comps, run);
    h := SerialPoints(p, comps, run[k].round);
  }

  lemma RunSized<C(!new)>(p: Program<C>, comps: seq<C>, run: seq<State<C>>)
    requires ValidProgram(p) && IsRun(p, comps, run)
    ensures |comps| == p.n
  {
  }

  /** A threaded simulation that stops with an error has come to a point from which there is no next round. */
  lemma ThreadsFailWithoutRound<C(!new)>(p: Program<C>, comps: seq<C>, run: seq<State<C>>, k: nat)
    returns (h: seq<Point<C>>)
    requires ValidProgram(p) && p.n > 0 && IsRun(p, comps, run) && k < |run| && run[k].coord == Failed
    ensures 0 < |h| <= run[k].round + 1 && h[0] == Point(comps, false) && IsPointHistory(p, h)
    ensures NoRoundFrom(p, h[|h| - 1])
  {
    hide ValidProgram, SerialRun, IsRun, IsRound, SerialRound, IsPointHistory;
    ThreadsMatchSerial(p, comps, run, k);
    RunSized(p, comps, run);
    var n := FirstError(p, comps, run[k].round + 1);
    h := SerialPoints(p, comps, n);
    forall b
      ensures !IsRound(p, h[n], b)
    {
      SerialRoundIff(p, SerialRun(p, comps, n), b);
    }
  }

  /** The last round before the first error. */
  lemma {:induction false} FirstError<C(!new)>(p: Program<C>, comps: seq<C>, k: nat) returns (n: nat)
    requires ValidProgram(p) && |comps| == p.n && !SerialRun(p, comps, k).ok
    ensures n < k && SerialRun(p, comps, n).ok
    ensures forall b: Point<C> ::
      SerialRound(p, SerialRun(p, comps, n)) != Serial(b.comps, b.aComponentFinished, true)
  {
    if SerialRun(p, comps, k - 1).ok {
      n := k - 1;
    } else {
      n := FirstError(p, comps, k - 1);
    }
  }

  // ---------------------------------------------------------------------------------------------
  // The serial step itself

  function Sweep<C>(p: Program<C>, snapshot: seq<C>, k: nat): seq<C>
    requires k <= |snapshot|
  {
    seq(|snapshot|, i requires 0 <= i < |snapshot| => if i < k then StepOf(p, snapshot, i).comp else snapshot[i])
  }

  /** `ParallelSTDoStep`: prepare all components, step them one after the other, let them communicate. */
  method ParallelSTDoStep<C(!new)>(p: Program<C>, comps: array<C>, aComponentFinished: bool)
    returns (ok: bool, finished: bool)
    requires ValidProgram(p) && comps.Length == p.n
    modifies comps
    ensures ok == SerialRound(p, Serial(old(comps[..]), aComponentFinished, true)).ok
    ensures ok ==> SerialRound(p, Serial(old(comps[..]), aComponentFinished, true)) == Serial(comps[..], finished, true)
    ensures ok ==> IsRound(p, Point(old(comps[..]), aComponentFinished), Point(comps[..], finished))
  {
    finished := aComponentFinished;
    var prepared := p.prepare(comps[..]);
    if !prepared.ok {
      return false, finished;
    }
    var snapshot := prepared.comps;
    forall i | 0 <= i < p.n {
      comps[i] := snapshot[i];
    }
    for i := 0 to p.n
      invariant comps[..] == Sweep(p, snapshot, i)
      invariant forall j :: 0 <= j < i ==> !StepOf(p, snapshot, j).failed
      invariant finished <==> aComponentFinished || exists j :: 0 <= j < i && StepOf(p, snapshot, j).finished
    {
      var r := p.step(i, snapshot, comps[i]);
      assert r == StepOf(p, snapshot, i);
      comps[i] := r.comp;
      finished := finished || r.finished;
      if r.failed {
        return false, finished;
      }
    }
    assert comps[..] == seq(p.n, i requires 0 <= i < p.n => StepOf(p, snapshot, i).comp);
    var entered := p.enter(comps[..]);
    if !entered.ok {
      return false, finished;
    }
    forall i | 0 <= i < p.n {
      comps[i] := entered.comps[i];
    }
    assert comps[..] == entered.comps;
    SerialRoundIff(p, Serial(old(comps[..]), aComponentFinished, true), Point(comps[..], finished));
    return true, finished;
  }
}

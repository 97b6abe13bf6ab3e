/**
  Simulated time: components with a step size of their own step inside the synchronization steps of
  a simulation task, which steps until its end time is reached or something stops it earlier.
*/
module TimeStepping {
  import opened TimeCompare

  datatype FinishState = IsFinished | IsNotFinished | NeverFinishes

  /** What the step function of a component may do. */
  datatype StepOutcome = Fine | Finishes | Fails

  datatype Interval = Interval(startTime: real, endTime: real)

  datatype StoreLevel = Synchronization | Coupling

  class StepTypeParams {
    var time: real
    var timeStepSize: real
    var timeEndStep: real
    var numSteps: nat
    var aComponentFinished: bool
    var sumTime: bool
  }

  /**
    The part of a component that its steps change. `intervals` are the coupling intervals it was
    stepped over, `stored` the levels at which the results of these steps were stored, and
    `storedInputs` the levels at which their inputs were.
  */
  datatype Snap = Snap(
    time: real,
    numSteps: nat,
    finishState: FinishState,
    intervals: seq<Interval>,
    stored: seq<StoreLevel>,
    storedInputs: seq<StoreLevel>)

  /** What never changes during a run: the step function, by step number, the start time, and the step size, if any. */
  datatype Kind = Kind(behave: nat -> StepOutcome, startTime: real, hasOwnTime: bool, timeStepSize: real)

  ghost predicate ValidSnap(k: Kind, s: Snap) {
    && |s.intervals| == |s.stored| == |s.storedInputs| == s.numSteps
    && (k.hasOwnTime ==>
         && 0.0 < k.timeStepSize
         && s.time == Tick(k.startTime, k.timeStepSize, s.numSteps)
         && forall i :: 0 <= i < s.numSteps ==>
              s.intervals[i] ==
                Interval(Tick(k.startTime, k.timeStepSize, i), Tick(k.startTime, k.timeStepSize, i + 1)))
  }

  function FinishAfter(outcome: StepOutcome, state: FinishState): FinishState {
    if outcome == Finishes && state != NeverFinishes then IsFinished else state
  }

  /**
    The steps from `a` to `b` were all stored at the level that their end time asks for, and their inputs
    at the level of the step before, the first ones at synchronization level.
  */
  ghost predicate StoredRight(a: Snap, b: Snap, end: real, eps: real) {
    && a.intervals <= b.intervals
    && a.stored <= b.stored
    && a.storedInputs <= b.storedInputs
    && |b.intervals| == |b.stored| == |b.storedInputs|
    && (forall j :: |a.stored| <= j < |b.stored| ==>
         b.stored[j] == if Geq(b.intervals[j].endTime, end, eps) then Synchronization else Coupling)
    && (forall j :: |a.storedInputs| <= j < |b.storedInputs| ==>
         b.storedInputs[j] == if j == |a.storedInputs| then Synchronization else Coupling)
  }

  /** What the finish state says after the steps from `a` to `b`. */
  ghost predicate FinishRight(k: Kind, a: Snap, b: Snap) {
    && a.numSteps <= b.numSteps
    && (forall j :: a.numSteps <= j < b.numSteps ==> k.behave(j) != Fails)
    && b.finishState == (
         if a.finishState == IsNotFinished && (exists j :: a.numSteps <= j < b.numSteps && k.behave(j) == Finishes)
         then IsFinished else a.finishState)
    && (a.finishState == IsNotFinished ==> forall j :: a.numSteps <= j < b.numSteps - 1 ==> k.behave(j) != Finishes)
  }

  /** One communication step from time `begin` up to `end` has taken a component from `a` to `b`. */
  ghost predicate StepDone(k: Kind, a: Snap, b: Snap, begin: real, end: real, eps: real, ok: bool) {
    && ValidSnap(k, b)
    && StoredRight(a, b, end, eps)
    && FinishRight(k, a, b)
    && (a.finishState == IsFinished ==> ok && b == a)
    && (a.finishState != IsFinished && k.hasOwnTime ==>
         && (forall j: nat :: a.numSteps <= j < b.numSteps ==> Lt(Tick(k.startTime, k.timeStepSize, j), end, eps))
         && (ok && b.finishState != IsFinished ==> !Lt(b.time, end, eps)))
    && (a.finishState != IsFinished && !k.hasOwnTime ==>
         if ok && Lt(a.time, end, eps) then
           b.time == end && b.intervals == a.intervals + [Interval(begin, end)]
         else b == a)
    && (!ok ==> b.finishState != IsFinished && Lt(b.time, end, eps) && k.behave(b.numSteps) == Fails)
  }

  /** The invariant of the loop of `ComponentDoCommunicationStep`; `a` is the component before it. */
  ghost predicate LoopInv(k: Kind, a: Snap, s: Snap, begin: real, end: real, eps: real) {
    && a.finishState != IsFinished
    && ValidSnap(k, a)
    && ValidSnap(k, s)
    && StoredRight(a, s, end, eps)
    && FinishRight(k, a, s)
    && (k.hasOwnTime ==>
          forall j: nat :: a.numSteps <= j < s.numSteps ==> Lt(Tick(k.startTime, k.timeStepSize, j), end, eps))
    && (!k.hasOwnTime ==>
         s == a || (s.time == end && Lt(a.time, end, eps) && s.intervals == a.intervals + [Interval(begin, end)]))
  }

  lemma LoopMayStep(k: Kind, a: Snap, s: Snap, begin: real, end: real, eps: real, bound: nat)
    requires LoopInv(k, a, s, begin, end, eps)
    requires Lt(s.time, end, eps)
    requires k.hasOwnTime ==> end <= Tick(k.startTime, k.timeStepSize, bound)
    ensures k.hasOwnTime ==> s.numSteps < bound
    ensures !k.hasOwnTime ==> s == a
  {
    hide Tick, StoredRight, FinishRight;
    if k.hasOwnTime && s.numSteps >= bound {
      TickMonotone(k.startTime, k.timeStepSize, bound, s.numSteps);
    }
  }

  /** The component after one more successful coupling step; `level` is the one its inputs are stored at. */
  function Stepped(k: Kind, s: Snap, interval: Interval, end: real, eps: real, level: StoreLevel): Snap {
    Snap(interval.endTime, s.numSteps + 1, FinishAfter(k.behave(s.numSteps), s.finishState), s.intervals + [interval],
         s.stored + [if Geq(interval.endTime, end, eps) then Synchronization else Coupling], s.storedInputs + [level])
  }

  lemma StepValid(k: Kind, s: Snap, interval: Interval, end: real, eps: real, level: StoreLevel)
    requires ValidSnap(k, s) && (k.hasOwnTime ==> interval == Interval(s.time, s.time + k.timeStepSize))
    ensures ValidSnap(k, Stepped(k, s, interval, end, eps, level))
  {
    TickNext(k.startTime, k.timeStepSize, s.numSteps);
    hide Tick;
  }

  lemma LoopSteps(k: Kind, a: Snap, s: Snap, interval: Interval, begin: real, end: real, eps: real, level: StoreLevel)
    requires LoopInv(k, a, s, begin, end, eps)
    requires level == if s.numSteps == a.numSteps then Synchronization else Coupling
    requires s.finishState != IsFinished && Lt(s.time, end, eps) && k.behave(s.numSteps) != Fails
    requires interval == if k.hasOwnTime then Interval(s.time, s.time + k.timeStepSize) else Interval(begin, end)
    ensures LoopInv(k, a, Stepped(k, s, interval, end, eps, level), begin, end, eps)
  {
    NotBelowItself(end, end, eps);
    hide Tick, Lt, Geq;
    StepValid(k, s, interval, end, eps, level);
  }

  lemma LoopFails(k: Kind, a: Snap, s: Snap, begin: real, end: real, eps: real)
    requires LoopInv(k, a, s, begin, end, eps)
    requires s.finishState != IsFinished && Lt(s.time, end, eps) && k.behave(s.numSteps) == Fails
    ensures StepDone(k, a, s, begin, end, eps, false)
  {
    NotBelowItself(end, end, eps);
    hide Tick, Lt, Geq;
  }

  lemma LoopEnds(k: Kind, a: Snap, s: Snap, begin: real, end: real, eps: real)
    requires LoopInv(k, a, s, begin, end, eps)
    requires s.finishState == IsFinished || !Lt(s.time, end, eps)
    ensures StepDone(k, a, s, begin, end, eps, true)
  {
    hide Tick, Lt, Geq;
  }

  class Component {
    const behave: nat -> StepOutcome
    var startTime: real
    var time: real
    var timeStepSize: real
    var hasOwnTime: bool
    var numSteps: nat
    var finishState: FinishState
    ghost var intervals: seq<Interval>
    ghost var stored: seq<StoreLevel>
    ghost var storedInputs: seq<StoreLevel>

    ghost function Now(): Snap
      reads this
    {
      Snap(time, numSteps, finishState, intervals, stored, storedInputs)
    }

    ghost function KindOf(): Kind
      reads this
    {
      Kind(behave, startTime, hasOwnTime, timeStepSize)
    }

    ghost predicate Valid()
      reads this
    {
      ValidSnap(KindOf(), Now())
    }

    constructor (behave: nat -> StepOutcome, neverFinishes: bool)
      ensures Valid() && KindOf() == Kind(behave, 0.0, false, 0.0)
      ensures Now() == Snap(0.0, 0, if neverFinishes then NeverFinishes else IsNotFinished, [], [], [])
    {
      this.behave := behave;
      startTime, time, timeStepSize, hasOwnTime, numSteps := 0.0, 0.0, 0.0, false, 0;
      finishState := if neverFinishes then NeverFinishes else IsNotFinished;
      intervals, stored, storedInputs := [], [], [];
    }

    /**
      Gives the component a step size of its own. The program does this while it reads the model, when the
      epsilon still has its positive default; only an epsilon that is not positive would let zero pass.
    */
    method SetTimeStep(timeStep: real, eps: real) returns (ok: bool)
      requires Valid() && numSteps == 0 && time == startTime
      modifies this`timeStepSize, this`hasOwnTime
      ensures ok <==> !Leq(timeStep, 0.0, eps)
      ensures ok <==> 0.0 <= timeStep && eps <= timeStep && eps * timeStep <= timeStep
      ensures ok ==> 0.0 < timeStep || (timeStep == 0.0 && eps <= 0.0)
      ensures Valid() <==> !ok || 0.0 < timeStep
      ensures KindOf() == if ok then Kind(behave, startTime, true, timeStep) else old(KindOf())
    {
      ComparisonsMean(timeStep, 0.0, eps);
      if Leq(timeStep, 0.0, eps) {
        return false;
      }
      timeStepSize := timeStep;
      hasOwnTime := true;
      return true;
    }

    /** Sets the clock of the component before its first step. */
    method Initialize(startTime: real)
      requires Valid() && numSteps == 0
      modifies this`startTime, this`time
      ensures Valid() && Now() == old(Now()).(time := startTime)
      ensures KindOf() == old(KindOf()).(startTime := startTime)
    {
      this.startTime := startTime;
      time := startTime;
      TickNext(startTime, timeStepSize, 0);
    }

    method SetIsFinished()
      modifies this`finishState
      ensures finishState == if old(finishState) == NeverFinishes then NeverFinishes else IsFinished
    {
      if finishState != NeverFinishes {
        finishState := IsFinished;
      }
    }

    method UpdateTime(sumTime: bool)
      modifies this`time
      ensures time == if sumTime || hasOwnTime then old(time) + timeStepSize else numSteps as real * timeStepSize
    {
      if sumTime || hasOwnTime {
        time := time + timeStepSize;
      } else {
        time := numSteps as real * timeStepSize;
      }
    }

    /** Steps the component itself and advances its time; a failed step leaves everything as it is. */
    method DoStep(sumTime: bool, endTime: real, eps: real) returns (ok: bool)
      modifies this`time, this`numSteps, this`finishState
      ensures ok <==> behave(old(numSteps)) != Fails
      ensures !ok ==> time == old(time) && numSteps == old(numSteps) && finishState == old(finishState)
      ensures ok ==> numSteps == old(numSteps) + 1
      ensures ok ==> finishState == FinishAfter(behave(old(numSteps)), old(finishState))
      ensures ok && !hasOwnTime ==> time == endTime
      ensures ok && hasOwnTime ==>
        time == if AlmostEqual(old(time) + timeStepSize, endTime, eps) then endTime else old(time) + timeStepSize
    {
      var outcome := behave(numSteps);
      if outcome == Fails {
        return false;
      }
      if outcome == Finishes {
        SetIsFinished();
      }
      numSteps := numSteps + 1;
      if hasOwnTime {
        UpdateTime(sumTime);
        if time != endTime && Compare(time, endTime, eps) == Equal {
          time := endTime;
        }
      } else {
        time := endTime;
      }
      return true;
    }

    /** One pass of the loop of `ComponentDoCommunicationStep`. */
    method CouplingStep(sumTime: bool, interval: Interval, end: real, eps: real, level: StoreLevel)
      returns (ok: bool, next: StoreLevel)
      requires Valid() && Lt(time, end, eps)
      requires hasOwnTime ==> interval == Interval(time, time + timeStepSize)
      requires !hasOwnTime ==> interval.endTime == end
      modifies this`time, this`numSteps, this`finishState, this`intervals, this`stored, this`storedInputs
      ensures Valid() && (ok <==> behave(old(numSteps)) != Fails)
      ensures !ok ==> Now() == old(Now())
      ensures ok ==> Now() == Snap(
        interval.endTime, old(numSteps) + 1,
        FinishAfter(behave(old(numSteps)), old(finishState)),
        old(intervals) + [interval],
        old(stored) + [if Geq(interval.endTime, end, eps) then Synchronization else Coupling],
        old(storedInputs) + [level])
      ensures ok && Lt(time, end, eps) ==> next == Coupling
    {
      next := level;
      TickNext(startTime, timeStepSize, numSteps);
      ok := DoStep(sumTime, interval.endTime, eps);
      if !ok {
        return;
      }
      next := if Geq(time, end, eps) then Synchronization else Coupling;
      intervals := intervals + [interval];
      storedInputs := storedInputs + [level];
      stored := stored + [next];
    }

    /** Steps the component until it has reached the end of the synchronization step, or is finished. */
    method DoCommunicationStep(params: StepTypeParams, eps: real) returns (ok: bool)
      requires Valid()
      modifies this`time, this`numSteps, this`finishState, this`intervals, this`stored, this`storedInputs
      modifies params`aComponentFinished
      ensures Valid()
      ensures StepDone(KindOf(), old(Now()), Now(), params.time, params.timeEndStep, eps, ok)
      ensures params.aComponentFinished <==> old(params.aComponentFinished) || (ok && finishState == IsFinished)
    {
      var end := params.timeEndStep;
      ghost var kind, a := KindOf(), Now();
      if finishState == IsFinished {
        params.aComponentFinished := true;
        return true;
      }
      var interval, level := Interval(params.time, end), Synchronization;
      ghost var bound: nat := numSteps;
      if hasOwnTime {
        bound := TickReaches(startTime, timeStepSize, end);
      }
      while finishState != IsFinished && Lt(time, end, eps)
        invariant kind == KindOf() && LoopInv(kind, a, Now(), params.time, end, eps)
        invariant Lt(time, end, eps) ==> level == if numSteps == a.numSteps then Synchronization else Coupling
        invariant !hasOwnTime && Now() == a ==> interval == Interval(params.time, end)
        invariant hasOwnTime ==> end <= Tick(startTime, timeStepSize, bound)
        invariant params.aComponentFinished == old(params.aComponentFinished)
        decreases if hasOwnTime then bound - numSteps else if time == end then 0 else 1
      {
        if hasOwnTime {
          // A valid component has a positive step size, so the other branch is never taken.
          if timeStepSize > 0.0 {
            interval := Interval(time, time + timeStepSize);
          } else {
            interval := Interval(time, end);
          }
        }
        ghost var s := Now();
        LoopMayStep(kind, a, s, params.time, end, eps, bound);
        ghost var before := level;
        ok, level := CouplingStep(params.sumTime, interval, end, eps, level);
        if !ok {
          LoopFails(kind, a, s, params.time, end, eps);
          return false;
        }
        LoopSteps(kind, a, s, interval, params.time, end, eps, before);
        interval := Interval(time, time);
      }
      LoopEnds(kind, a, Now(), params.time, end, eps);
      if finishState == IsFinished {
        params.aComponentFinished := true;
      }
      return true;
    }
  }

  /** The synchronization step ends where some step of the component ends. */
  ghost predicate EndsOnStep(k: Kind, end: real) {
    k.hasOwnTime ==> exists m: nat :: Tick(k.startTime, k.timeStepSize, m) == end
  }

  /**
    Of the steps of a call that the component does not finish in, exactly the last is stored at
    synchronization level, unless the epsilon is not positive and the synchronization step ends where a
    step of the component ends.
  */
  lemma LastStoreIsSynchronization(k: Kind, a: Snap, b: Snap, begin: real, end: real, eps: real, j: nat)
    requires StepDone(k, a, b, begin, end, eps, true) && ValidSnap(k, a)
    requires a.finishState != IsFinished && b.finishState != IsFinished
    requires a.numSteps <= j < b.numSteps
    ensures b.stored[j] == Synchronization <==> j == b.numSteps - 1 && (eps > 0.0 || !EndsOnStep(k, end))
  {
    hide Tick, Lt, Geq;
    if !k.hasOwnTime {
      NotBelowItself(end, end, eps);
      NotLessIsAtLeast(end, end, eps);
    } else if j == b.numSteps - 1 {
      NotLessIsAtLeast(b.time, end, eps);
      if eps <= 0.0 {
        LandsOnStep(k, b.numSteps, end, eps);
      }
    } else {
      NotBoth(Tick(k.startTime, k.timeStepSize, j + 1), end, eps);
    }
  }

  /**
    What a call leaves on record about its steps: the inputs of the first one are stored at synchronization
    level, those of the others at coupling level; and the intervals of a component with a step size of its own
    follow each other from its start time on.
  */
  lemma CallOnRecord(k: Kind, a: Snap, b: Snap, begin: real, end: real, eps: real, ok: bool, j: nat)
    requires StepDone(k, a, b, begin, end, eps, ok) && ValidSnap(k, a) && a.numSteps <= j < b.numSteps
    ensures b.storedInputs[j] == if j == a.numSteps then Synchronization else Coupling
    ensures k.hasOwnTime ==> Lt(k.startTime + j as real * k.timeStepSize, end, eps)
    ensures k.hasOwnTime ==> b.intervals[j].startTime == k.startTime + j as real * k.timeStepSize
    ensures k.hasOwnTime ==> b.intervals[j].endTime == k.startTime + (j + 1) as real * k.timeStepSize
    ensures !k.hasOwnTime ==> b.intervals[j] == Interval(begin, end) && j == a.numSteps == b.numSteps - 1
  {
    hide Lt, Geq, FinishRight, Tick;
    NextTick(k.startTime, k.timeStepSize, j);
    NextTick(k.startTime, k.timeStepSize, j + 1);
    if k.hasOwnTime {
      var from, to := Tick(k.startTime, k.timeStepSize, j), Tick(k.startTime, k.timeStepSize, j + 1);
      assert b.intervals[j] == Interval(from, to) && Lt(from, end, eps);
    }
  }

  /**
    A call finishes a component exactly when one of its steps does and the component may finish; that step is
    the last one, and a finished component is not stepped.
  */
  lemma FinishedByCall(k: Kind, a: Snap, b: Snap, begin: real, end: real, eps: real, ok: bool)
    requires StepDone(k, a, b, begin, end, eps, ok)
    ensures b.finishState == IsFinished <==>
      || a.finishState == IsFinished
      || (a.finishState == IsNotFinished && exists j: nat :: a.numSteps <= j < b.numSteps && k.behave(j) == Finishes)
    ensures b.finishState == NeverFinishes <==> a.finishState == NeverFinishes
    ensures a.finishState == IsFinished ==> b == a
    ensures a.finishState == IsNotFinished ==>
      forall j: nat :: a.numSteps <= j < b.numSteps && k.behave(j) == Finishes ==> j == b.numSteps - 1
    ensures forall j: nat :: a.numSteps <= j < b.numSteps ==> k.behave(j) != Fails
    ensures !ok ==> k.behave(b.numSteps) == Fails
  {
    hide Lt, Geq, Tick, StoredRight;
  }

  /** Without an epsilon, a synchronization step as long as the step of a component is stored at coupling level. */
  lemma SynchronizationStoredAsCoupling(behave: nat -> StepOutcome, b: Snap)
    requires var k := Kind(behave, 0.0, true, 1.0);
      StepDone(k, Snap(0.0, 0, IsNotFinished, [], [], []), b, 0.0, 1.0, 0.0, true)
    requires b.finishState != IsFinished
    ensures b.stored == [Coupling] && b.time == 1.0
  {
    var k, a := Kind(behave, 0.0, true, 1.0), Snap(0.0, 0, IsNotFinished, [], [], []);
    assert Lt(0.0, 1.0, 0.0) && !Lt(1.0, 1.0, 0.0);
    assert Tick(0.0, 1.0, 0) == 0.0 && Tick(0.0, 1.0, 1) == 1.0;
    assert b.numSteps == 1;
    LastStoreIsSynchronization(k, a, b, 0.0, 1.0, 0.0, 0);
    assert b.stored[0] == Coupling;
  }

  /** With an epsilon that is not positive, the first step not below a time ends at it exactly when some step does. */
  lemma LandsOnStep(k: Kind, n: nat, end: real, eps: real)
    requires k.hasOwnTime && 0.0 < k.timeStepSize && eps <= 0.0 && n > 0
    requires Lt(Tick(k.startTime, k.timeStepSize, n - 1), end, eps)
    requires !Lt(Tick(k.startTime, k.timeStepSize, n), end, eps)
    ensures EndsOnStep(k, end) <==> Tick(k.startTime, k.timeStepSize, n) == end
  {
    hide Tick;
    if m: nat :| Tick(k.startTime, k.timeStepSize, m) == end {
      ExactWithoutEpsilon(Tick(k.startTime, k.timeStepSize, n - 1), end, eps);
      ExactWithoutEpsilon(Tick(k.startTime, k.timeStepSize, n), end, eps);
      if m < n {
        TickMonotone(k.startTime, k.timeStepSize, m, n - 1);
      } else {
        TickMonotone(k.startTime, k.timeStepSize, n, m);
      }
    }
  }

  /** A component that finishes in a call is stored at synchronization level only if it has reached the end by then. */
  lemma FinishingStore(k: Kind, a: Snap, b: Snap, begin: real, end: real, eps: real, j: nat)
    requires StepDone(k, a, b, begin, end, eps, true) && ValidSnap(k, a)
    requires a.finishState != IsFinished && b.finishState == IsFinished
    requires a.numSteps <= j < b.numSteps
    ensures b.stored[j] == Synchronization <==> j == b.numSteps - 1 && Geq(b.time, end, eps)
  {
    hide Tick, Lt, Geq;
    if k.hasOwnTime && j < b.numSteps - 1 {
      NotBoth(Tick(k.startTime, k.timeStepSize, j + 1), end, eps);
    }
  }

  lemma NotBoth(a: real, b: real, eps: real)
    ensures !(Lt(a, b, eps) && Geq(a, b, eps))
  {
  }

  // ---------------------------------------------------------------------------------------------
  // One synchronization step of all components

  ghost function Objects(comps: seq<Component>): set<Component> {
    set c | c in comps
  }

  ghost predicate Different(comps: seq<Component>) {
    forall i, j :: 0 <= i < j < |comps| ==> comps[i] != comps[j]
  }

  ghost function Snaps(comps: seq<Component>): (s: seq<Snap>)
    reads comps
    ensures |s| == |comps| && forall i :: 0 <= i < |comps| ==> s[i] == comps[i].Now()
  {
    seq(|comps|, i requires 0 <= i < |comps| reads comps => comps[i].Now())
  }

  ghost function Kinds(comps: seq<Component>): (k: seq<Kind>)
    reads comps
    ensures |k| == |comps| && forall i :: 0 <= i < |comps| ==> k[i] == comps[i].KindOf()
  {
    seq(|comps|, i requires 0 <= i < |comps| reads comps => comps[i].KindOf())
  }

  ghost predicate ValidSnaps(kinds: seq<Kind>, s: seq<Snap>) {
    |kinds| == |s| && forall i :: 0 <= i < |s| ==> ValidSnap(kinds[i], s[i])
  }

  ghost predicate SomeFinished(s: seq<Snap>) {
    exists i :: 0 <= i < |s| && s[i].finishState == IsFinished
  }

  /** The first `n` components have done the communication step, the others are as before. */
  ghost predicate SweepDone(kinds: seq<Kind>, a: seq<Snap>, b: seq<Snap>, n: nat, begin: real, end: real, eps: real) {
    && |kinds| == |a| == |b|
    && n <= |a|
    && (forall i :: 0 <= i < n ==> StepDone(kinds[i], a[i], b[i], begin, end, eps, true))
    && (forall i :: n <= i < |a| ==> b[i] == a[i])
  }

  /** The sweep failed at component `n`: the ones before it are done, the ones behind it untouched. */
  ghost predicate SweepFailed(kinds: seq<Kind>, a: seq<Snap>, b: seq<Snap>, n: nat, begin: real, end: real, eps: real) {
    && |kinds| == |a| == |b|
    && n < |a|
    && StepDone(kinds[n], a[n], b[n], begin, end, eps, false)
    && SweepDone(kinds, a, b[n := a[n]], n, begin, end, eps)
  }

  ghost predicate SweepBroken(kinds: seq<Kind>, a: seq<Snap>, b: seq<Snap>, begin: real, end: real, eps: real) {
    exists n :: SweepFailed(kinds, a, b, n, begin, end, eps)
  }

  lemma SweepStart(kinds: seq<Kind>, a: seq<Snap>, begin: real, end: real, eps: real)
    requires |kinds| == |a|
    ensures SweepDone(kinds, a, a, 0, begin, end, eps)
  {
  }

  lemma SweepStep(kinds: seq<Kind>, a: seq<Snap>, s: seq<Snap>, t: seq<Snap>, n: nat, begin: real, end: real,
                  eps: real, ok: bool)
    requires SweepDone(kinds, a, s, n, begin, end, eps) && n < |a| == |t|
    requires t == s[n := t[n]] && StepDone(kinds[n], s[n], t[n], begin, end, eps, ok)
    ensures ok ==> SweepDone(kinds, a, t, n + 1, begin, end, eps)
    ensures !ok ==> SweepFailed(kinds, a, t, n, begin, end, eps)
  {
    hide StepDone;
    assert t[n := a[n]] == s;
  }

  /** `CompDoStep`: the communication step of one component leaves the others alone. */
  method CompDoStep(comps: seq<Component>, i: nat, params: StepTypeParams, eps: real) returns (ok: bool)
    requires Different(comps) && i < |comps| && comps[i].Valid()
    modifies Objects(comps), params`aComponentFinished
    ensures Kinds(comps) == old(Kinds(comps))
    ensures Snaps(comps) == old(Snaps(comps))[i := comps[i].Now()]
    ensures StepDone(comps[i].KindOf(), old(comps[i].Now()), comps[i].Now(), params.time, params.timeEndStep, eps, ok)
    ensures comps[i].Valid()
    ensures params.aComponentFinished <==> old(params.aComponentFinished) || (ok && comps[i].finishState == IsFinished)
  {
    hide ValidSnap, StepDone;
    ok := comps[i].DoCommunicationStep(params, eps);
    assert forall j :: 0 <= j < |comps| && j != i ==> comps[j] != comps[i];
  }

  /** The loop over the evaluation list; it ends at the first component that fails. */
  method DoStep(comps: seq<Component>, params: StepTypeParams, eps: real) returns (ok: bool)
    requires Different(comps) && ValidSnaps(Kinds(comps), Snaps(comps))
    modifies Objects(comps), params`aComponentFinished
    ensures Kinds(comps) == old(Kinds(comps)) && ValidSnaps(Kinds(comps), Snaps(comps))
    ensures ok ==>
      SweepDone(Kinds(comps), old(Snaps(comps)), Snaps(comps), |comps|, params.time, params.timeEndStep, eps)
    ensures !ok ==> SweepBroken(Kinds(comps), old(Snaps(comps)), Snaps(comps), params.time, params.timeEndStep, eps)
    ensures ok ==> (params.aComponentFinished <==> old(params.aComponentFinished) || SomeFinished(Snaps(comps)))
  {
    hide ValidSnap, StepDone, SweepDone, SweepFailed, SomeFinished, Different, Objects;
    ghost var kinds, a := Kinds(comps), Snaps(comps);
    NoneFinished();
    SweepStart(kinds, a, params.time, params.timeEndStep, eps);
    for i := 0 to |comps|
      invariant Kinds(comps) == kinds && ValidSnaps(kinds, Snaps(comps))
      invariant SweepDone(kinds, a, Snaps(comps), i, params.time, params.timeEndStep, eps)
      invariant params.aComponentFinished <==> old(params.aComponentFinished) || SomeFinished(Snaps(comps)[..i])
    {
      ghost var s := Snaps(comps);
      ok := CompDoStep(comps, i, params, eps);
      ghost var t := Snaps(comps);
      SweepStep(kinds, a, s, t, i, params.time, params.timeEndStep, eps, ok);
      if !ok {
        return false;
      }
      OneMoreMayBeFinished(s, t, i);
    }
    assert Snaps(comps)[..|comps|] == Snaps(comps);
    return true;
  }

  /** Finish states are sticky. */
  lemma StaysFinished(k: Kind, a: Snap, b: Snap, begin: real, end: real, eps: real)
    requires StepDone(k, a, b, begin, end, eps, true)
    ensures a.finishState == IsFinished ==> b.finishState == IsFinished
    ensures a.finishState == NeverFinishes <==> b.finishState == NeverFinishes
  {
  }

  lemma NoneFinished()
    ensures !SomeFinished([])
  {
  }

  lemma OneMoreMayBeFinished(before: seq<Snap>, after: seq<Snap>, i: nat)
    requires |before| == |after| && i < |before|
    requires forall j :: 0 <= j < |before| && j != i ==> after[j] == before[j]
    ensures SomeFinished(after[..i + 1]) <==> SomeFinished(before[..i]) || after[i].finishState == IsFinished
  {
    assert before[..i] == after[..i];
    if j :| 0 <= j < i && after[j].finishState == IsFinished {
      assert after[..i + 1][j].finishState == IsFinished && after[..i][j].finishState == IsFinished;
    }
    if after[i].finishState == IsFinished {
      assert after[..i + 1][i].finishState == IsFinished;
    }
  }

  // ---------------------------------------------------------------------------------------------
  // What a component has done after some synchronization steps

  /** The epsilon does not swallow synchronization step `j`. */
  predicate Seen(start: real, dt: real, j: nat, eps: real) {
    Lt(Tick(start, dt, j), Tick(start, dt, j + 1), eps)
  }

  /** It swallows none of the first `n`. */
  ghost predicate AllSeen(start: real, dt: real, n: nat, eps: real) {
    forall j: nat :: j < n ==> Seen(start, dt, j, eps)
  }

  /**
    After `n` synchronization steps a component with a step size of its own has done exactly the steps
    needed to reach the current time, whatever the synchronization steps were; one without has done
    at most one step per synchronization step, and none is missing exactly when the epsilon swallowed none.
  */
  ghost predicate Progress(k: Kind, s: Snap, n: nat, start: real, dt: real, eps: real) {
    && ValidSnap(k, s)
    && k.startTime == start
    && (k.hasOwnTime ==> AllBelow(start, k.timeStepSize, s.numSteps, Tick(start, dt, n), eps))
    && (k.hasOwnTime && s.finishState != IsFinished ==>
          IsLeast(start, k.timeStepSize, s.numSteps, Tick(start, dt, n), eps))
    && (!k.hasOwnTime ==> s.numSteps <= n)
    && (!k.hasOwnTime && s.finishState != IsFinished ==> (s.numSteps == n <==> AllSeen(start, dt, n, eps)))
    && (!k.hasOwnTime && s.numSteps == n ==>
         && s.time == Tick(start, dt, n)
         && AllSeen(start, dt, n, eps)
         && forall i :: 0 <= i < n ==> s.intervals[i] == Interval(Tick(start, dt, i), Tick(start, dt, i + 1)))
  }

  lemma OwnTimeProgress(k: Kind, a: Snap, b: Snap, n: nat, start: real, dt: real, eps: real)
    requires k.hasOwnTime && 0.0 <= dt && (0.0 <= start || eps <= 1.0) && Progress(k, a, n, start, dt, eps)
    requires StepDone(k, a, b, Tick(start, dt, n), Tick(start, dt, n + 1), eps, true)
    ensures Progress(k, b, n + 1, start, dt, eps)
  {
    TickNext(start, dt, n);
    hide Tick, Lt;
    AllBelowLater(start, k.timeStepSize, a.numSteps, Tick(start, dt, n), Tick(start, dt, n + 1), eps);
  }

  lemma SharedTimeProgress(k: Kind, a: Snap, b: Snap, n: nat, start: real, dt: real, eps: real)
    requires !k.hasOwnTime && Progress(k, a, n, start, dt, eps)
    requires StepDone(k, a, b, Tick(start, dt, n), Tick(start, dt, n + 1), eps, true)
    ensures Progress(k, b, n + 1, start, dt, eps)
  {
    hide Tick, Lt;
    AllSeenNext(start, dt, n, eps);
    if a.finishState != IsFinished {
      assert Seen(start, dt, n, eps) <==> Lt(Tick(start, dt, n), Tick(start, dt, n + 1), eps);
    }
  }

  lemma AllSeenNext(start: real, dt: real, n: nat, eps: real)
    ensures AllSeen(start, dt, n + 1, eps) <==> AllSeen(start, dt, n, eps) && Seen(start, dt, n, eps)
  {
    hide Seen;
  }

  /**
    So an unfinished component has stepped once per synchronization step exactly when the last of them is not
    swallowed.
  */
  lemma SharedStepsIff(k: Kind, s: Snap, n: nat, start: real, dt: real, eps: real)
    requires Progress(k, s, n, start, dt, eps) && !k.hasOwnTime && s.finishState != IsFinished
    requires 0.0 <= start && 0.0 < dt
    ensures s.numSteps == n <==> n == 0 || (eps <= dt && Scale(Tick(start, dt, n), eps) <= dt)
  {
    hide Tick, Scale;
    SeenUpTo(start, dt, n, eps);
  }

  /** The same in terms of the relative epsilon, from which the program makes the epsilon of a run. */
  lemma SharedStepsIffRelative(k: Kind, s: Snap, n: nat, start: real, dt: real, relativeEps: real)
    requires Progress(k, s, n, start, dt, relativeEps * dt) && !k.hasOwnTime && s.finishState != IsFinished
    requires 0.0 <= start && 0.0 < dt
    ensures s.numSteps == n <==> n == 0 || (relativeEps <= 1.0 && relativeEps * Tick(start, dt, n) <= 1.0)
  {
    hide Tick, Progress;
    SharedStepsIff(k, s, n, start, dt, relativeEps * dt);
    var t := Tick(start, dt, n);
    Cancel(relativeEps, dt);
    Cancel(relativeEps * t, dt);
    assert t * (relativeEps * dt) == relativeEps * t * dt;
  }

  lemma Cancel(x: real, dt: real)
    requires 0.0 < dt
    ensures x * dt <= dt <==> x <= 1.0
  {
    assert x * dt - dt == (x - 1.0) * dt;
  }

  /** A synchronization step from 100 to 101 is swallowed by an epsilon of a tenth: the component does not step. */
  lemma SwallowedStep(behave: nat -> StepOutcome, b: Snap)
    requires var k := Kind(behave, 100.0, false, 0.0);
      StepDone(k, Snap(100.0, 0, IsNotFinished, [], [], []), b, 100.0, 101.0, 0.1, true)
    ensures b.numSteps == 0 && b.time == 100.0
  {
    assert !Lt(100.0, 101.0, 0.1);
  }

  ghost predicate AllProgress(kinds: seq<Kind>, s: seq<Snap>, n: nat, start: real, dt: real, eps: real) {
    |kinds| == |s| && forall i :: 0 <= i < |s| ==> Progress(kinds[i], s[i], n, start, dt, eps)
  }

  lemma SweepProgress(kinds: seq<Kind>, a: seq<Snap>, b: seq<Snap>, n: nat, start: real, dt: real, eps: real)
    requires 0.0 <= dt && (0.0 <= start || eps <= 1.0) && AllProgress(kinds, a, n, start, dt, eps)
    requires SweepDone(kinds, a, b, |a|, Tick(start, dt, n), Tick(start, dt, n + 1), eps)
    ensures AllProgress(kinds, b, n + 1, start, dt, eps)
  {
    hide Tick, Progress, StepDone;
    forall i | 0 <= i < |b|
      ensures Progress(kinds[i], b[i], n + 1, start, dt, eps)
    {
      if kinds[i].hasOwnTime {
        OwnTimeProgress(kinds[i], a[i], b[i], n, start, dt, eps);
      } else {
        SharedTimeProgress(kinds[i], a[i], b[i], n, start, dt, eps);
      }
    }
  }

  /** An own-time component never runs ahead of the synchronization time by a whole step. */
  lemma ProgressIsClose(k: Kind, s: Snap, n: nat, start: real, dt: real, eps: real)
    requires k.hasOwnTime && Progress(k, s, n, start, dt, eps) && s.numSteps > 0
    ensures s.time < Tick(start, dt, n) + k.timeStepSize
  {
    LeastIsClose(start, k.timeStepSize, s.numSteps, Tick(start, dt, n), eps);
  }

  /** When the epsilon is too small to swallow a step before some time, every step up to it counts. */
  lemma SeenUpTo(start: real, dt: real, n: nat, eps: real)
    requires 0.0 <= start && 0.0 < dt
    ensures AllSeen(start, dt, n, eps) <==>
      n == 0 || (eps <= dt && Scale(Tick(start, dt, n), eps) <= dt)
  {
    hide Scale, Seen, Tick;
    forall j: nat | j < n
      ensures Seen(start, dt, j, eps) <==> eps <= dt && Scale(Tick(start, dt, j + 1), eps) <= dt
      ensures Scale(Tick(start, dt, n), eps) <= dt ==> Scale(Tick(start, dt, j + 1), eps) <= dt
    {
      SeenMeans(start, dt, j, eps);
      TickMonotone(start, dt, j + 1, n);
      TickNext(start, dt, j);
      TickNext(start, dt, 0);
      TickMonotone(start, dt, 0, j + 1);
      ScaleMonotone(Tick(start, dt, j + 1), Tick(start, dt, n), eps, dt);
    }
    if n > 0 && AllSeen(start, dt, n, eps) {
      assert Seen(start, dt, n - 1, eps);
    }
  }

  lemma SeenMeans(start: real, dt: real, j: nat, eps: real)
    requires 0.0 <= start && 0.0 < dt
    ensures Seen(start, dt, j, eps) <==> eps <= dt && Scale(Tick(start, dt, j + 1), eps) <= dt
  {
    hide Scale;
    TickNext(start, dt, j);
    TickNext(start, dt, 0);
    TickMonotone(start, dt, 0, j);
    hide Tick;
    StepIsSeen(Tick(start, dt, j), dt, eps);
  }

  lemma ScaleMonotone(x: real, y: real, eps: real, dt: real)
    requires 0.0 <= x <= y && 0.0 <= dt
    ensures Scale(y, eps) <= dt ==> Scale(x, eps) <= dt
  {
    if eps >= 0.0 {
      assert (y - x) * eps >= 0.0;
      assert y * eps == x * eps + (y - x) * eps;
    } else {
      assert x * eps <= 0.0;
    }
  }

  /** After a sweep over all components some component is finished if one was before. */
  lemma SweepKeepsFinished(kinds: seq<Kind>, a: seq<Snap>, b: seq<Snap>, begin: real, end: real, eps: real)
    requires SweepDone(kinds, a, b, |a|, begin, end, eps) && SomeFinished(a)
    ensures SomeFinished(b)
  {
    hide StepDone;
    var i :| 0 <= i < |a| && a[i].finishState == IsFinished;
    StaysFinished(kinds[i], a[i], b[i], begin, end, eps);
    assert b[i].finishState == IsFinished;
  }

  // ---------------------------------------------------------------------------------------------
  // The simulation task

  class Task {
    const timeStart: real
    const timeEnd: real
    const timeEndDefined: bool
    const stopIfFirstComponentFinished: bool
    const eps: real
    const params: StepTypeParams

    constructor (timeStart: real, timeEnd: real, timeEndDefined: bool, stopIfFirst: bool, eps: real,
                 params: StepTypeParams)
      ensures this.timeStart == timeStart && this.timeEnd == timeEnd && this.timeEndDefined == timeEndDefined
      ensures this.stopIfFirstComponentFinished == stopIfFirst && this.eps == eps && this.params == params
    {
      this.timeStart, this.timeEnd, this.timeEndDefined := timeStart, timeEnd, timeEndDefined;
      this.stopIfFirstComponentFinished, this.eps, this.params := stopIfFirst, eps, params;
    }

    /**
      Why the run stops before its next step; `aFinished` is the flag that the communication steps set,
      and `interrupted` the signal handler's answer.
    */
    ghost predicate ShouldStop(s: seq<Snap>, aFinished: bool, interrupted: bool, time: real) {
      || interrupted
      || (stopIfFirstComponentFinished && aFinished)
      || (forall i :: 0 <= i < |s| ==> s[i].finishState != IsNotFinished)
      || (timeEndDefined && !Lt(time, timeEnd, eps))
    }

    method SubmodelIsFinished(comps: seq<Component>) returns (b: bool)
      ensures b <==> forall i :: 0 <= i < |comps| ==> comps[i].finishState != IsNotFinished
    {
      for i := 0 to |comps|
        invariant forall j :: 0 <= j < i ==> comps[j].finishState != IsNotFinished
      {
        if comps[i].finishState == IsNotFinished {
          return false;
        }
      }
      return true;
    }

    method CheckIfFinished(comps: seq<Component>, interrupted: bool) returns (b: bool)
      ensures b <==> ShouldStop(Snaps(comps), params.aComponentFinished, interrupted, params.time)
    {
      if interrupted {
        return true;
      }
      if stopIfFirstComponentFinished && params.aComponentFinished {
        return true;
      }
      var finished := SubmodelIsFinished(comps);
      if finished {
        return true;
      }
      if timeEndDefined {
        return !Lt(params.time, timeEnd, eps);
      }
      return false;
    }

    /** The part of the main loop that steps all components and advances the time. */
    method SynchronizationStep(comps: seq<Component>) returns (ok: bool)
      requires Different(comps) && (0.0 <= timeStart || eps <= 1.0) && 0.0 < params.timeStepSize
      requires params.time == params.timeEndStep == Tick(timeStart, params.timeStepSize, params.numSteps)
      requires AllProgress(Kinds(comps), Snaps(comps), params.numSteps, timeStart, params.timeStepSize, eps)
      modifies Objects(comps), params`aComponentFinished, params`time, params`timeEndStep, params`numSteps
      ensures Kinds(comps) == old(Kinds(comps))
      ensures params.numSteps == old(params.numSteps) + if ok then 1 else 0
      ensures params.time == Tick(timeStart, params.timeStepSize, params.numSteps)
      ensures ok ==> params.timeEndStep == params.time
      ensures ok ==> AllProgress(Kinds(comps), Snaps(comps), params.numSteps, timeStart, params.timeStepSize, eps)
      ensures ok ==>
        SweepDone(Kinds(comps), old(Snaps(comps)), Snaps(comps), |comps|, old(params.time), params.time, eps)
      ensures ok ==> (params.aComponentFinished <==> old(params.aComponentFinished) || SomeFinished(Snaps(comps)))
      ensures !ok ==> Broken(Kinds(comps), old(Snaps(comps)), Snaps(comps), params.numSteps, params.timeStepSize)
    {
      hide Tick, AllProgress, ValidSnap, ValidSnaps, SweepDone, SweepBroken, SomeFinished, Different, Objects,
           IsHistory, ShouldStop;
      ghost var kinds, a, n, dt := Kinds(comps), Snaps(comps), params.numSteps, params.timeStepSize;
      TickNext(timeStart, dt, n);
      if !params.sumTime {
        params.timeEndStep := timeStart + (params.numSteps + 1) as real * params.timeStepSize;
        NextTick(timeStart, dt, n + 1);
      } else {
        params.timeEndStep := params.timeEndStep + params.timeStepSize;
      }
      ProgressValid(kinds, a, n, timeStart, dt, eps);
      ok := DoStep(comps, params, eps);
      if !ok {
        return false;
      }
      SweepProgress(kinds, a, Snaps(comps), n, timeStart, dt, eps);
      params.numSteps := params.numSteps + 1;
      params.time := params.timeEndStep;
    }

    /** Some component failed in the step after step `n`. */
    ghost predicate Broken(kinds: seq<Kind>, a: seq<Snap>, s: seq<Snap>, n: nat, dt: real) {
      SweepBroken(kinds, a, s, Tick(timeStart, dt, n), Tick(timeStart, dt, n + 1), eps)
    }

    /** The flag before step `m`: no step has set it before the first one. */
    ghost predicate FlagAt(h: seq<seq<Snap>>, m: nat)
      requires m < |h|
    {
      m > 0 && SomeFinished(h[m])
    }

    /** Step `m` of the history was taken for good reason, and it was a sweep over all components. */
    ghost predicate StepTaken(kinds: seq<Kind>, h: seq<seq<Snap>>, interrupted: nat -> bool, m: nat, dt: real) {
      && m + 1 < |h|
      && !ShouldStop(h[m], FlagAt(h, m), interrupted(m), Tick(timeStart, dt, m))
      && SweepDone(kinds, h[m], h[m + 1], |h[m]|, Tick(timeStart, dt, m), Tick(timeStart, dt, m + 1), eps)
    }

    /** `h` holds the components before every step and after the last one. */
    ghost predicate IsHistory(kinds: seq<Kind>, h: seq<seq<Snap>>, interrupted: nat -> bool, dt: real) {
      |h| > 0 && forall m: nat :: m < |h| - 1 ==> StepTaken(kinds, h, interrupted, m, dt)
    }

    /** Some reason to stop holds at the end of the history. */
    ghost predicate Stops(h: seq<seq<Snap>>, interrupted: nat -> bool, dt: real)
      requires |h| > 0
    {
      var n := |h| - 1;
      ShouldStop(h[n], FlagAt(h, n), interrupted(n), Tick(timeStart, dt, n))
    }

    lemma HistoryStarts(kinds: seq<Kind>, s: seq<Snap>, interrupted: nat -> bool, dt: real)
      ensures IsHistory(kinds, [s], interrupted, dt) && !FlagAt([s], 0)
    {
    }

    lemma HistoryGrows(kinds: seq<Kind>, h: seq<seq<Snap>>, s: seq<Snap>, interrupted: nat -> bool, dt: real)
      requires IsHistory(kinds, h, interrupted, dt) && !Stops(h, interrupted, dt)
      requires var n := |h| - 1;
        SweepDone(kinds, h[n], s, |h[n]|, Tick(timeStart, dt, n), Tick(timeStart, dt, n + 1), eps)
      ensures IsHistory(kinds, h + [s], interrupted, dt)
      ensures FlagAt(h + [s], |h|) <==> FlagAt(h, |h| - 1) || SomeFinished(s)
    {
      hide ShouldStop, SweepDone, SomeFinished, Tick;
      var n := |h| - 1;
      if SomeFinished(h[n]) {
        SweepKeepsFinished(kinds, h[n], s, Tick(timeStart, dt, n), Tick(timeStart, dt, n + 1), eps);
      }
      forall m: nat | m < |h + [s]| - 1
        ensures StepTaken(kinds, h + [s], interrupted, m, dt)
      {
        if m < n {
          assert StepTaken(kinds, h, interrupted, m, dt);
        }
      }
    }

    /** The state of the program between two steps, and the history that led to it. */
    ghost predicate RunInv(comps: seq<Component>, h: seq<seq<Snap>>, interrupted: nat -> bool, dt: real)
      reads comps, params
    {
      && |h| == params.numSteps + 1
      && params.timeStepSize == dt
      && params.time == params.timeEndStep == Tick(timeStart, dt, params.numSteps)
      && h[params.numSteps] == Snaps(comps)
      && IsHistory(Kinds(comps), h, interrupted, dt)
      && AllProgress(Kinds(comps), h[params.numSteps], params.numSteps, timeStart, dt, eps)
      && (params.aComponentFinished <==> FlagAt(h, params.numSteps))
    }

    /** One pass of the main loop. */
    method TakeStep(comps: seq<Component>, interrupted: nat -> bool, ghost h: seq<seq<Snap>>, ghost dt: real)
      returns (ok: bool, ghost next: seq<seq<Snap>>)
      requires Different(comps) && (0.0 <= timeStart || eps <= 1.0) && 0.0 < params.timeStepSize
      requires RunInv(comps, h, interrupted, dt) && !Stops(h, interrupted, dt)
      modifies Objects(comps), params`aComponentFinished, params`time, params`timeEndStep, params`numSteps
      ensures Kinds(comps) == old(Kinds(comps))
      ensures ok ==> next == h + [Snaps(comps)] && RunInv(comps, next, interrupted, dt)
      ensures !ok ==> next == h && |h| == params.numSteps + 1 && params.time == Tick(timeStart, dt, params.numSteps)
      ensures !ok ==> Broken(Kinds(comps), h[params.numSteps], Snaps(comps), params.numSteps, dt)
    {
      hide Tick, AllProgress, SomeFinished, ShouldStop, Stops, Different, IsHistory, Broken, SweepDone, FlagAt, Objects;
      ok := SynchronizationStep(comps);
      next := h;
      if ok {
        HistoryGrows(Kinds(comps), h, Snaps(comps), interrupted, dt);
        next := h + [Snaps(comps)];
      }
    }

    /**
      The main loop. `interrupted(n)` says whether the run is interrupted before step `n`; a run without
      an end time is stopped from outside at the latest before step `last`. The history tells all steps:
      each was taken although none of the reasons to stop held, and after the last one either some reason
      holds or a component has failed.
    */
    method Run(comps: seq<Component>, interrupted: nat -> bool, ghost last: nat)
      returns (ok: bool, ghost history: seq<seq<Snap>>)
      requires Different(comps) && (0.0 <= timeStart || eps <= 1.0) && 0.0 < params.timeStepSize
      requires !timeEndDefined ==> interrupted(last)
      requires params.time == timeStart && params.numSteps == 0 && !params.aComponentFinished
      requires forall i :: 0 <= i < |comps| ==> comps[i].Valid() && comps[i].numSteps == 0
      requires forall i :: 0 <= i < |comps| ==> comps[i].time == comps[i].startTime == timeStart
      modifies Objects(comps), params`aComponentFinished, params`time, params`timeEndStep, params`numSteps
      ensures Kinds(comps) == old(Kinds(comps)) && |history| == params.numSteps + 1 && history[0] == old(Snaps(comps))
      ensures IsHistory(Kinds(comps), history, interrupted, params.timeStepSize)
      ensures params.time == Tick(timeStart, params.timeStepSize, params.numSteps)
      ensures AllProgress(Kinds(comps), history[params.numSteps], params.numSteps, timeStart, params.timeStepSize, eps)
      ensures ok <==> Stops(history, interrupted, params.timeStepSize)
      ensures ok ==> history[params.numSteps] == Snaps(comps)
      ensures !ok ==> Broken(Kinds(comps), history[params.numSteps], Snaps(comps), params.numSteps, params.timeStepSize)
    {
      hide Tick, AllProgress, ValidSnap, SomeFinished, ShouldStop, Stops, Different, IsHistory, Broken, FlagAt;
      hide Objects, RunInv, Kinds, Snaps, Lt;
      ghost var kinds, dt := Kinds(comps), params.timeStepSize;
      params.timeEndStep := timeStart;
      ghost var bound: nat := last;
      if timeEndDefined {
        bound := TickReaches(timeStart, dt, timeEnd);
      }
      history := [Snaps(comps)];
      RunStarts(comps, interrupted, dt);
      RunFacts(comps, history, interrupted, dt);
      var stop := CheckIfFinished(comps, interrupted(params.numSteps));
      while !stop
        invariant Kinds(comps) == kinds && 0 < |history| <= bound + 1 && history[0] == old(Snaps(comps))
        invariant RunInv(comps, history, interrupted, dt)
        invariant stop <==> Stops(history, interrupted, dt)
        decreases bound + 1 - |history|
      {
        GoesOn(history, interrupted, last, bound, dt);
        RunFacts(comps, history, interrupted, dt);
        ok, history := TakeStep(comps, interrupted, history, dt);
        if !ok {
          return;
        }
        RunFacts(comps, history, interrupted, dt);
        stop := CheckIfFinished(comps, interrupted(params.numSteps));
      }
      RunFacts(comps, history, interrupted, dt);
      ok := true;
    }

    lemma RunStarts(comps: seq<Component>, interrupted: nat -> bool, dt: real)
      requires params.time == params.timeEndStep == timeStart && params.timeStepSize == dt
      requires params.numSteps == 0 && !params.aComponentFinished
      requires forall i :: 0 <= i < |comps| ==> comps[i].Valid() && comps[i].numSteps == 0
      requires forall i :: 0 <= i < |comps| ==> comps[i].time == comps[i].startTime == timeStart
      ensures RunInv(comps, [Snaps(comps)], interrupted, dt)
    {
      hide Tick, AllProgress, ValidSnap, IsHistory, FlagAt;
      StartProgress(Kinds(comps), Snaps(comps), timeStart, dt, eps);
      TickNext(timeStart, dt, 0);
      HistoryStarts(Kinds(comps), Snaps(comps), interrupted, dt);
    }

    /** What the invariant says about the history, and how the test of the loop is the one on the history. */
    lemma RunFacts(comps: seq<Component>, h: seq<seq<Snap>>, interrupted: nat -> bool, dt: real)
      requires RunInv(comps, h, interrupted, dt)
      ensures |h| == params.numSteps + 1 && params.timeStepSize == dt && h[params.numSteps] == Snaps(comps)
      ensures params.time == Tick(timeStart, dt, params.numSteps)
      ensures IsHistory(Kinds(comps), h, interrupted, dt)
      ensures AllProgress(Kinds(comps), h[params.numSteps], params.numSteps, timeStart, dt, eps)
      ensures Stops(h, interrupted, dt) <==>
        ShouldStop(Snaps(comps), params.aComponentFinished, interrupted(params.numSteps), params.time)
    {
      hide Tick, AllProgress, ShouldStop, IsHistory;
    }

    /** Before every step taken some component was not finished, and no other reason to stop held. */
    lemma StepsHadReason(kinds: seq<Kind>, h: seq<seq<Snap>>, interrupted: nat -> bool, dt: real, m: nat)
      requires IsHistory(kinds, h, interrupted, dt) && m < |h| - 1
      ensures exists i :: 0 <= i < |h[m]| && h[m][i].finishState == IsNotFinished
      ensures !interrupted(m) && (timeEndDefined ==> Lt(Tick(timeStart, dt, m), timeEnd, eps))
      ensures stopIfFirstComponentFinished && m > 0 ==> !SomeFinished(h[m])
    {
      hide SweepDone, Tick, Lt;
      assert StepTaken(kinds, h, interrupted, m, dt);
    }

    /**
      So no step is taken once every component has finished or never finishes, which includes the model
      without components, nor, if the run is to stop with the first finished component, once a step has
      finished one.
    */
    lemma NoStepAfterFinish(kinds: seq<Kind>, h: seq<seq<Snap>>, interrupted: nat -> bool, dt: real, m: nat)
      requires IsHistory(kinds, h, interrupted, dt) && m < |h|
      requires
        || (forall i :: 0 <= i < |h[m]| ==> h[m][i].finishState != IsNotFinished)
        || (stopIfFirstComponentFinished && m > 0 && SomeFinished(h[m]))
      ensures m == |h| - 1
    {
      if m < |h| - 1 {
        StepsHadReason(kinds, h, interrupted, dt, m);
      }
    }

    /** What the test before every step comes to, for the components as they stand. */
    lemma ShouldStopIff(comps: seq<Component>, interrupted: bool)
      ensures ShouldStop(Snaps(comps), params.aComponentFinished, interrupted, params.time) <==>
        || interrupted
        || (stopIfFirstComponentFinished && params.aComponentFinished)
        || (forall i :: 0 <= i < |comps| ==> comps[i].finishState != IsNotFinished)
        || (timeEndDefined && !Lt(params.time, timeEnd, eps))
    {
      hide Lt;
      forall i | 0 <= i < |comps|
        ensures Snaps(comps)[i].finishState == comps[i].finishState
      {
      }
    }

    /**
      The reasons to stop: an interruption, a first finished component if that is to stop the run, no component
      left to finish, or an end time that has been reached.
    */
    lemma StopsIff(h: seq<seq<Snap>>, interrupted: nat -> bool, dt: real)
      requires |h| > 0
      ensures var n := |h| - 1;
        Stops(h, interrupted, dt) <==>
          || interrupted(n)
          || (stopIfFirstComponentFinished && n > 0 && exists i :: 0 <= i < |h[n]| && h[n][i].finishState == IsFinished)
          || (forall i :: 0 <= i < |h[n]| ==> h[n][i].finishState != IsNotFinished)
          || (timeEndDefined && !Lt(timeStart + n as real * dt, timeEnd, eps))
    {
      hide Lt;
    }

    /** Without an end time nothing but an interruption or the components stops a run. */
    lemma EndlessRunGoesOn(h: seq<seq<Snap>>, interrupted: nat -> bool, dt: real, i: nat)
      requires |h| > 0 && !timeEndDefined && !stopIfFirstComponentFinished && !interrupted(|h| - 1)
      requires i < |h[|h| - 1]| && h[|h| - 1][i].finishState == IsNotFinished
      ensures !Stops(h, interrupted, dt)
    {
      StopsIff(h, interrupted, dt);
    }

    /** A run that nothing else stopped has taken the least number of steps that reaches the end time. */
    lemma StopsAtLeast(kinds: seq<Kind>, h: seq<seq<Snap>>, interrupted: nat -> bool, dt: real, i: nat)
      requires IsHistory(kinds, h, interrupted, dt) && timeEndDefined
      requires Stops(h, interrupted, dt)
      requires var n := |h| - 1;
        && !interrupted(n)
        && !(stopIfFirstComponentFinished && FlagAt(h, n))
        && i < |h[n]|
        && h[n][i].finishState == IsNotFinished
      ensures IsLeast(timeStart, dt, |h| - 1, timeEnd, eps)
    {
      hide Tick, Lt, SweepDone, IsHistory;
      forall m: nat | m < |h| - 1
        ensures Lt(Tick(timeStart, dt, m), timeEnd, eps)
      {
        StepsHadReason(kinds, h, interrupted, dt, m);
      }
    }

    /** A model without components stops before its first step. */
    lemma EmptyListStops(aFinished: bool, interrupted: bool, time: real)
      ensures ShouldStop([], aFinished, interrupted, time)
    {
    }

    /** A run that goes on has not been interrupted, and has not reached the end time. */
    lemma GoesOn(h: seq<seq<Snap>>, interrupted: nat -> bool, last: nat, bound: nat, dt: real)
      requires 0 < |h| <= bound + 1 && !Stops(h, interrupted, dt) && 0.0 < dt
      requires if timeEndDefined then timeEnd <= Tick(timeStart, dt, bound) else bound == last && interrupted(last)
      ensures |h| <= bound
    {
      hide Tick;
      if timeEndDefined && |h| - 1 == bound {
        NotBelowItself(Tick(timeStart, dt, bound), timeEnd, eps);
      }
    }
  }

  lemma NextTick(start: real, h: real, n: nat)
    ensures start + n as real * h == Tick(start, h, n)
  {
  }

  lemma StartProgress(kinds: seq<Kind>, s: seq<Snap>, start: real, dt: real, eps: real)
    requires ValidSnaps(kinds, s)
    requires forall i :: 0 <= i < |s| ==> s[i].numSteps == 0 && s[i].time == kinds[i].startTime == start
    ensures AllProgress(kinds, s, 0, start, dt, eps)
  {
    TickNext(start, dt, 0);
    NotBelowItself(start, start, eps);
    forall i | 0 <= i < |s| && kinds[i].hasOwnTime
      ensures Tick(start, kinds[i].timeStepSize, 0) == start
    {
      TickNext(start, kinds[i].timeStepSize, 0);
    }
    hide Tick, Lt;
  }

  lemma ProgressValid(kinds: seq<Kind>, s: seq<Snap>, n: nat, start: real, dt: real, eps: real)
    requires AllProgress(kinds, s, n, start, dt, eps)
    ensures ValidSnaps(kinds, s)
  {
    hide Tick;
  }
}

# OpenMCx in Dafny

OpenMCx is a co-simulation master. It orders the components of a model by their dependencies,
breaks algebraic loops, steps the components through simulated time, one after the other or with
one thread each, and records results. This project models that logic and proves what it is for.

| module | what it covers |
|---|---|
| `Graphs`, `TarjanState`, `Tarjan` | strongly connected components of the dependency graph, in evaluation order |
| `Dependency`, `SubModel`, `Model` | the dependency matrix, the choice of connections to decouple, and the loop that decouples and orders again |
| `StepBarrier` | the multi-threaded step as a transition system over all interleavings, compared with the serial step |
| `TimeCompare`, `TimeStepping` | comparison of times modulo an epsilon, components with step sizes of their own, the main loop of a simulation |
| `Optparse`, `WrittenOptions` | the command line parser that permutes its arguments in place, and what it finds in every list, told by the way the list is written |
| `Storage` | the table of results, the filters, and the result files, written at once or at the end |
| `HashMap`, `FmuDependencies` | the chained hash table, and the initial dependency matrix of an FMU |
| `Interpolation` | lookup in tables of points, and the point buffer of a polynomial |
| `Parameters`, `Duplicates` | the order of parameter names, the merge into tunable parameters, and when the search for duplicates is sure to find one |
| `Collections` | options and finite sets, for several of the others |

`dafny verify dfyconfig.toml` checks everything.

## How the parts are modelled

Code that changes things step by step is modelled by classes and methods with loops over the same
fields and arrays: the arrays and the bounded stack of Tarjan's algorithm, the flat dependency
matrix, the decoupled flags of connections, the argument vector, the growing table of results, the
hash buckets, the components and the simulation task. Each method is proved against a specification on values,
and the main results are theorems about that specification.

Threads are a transition system. Every access to shared state (the mutex, the counter, the events,
the finished flags) is one step, any enabled party may take the next step, and a run is a sequence
of such steps. The step of a component is an arbitrary function of its own state and of the state
that was fixed before the round began.

Where a method and its specification go through the same function, a lemma says what that function
means without it: what a table lookup satisfies, which calls are stored, what a command line says,
when a run stops, what one round of the components is.

Times are real numbers. The comparisons follow `src/util/common/compare.c`, that is, with an epsilon
that is absolute near zero and relative for large numbers; nothing is assumed about the epsilon
unless a contract says so.

## Where the code falls short of what one might expect

- Ordering the components fails exactly when some cycle of dependencies runs along unbreakable
  bundles only (`Model.ModelConnectionsDone`). The bundles that are breakable at the start decide
  this; the order in which bundles are broken does not matter (`Model.UnbreakableCyclesStay`).
- A synchronization step that is smaller than the relative epsilon at the current time is not seen
  by components without a step size of their own: they do not step (`TimeStepping.SwallowedStep`).
  They take one step per synchronization step exactly up to the bound of
  `TimeStepping.SharedStepsIff`; in the terms a user sets, as long as neither `relativeEps` nor its
  product with the time is above one (`TimeStepping.SharedStepsIffRelative`).
- A `relativeEps` of zero, or a negative one, is accepted (`src/core/Task.c:262`, `316`); two equal
  times then compare as neither at least nor at most each other. So the last coupling step of a synchronization step is stored
  at coupling level exactly when the synchronization step ends where a step of the component ends
  (`TimeStepping.LastStoreIsSynchronization`, `TimeStepping.SynchronizationStoredAsCoupling`). And
  the row that follows one stored at the start time may come less than a step time after it
  (`Storage.RowsAreStepTimeApart` for all other rows, `Storage.StartRowIsNotCounted`).
- A run takes no step once every component has finished or never finishes, so components that never
  finish do not keep it going to its end time (`TimeStepping.Task.NoStepAfterFinish`).
- After an unknown option that is not the first of its cluster, the parser keeps its place inside
  the cluster while it moves on to the next argument. For every such place there is a rest that is
  then not parsed as it should be, or read behind its end (`Optparse.PlaceReset`,
  `Optparse.MayGoOnAfterError`, `Optparse.ShortClusterGoesWrong`,
  `Optparse.StalePlaceLosesOption`). The program's own caller stops at the first error
  (`src/core/Config.c:170-173`).
- The initial dependencies of an FMU ask the first input channel for its validity, whichever input
  is meant (`src/components/comp_fmu.c:1131`). A connected channel is always valid
  (`src/core/channels/Channel.c:331-342`), so this matters when the first input is not connected and
  has no default value: then all dependencies are lost, and the matrix is wrong exactly if some
  connected input matters (`FmuDependencies.IntendedIffFirstValid`, `FmuDependencies.AllDependenciesLost`,
  `FmuDependencies.SecondInputIsLost`).
- The comparison of parameter names cuts a 64-bit difference to 32 bits, so that two names can each
  come before the other, or count as equal (`Parameters.LargeNumbersAreNotOrdered`). It is right for
  two names exactly when the first tokens in which they differ are not two numbers whose distance
  modulo 2^32 is zero, 2^31 or more (`Parameters.CmpIsOrderIff`). Names that differ in leading zeros
  of a number count as equal. A duplicate can hide behind such names
  (`Parameters.AliasHidesDuplicate`); it cannot exactly when it makes up more than half of them (`Duplicates.AlwaysRightIff`). And a
  tunable parameter can get the value of a parameter of another name (`Parameters.SameNameIff`).

## What callers rule out

- Taken alone, the multi-threaded step would wait for ever on an empty evaluation list
  (`StepBarrier.EmptyListBlocks`). The main loop, which is its only caller, never takes a step with
  one (`TimeStepping.Task.EmptyListStops`, `TimeStepping.Task.NoStepAfterFinish`).
- Finishing all components when the last of them was finished on its own before ends the output a
  second time, which is reported as an error exactly if there is a table to write
  (`Storage.ResultsStorage.Finished`, `Storage.SecondFinishFails`); the files are complete in any
  case. The program does not get there: nothing calls `StorageFinishModel`
  (`src/storage/ResultsStorage.c:163`), and tables kept to the end cannot be asked for in the input,
  because the setting is read after the backend has been configured with the default
  (`src/storage/ResultsStorage.c:422-430`). The mode is a parameter of the model.
- With an epsilon that is not positive, the test of the step size of a component would let zero
  pass, and such a component would never get to the end of its communication step
  (`TimeStepping.Component.SetTimeStep`). The only caller is the reading of a component
  (`src/core/Component.c:97-98`), and all models are read (`mcx/mcx.c:396`) before the task sets the
  epsilon (`mcx/mcx.c:424`, `src/core/Task.c:316`), that is, under the default of 1e-8
  (`src/util/common/compare.c:19`, `src/CentralParts.h:73`), which refuses zero.

The comments in `src/util/compare.h` describe the comparisons more loosely than the code; the model
follows the code.

## Model

| member | source | states |
|---|---|---|
| `Tarjan.Tarjan` | libs/tarjan/tarjan.c:334-359 | For every n and every n by n matrix the algorithm terminates, and its groups cover all nodes, each group strongly connected, flagged exactly when it has a cycle, and closed under dependencies together with the groups before it |
| `Tarjan.TarjanData.Connect` | libs/tarjan/tarjan.c:234-296 | A call on an unvisited node keeps the invariant of the run, decides nothing anew about earlier nodes, and either closes everything it visited into groups or leaves it on the stack for an earlier node that it reaches |
| `Tarjan.TarjanData.Enter` | libs/tarjan/tarjan.c:238-243 | The new state has the next index and low link at the node and the node on top of the stack, and nothing else changed |
| `Tarjan.TarjanData.LowerLink` | libs/tarjan/tarjan.c:252 | Only the low link of one node changes, to the smaller of two numbers |
| `Tarjan.TarjanData.CloseGroup` | libs/tarjan/tarjan.c:262-288 | Exactly the nodes from the given one up leave the stack and become one new last group with the right loop flag |
| `Tarjan.TarjanData.constructor` | libs/tarjan/tarjan.c:174-232 | The initial arrays are undefined everywhere, and stack and result are empty |
| `Tarjan.Stack.constructor` | libs/tarjan/tarjan.c:34-59 | A new stack is empty and has the capacity asked for |
| `Tarjan.Stack.Elem` | libs/tarjan/tarjan.c:62-72 | Tells membership in the contents, both ways |
| `Tarjan.Stack.Push` | libs/tarjan/tarjan.c:74-80 | Appends one element, or drops it when the stack is full |
| `Tarjan.Stack.Pop` | libs/tarjan/tarjan.c:83-90 | Takes off the last element, or returns the undefined index from an empty stack |
| `Tarjan.Stack.PopDownTo` | libs/tarjan/tarjan.c:270-276 | The do-while loop takes off exactly the elements down to the given one |
| `Tarjan.StackFits` | libs/tarjan/tarjan.c:74-80 | Elements of the stack carry increasing indices below the index counter, so a stack of capacity n never drops a push |
| `Tarjan.Finished` | libs/tarjan/tarjan.c:343-353 | When all nodes are visited and no call is open, all nodes are in finished groups |
| `TarjanState.Enter` | libs/tarjan/tarjan.c:238-246 | The invariant of the successor loop holds when a call starts |
| `TarjanState.MayDescend` | libs/tarjan/tarjan.c:250-251 | Every open node reaches an unvisited successor, so the recursive call may rely on the same invariant |
| `TarjanState.Descended` | libs/tarjan/tarjan.c:250-253 | Taking over the low link of a finished recursive call keeps the invariant of the loop |
| `TarjanState.SeenOnStack` | libs/tarjan/tarjan.c:256-258 | Taking over the index of a successor on the stack keeps the invariant of the loop |
| `TarjanState.Skipped` | libs/tarjan/tarjan.c:246-260 | No edge, or a successor in a finished group, needs no change |
| `TarjanState.SegmentClosed` | libs/tarjan/tarjan.c:262 | If the low link still equals the index, no edge leaves the part of the stack above the node except to finished groups |
| `TarjanState.SegmentConnected` | libs/tarjan/tarjan.c:262 | And that part of the stack is strongly connected |
| `TarjanState.LoopFlagRight` | libs/tarjan/tarjan.c:280-287 | Several nodes or a self-loop is the same as a cycle through the group |
| `TarjanState.RootCloses` | libs/tarjan/tarjan.c:262-288 | Closing the group leaves the stack of the caller and one more finished component |
| `TarjanState.NonRootStays` | libs/tarjan/tarjan.c:262 | Otherwise the nodes stay on the stack and reach an earlier open node |
| `TarjanState.OrderIsPartition` | libs/tarjan/tarjan.c:334-359 | Every node stands at exactly one place in exactly one group |
| `TarjanState.GroupsAreComponents` | libs/tarjan/tarjan.c:262-288 | Two nodes share a group exactly when each reaches the other |
| `TarjanState.DependenciesFirst` | libs/tarjan/tarjan.c:262-278 | A group is emitted no earlier than any group that its nodes reach |
| `TarjanState.FlagMeansCycle` | libs/tarjan/tarjan.c:280-287 | A group is flagged exactly when a cycle, a self-loop included, runs through its nodes |
| `TarjanState.LoopsExistIffCycle` | src/core/SubModel.c:782-796 | Some group is flagged exactly when the graph has a cycle |
| `Dependency.Dependencies.constructor` | src/core/Dependency.c:23-46 | A new matrix has no dependencies |
| `Dependency.Dependencies.SetDependency` | src/core/Dependency.c:60-80 | Writes the cell asked for and no other; an index out of range is an error that changes nothing |
| `Dependency.Dependencies.GetDependency` | src/core/Dependency.c:82-110 | Reads a cell, with the order of the error cases as in the code: no inputs, then no outputs, then indices |
| `Dependency.CellsDiffer` | src/core/Dependency.c:75 | Different cells of the matrix have different places in the flat array |
| `Dependency.MatrixEdges` | src/core/Dependency.c:75-77 | Read as an adjacency matrix, a row lists what its node depends on |
| `SubModel.FillNodeMap` | src/core/SubModel.c:116-136 | At runtime the node map holds every component once, in the order of the list |
| `SubModel.GetNodeID` | src/core/SubModel.c:159-173 | Finds the place of a node, or reports that there is none |
| `SubModel.GetInOutGroupsDependency` | src/core/Component.c:612-629 | The matrix of one component depends on exactly the inputs that the component says |
| `SubModel.CreateDependencyMatrix` | src/core/SubModel.c:621-746 | A cell is set exactly when some active, undecoupled connection whose input matters leads from the one component to the other |
| `SubModel.FillRow` | src/core/SubModel.c:632-743 | One target node fills its own row and no other |
| `SubModel.DemandsMeans` | src/core/SubModel.c:632-706 | A channel counts exactly when the outputs depend on it and its connection is active, not decoupled, and not of the type that is always decoupled |
| `SubModel.GetConnections` | src/core/Component.c:829-861 | Finds exactly the connections from one component to another |
| `SubModel.Connection.SetDecoupled` | src/core/SubModel.c:508 | Decoupling sets the flag and changes nothing else of the connection |
| `SubModel.BundlePriority` | src/core/SubModel.c:443-464 | The priority is the highest one offered, the largest number against the trigger sequence, and -1 for a bundle with a connection that must never be decoupled |
| `SubModel.PriorityFacts` | src/core/SubModel.c:443-478 | A bundle has a priority of at least zero exactly when it may be decoupled |
| `SubModel.PriorityMeans` | src/core/SubModel.c:443-464 | The priority in full: the largest number if the source comes after the target in the trigger sequence, otherwise -1 for a bundle with a connection that must never be decoupled, and else the highest priority offered |
| `SubModel.BreakableMeans` | src/core/SubModel.c:443-478 | Which bundles may be decoupled, in terms of the trigger sequence and the types and priorities of their connections |
| `SubModel.PriorityUnique` | src/core/SubModel.c:443-464 | The priority does not depend on the order of the connections |
| `SubModel.ChooseBundle` | src/core/SubModel.c:418-475 | Despite the early exit the chosen bundle has the highest priority in its group, and if none is chosen none can be decoupled |
| `SubModel.DecoupleBundle` | src/core/SubModel.c:499-509 | Exactly the flags of one bundle are set |
| `SubModel.OrderedNodesDecoupleConnections` | src/core/SubModel.c:397-520 | A successful pass decouples one best bundle in every loop group and nothing else; a failed one says why, and what it had done so far |
| `SubModel.OrderedNodesCheckIfLoopsExist` | src/core/SubModel.c:782-796 | Tells whether some group is a loop, both ways |
| `Model.CreateOrderedNodes` | src/core/SubModel.c:748-780 | The groups are an order of the graph of dependencies among the components |
| `Model.GetEvaluationList` | src/core/SubModel.c:181-202 | The list is the groups written one after the other, and the guard on its length never cuts it |
| `Model.GetComponentsOfEvaluationList` | src/core/SubModel.c:243-273 | The components of the list, each once, in the order of their first occurrence |
| `Model.ElementsInOrder` | src/core/SubModel.c:243-273 | Where no component occurs twice this is the list itself |
| `Model.CreateSubModelOfAllNodes` | src/core/SubModel.c:275-307 | Refuses exactly when loops exist or too few groups exist for the components that need one |
| `Model.ModelConnectionsDone` | src/core/Model.c:376-436 | Terminates; an order, when there is one, respects all dependencies that are left; and for components listed by their id there is one exactly when no cycle runs along unbreakable bundles only. The flags change pass by pass as the history tells, and not at all if there is no loop |
| `Model.PassIsPass` | src/core/SubModel.c:397-520 | A pass happens only when there is a loop, and decouples at most one whole bundle on each loop, one that nothing on the loop outranks, and nothing else; a complete pass leaves out no loop. Loops are told by the cycles of dependencies, not by the groups |
| `Model.LoopsAreGroups` | src/core/SubModel.c:782-796 | Two components are in one loop group exactly when some cycle of dependencies runs through both |
| `Model.HistoryGrows` | src/core/Model.c:396-415 | Every turn of the loop that decouples and orders again is such a pass |
| `Model.NoLoopNothingDecoupled` | src/core/Model.c:396-399 | Without a cycle of dependencies nothing is decoupled |
| `Model.WithoutPlaceCounts` | src/core/SubModel.c:279-291 | The components that need no place are counted one by one |
| `Model.PassProgress` | src/core/Model.c:396-424 | A pass over a model with a loop decouples at least one more connection |
| `Model.PassBreaksWhole` | src/core/SubModel.c:477-511 | Passes decouple whole bundles that could be decoupled, and nothing else |
| `Model.BreaksWholeTrans` | src/core/Model.c:396-424 | So do sequences of passes |
| `Model.UnbreakableCyclesStay` | src/core/Model.c:396-424 | Decoupling never changes which cycles are unbreakable |
| `Model.StuckMeansUnbreakable` | src/core/SubModel.c:512-516 | A loop group with nothing to decouple contains an unbreakable cycle |
| `Model.AcyclicMeansNone` | src/core/Model.c:396 | When the loop ends there was no unbreakable cycle |
| `Model.SizesAddUp` | src/core/SubModel.c:404-412 | The groups together hold as many nodes as the model has |
| `Model.SinglesInOrder` | src/core/SubModel.c:275-307 | Without loops every group is one node, and the list has one entry per component |
| `Model.EvaluationOrderHolds` | src/core/SubModel.c:181-202 | The list holds every component once, and each one after all components it depends on |
| `Model.IfNeededAlwaysOrders` | src/core/SubModel.c:455-458 | If every connection may be decoupled when needed with a priority of at least zero, ordering never fails |
| `Model.TriggerSequenceOrders` | src/core/SubModel.c:452-454 | With pairwise different trigger numbers ordering fails exactly when a component depends on itself along an unbreakable bundle |
| `Model.NeverOnlyAgainstSequence` | src/core/SubModel.c:452-462 | A connection that must never be decoupled is decoupled only when its source comes after its target in the trigger sequence |
| `StepBarrier.NextKeepsSync` | src/steptypes/StepTypeParallelMT.c:32-49 | Every step of the coordinator or of a worker keeps the invariant of the barrier |
| `StepBarrier.RunKeepsSync` | src/steptypes/StepTypeParallelMT.c:124-200 | The invariant holds in every state of every interleaving |
| `StepBarrier.WaitPassesAfterAllSteps` | src/steptypes/StepTypeParallelMT.c:182 | When the wait of round k passes, every worker has completed exactly k communication steps and none is inside one |
| `StepBarrier.NoEarlyStep` | src/steptypes/StepTypeParallelMT.c:129-136 | No worker steps in a round in which it has not been started |
| `StepBarrier.SetupNeverRaces` | src/steptypes/StepTypeParallelMT.c:173-174 | When the counter is written without the mutex, no worker is anywhere near it |
| `StepBarrier.NoWakeupLost` | src/steptypes/StepTypeParallelMT.c:36-49 | The done event is set exactly once per round, and no event is set that is still set |
| `StepBarrier.CountIsOwing` | src/steptypes/StepTypeParallelMT.c:36-45 | The counter is at all times the number of workers that still have to decrement it |
| `StepBarrier.NoDeadlock` | src/steptypes/StepTypeParallelMT.c:150-200 | With at least one worker, some party can move until the destructor is done |
| `StepBarrier.EmptyNeverDone` | src/steptypes/StepTypeParallelMT.c:40-42 | Without workers the done event is never set |
| `StepBarrier.EmptyListBlocks` | src/steptypes/StepTypeParallelMT.c:174-182 | Taken alone, the multi-threaded step would wait for ever on an empty evaluation list; the main loop never calls it with one (TimeStepping.Task.EmptyListStops) |
| `StepBarrier.ShutdownIsQuiet` | src/steptypes/StepTypeParallelMT.c:257-274 | During the shutdown no worker takes another step, and at its end all have exited |
| `StepBarrier.BusyIsBounded` | src/steptypes/StepTypeParallelMT.c:150-200 | Inside a round, or inside the shutdown, every interleaving makes progress towards its end |
| `StepBarrier.RoundEnds` | src/steptypes/StepTypeParallelMT.c:174-182 | A round takes at most 12 n + 3 steps from the setup of the counter to the end of the wait |
| `StepBarrier.RunKeepsData` | src/steptypes/StepTypeParallelMT.c:150-200 | In every state of every interleaving the components are those of the serial sweep, as far as their workers have got |
| `StepBarrier.AllStepped` | src/steptypes/StepTypeParallelMT.c:182-191 | After the wait the components are those of the serial sweep |
| `StepBarrier.ThreadsMatchSerial` | src/steptypes/StepTypeParallelMT.c:150-200 | Between two rounds the components and the finished flag equal those of the serial run, and threads fail only where it fails |
| `StepBarrier.ParallelSTDoStep` | src/steptypes/StepTypeParallelST.c:19-47 | The serial step computes one round of the serial run, in place |
| `StepBarrier.SerialRoundIff` | src/steptypes/StepTypeParallelST.c:19-47 | The serial round succeeds exactly when all components can be prepared, stepped from the prepared values, and connected, with that result |
| `StepBarrier.ThreadsDoRounds` | src/steptypes/StepTypeParallelMT.c:124-200 | Between two rounds, whatever the interleaving, the threads have led the components through as many such rounds as they have begun |
| `StepBarrier.ThreadsFailWithoutRound` | src/steptypes/StepTypeParallelMT.c:124-200 | When they stop with an error, the components had come to a point from which there is no next round |
| `TimeCompare.LtMeans` | src/util/common/compare.c:39-82 | Less means smaller by at least the epsilon, and by at least that part of the larger number; for all numbers |
| `TimeCompare.ComparisonsMean` | src/util/common/compare.c:39-97 | All four comparisons in terms of the numbers: two numbers count as apart when they differ by at least the epsilon and by at least that part of either of them |
| `TimeCompare.ExactWithoutEpsilon` | src/util/common/compare.c:39-61 | With an epsilon that is not positive numbers are compared exactly |
| `TimeCompare.NotLessIsAtLeast` | src/util/common/compare.c:80-96 | Not less is at least, except for equal times and an epsilon that is not positive |
| `TimeCompare.LtMonotone` | src/util/common/compare.c:39-82 | What lies below a time lies below every later one, for numbers that are not negative or an epsilon of at most one |
| `TimeCompare.LtNotMonotone` | src/util/common/compare.c:39-82 | For a larger epsilon and a negative number it does not |
| `TimeCompare.StepIsSeen` | src/util/common/compare.c:39-61 | A step counts as one exactly when neither epsilon swallows it |
| `TimeCompare.LeastIsUnique` | src/steptypes/StepType.c:49-52 | There is only one least number of steps that reaches a time |
| `TimeCompare.LeastIsClose` | src/steptypes/StepType.c:49-52 | The least number of steps that reaches a time overshoots it by less than one step |
| `TimeStepping.Component.constructor` | src/core/Component.c:1180-1200 | A new component stands at time zero before its first step |
| `TimeStepping.Component.Initialize` | src/core/Component.c:386-395 | The clock of a component starts at the start time of the run |
| `TimeStepping.Component.SetTimeStep` | src/core/Component.c:757-768 | Accepts exactly the step sizes that the comparison does not put at or below zero, for any epsilon; with a positive one, such as the default under which models are read, all of them are positive |
| `TimeStepping.Component.SetIsFinished` | src/core/Component.c:783-787 | A component that never finishes stays so, any other is finished |
| `TimeStepping.Component.UpdateTime` | src/core/Component.c:789-795 | The time after a step, in both modes |
| `TimeStepping.Component.DoStep` | src/core/Component.c:445-484 | A failed step changes nothing; another one counts, advances the time, to the end of its interval if the epsilon does not tell the two apart, and may finish the component |
| `TimeStepping.Component.CouplingStep` | src/steptypes/StepType.c:49-152 | One coupling step, and the levels at which its inputs and its results are stored |
| `TimeStepping.Component.DoCommunicationStep` | src/steptypes/StepType.c:28-162 | The steps of one call, their intervals, the finish state and the shared flag |
| `TimeStepping.LastStoreIsSynchronization` | src/steptypes/StepType.c:124-129 | Of the steps of a call exactly the last is stored at synchronization level, unless the epsilon is not positive and the synchronization step ends where a step of the component does; for components with and without a step size of their own |
| `TimeStepping.SynchronizationStoredAsCoupling` | src/steptypes/StepType.c:124-129 | A call without an epsilon whose only step ends with it and is stored at coupling level |
| `TimeStepping.LandsOnStep` | src/steptypes/StepType.c:124-129 | Without an epsilon the last step ends at the synchronization time exactly when some step does |
| `TimeStepping.FinishingStore` | src/steptypes/StepType.c:124-129 | A component that finishes in a call is stored at synchronization level only if it has reached the end of the synchronization step by then |
| `TimeStepping.CallOnRecord` | src/steptypes/StepType.c:36-101 | The inputs of the first step of a call are stored at synchronization level, those of the others at coupling level, and the intervals of a component follow each other from its start time on |
| `TimeStepping.FinishedByCall` | src/steptypes/StepType.c:46-48 | A call finishes a component exactly when one of its steps does and the component may finish, no step follows that one, and a finished component is not stepped |
| `TimeStepping.CompDoStep` | src/steptypes/StepType.c:211-223 | Stepping one component leaves all others as they are |
| `TimeStepping.DoStep` | src/steptypes/StepTypeParallelST.c:35-39 | The sweep steps every component once, or stops at the first one that fails |
| `TimeStepping.StaysFinished` | src/steptypes/StepType.c:42-45 | Finish states are sticky |
| `TimeStepping.OwnTimeProgress` | src/steptypes/StepType.c:49-62 | After any synchronization step an unfinished component with a step size of its own has taken exactly the least number of steps that reaches it, and its intervals tile the time since the start |
| `TimeStepping.SharedTimeProgress` | src/steptypes/StepType.c:49-62 | A component without one has taken at most one step per synchronization step, and one for each exactly when the epsilon has swallowed none of them |
| `TimeStepping.SharedStepsIff` | src/steptypes/StepType.c:49-62 | So it has stepped once per synchronization step exactly when the epsilon does not swallow the last of them |
| `TimeStepping.SharedStepsIffRelative` | src/core/Task.c:316 | In terms of the relative epsilon that the user sets: exactly when it and its product with the time are at most one |
| `TimeStepping.SwallowedStep` | src/steptypes/StepType.c:49-52 | A synchronization step in which such a component does not step |
| `TimeStepping.SweepProgress` | src/steptypes/StepTypeParallelST.c:35-39 | Both hold for all components after every sweep |
| `TimeStepping.ProgressIsClose` | src/core/Component.c:789-795 | A component runs ahead of the synchronization time by less than one of its steps |
| `TimeStepping.SeenUpTo` | src/util/common/compare.c:55-57 | The epsilon swallows none of the first n synchronization steps exactly when it does not swallow the last of them |
| `TimeStepping.Task.SubmodelIsFinished` | src/core/Task.c:28-43 | Tells whether no component is left unfinished |
| `TimeStepping.Task.CheckIfFinished` | src/core/Task.c:45-74 | Tells whether the run must stop, for any of the four reasons |
| `TimeStepping.Task.ShouldStopIff` | src/core/Task.c:54-73 | The four reasons, in terms of the components as they stand |
| `TimeStepping.Task.EmptyListStops` | src/core/Task.c:28-63 | A model with an empty evaluation list stops before its first step |
| `TimeStepping.Task.SynchronizationStep` | src/core/Task.c:142-158 | One pass of the main loop is one sweep over all components; the time is the start plus the number of steps times their size in both modes |
| `TimeStepping.Task.TakeStep` | src/core/Task.c:142-158 | One pass of the main loop extends the history by one sweep, or a component fails and the run ends |
| `TimeStepping.SweepKeepsFinished` | src/steptypes/StepType.c:42-45 | A flag that some component has finished stays right |
| `TimeStepping.Task.HistoryGrows` | src/core/Task.c:142-158 | A step for which no reason to stop held extends the history of the run |
| `TimeStepping.Task.Run` | src/core/Task.c:131-158 | Terminates with the history of the whole run: every step was a sweep before which none of the four reasons to stop held, after the last one some reason holds or a component has failed, and after k steps the time is start + k dt and all components have progressed as they should |
| `TimeStepping.Task.StepsHadReason` | src/core/Task.c:142 | Before every step taken some component was not finished, the run was not interrupted and the end time not reached, and no earlier step had finished a component if that is to stop the run |
| `TimeStepping.Task.NoStepAfterFinish` | src/core/Task.c:28-63 | No step is taken once no component is left unfinished, nor once one has finished if that is to stop the run |
| `TimeStepping.Task.StopsAtLeast` | src/core/Task.c:65-71 | A run that nothing else stopped has taken the least number of steps that reaches the end time |
| `TimeStepping.Task.StopsIff` | src/core/Task.c:54-73 | A run is over exactly when it is interrupted, some component has finished and that is to stop it, no component is left to finish, or an end time there is has been reached |
| `TimeStepping.Task.EndlessRunGoesOn` | src/core/Task.c:54-73 | Without an end time a run goes on as long as a component is left to finish, unless it is interrupted or the first one is to stop it |
| `Optparse.OptArgType` | extern/optparse/optparse.c:55-65 | Reads from an option string how one option takes arguments |
| `Optparse.ArgTypeMeans` | extern/optparse/optparse.c:55-65 | What an option string says about a character: two colons behind its first place make its argument optional, one makes it required, none means that it takes none |
| `Optparse.FromLong` | extern/optparse/optparse.c:148-160 | Writes the option string of a table of long options |
| `Optparse.OptStringRoundTrip` | extern/optparse/optparse.c:55-65 | Reading an option back from the string that was written gives the first table entry of its name |
| `Optparse.Parser.constructor` | extern/optparse/optparse.c:25-33 | The parser starts behind the name of the program |
| `Optparse.Parser.Permute` | extern/optparse/optparse.c:47-53 | Moves one argument behind the others up to the current place |
| `Optparse.RotatedKeeps` | extern/optparse/optparse.c:47-53 | That keeps all arguments, and the order of the others |
| `Optparse.Parser.PutBack` | extern/optparse/optparse.c:81-84 | Undoes the step over an operand once the arguments behind it are parsed |
| `Optparse.Parser.ShortOption` | extern/optparse/optparse.c:90-133 | One option of a cluster: result, argument, error, places and the cases that leave the place inside the cluster alone |
| `Optparse.Parser.Optparse` | extern/optparse/optparse.c:67-134 | One call terminates, permutes the arguments, leaves those before it alone, and does what a left-to-right parse that moves nothing does next, from any place for which no argument is read behind its end |
| `Optparse.Parser.LongOptionMatches` | extern/optparse/optparse.c:163-171 | A long option matches exactly when its name up to the equals sign is the one of the table |
| `Optparse.Parser.LongOptionArg` | extern/optparse/optparse.c:174-180 | The value is what stands behind the first equals sign |
| `Optparse.Parser.LongOptionStep` | extern/optparse/optparse.c:225-253 | One long option, with its errors |
| `Optparse.Parser.Fallback` | extern/optparse/optparse.c:182-199 | Short options are parsed by the string made from the table |
| `Optparse.Parser.OptparseLong` | extern/optparse/optparse.c:201-254 | The same as for short options alone, with long options as well |
| `Optparse.Parser.OptparseArg` | extern/optparse/optparse.c:136-142 | Hands out the operands in order |
| `Optparse.ScanInterleaves` | extern/optparse/optparse.c:67-89 | A parse splits the arguments into options with their arguments and operands, each in its old order |
| `Optparse.UsedParsesAlone` | extern/optparse/optparse.c:67-134 | The options found parse to the same events when nothing stands between them |
| `Optparse.OperandsLookLikeOperands` | extern/optparse/optparse.c:79-89 | Without a double dash all operands look like operands |
| `Optparse.PartitionParsesAlike` | extern/optparse/optparse.c:201-254 | Parsing with permutation finds the same options, arguments and operands as first partitioning the list and then parsing it without |
| `Optparse.ParseOptions` | extern/optparse/optparse.c:201-254 | Calling until the end or the first error terminates and yields the events of the parse that moves nothing |
| `Optparse.ParseOperands` | extern/optparse/optparse.c:136-142 | Calling until there is none left yields all operands |
| `Optparse.ParseCommandLine` | extern/optparse/optparse.c:201-254 | For every argument vector: the events, the operands, and the vector that is left, which is a permutation of the one given |
| `WrittenOptions.WrittenIsRead` | extern/optparse/optparse.c:78-254 | Round trip: from a list of options with or without values, in clusters, with values glued on, after an equals sign or in the next argument, and mixed with operands, the parser gets exactly these names, values and operands; with an error in it, what stands before the error and that error |
| `WrittenOptions.EveryListIsWritten` | extern/optparse/optparse.c:78-254 | There is no other list: each one consists of such pieces, followed by nothing, a double dash or an error |
| `WrittenOptions.ParseMeans` | extern/optparse/optparse.c:78-254 | So for every list the result of the parse is told by the way it is written |
| `WrittenOptions.ResultDirectory` | extern/optparse/optparse.c:108-109 | The argument -rout gives the option r the value out |
| `Optparse.PlaceReset` | extern/optparse/optparse.c:94-131 | A call leaves its cluster behind with the place in it not reset exactly when an unknown option was not the first of the cluster |
| `Optparse.MayGoOnAfterError` | extern/optparse/optparse.c:94-99 | Whatever follows an error, the rest is parsed as if the parser started with it exactly when the error was not that one |
| `Optparse.ShortClusterGoesWrong` | extern/optparse/optparse.c:90-99 | After that error a cluster of one option goes wrong for every place: it is read behind its end, or its option is skipped |
| `Optparse.LongerClusterSkips` | extern/optparse/optparse.c:90-91 | In a longer cluster the place kept skips options |
| `Optparse.StalePlaceLosesOption` | extern/optparse/optparse.c:95-99 | A list for which going on loses an option |
| `Storage.ChannelStorage.constructor` | src/storage/ChannelStorage.c:319-345 | A new table is empty, and nothing has been stored yet |
| `Storage.ChannelStorage.Reallocate` | src/storage/ChannelStorage.c:185-195 | More memory keeps every cell |
| `Storage.ChannelStorage.Grow` | src/storage/ChannelStorage.c:172-195 | There is room for one more row, and no cell is lost |
| `Storage.ChannelStorage.SetValueFromReferenceAt` | src/storage/ChannelStorage.c:141-165 | Writes one cell, or reports a column that does not exist or a row without memory and writes nothing |
| `Storage.ChannelStorage.SetRow` | src/storage/ChannelStorage.c:197-214 | Writes one row, time first, and no other cell |
| `Storage.ChannelStorage.StoreFull` | src/storage/ChannelStorage.c:167-219 | Appends a row; no growth step changes an earlier one |
| `Storage.ChannelStorage.StoreNonFull` | src/storage/ChannelStorage.c:221-261 | Leaves the table with exactly the new row |
| `Storage.TableKept` | src/storage/ChannelStorage.c:185-195 | Rows depend on nothing but their own cells |
| `Storage.TableAppended` | src/storage/ChannelStorage.c:197-216 | Writing behind the last row appends it |
| `Storage.ComponentStorage.constructor` | src/storage/ComponentStorage.c:217-254 | Nothing stored, nothing written |
| `Storage.ComponentStorage.PassesFilters` | src/storage/ComponentStorage.c:67-114 | Which calls are skipped, and which count |
| `Storage.ComponentStorage.StoreRow` | src/storage/ComponentStorage.c:122-132 | The row goes to the table, or to the file, depending on the mode |
| `Storage.ComponentStorage.StoreChannels` | src/storage/ComponentStorage.c:63-136 | Table and file always hold the rows that the calls so far ask for, in both modes; an error is reported exactly for a time before the last one |
| `Storage.ComponentStorage.ReadRow` | src/storage/ChannelStorage.c:265-268 | Reads a row cell by cell |
| `Storage.ComponentStorage.SetStored` | src/storage/ResultsStorage.c:268-310 | Writes all rows of the table, or reports an empty table or a closed file |
| `Storage.ComponentStorage.WriteTable` | src/storage/StorageBackendText.c:331-352 | Writes the whole table and closes the file; without an open file nothing is written |
| `Storage.ComponentStorage.FinishFile` | src/storage/StorageBackendText.c:291-363 | After the end the file holds all rows, in both modes; a second time there is an error if there is a table |
| `Storage.TextFile.WriteRow` | src/storage/StorageBackendText.c:199-260 | Appends one row to an open file |
| `Storage.RowsAreWellTimed` | src/storage/ComponentStorage.c:88-118 | All rows lie in the window, never go back in time and, from the start time on, are a step time apart |
| `Storage.RowsAreStepTimeApart` | src/storage/ComponentStorage.c:100-106 | With a start time all rows are a step time apart, except, with an epsilon that is not positive, the row after one at the start time |
| `Storage.StartRowIsNotCounted` | src/storage/ComponentStorage.c:100-106 | Without an epsilon, two rows half a step time apart of which the first is at the start time |
| `Storage.EveryNthIsStored` | src/storage/ComponentStorage.c:108-114 | Without a step time the rows are every n-th call that passes the filters, the first one included |
| `Storage.EveryNthIsSieved` | src/storage/ComponentStorage.c:108-118 | Whatever the times, every n-th call that passes the filters is stored, or refused for lying before the last time stored |
| `Storage.CallIsStoredIff` | src/storage/ComponentStorage.c:63-135 | A call is stored exactly when level and window let it through, it does not come less than a step time after a row at or after the start time, it is its turn by the step count, and it does not lie before the last row; and it is refused exactly when only the last of these fails |
| `Storage.CallsCounted` | src/storage/ComponentStorage.c:108-110 | The counter counts the calls that level, window and step time let through, whatever the step time |
| `Storage.EveryNthAt` | src/storage/ComponentStorage.c:108-114 | Which those are: positions 0, n, 2n and so on, all of them |
| `Storage.ResultsStorage.constructor` | src/storage/ResultsStorage.c:179-201 | No component is finished |
| `Storage.ResultsStorage.Store` | src/storage/ResultsStorage.c:134-144 | Storing values of one component leaves the tables and files of all others alone, and fails exactly for a time before the last one |
| `Storage.ResultsStorage.FinishBackends` | src/storage/ResultsStorage.c:80-96 | All files are closed and hold all rows; an error is reported exactly if some table must still be written but its file is closed |
| `Storage.ResultsStorage.SetFinished` | src/storage/ResultsStorage.c:351-374 | Marks the component and no other; the last one to finish completes all files; an error is reported exactly if that has happened before and there is a table to write |
| `Storage.ResultsStorage.Finished` | src/storage/ResultsStorage.c:98-111 | Afterwards every file holds, row for row, what was stored, whether it was written at once or kept to the end; an error is reported exactly if the last component was finished before and there is a table to write |
| `Storage.FinishTwice` | src/storage/ResultsStorage.c:98-111 | Finishing a second time reports an error exactly if there is a table to write |
| `Storage.SecondFinishFails` | src/storage/ResultsStorage.c:98-111 | A storage for which it does |
| `HashMap.SizeTSizeTMap.constructor` | src/objects/Map.c:69-80 | A new table is the empty map |
| `HashMap.SizeTSizeTMap.Get` | src/objects/Map.c:38-48 | Finds an element exactly for the keys of the map, with the value of the map |
| `HashMap.SizeTSizeTMap.Add` | src/objects/Map.c:17-36 | The table becomes the updated map |
| `FmuDependencies.IndexMapFinds` | src/components/comp_fmu.c:1136-1140 | For distinct variables the index map finds exactly the scalar variable with an index |
| `FmuDependencies.MapInputs` | src/components/comp_fmu.c:1128-1141 | The maps of the inputs and of the connected ones, the latter with the validity of the first channel |
| `FmuDependencies.MapOutputs` | src/components/comp_fmu.c:1165-1173 | The map of the outputs |
| `FmuDependencies.DependOnAll` | src/components/comp_fmu.c:1193-1201 | Marks all inputs in use for one output and no other cell |
| `FmuDependencies.DependOnListed` | src/components/comp_fmu.c:1187-1216 | Marks exactly the inputs in use that the dependencies of one unknown name |
| `FmuDependencies.ProcessUnknown` | src/components/comp_fmu.c:1177-1216 | An unknown that is an output is noted and marks its row; any other is passed over |
| `FmuDependencies.ProcessUnknowns` | src/components/comp_fmu.c:1175-1217 | The rows and the outputs noted after all unknowns |
| `FmuDependencies.ProcessOmitted` | src/components/comp_fmu.c:1219-1237 | Outputs that were not noted depend on all inputs in use unless their initial value is exact |
| `FmuDependencies.SetDependenciesFMU2` | src/components/comp_fmu.c:1091-1247 | Every cell of the matrix |
| `FmuDependencies.NamedMeans` | src/components/comp_fmu.c:1187-1216 | The inputs found for a list of dependencies are those in use that it names, a zero naming all |
| `FmuDependencies.RowMeans` | src/components/comp_fmu.c:1143-1237 | A row holds exactly the inputs in use that the description lets the output depend on (section 2.2.8 of FMI 2.0) |
| `FmuDependencies.ComputedMeans` | src/components/comp_fmu.c:1131-1134 | A cell is set exactly when the input is connected, the first channel is valid, and the description lets the output depend on the input |
| `FmuDependencies.ComputedInFull` | src/components/comp_fmu.c:1091-1247 | The same in terms of the list of unknowns, the indices of the variables and the channels alone |
| `FmuDependencies.IntendedIffFirstValid` | src/components/comp_fmu.c:1131 | The matrix is the intended one exactly when the first channel is valid or no connected input matters |
| `FmuDependencies.AllDependenciesLost` | src/components/comp_fmu.c:1131 | When it is not, it has no dependencies at all |
| `FmuDependencies.SecondInputIsLost` | src/components/comp_fmu.c:1131 | A first input without connection and default, and a second one whose dependency is lost |
| `FmuDependencies.GetInOutGroupsInitialDependency` | src/components/comp_fmu.c:1249-1282 | With outputs the matrix above; without, one row for all valid inputs; without an imported FMU none |
| `Interpolation.LinearIsSegment` | src/core/Interpolation.c:94-117 | The lookup by overlapping halves is the line through any segment that fits, in and out of range |
| `Interpolation.StepIsCeiling` | src/core/Interpolation.c:67-92 | The step lookup takes the value of the first point not below |
| `Interpolation.SegmentExists` | src/core/Interpolation.c:94-117 | Every abscissa has a segment |
| `Interpolation.CeilingExists` | src/core/Interpolation.c:67-92 | Every abscissa has such a point |
| `Interpolation.TableIsLinear` | src/core/Interpolation.c:153-157 | In range a table is its linear scan, keeps the values of its points, and stays between neighbours |
| `Interpolation.TableIsStep` | src/core/Interpolation.c:157-159 | In step mode the value is that of the point to the right |
| `Interpolation.TableIsProlonged` | src/core/Interpolation.c:135-152 | Linear extrapolation prolongs the outer segments, so it meets the table at both ends |
| `Interpolation.TableIsAffine` | src/core/Interpolation.c:119-165 | The increase of the value over the increase of the abscissa is that of the segment, in range and along the outer segments beyond it |
| `Interpolation.TableOtherwise` | src/core/Interpolation.c:119-165 | Tables of no or one point, constant extrapolation, and a table without a mode |
| `Interpolation.TableIsClamped` | src/core/Interpolation.c:135-152 | Constant extrapolation keeps the outer values |
| `Interpolation.LineBetween` | src/core/Interpolation.c:100-102 | A value between two points lies between theirs |
| `Interpolation.Poly.constructor` | src/core/Interpolation.c:269-291 | An empty buffer of the size asked for |
| `Interpolation.Poly.AddPoints` | src/core/Interpolation.c:225-238 | Appends all points, or none if there is no room |
| `Interpolation.Poly.RemoveLastPoints` | src/core/Interpolation.c:216-223 | Drops points at the end, at most all |
| `Interpolation.Poly.MoveToFront` | src/core/Interpolation.c:242-245 | Moving in place loses no point |
| `Interpolation.Poly.Overwrite` | src/core/Interpolation.c:228-231 | Writes points from a place on |
| `Interpolation.Poly.ShiftPoints` | src/core/Interpolation.c:240-251 | Drops points at the front and appends as many at the end |
| `Parameters.NaturalSortCmp` | src/util/common/stdlib.c:111-181 | The loops over both names compute the comparison of their lists of characters and numbers |
| `Parameters.ReadNumber` | src/util/common/stdlib.c:144-154 | Reads one number, with the clipping of large ones |
| `Parameters.CmpIsOrder` | src/util/common/stdlib.c:111-181 | With all numbers below 2^31 the comparison decides the lexicographic order, its three results right |
| `Parameters.LessTrans` | src/util/common/stdlib.c:111-181 | That order is transitive |
| `Parameters.LessIrreflexive` | src/util/common/stdlib.c:111-181 | And irreflexive |
| `Parameters.CommonFrontDrops` | src/util/common/stdlib.c:111-181 | What two names have in common up to a character that is no digit does not matter |
| `Parameters.FirstCharacterDecides` | src/util/common/stdlib.c:127-137 | The shorter name comes first, a number before a character, the smaller character before the larger |
| `Parameters.NumberDecides` | src/util/common/stdlib.c:144-171 | Numbers below 2^31 come in their order, however many digits they have |
| `Parameters.CmpIsOrderIff` | src/util/common/stdlib.c:111-181 | Whatever the numbers are, the comparison decides the lexicographic order of two names in both directions exactly when the first tokens that differ are not two numbers whose distance modulo 2^32 is zero, 2^31 or more |
| `Parameters.DecimalReadsBack` | src/util/common/stdlib.c:144-166 | A number that is written in decimal is read as that number up to a bit below 2^64, and as the largest one beyond |
| `Parameters.LargeNumbersAreNotOrdered` | src/util/common/stdlib.c:111-181 | The names of 0 and 2^31 each come before the other, those of 0 and 2^32 count as equal |
| `Parameters.JudgedIsOrder` | src/util/common/stdlib.c:111-181 | The comparison is an order, as a sort demands it, on names of which it misjudges no two |
| `Parameters.SmallIsJudged` | src/util/common/stdlib.c:111-181 | In particular on all names with numbers below 2^31 |
| `Parameters.TokensDetermineName` | src/util/common/stdlib.c:111-181 | Without leading zeros and with small numbers only equal names count as equal |
| `Parameters.LeadingZerosCountAsEqual` | src/util/common/stdlib.c:144-171 | Two different names that count as equal |
| `Parameters.FindDuplicate` | src/fmu/common_fmu2.c:534-543 | Finds a duplicate exactly among neighbours |
| `Parameters.NeighboursTellDuplicates` | src/fmu/common_fmu2.c:525-543 | In a sorted list in which different names never count as equal, neighbours tell all duplicates |
| `Parameters.PlainNamesHaveNoAliases` | src/fmu/common_fmu2.c:525-543 | That is so for names without leading zeros |
| `Parameters.AliasHidesDuplicate` | src/fmu/common_fmu2.c:534-543 | A sorted list with a duplicate that goes unnoticed |
| `Duplicates.AlwaysFoundIff` | src/fmu/common_fmu2.c:525-543 | However the sort leaves names that count as equal, a duplicate is found exactly when some name makes up more than half, rounded up, of the names that count as equal to it |
| `Duplicates.AlwaysRightIff` | src/fmu/common_fmu2.c:525-543 | What is reported is right for every sorted arrangement exactly when there is no duplicate or one as frequent as that |
| `Duplicates.Arrange` | src/fmu/common_fmu2.c:525-543 | Otherwise there is a sorted arrangement without equal neighbours |
| `Duplicates.CopiesApart` | src/fmu/common_fmu2.c:534-543 | Without equal neighbours a name makes up no more than half, rounded up, of the names that count as equal to it |
| `Duplicates.AlikePermuted` | src/fmu/common_fmu2.c:525-543 | How many names count as equal to one does not depend on the arrangement |
| `Duplicates.AlikeMeansEqual` | src/fmu/common_fmu2.c:525-543 | Two names of which the comparison misjudges neither count as equal exactly when it says so |
| `Parameters.SortByName` | src/fmu/common_fmu2.c:569 | The tunable parameters in the order of their names, none lost |
| `Parameters.Advance` | src/fmu/common_fmu2.c:579-582 | Passes over the parameters before a name, but not over the last one |
| `Parameters.UpdateTunableParamValues` | src/fmu/common_fmu2.c:557-590 | Sorts the tunable parameters, and gives each the value that a search of the whole list finds, or leaves it alone if there is none |
| `Parameters.Merge` | src/fmu/common_fmu2.c:575-587 | The single pass over both sorted lists does what a search for every name does |
| `Parameters.JoinedMeans` | src/fmu/common_fmu2.c:575-587 | The value found is that of the first parameter that counts as equal, if there is one |
| `Parameters.FirstEqualHere` | src/fmu/common_fmu2.c:579-586 | Where the pass stands is where the search ends |
| `Parameters.SameNameIff` | src/fmu/common_fmu2.c:584-586 | The value comes from the parameter of the same name exactly when no other name that counts as equal stands before it |

## Left out

- Allocation failures, clean-up after them, reference counts and manual freeing: memory is unlimited.
- Floating point rounding, infinities and NaN: times and values are real numbers; a division by zero in a table lookup counts as not a number.
- Model.ModelConnectionsDone: the evaluation order for the initialization is not modelled, only the one at runtime with one output group per component.
- SubModel.FillNodeMap: the groups of the initialization (`src/core/SubModel.c:111-115`) are not modelled.
- SubModel.CreateDependencyMatrix: the special cases for initial dependencies (`src/core/SubModel.c:662-677`, `709-720`) are not modelled.
- SubModel.FillRow: the same special cases are not modelled.
- Model.CreateOrderedNodes: only the dependencies at runtime are ordered.
- SubModel.GetNodeID: a source component outside the model cannot occur, because a model holds all its components.
- SubModel.Connection: filters, unit conversion and the inner life of connections are left out; the type, priority, activity and flag of a connection are all the ordering looks at.
- Tarjan.Tarjan: the cut nodes of a group, which nothing at runtime uses, are left out.
- StepBarrier.ThreadsMatchSerial: the communication step of a component is an arbitrary function that reads its own component and the state fixed before the round, and writes its own component and two flags; that real components keep to this is an assumption.
- StepBarrier.RoundEnds: creating the threads and failing to create them is left out; all workers wait for their first start event when a run begins.
- StepBarrier.ShutdownIsQuiet: the wait at the start event is a step of its own and spurious wake-ups do not occur, as the event functions promise.
- TimeStepping.Component.DoCommunicationStep: triggering the inputs and storing the values are taken to succeed; the step function of a component may fail, finish the component, or neither; a step size of its own is positive, since none other gets past the reading of the model.
- TimeStepping.Component.CouplingStep: the same; each of these failures would end the run.
- TimeStepping.Component.DoStep: real-time factors and their clocks are left out.
- TimeStepping.Task.SynchronizationStep: the start time is at least zero, as the preparation of the storage demands (`src/storage/ResultsStorage.c:436-444`, there up to the epsilon), or the epsilon at most one.
- TimeStepping.Task.Run: the preparation and the finishing of a run are left out; without an end time an interruption at some step is assumed, since nothing else is sure to end the loop.
- WrittenOptions.WrittenIsRead: tables with a colon for a short name, which the option string uses for itself, are left out.
- Optparse.Parser.OptparseLong: the index of the long option found, and the cut of long error texts at the end of the error buffer, are left out.
- Optparse.Parser.Optparse: reading behind the end of an argument has no defined effect in the code, and the places for which it happens are excluded.
- Optparse.Parser.Fallback: the index of the option found is left out, which the program's own caller does not ask for; the buffer for the option string is large enough, which the code does not check.
- Storage.ComponentStorage: the four channel types of a component are four instances with a table and a file each; reading the settings and the correction of the step count for large coupling steps are left out.
- Storage.ComponentStorage.StoreChannels: storing after the files have been closed is left out; the program closes them behind its last step.
- Storage.ResultsStorage.Store: the same.
- Storage.EveryNthIsStored: calls whose times go back are covered by `Storage.EveryNthIsSieved`.
- Storage.ResultsStorage.SetFinished: the flush of a table that is kept to the end (`src/storage/ResultsStorage.c:325-332`) calls a function of the backend that does nothing.
- Storage.ResultsStorage.Finished: file system errors while a file is open, the index of result files, and backends other than the text file are left out.
- Storage.TextFile: a row is a list of cells; the formatting of values is left out.
- FmuDependencies.SetDependenciesFMU2: the numbers of input variables and of outputs are those of the matrix, as the only caller creates it; the list of unknowns comes well-formed from the FMI library, and the initial attribute of a variable that is not a scalar is whatever the parameter says.
- Parameters.UpdateTunableParamValues: the list of parameters comes sorted, as the code says it does; the sort of the C library promises nothing for a comparison that is not an order, hence the order in the contract, and an insertion sort stands in its place.
- Duplicates.AlwaysFoundIff: lists in which the comparison misjudges two names are left out.
- Duplicates.AlwaysRightIff: the same.
- Parameters.TokensDetermineName: names with numbers of 2^31 and above are left out.
- Parameters.NaturalSortCmp: an unsigned long has 64 bits and an int has 32.
- Interpolation.Poly.ShiftPoints: shifting by more points than there are writes before the start of the buffer in the code, which has no defined effect, and is excluded.
- Reading of model files, logging, path handling, the table of units, the FMI library and the sample FMUs.

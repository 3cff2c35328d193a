# llama-swap, verified model

A Dafny model of the parts of llama-swap where a wrong step is hard to see: the matrix routing
compiler and solver, the memory brake, five concurrent protocols, and two index structures.
Imperative code is modelled as classes, arrays and loops and proved against a specification
function; the theorems are about that function. All times are integer nanoseconds.

| file | models |
|---|---|
| `MatrixSpec`, `MatrixEvaluator`, `MatrixProgram`, `MatrixSolve` | the meaning of an AND/OR/reference expression as a family of model sets; the pruned, memoised evaluation over bit masks; the queries and the optimal decision |
| `BitMask` | masks of 64-bit words as finite sets of bits |
| `MatrixCompile`, `MatrixMeaning`, `TopologicalOrder`, `Dsl` | compilation: tokenizer, parser, reference graph, linking, supports; what a definition allows as it is written, and that compiling keeps it |
| `MinRing`, `BrakeSpec`, `BrakeRuns`, `Brake` | the memory brake: sliding minima in fixed rings; a reference machine over plain sequences; theorems over all its runs; the class that refines it |
| `Lifecycle` | the run loop of one process |
| `EventGroup`, `EventRuns`, `EventRegistry` | the event dispatcher: bounded backpressure; marks and losses over its runs; the registry |
| `SlotTable`, `GrantHandshake`, `SlotPlaces`, `PrefillStall` | the router's slot table, its grant handshake, how the two accounts of a slot agree, and the prefill-stall watcher |
| `CircularBuffer`, `PeerRoutes` | the log buffer and the peer route table |
| `Basics` | an optional value, and iteration over a map in no order |

`hide` in a proof keeps a definition out of the solver's way; it assumes nothing.

## Where code and documentation part

- `internal/event/event.go:187-193` says a stuck consumer stayed full through an entire wait. The code
  marks whoever is full when a wait ends. That is the same thing exactly when the consumer was full when the
  broadcaster parked and has not taken its queue since (`EventRuns.MarkMeans`), as it always is when nothing
  else was sent meanwhile; `EventRuns.DrainedYetMarked` is a run in which it is not. A mark always takes a wait
  of `stuckWait`, and events are lost only while one is in force (`EventRuns.LostUnderMark`).
- `internal/router/scheduler/scheduler.go:326-332` promises that a phantom's cap place is not given back
  twice. The release runs on a goroutine of its own; if the request's final event is built after the release
  was launched and before it ran, the scheduler is told twice. The second time does no harm when nobody else of
  the model holds a place, because the count stops at 0 (`internal/router/scheduler/fifo.go:614`); otherwise
  that one's place is lost. `GrantHandshake.PlacesCountedRight` is the exact statement,
  `GrantHandshake.PlaceStolen` a run.
- `internal/router/slotbind.go:99-101` says `bind` cannot fail while the cap equals the slot count. It can: when
  the readings of the slots stop, a cut request's place is given back (lines 217-244) while the table keeps its
  slot, and the next grant finds it occupied (`SlotPlaces.NoSlotForTheThird`). Short of that, and of a stolen
  place, a slot is free for every grant (`SlotPlaces.SlotForEveryGrant`).
- A reader can see `StateReady` with no handler stored, between the two writes that follow an exit of the
  child, and at no other time (`Lifecycle.RunLoop.Turn`). A Ready process with a live child always has one.
- An empty model name would count as a model in an expression but leave no trace in a witness, so
  a decision's target set is the chosen set without it. The parser never produces an empty name.

## Assumptions on the environment

- Solver: costs are not negative, as the configuration loader enforces (it enforces positive ones).
- Brake: samples carry increasing positive times and, but for a few, are at least one interval apart
  (`MinRing.Paced` lets a window span six intervals fewer than its samples would); window and interval are
  positive, as the configuration loader enforces.
- Events: `maxQueue` is positive. With none, dropping the oldest event of an empty queue would panic.
- Grant handshake: the scheduler grants a request at most once and only after admitting it; it may also
  stay silent. Of its state only the count of granted requests per model is kept. Every other interleaving
  is allowed. `SlotPlaces` adds that it grants a slotted request only below the cap
  (internal/router/scheduler/fifo.go:1166-1174).
- Slot table: a request unbinds once. Prefill watch: the stall budget is positive; sample times do not decrease.
- Peer table: the peer ids come in some order, each once; sorted order is one of them.

## Model

| member | source | states |
|---|---|---|
| `MatrixSolve.Solve` | internal/matrix/program.go:222-289 | A running target costs nothing and evicts nothing. Otherwise the decision comes from a member of the full expansion that holds the target, at the least cost any member of any definition reaches, in the first definition reaching it; Evict lists exactly the running models outside it, each as often as it runs and in the order given, and TotalCost is what evicting those costs, model by model, 1 for one without a configured cost. Everything is evicted exactly when no expansion holds the target. For any compiled program and non-negative costs |
| `MatrixSolve.ScanSets` | internal/matrix/program.go:238-262 | The scan over all definitions keeps the first cheapest state offered by any of them, although it skips definitions by their support |
| `MatrixSolve.ScanStates` | internal/matrix/program.go:249-262 | One definition's states: the incumbent is replaced only by a strictly cheaper state that holds the target |
| `MatrixSolve.FirstBestIsCheapest` | internal/matrix/program.go:222-289 | The first cheapest state is as cheap as the cheapest member of every full expansion, and cheaper than all members of earlier definitions |
| `MatrixSolve.NoneOfferedNoCandidate` | internal/matrix/program.go:264-273 | When no state holds the target, no member of any expansion does |
| `MatrixSolve.StateIsCandidate` | internal/matrix/program.go:275-287 | A state that holds the target stands for a real member of the expansion with the same cost and evictions, and its flattened witness is that member |
| `MatrixSolve.CandidateHasState` | internal/matrix/program.go:413-462 | Pruning loses nothing: every member that holds the target has a state at least as cheap |
| `MatrixSolve.CostMonotone` | internal/matrix/program.go:464-480 | Why a dominated state may be dropped: keeping more running models never costs more |
| `MatrixSolve.EvictedLists` | internal/matrix/program.go:275-280 | The eviction list is the running list at increasing places, which are those of the models outside the set served, and no others |
| `MatrixSolve.EvictedCounts` | internal/matrix/program.go:275-280 | A model outside the set is evicted as often as it is listed, one inside it never |
| `MatrixSolve.CostIsTotal` | internal/matrix/program.go:333-338 | The cost of a set is the sum over its eviction list of the configured costs, 1 where there is none |
| `MatrixSolve.FlattenWitness` | internal/matrix/program.go:482-500 | Each named model of the witness, once, in increasing order |
| `MatrixSpec.FrontierIsExact` | internal/matrix/doc.go:26-46 | Pareto pruning is exact against the naive meaning (leaf, union, pairwise unions): each state's witness is a member of the expansion, its mask that member's intersection with the relevant models; the masks are pairwise incomparable and every member's projection is covered |
| `MatrixSpec.FrontierIsMaximalProjections` | internal/matrix/program.go:413-480 | The masks are exactly the inclusion-maximal projections of the full expansion, once each |
| `MatrixSpec.ExpandIsStable` | internal/matrix/program.go:107-118 | A linked tree means the same whatever is linked after it |
| `MatrixSpec.FamilyWithinMentioned` | internal/matrix/program.go:126-174 | Every member of an expansion is within the models the expression mentions |
| `MatrixMeaning.AllUnionsMeans` | internal/matrix/program.go:413-462 | An AND allows exactly the unions of one set from each operand |
| `MatrixMeaning.AnyFamilyMeans` | internal/matrix/program.go:413-462 | An OR allows exactly what some operand allows |
| `MatrixEvaluator.Evaluator.Evaluate` | internal/matrix/program.go:413-462 | The memoised evaluation of a linked node is the exact frontier of its full expansion, and no frontier memoised before is altered, element for element, by later in-place compaction |
| `MatrixEvaluator.Evaluator.EvaluateOr` | internal/matrix/program.go:431-435 | An OR merges its children's frontiers in order, without touching theirs |
| `MatrixEvaluator.Evaluator.EvaluateAnd` | internal/matrix/program.go:436-457 | An AND combines its children's frontiers pairwise, without touching theirs |
| `MatrixEvaluator.AddToFrontier` | internal/matrix/program.go:464-480 | On the backing array itself: covered candidates change nothing, others replace what they cover and come last |
| `MatrixEvaluator.Compact` | internal/matrix/program.go:470-478 | Compaction into states[:0] keeps exactly the states the candidate does not cover, in order, although it overwrites the array it reads |
| `MatrixEvaluator.IsCovered` | internal/matrix/program.go:464-469 | Word-level covering is set inclusion in some state's mask |
| `MatrixEvaluator.CombineStates` | internal/matrix/program.go:437-456 | Pairwise unions of two frontiers, pruned as they come |
| `MatrixEvaluator.IndexModels` | internal/matrix/program.go:391-403 | Every relevant model gets one bit of its own |
| `BitMask.SubsetOf` | internal/matrix/program.go:355-362 | Word by word, exactly inclusion of the sets of bits, for any width |
| `BitMask.UnionMask` | internal/matrix/program.go:364-370 | Word by word, exactly the union of the sets of bits |
| `BitMask.FullMask` | internal/matrix/program.go:405-411 | Holds bit b exactly when b is below the number of relevant models |
| `BitMask.SetBit` | internal/matrix/program.go:158-172 | Adds one bit and no other |
| `BitMask.Has` | internal/matrix/program.go:351-353 | Reads one bit |
| `MatrixProgram.CanContainAll` | internal/matrix/program.go:291-310 | True exactly when some member of some definition's full expansion holds all the models, or none are asked for |
| `MatrixProgram.FindContaining` | internal/matrix/program.go:312-331 | Names the first definition, in compile order, with such a member, or none |
| `MatrixProgram.FrontierAnswersContains` | internal/matrix/program.go:291-310 | A definition has such a member exactly when a pruned state over the asked models covers them all |
| `MatrixProgram.SupportsAll` | internal/matrix/program.go:176-184 | The pre-filter is exactly: every model is mentioned somewhere in the expansion, for any assignment of bits |
| `MatrixProgram.SupportIsNecessary` | internal/matrix/program.go:126-134 | A model the support lacks is in no member, so the pre-filter never skips a definition that could match |
| `MatrixCompile.Compile` | internal/matrix/program.go:45-121 | Rejects an empty list, or the first problem in order, or a reference cycle exactly when there is one; otherwise the program is linked in dependency order, has exact supports, and holds for each name its last definition's parsed tree with aliases resolved; and each compiled set allows exactly the model sets that its definition allows as it is written |
| `MatrixCompile.CompiledMeans` | internal/matrix/program.go:45-121 | Each compiled set's expansion allows a model set exactly when the parsed definition does, read directly: an identifier allows the model it resolves to, a reference what its definition allows, an OR what an operand allows, an AND a union of one set per operand |
| `MatrixCompile.FamilyIsAllowed` | internal/matrix/program.go:64-105 | Renaming the leaves, linking and unfolding add no set |
| `MatrixCompile.AllowedIsFamily` | internal/matrix/program.go:64-105 | And lose none, however deep references go |
| `MatrixCompile.ProblemIsFirst` | internal/matrix/program.go:64-84 | The walk reports nothing exactly when every identifier resolves and every reference is defined, and otherwise the leftmost that does not |
| `MatrixCompile.RefsAreAtoms` | internal/matrix/program.go:74-82 | The references collected are exactly those in the expression, each once |
| `MatrixCompile.SupportIsExact` | internal/matrix/program.go:123-174 | A compiled set's support has a bit for exactly the models that are in one of its allowed sets |
| `MatrixCompile.BuildAll` | internal/matrix/program.go:50-91 | All definitions are parsed, renamed and their references collected, or the first failing one is reported |
| `MatrixCompile.Walk` | internal/matrix/dsl.go:200-210 | One pass reports the first unresolvable name or undefined reference in tree order, or renames every leaf and lists every reference once |
| `MatrixCompile.ComputeSupport` | internal/matrix/program.go:126-174 | Each support mask holds exactly the models the definition's expansion mentions |
| `MatrixCompile.Collector.Collect` | internal/matrix/program.go:127-152 | The memoised collection of mentioned models, through references |
| `MatrixCompile.Assemble` | internal/matrix/program.go:98-121 | Linking in topological order leaves only references to earlier definitions |
| `MatrixCompile.BuiltIsGraph` | internal/matrix/program.go:50-97 | What the loop collected is the reference graph of the definitions, and it is closed |
| `TopologicalOrder.Sort` | internal/matrix/program.go:186-220 | Fails exactly when the reference graph has a cycle; otherwise lists each definition once, dependencies first, and keeps the given order when that is already such an order |
| `TopologicalOrder.TopologicalIsAcyclic` | internal/matrix/program.go:186-220 | A graph with a dependencies-first order has no cycle |
| `TopologicalOrder.PathDescends` | internal/matrix/program.go:186-220 | Every path leads to an earlier place in the order: the measure that ends evaluation through references |
| `TopologicalOrder.CycleOnStack` | internal/matrix/program.go:192-198 | Meeting a name that is being visited closes a real cycle |
| `TopologicalOrder.Search.Visit` | internal/matrix/program.go:189-212 | The depth-first visit, with its three-state marking, appends a name after everything it depends on or has found a cycle |
| `Dsl.ParseDsl` | internal/matrix/dsl.go:100-120 | The tokenizer and the parser object together compute the functional parse, whose exactness the rows below state |
| `Dsl.ParsedExactly` | internal/matrix/dsl.go:100-198 | A text parses to a tree if and only if a derivation of the grammar, AND binding tighter than OR, yields its tokens and builds that tree |
| `Dsl.GrammarIsUnambiguous` | internal/matrix/dsl.go:137-198 | All derivations of one text build the same tree |
| `Dsl.RoundTrip` | internal/matrix/dsl.go:42-198 | Printing a tree with valid names and nodes of two or more children, and parsing it, gives the tree back |
| `Dsl.ParsedIsCanonical` | internal/matrix/dsl.go:137-198 | Every tree a parse returns has valid names and operator nodes of two or more children, so the round trip applies to it |
| `Dsl.CompleteExpr` | internal/matrix/dsl.go:137-198 | Every derivation is parsed, up to what cannot continue it |
| `Dsl.SoundExpr` | internal/matrix/dsl.go:137-198 | Whatever is parsed has a derivation that yields the tokens read |
| `Dsl.Parser.ParseOrExpr` | internal/matrix/dsl.go:137-156 | The loop over '|' with its moving position; recursion ends because tokens run out |
| `Dsl.Parser.ParseAndExpr` | internal/matrix/dsl.go:158-177 | The loop over '&' |
| `Dsl.Parser.ParseAtomExpr` | internal/matrix/dsl.go:179-198 | A name, a '+' reference or a parenthesised expression |
| `Dsl.Tokenize` | internal/matrix/dsl.go:42-89 | The index loop computes the tokens of the text |
| `Dsl.TokensSpellInput` | internal/matrix/dsl.go:42-89 | Tokens spell the text without its spaces, and every name read is a name |
| `Dsl.NamesStayWhole` | internal/matrix/dsl.go:42-89 | Names are read whole: two name characters side by side are never in different tokens |
| `Dsl.SpansAreTokens` | internal/matrix/dsl.go:42-89 | Each token is the text of a span; the spans are in order and apart, stop only where a name stops, and leave out nothing but spaces |
| `Dsl.TokensFailExactly` | internal/matrix/dsl.go:42-89 | Tokenizing fails exactly on a stray character or a '+' without a name |
| `MinRing.PushIsExact` | internal/membrake/brake.go:518-538 | After a push, the head of the deque is the minimum over the true trailing window, for samples at least an interval apart but for a few |
| `MinRing.RingNeverOverflows` | internal/membrake/brake.go:391-412 | A ring of window/interval + 8 places is never full before a push, so the overflow branch is never taken |
| `MinRing.PushKeepsMinDeque` | internal/membrake/brake.go:518-538 | Rising values, in-window times, and every sample since the reset covered by a later smaller one: kept by every push |
| `MinRing.HeadIsWindowMin` | internal/membrake/brake.go:549-562 | That invariant makes the head the window minimum |
| `MinRing.Ring.PushSample` | internal/membrake/brake.go:518-538 | The two circular arrays, indices wrapping, hold exactly what the deque of samples should |
| `MinRing.Ring.Feed` | internal/membrake/brake.go:518-538 | One sample into a ring of the configured size: its head is the window minimum of everything since the reset |
| `Brake.Brake.Observe` | internal/membrake/brake.go:549-600 | One sample through the whole brake: detector, gate, purge flags and kill list become exactly those of the reference machine of BrakeSpec, over naive sequences instead of rings |
| `Brake.Brake.constructor` | internal/membrake/brake.go:379-423 | A new brake is at the reference machine's start |
| `Brake.Brake.LoadHoldState` | internal/membrake/brake.go:460-487 | A hold found on disk keeps the gate shut, already evicted, unless draining is off |
| `Brake.Brake.DetectNow` | internal/membrake/brake.go:549-598 | Trips, arming, disarming and the streak are those of the reference detector |
| `Brake.Brake.TripNow` | internal/membrake/brake.go:652-712 | Kills every child, shuts the gate when draining is on, and moves the backoff by the time since the last release |
| `Brake.Brake.DrainNow` | internal/membrake/brake.go:713-761 | The drain part of one sample is that of the reference machine; when that opens the gate, GateOpensExactly states, and when it evicts, EvictsOnSchedule |
| `Brake.Brake.TrackRise` | internal/membrake/brake.go:779-799 | A rise is recorded exactly when the newest sample stands RISE above the true minimum of the quiet window since eviction; a fall clears nothing |
| `Brake.Brake.ReleaseAfterDrain` | internal/membrake/brake.go:915-939 | Opens the gate and wakes every waiter |
| `Brake.Brake.MaybePurgeNow` | internal/membrake/brake.go:826-900 | The purge state of the reference machine, launches included; that none is launched while one is in flight, PurgeIsSingleFlight states |
| `Brake.Brake.ThresholdNow` | internal/membrake/brake.go:607-631 | The threshold of the reference machine, with the probe results remembered; what it is, ThresholdMeans states |
| `Brake.Hold.Release` | internal/membrake/brake.go:210-219 | Every channel a parked load ever waited on is closed |
| `Brake.Hold.Set` | internal/membrake/brake.go:190-201 | A hold in force keeps its channel; otherwise a new one is issued |
| `Brake.Hold.Wait` | internal/membrake/brake.go:232-249 | While held, a waiter gets a channel that is not closed |
| `BrakeRuns.TripsExactly` | internal/membrake/brake.go:549-598 | In every run, a sample trips exactly when it completes ConfirmSamples consecutive samples, with no reset and no trip among them before it, that are each armed and stand at least their threshold above the true minimum of the trailing window since the last reset; windows, clock and minimum are those of the run's own samples |
| `BrakeRuns.DetectorInRuns` | internal/membrake/brake.go:549-575 | In every run the detector holds exactly the samples since the last unsettled sample (the first one, or one with a child loading or none running) or trip, and the arming clock runs from there |
| `BrakeRuns.ConsecIsLongestStreak` | internal/membrake/brake.go:576-596 | The streak counter is the length of the longest streak that ends now |
| `BrakeRuns.GrowthIsAboveWindowMin` | internal/membrake/brake.go:556-575 | The growth compared is above the true minimum of the run's samples in the trailing window since the last reset, and armed means armAfter since that reset |
| `BrakeRuns.HotMeans` | internal/membrake/brake.go:549-598 | The detector's judgement of any sample of a run is the one stated over the run's samples |
| `BrakeRuns.ThresholdMeans` | internal/membrake/brake.go:607-631 | The Splash threshold applies exactly when it is set, a child runs, and every child is known as Splash or answers a probe not held off; otherwise the plain threshold does |
| `BrakeRuns.ProbeStep` | internal/membrake/brake.go:607-631 | One sample's probing asks the children in order, up to the first that is not Splash, leaving out those known and those that failed less than the hold-off ago; it remembers exactly the answers |
| `BrakeRuns.ProbeInRuns` | internal/membrake/brake.go:607-631 | In every run a group is known as Splash exactly when some earlier sample asked it and it answered, and is held off from the time of the last sample that asked it and got no answer |
| `BrakeRuns.NeverTripsUnsettled` | internal/membrake/brake.go:563-575 | With a positive threshold, no trip on a sample where a child is loading or none exists, even with armAfter 0 |
| `BrakeRuns.GateOpensSafely` | internal/membrake/brake.go:713-799 | In every run the gate opens only after the eviction that follows the last trip, with no trip since; after every sample of at least the settle time was below drainBelow; and when every rise recorded since that eviction is at least a full quiet window old |
| `BrakeRuns.GateOpensExactly` | internal/membrake/brake.go:713-799 | In every run the gate opens at a sample if and only if loads are parked and, since the eviction that followed the last trip, some sample at least the settle time old and every one from it on is below drainBelow (the eviction's own sample does not count), and every rise is at least a full quiet window old; rises are above the true minimum of the trailing quiet window, and the window is the one QuietWindowEscalates gives |
| `BrakeRuns.HoldingMeans` | internal/membrake/brake.go:672-675 | In every run loads are parked exactly when a trip (with draining on) or a restored hold has not been followed by an opening |
| `BrakeRuns.EvictsOnSchedule` | internal/membrake/brake.go:754-758 | In every run, between the first eviction and the opening, files are evicted again at exactly the samples above the drain level that come at least reEvictEvery after the last eviction |
| `BrakeRuns.KillInRuns` | internal/membrake/brake.go:652-741 | In every run an active gate stands for the last trip, and an evicted one for the first sample after it at which the killed groups were gone or the wait for them was over (or for a hold restored at the start) |
| `BrakeRuns.GateInvInRuns` | internal/membrake/brake.go:713-799 | In every run an active gate tracks the samples since the eviction, when they went below the drain level, and the last rise among them |
| `BrakeRuns.QuietWindowInRange` | internal/membrake/brake.go:763-770 | In every run the shifted quiet window never overflows and lies in (0, 60 min] |
| `BrakeRuns.BackoffStaysBounded` | internal/membrake/brake.go:680-690 | A trip keeps the backoff where the shift is exact |
| `BrakeRuns.QuietWindowEscalates` | internal/membrake/brake.go:677-690 | In every run the quiet window is windowMinutes doubled once for every trip that came within 30 minutes of the gate's last opening, since the last trip that came later, and capped at 60 minutes |
| `BrakeRuns.PurgeIsSingleFlight` | internal/membrake/brake.go:826-900 | Over any interleaving of samples, purges returning and their goroutines clearing the flag: launches, counted where the purge goroutine is started, never overlap (at most one is in flight or not yet cleared, and the flag stands exactly for it), and any two are at least the configured interval apart |
| `BrakeRuns.PurgeLaunchesExactly` | internal/membrake/brake.go:826-846 | In every run a sample launches a purge, and one, if and only if the valve is on, the gate is shut, evicted and above the drain level, the start, every trip, every launch and the last stuck report are an interval old, and none is in flight; with one in flight it is reported stuck instead |
| `Lifecycle.RunLoop.Turn` | internal/process/process_command.go:271-495 | One turn of the select, whatever it receives: the loop is at rest again (Stopped or Ready; Ready exactly when a child and a handler are latched; a parked Run only in Ready, parked waiters only in Stopped; every other request answered) or has ended, no answer given is changed, the trace seen by others only grows and stays safe, and Ready shows without a handler only when the child exited, and then once |
| `Lifecycle.RunLoop.OnStart` | internal/process/process_command.go:332-470 | Run and EnsureReady: rejected or answered in Ready; otherwise ready, failed, stopped in mid-start or shut down, with the exact answers of the starter, the waiters and the stopper in each case |
| `Lifecycle.RunLoop.LatchReady` | internal/process/process_command.go:372-395 | Handler and child are latched before Ready shows; waiters are told in Ready; a Run parks, an EnsureReady is answered |
| `Lifecycle.RunLoop.AbortStart` | internal/process/process_command.go:433-442 | A Stop in mid-start kills a late child first and is answered last |
| `Lifecycle.RunLoop.ShutDownStart` | internal/process/process_command.go:448-462 | The parent context ends in mid-start: the starter is the only caller left without an answer |
| `Lifecycle.RunLoop.OnStop` | internal/process/process_command.go:471-495 | Stop tears down, answers the parked Run and itself with nil, and leaves a waiter for a start to come where it is |
| `Lifecycle.RunLoop.OnUpstreamDone` | internal/process/process_command.go:297-312 | An exit of the child: back to Stopped, the parked Run told; for a moment Ready shows without a handler, when the child is already dead |
| `Lifecycle.RunLoop.OnParentDone` | internal/process/process_command.go:277-291 | Everything is torn down and every parked caller told |
| `Lifecycle.RunLoop.OnWaitReady` | internal/process/process_command.go:317-325 | Answered nil in Ready, else parked |
| `Lifecycle.RunLoop.NotifyWaiters` | internal/process/process_command.go:253-261 | Each waiter is told exactly once; the send always finds the channel empty |
| `Lifecycle.RunLoop.Reply` | internal/process/process_command.go:253-269 | An answer goes only to a request that has none, and only if it is true: nil to EnsureReady or WaitReady in Ready, to Run and Stop in Stopped |
| `Lifecycle.BookNotified` | internal/process/process_command.go:253-261 | Telling the waiters keeps the book: exactly the parked and those in hand are without an answer |
| `Lifecycle.ShutdownIsFinal` | internal/process/process_command.go:277-291 | Once Shutdown shows it shows for good |
| `Lifecycle.StoppedInBetween` | internal/process/process_command.go:352-355 | Between a Ready and a later Starting, Stopped shows with no child alive |
| `EventGroup.BroadcastKeepsGood` | internal/event/event.go:289-303 | A broadcast keeps each consumer's handled, being handled and queued events an in-order subsequence of what was sent since it subscribed and its queue within maxQueue; a full consumer is marked, and loses exactly the oldest event it has queued; no other loses any |
| `EventGroup.EventKeepsGood` | internal/event/event.go:294-301 | Append, or drop the oldest and keep the newest |
| `EventGroup.ListeningKeepsGood` | internal/event/event.go:215-230 | Swapping and handling move events along without changing their sequence |
| `EventGroup.LosslessUnlessStuck` | internal/event/event.go:232-246 | A consumer never marked stuck has every event since it subscribed, each once, in order |
| `EventGroup.DropDelivers` | internal/event/event.go:295-298 | Dropping one event leaves the rest in order and records which was lost |
| `EventGroup.Consumer.Swap` | internal/event/event.go:198-222 | The buffer handed to the handler is the one that was filled, and the one filled from now on is the other; a stopped consumer with nothing queued ends |
| `EventGroup.Consumer.Enqueue` | internal/event/event.go:294-301 | Only the buffer being filled is written |
| `EventGroup.Consumer.HandleNext` | internal/event/event.go:224-227 | Events reach the handler in the order queued |
| `EventGroup.Group.Arrive` | internal/event/event.go:262-269 | As one step of a run: a broadcast goes out at once to every subscriber when no unmarked consumer is full; otherwise its caller parks |
| `EventGroup.Group.Wake` | internal/event/event.go:270-303 | As one step of a run: a parked broadcaster parks on while an unmarked consumer is full and the wait is not over; otherwise it marks the full ones and sends |
| `EventGroup.Group.EnqueueAll` | internal/event/event.go:289-303 | The event reaches exactly the subscribers, and no one else changes |
| `EventGroup.Group.MarkFull` | internal/event/event.go:281-287 | Exactly the full subscribers are marked, so none is full and unmarked when the event goes out |
| `EventGroup.Group.SwapAt` | internal/event/event.go:198-222 | A listener's swap, among all the others: no buffer is shared |
| `EventGroup.Group.HandleAt` | internal/event/event.go:224-230 | A listener's next event, among all the others |
| `EventGroup.Group.Add` | internal/event/event.go:307-320 | A new subscriber owes nothing and is owed everything from now on |
| `EventGroup.Group.Del` | internal/event/event.go:323-336 | The subscriber leaves the list, in order, and keeps what it has queued |
| `EventRuns.MarkMeans` | internal/event/event.go:187-193 | In every run, when a parked broadcaster gives up: exactly the full consumers bear the mark; a new mark means the wait lasted stuckWait; and a consumer newly marked was full all through the wait if and only if it was full when the broadcaster parked and never took its queue since, which holds for all of them when nothing was sent in between |
| `EventRuns.ParksExactly` | internal/event/event.go:262-287 | A broadcast goes out at once exactly when no subscribed, unmarked consumer is at maxQueue; a parked one goes out exactly when none is any more or its wait has lasted stuckWait |
| `EventRuns.EndsExactly` | internal/event/event.go:198-207 | In every run a consumer is stopped exactly when it was removed, and its listener has ended exactly when, after that, it came to the lock with nothing queued |
| `EventRuns.RemovedDrains` | internal/event/event.go:198-230 | From its removal on a consumer gets nothing more; its listener can always take a step until it has ended; the number of steps it takes is known from what it had left; and when it has ended it has handled its whole backlog in order |
| `EventRuns.FullThroughoutExactly` | internal/event/event.go:198-222 | That condition, for any consumer full at the end of any stretch of a run |
| `EventRuns.SolePublisher` | internal/event/event.go:262-287 | With nothing sent during the wait, whoever is full at its end was full all through it |
| `EventRuns.LossMeans` | internal/event/event.go:289-303 | A step that loses an event of a consumer drops the oldest one from its full queue and leaves it marked |
| `EventRuns.MarkChanges` | internal/event/event.go:270-287 | A mark is lifted exactly by the consumer taking a queue that is not empty, and set exactly on those full when a wait of stuckWait is given up |
| `EventRuns.MarkInForce` | internal/event/event.go:187-193 | In every run a consumer is marked at a moment exactly when a broadcaster gave up on it, full, after a wait of stuckWait, and it has not taken its queue since |
| `EventRuns.LostUnderMark` | internal/event/event.go:187-193 | In every run each event ever lost was dropped, as the oldest queued, from a full consumer while such a mark was in force |
| `EventRuns.NoMarkNoLoss` | internal/event/event.go:187-193 | Nothing is lost over any stretch of a run between a moment without a mark and the next mark |
| `EventRuns.DrainedIsLossless` | internal/event/event.go:212-218 | Whoever takes its queue is unmarked and loses nothing until it is marked anew |
| `EventRuns.DrainedYetMarked` | internal/event/event.go:187-193 | A run in which a consumer is full when a broadcaster parks, has drained one step later, is filled again by another, and is then marked by the first and loses an event |
| `EventRegistry.Registry.FindGroup` | internal/event/event.go:74-93 | The binary search finds exactly what the table lists |
| `EventRegistry.Registry.Insert` | internal/event/event.go:122-146 | A sorted copy with one entry more; the arrays a reader holds do not change |
| `EventRegistry.LookupInserted` | internal/event/event.go:132-146 | The new entry answers for its own type and no other |
| `EventRegistry.Dispatcher.SubscribeTo` | internal/event/event.go:103-153 | One group per event type, made on first use, the others untouched; refused once closed |
| `SlotTable.ModelSlots.Bind` | internal/router/slotbind.go:102-125 | The preferred slot if free, else the lowest free one, else none and nothing is free; a holder and an orphan never share an index, live holders have slots of their own |
| `SlotTable.ModelSlots.Unbind` | internal/router/slotbind.go:131-147 | A live holder's slot is freed, or orphaned if it was cut while busy; a phantom's late unbind changes nothing |
| `SlotTable.ModelSlots.Observe` | internal/router/slotbind.go:159-203 | A reading closes exactly the orphans of idle slots, refreshes busy holders, and releases exactly the phantoms, each once, in slot order |
| `SlotTable.ModelSlots.ObserveStopped` | internal/router/slotbind.go:164-173 | Every orphan ever made is closed, none twice |
| `SlotTable.ModelSlots.Grow` | internal/router/slotbind.go:86-97 | The table grows with free slots and keeps the rest |
| `SlotTable.RoomUnderCap` | internal/router/slotbind.go:99-101 | A slot below n is free exactly while fewer than n of them are taken by a request or an orphan; what the cap does about that, SlotPlaces states |
| `GrantHandshake.GrantEnds` | internal/router/base.go:295-304 | From every reachable state a blocked grant ends within two steps that neither the loop nor the scheduler has to take, and no other step puts that off |
| `GrantHandshake.NobodyLeavesSilently` | internal/router/base.go:1409-1571 | Whoever leaves ServeHTTP, or waits to be pruned, has a done context, so a late grant cannot land or wait |
| `GrantHandshake.NothingForTheGone` | internal/router/base.go:306-315 | In every run a caller that left is no longer held by the scheduler, unless the router is shutting down, so that no grant can start for it |
| `GrantHandshake.GrantIsTaken` | internal/router/base.go:295-304 | In every run, what the send of a grant told the scheduler is true: taken exactly if the caller received it, and lost only if it received none and can be granted none any more |
| `GrantHandshake.OneFinalEach` | internal/router/base.go:574-624 | Each handler granted leads to exactly one final serve-done event, and at most one release event, unless shutdown drops them |
| `GrantHandshake.PlacesCountedRight` | internal/router/scheduler/fifo.go:603-628 | In every run, the scheduler's count of each model is the number of its requests that hold a place, in every state, if and only if no request gave its place back a second time while another request of its model held one |
| `GrantHandshake.OnlyTheOvertakenSteal` | internal/router/base.go:588-613 | That takes a request whose final event was built after its release was launched and before it ran |
| `GrantHandshake.ToldOnce` | internal/router/base.go:588-613 | The scheduler is told to take a place back once, or twice exactly when the final event was so overtaking |
| `GrantHandshake.OvertookMeans` | internal/router/base.go:588-604 | The recorded flag is that event in the history of the run |
| `GrantHandshake.CountStaysRight` | internal/router/scheduler/fifo.go:609-628 | One step keeps the count right, or is such a second give-back |
| `GrantHandshake.PlaceStolen` | internal/router/base.go:594-613 | A run of two requests that ends with the scheduler counting none while one is being served |
| `GrantHandshake.Reachable` | internal/router/base.go:1389-1610 | The invariant of every request, in every reachable state |
| `GrantHandshake.StepKeepsServe` | internal/router/slotbind.go:217-244 | Final and release events, delivered directly or after the orphan wait, stay accounted for |
| `SlotPlaces.RoomForEveryGrant` | internal/router/slotbind.go:35-37 | In every run without a stolen place in which slotted requests are granted only below n: when a request has a cap place, or is being handed one, and no slot yet, fewer than n slots are occupied, those apart whose place was given up because the readings stopped |
| `SlotPlaces.SlotForEveryGrant` | internal/router/slotbind.go:99-101 | So if there is none of those, a slot below n is free, however the others are spread over the slots |
| `SlotPlaces.OccupantHolds` | internal/router/slotbind.go:39-45 | A request that occupies a slot has its cap place: a cut one keeps it until its slot reads idle or the readings stop |
| `SlotPlaces.ClaimsUnderCap` | internal/router/slotbind.go:35-37 | At most n slotted requests have a place, or are being handed one |
| `SlotPlaces.NoSlotForTheThird` | internal/router/slotbind.go:217-244 | A run under a cap of 2, with no place stolen, in which a request is granted while both slots are occupied: one by a cut request whose place was given up when the readings stopped |
| `PrefillStall.Watch.Observe` | internal/router/prefillstall.go:271-322 | A slot is cut exactly when its stall is due for the first time in its span, restarted exactly when that is due for the first time, and the requests cut are exactly the writers without a token granted no later than the start of a span cut; for any iteration order of the maps; exactly the slots with a row that is processing, has decoded nothing and has not finished its prompt are tracked, and only slots that showed such a row throughout their span are cut or restarted |
| `PrefillStall.TracksMean` | internal/router/prefillstall.go:271-322 | In every run: a track's since is the first sample of the longest flat span, and a cut is exactly the first sample of the span at which the slot had shown one task and one positive count for the whole budget while no other prefilling slot changed within it |
| `PrefillStall.CutDueMeans` | internal/router/prefillstall.go:98-102 | When a cut is due, in terms of the rows alone: processing, nothing decoded, prompt not finished, one task and one positive count for the whole budget, and every other slot with such a row at one count for the whole budget too |
| `PrefillStall.SpanShows` | internal/router/prefillstall.go:274-284 | The span of a slot is the longest over which its rows show such work at one task and count |
| `PrefillStall.OncePerSpan` | internal/router/prefillstall.go:301-321 | A flat span is cut at most once and restarted at most once |
| `PrefillStall.RestartFollowsCut` | internal/router/prefillstall.go:313-321 | A restart comes at least restartAfter after a cut of the same span |
| `PrefillStall.SpanStartIsEarliest` | internal/router/prefillstall.go:274-284 | The computed span is the longest over which every sample agrees |
| `PrefillStall.FlatSinceStart` | internal/router/prefillstall.go:303-306 | Comparing the endpoints is comparing the whole span |
| `PrefillStall.Watch.FoldRows` | internal/router/prefillstall.go:272-284 | Folding the rows one by one, repeated slot ids included, is one update per slot |
| `PrefillStall.Watch.JudgeAll` | internal/router/prefillstall.go:293-322 | Verdicts in any order are each slot's own verdict |
| `PrefillStall.Watch.CutHolders` | internal/router/prefillstall.go:402-418 | Exactly the candidates |
| `PrefillStall.Watch.AnyOtherAdvancing` | internal/router/prefillstall.go:328-335 | Some other tracked slot changed within the budget |
| `PrefillStall.Watch.Add` | internal/router/prefillstall.go:201-214 | The first holder starts the watch, knowing nothing |
| `PrefillStall.Watch.Remove` | internal/router/prefillstall.go:215-226 | The last holder ends it; removing twice is removing once |
| `CircularBuffer.Buffer.Write` | internal/logmon/logging.go:41-70 | Any length, both wrap cases and oversize: the buffer then stands for everything written, call by call, this included |
| `CircularBuffer.Buffer.GetHistory` | internal/logmon/logging.go:72-90 | Exactly the last min(capacity, total) bytes of all calls of Write joined, which is what forgetting after every call would have kept |
| `CircularBuffer.Buffer.Put` | internal/logmon/logging.go:54-63 | One piece or two, the bytes land behind the new head |
| `CircularBuffer.KeptIsLast` | internal/logmon/logging.go:41-90 | Forgetting after every call loses nothing of the last n bytes of all of them; GetHistory's contract rests on it |
| `PeerRoutes.NewPeer` | internal/router/peer.go:48-187 | A table is built exactly when the namespace is valid, and then answers every name as the resolver does, whatever the order of the maps |
| `PeerRoutes.AgreeExactly` | internal/router/peer.go:153-192 | A table built so agrees with the resolver on every name if and only if no two targets share a full name |
| `PeerRoutes.BuildTable` | internal/router/peer.go:153-174 | Full names win; a bare name is added exactly when one peer has it and it is nobody's full name |
| `PeerRoutes.ResolvePeerModel` | internal/config/peer.go:49-87 | In any iteration order: the one target of that full name, else the one target of that model name, else none |
| `PeerRoutes.FullNameResolves` | internal/config/peer.go:42-87 | "peer/model" resolves to that model of that peer exactly when no other target has the same full name |
| `PeerRoutes.BareNameResolves` | internal/config/peer.go:60-87 | A bare model name that is nobody's full name resolves to its peer exactly when no other peer has it |
| `PeerRoutes.NamespaceMeans` | internal/config/peer.go:91-152 | A valid namespace in terms of the names themselves: each "peer/model" is its target's alone and no local model, alias, selector or pin |
| `PeerRoutes.ValidatePeerNamespace` | internal/config/peer.go:91-152 | Accepts exactly when no two targets share a full name and no full name is a local model, alias, selector or pin |
| `PeerRoutes.Handles` | internal/router/peer.go:189-192 | True exactly for the names the resolver knows |
| `PeerRoutes.SlashesCollide` | internal/config/peer.go:39-44 | Names with slashes do collide |

## Left out

- Addresses of syntax nodes: the evaluator's memo is keyed by the node as a value where the source keys by
  address. Two equal nodes then share an entry, which has the same states.
- Overflow of cost sums: costs are unbounded integers.
- Error texts, and Unicode tables: identifier and space characters are any two disjoint sets that exclude
  the operators.
- The memory sampler, process discovery, kill and purge commands, the Splash probe: their results are part
  of each sample. File eviction, the log, marker and hold-state files, and the fields only used for
  reporting (window start, span, last growth) are not modelled.
- `Brake.Hold.Wait`: the wait on the channel itself is the environment's.
- `Lifecycle.RunLoop.Turn`: starting and killing a child are events; health checks, signals, the TTL
  goroutine and the compute-error restart are callers of Stop like any other.
- Grant handshake: modelled on values, one step per channel operation, because the source is goroutines
  around channels. Writing responses, loading streams, timers and the eligibility rules for giving up are
  left to the environment; a replay is a new request.
- `SlotTable.ModelSlots.Observe`: the map from model to table, its lock, and rewriting the request body.
- `PrefillStall.Watch.Observe`: polling, JSON, and what writing the cut to a client does; which requests
  have produced no token is fixed during one sample. A poll already under way when the last holder leaves
  is not modelled.
- `EventGroup.Group.Wake`: conditions and timers only decide when a parked broadcaster runs again, so any
  moment is allowed. That a removed listener sleeps until the next broadcast wakes it is not stated.
- `EventRegistry.Dispatcher.SubscribeTo`: adding the handler to the group and the cancel it returns, which are
  `EventGroup.Group.Add` and `Del`; group types and the panic on a type conflict.
- `PeerRoutes.ValidatePeerNamespace`: which of several conflicts is reported.
- The scheduler, HTTP and SSE handling, preemption writers, refusal holds, configuration loading, hardware
  detection, the UI and the command line tools.

# Verification model of a trace-driven pipeline simulator

The simulator feeds a recorded or live instruction trace through a model of a processor
pipeline. This project models the parts of it that are state machines in their own right and
proves what they keep over whole runs. Everything is plain Dafny; `dafny verify dfyconfig.toml`
checks all of it.

What is modelled, in the order of weight:

- **Load/store unit** (`MemoryGroups`, `LSUnitSpec`, `LSUnitInvariant`, `LSUnitSteps`,
  `LSUnitChains`, `LSUnitRuns`, `LSUnitWaits`, `LSUnitHeld`, `LSUnitStores`, `LSUnitLoads`,
  `LSUnitTimer`, `LSUnitCursors`, `LSUnitAliasing`, `LSUnit`). Every dispatched memory operation joins
  or opens a group; groups hold each other back through order and data edges that are added only
  from four cursors. The unit is a transition system with five entry points (dispatch, issue,
  execute, retire, cycle), and the class `MCADLSUnit` is proved to take exactly its steps. The
  results say exactly, in every reachable state, which operation waits for which, and read it off
  the cursors before an operation is dispatched; the orders that the comments promise hold in
  exactly the runs whose dispatches meet a guard. For two operations alone in the unit the order is a
  table over what the two are and what the alias query answers. No group lookup ever fails, and the unit cannot
  deadlock. Groups inherit from a class of LLVM that is not part of the repository; the
  contract assumed of it is written out at the head of `MemoryGroups.dfy`, and the invariant
  ties its counters to the edges that are really there.
- **Cache hierarchy** (`Recency`, `CacheSpec`, `CacheLRU`, `CacheChain`, `CacheIdeal`, `CacheUnits`). A reference
  that knows only the history of accesses says what a least-recently-used set of n places holds:
  the lines with fewer than n others used since whose line numbers are congruent modulo the number of sets. The time stamps, the fill pointer
  and the eviction scan are proved to agree with it after every trace, in every level of every
  hierarchy that can be built, with both first-level caches sharing the lower levels; and the cost
  of every access is the one that these histories give.
- **QEMU broker** (`TranslationBlocks`, `RegionSpec`, `RegionTrim`, `AccessChains`, `TraceQueue`, `TraceBroker`,
  `TbExec`, `BrokerRuns`). One thread enqueues slices of translated blocks, another fetches batches. Critical
  sections are atomic steps, and a run is any interleaving of them. No instruction is
  lost, duplicated or reordered. What trimming keeps is stated on the one stream of executed
  addresses, without blocks, scan or automaton. The memory accesses that messages report are conserved as well,
  one by one, if and only if each is of an instruction of its block, and each reaches the
  instruction it came from if and only if everything up to that decodes.
- **Fetch stage and branch predictor** (`FetchDelay`, `BranchPredictor`, `FetchStage`). The delay
  queue keeps order and serves every delay at the front; the predictor's table is checked against
  the history of branches alone; together they say exactly when a misprediction is charged, on the
  addresses of the instruction stream.
- **Wide arithmetic** (`Nonlinear`, `IntMath`). Words are integers with explicit bounds, masks are
  defined bit by bit, and wrap-around is written out.
- **Assembly code regions** (`CodeRegionSpec`, `CodeRegions`, `RegionBatches`, `AsmFileBrokers`) and
  **timeline rows** (`Timeline`).

The pattern is the same everywhere. Code that changes state is a class whose methods change its
fields step by step; a function on values says what each method does; the properties are lemmas
about that function, over every run.

Where the code and what is written about it disagree, the model follows the code:

- A cache looks a raw address up but stores the start of its line, so an address inside a line
  never hits (`CacheLRU.ReloadHitsIffAligned`, `CacheChain.UnalignedAlwaysMisses`). Entries start
  out with address 0; the results are about nonzero line addresses. Time stamps are stored in 32 bits;
  from the access on that wraps around, the line just used is the next to go (`CacheLRU.StampsWrap`). A comment calls the eviction
  random; the code evicts the least recently used line.
- `append` is meant to keep the range that covers all accesses of an instruction; it loses the old
  end when the new access starts and ends lower (`AccessChains.AppendCoversIff`; for a bundle
  built by any appends, `AccessChains.AlwaysCoversIff`).
- The length that a fetch assumes for a slice without an end ignores where the slice begins, so
  such a slice can be cut behind the end of its block. `TraceQueue.SelectKeepsContent` gives the
  exact condition and `TraceBroker.OpenSliceOverruns` the run that violates it.
- The index map of a translated block is off by one for every earlier raw instruction that does
  not decode (`TranslationBlocks.IndexMapIsRightIff`).
- Comments say that a load may not pass an earlier store unless no-alias is set, nor an older load
  barrier. With access metadata only the current store is asked about
  (`LSUnitAliasing.OlderAliasIsNotChecked`), a load that joins a group is not checked at all
  (`LSUnitAliasing.JoiningLoadIsNotChecked`), and a store that also loads may pass a load barrier when
  aliasing is ruled out (`LSUnitLoads.LoadingStorePassesBarrier`). `LSUnitWaits.MayPassIff` and
  `LSUnitHeld.DispatchedMayPassIff` give the exact conditions.
- An operation is meant to wait until its cache access is done. A timer belongs to the address, and
  whoever touches it last decides: an operation may issue early exactly if its timer has since been
  cleared by a retirement or set by a dispatch whose access is done (`LSUnitTimer.MayIssueEarlyIff`;
  runs in `LSUnitTimer.RetirementClearsTimer` and `LSUnitTimer.DispatchShortensTimer`, with costs that
  caches do give, `CacheChain.RepeatCost`). The cycles left are kept in an `int`, so an access is not
  waited for while 2^31 or more of them are left (`LSUnitTimer.LoneLoadIssuesIff`).
- Rounding up yields the smallest multiple that is not below the value only if the sum does not
  wrap around (`IntMath.RoundUpIsNearestIff`).
- The head comment of the code regions says that regions do not overlap and that an end directive
  ends the last region seen. Regions with different names may overlap
  (`CodeRegionSpec.NamesMayOverlap`; exactly when, `CodeRegionSpec.NoneOverlapIff`), and an end directive
  without a name may end an earlier one (`CodeRegionSpec.EndsEarlierRegion`; exactly when it does not,
  `CodeRegionSpec.EndsLastIff`).
- The order of the predictor's table keys is not a strict weak order: it confuses branches that touch
  (`BranchPredictor.ConfusedIffTouching`), which is not transitive
  (`BranchPredictor.TouchingIsNotTransitive`). The results are about branches of which no two touch
  each other.

## Model

| member | source | states |
|---|---|---|
| LSUnitRuns.StoreIssuesAfterOlder | CustomHWUnits/MCADLSUnit.cpp:148-198 | In every run, whatever the alias answers are, a store issues only after every older load and store has issued, although edges come only from the current cursors and cursors are cleared as groups finish |
| LSUnitRuns.StoreIssuesAfterBarriers | CustomHWUnits/MCADLSUnit.cpp:167-175 | In every run no store issues before every older store barrier has executed |
| LSUnitWaits.MayPassIff | CustomHWUnits/MCADLSUnit.cpp:148-275 | In every reachable state: an unissued j can issue before an unexecuted i has executed, in some continuation, iff no data edge of i's group begins a chain of groups holding each other back that ends with j's group |
| LSUnitWaits.WayPast | CustomHWUnits/MCADLSUnit.cpp:313-334 | The way past, built without dispatching anything and without executing i |
| LSUnitWaits.IssuesAfter | CustomHWUnits/MCADLSUnit.h:126-130 | Who waits for i at any time of a run issues only after i has executed |
| LSUnitHeld.HeldAtDispatchIff | CustomHWUnits/MCADLSUnit.cpp:157-185 | Which groups a dispatched instruction waits for, read off the cursors, the alias answers and the no-alias option before it is dispatched |
| LSUnitHeld.DispatchedMayPassIff | CustomHWUnits/MCADLSUnit.cpp:217-259 | So these decide exactly whether it can issue before an older instruction has executed |
| LSUnitStores.NonePassesAStoreIff | CustomHWUnits/MCADLSUnit.cpp:232-239 | In a run no instruction can get past an older store iff each, when dispatched, was taken to alias the current store, or was linked to or joined a group that waits for it |
| LSUnitStores.IssueAfterOlderStores | CustomHWUnits/MCADLSUnit.cpp:217-239 | In such a run no memory operation issues before every older store has executed |
| LSUnitStores.NoMetadataOrdersAll | CustomHWUnits/MCADLSUnit.cpp:64-79 | Without access metadata and with no-alias off every run is such a run, for loads that join an existing load group too |
| LSUnitStores.NoAliasLetsALoadOvertake | CustomHWUnits/MCADLSUnit.cpp:232-239 | With no-alias on, for any plain store and load there is a run in which the load issues before the store has issued |
| LSUnitAliasing.AliasingMayPassIff | CustomHWUnits/MCADLSUnit.cpp:217-239 | In every run, an operation taken to alias the last store (its metadata says so, or it has none and no-alias is off) can issue before that store has executed iff it joins a load group that does not wait for the store |
| LSUnitAliasing.AliasingWaitsForStore | CustomHWUnits/MCADLSUnit.cpp:64-79 | So in every run one that opens a new group does not issue before that store has executed |
| LSUnitAliasing.SecondMayPassIff | CustomHWUnits/MCADLSUnit.cpp:64-275 | For any two operations alone in the unit, by what the two are and by the alias answer for the first: the second can issue before the first has executed, unless it is a store behind a store barrier or behind anything it is taken to alias, or one of two loads is a load barrier, or it is a load behind a store it is taken to alias |
| LSUnitAliasing.SecondMayIssueFirstIff | CustomHWUnits/MCADLSUnit.cpp:148-275 | And where no cache delays it, it can issue first iff it is no store and need not wait |
| LSUnitAliasing.LoadBehindStoreIff | CustomHWUnits/MCADLSUnit.cpp:232-239 | For any store and load alone in the unit, the load can issue first iff the query answers "no alias", or iff no-alias is on if the load has no access metadata |
| LSUnitAliasing.OlderAliasIsNotChecked | CustomHWUnits/MCADLSUnit.cpp:234 | Only the current store is asked about: a load may issue before an older store that it aliases and a younger one that it does not |
| LSUnitAliasing.JoiningLoadIsNotChecked | CustomHWUnits/MCADLSUnit.cpp:267-274 | A load that joins a group may issue although a store that it aliases has not even issued |
| LSUnitStores.StepKeepsStoreOrder | CustomHWUnits/MCADLSUnit.cpp:148-334 | A step that meets the guard keeps every live group waiting for every older live store |
| LSUnitLoads.NonePassesABarrierIff | CustomHWUnits/MCADLSUnit.cpp:241-259 | In a run no load can get past an older load barrier iff every store that also loads met a guard on the cursors when it was dispatched |
| LSUnitLoads.LoadIssuesAfterBarriers | CustomHWUnits/MCADLSUnit.cpp:241-259 | In such a run no load issues before every older load barrier has executed |
| LSUnitLoads.BarrierGuardIffHeld | CustomHWUnits/MCADLSUnit.cpp:157-185 | The guard of a loading store, read off the cursors: a load came in between, or it is taken to alias the last load, or the barrier is the store barrier, or the last store or store barrier waits for it |
| LSUnitLoads.AnsweredLoadsWait | CustomHWUnits/MCADLSUnit.cpp:157-165 | In a run in which every loading store is taken to alias the last load, no load issues before every older load barrier has executed |
| LSUnitLoads.NoMetadataOrdersLoads | CustomHWUnits/MCADLSUnit.cpp:64-79 | Without access metadata and with no-alias off every run is of that kind |
| LSUnitLoads.LoadingStorePassesBarrier | CustomHWUnits/MCADLSUnit.cpp:157-165 | With no-alias on and room for two loads, any store that also loads may issue while an older load barrier has issued but not executed |
| LSUnitLoads.OneLoadAtATime | CustomHWUnits/MCADLSUnit.cpp:277-286 | With room for one load only, no load is dispatched before every older one has retired |
| LSUnitLoads.StepKeepsBarrierOrder | CustomHWUnits/MCADLSUnit.cpp:148-334 | A step that meets the guard keeps every live group with a load waiting for every older live load barrier |
| LSUnitTimer.TimerIsOfLastDispatch | CustomHWUnits/MCADLSUnit.cpp:115-137 | In every run the timer of an address is set iff the last event that touched it was a dispatch, and then to the cycle of that dispatch plus its latency |
| LSUnitTimer.WaitsForCacheIff | CustomHWUnits/MCADLSUnit.cpp:81-109 | In every reachable state and for every latency, an operation waits for the cache iff the last event that touched its address is a dispatch with cycles left, as far as an `int` can tell |
| LSUnitTimer.ShortWaitsIff | CustomHWUnits/MCADLSUnit.cpp:86-87 | With latencies and clock below 2^31: iff that event is a dispatch whose access is not done |
| LSUnitTimer.MayIssueEarlyIff | CustomHWUnits/MCADLSUnit.cpp:129-137 | With these, an operation may issue before its access is done iff its group is ready and the last to touch its timer since was a retirement or a dispatch whose access is done |
| LSUnitTimer.AccessTakesItsTime | CustomHWUnits/MCADLSUnit.cpp:81-137 | So none issues before the latency of its access, if below 2^31 cycles, has passed, unless another operation on the address was dispatched or retired meanwhile |
| LSUnitTimer.RetirementClearsTimer | CustomHWUnits/MCADLSUnit.cpp:307-310 | For any two loads of an address with any latencies, a run in which the first is waited for, and its retirement lets the second issue in the cycle of its own dispatch |
| LSUnitTimer.DispatchShortensTimer | CustomHWUnits/MCADLSUnit.cpp:132-137 | For any store and load of an address with any latencies, a run in which the store, dispatched first, issues when the latency of the load has passed |
| LSUnitTimer.LoneLoadIssuesIff | CustomHWUnits/MCADLSUnit.cpp:86-87 | A load alone in the unit may issue after n cycles iff its access is done or 2^31 or more of its cycles are left |
| LSUnitRuns.RunNeverStops | CustomHWUnits/MCADLSUnit.h:174-186 | Whatever the pipeline may do next in a run, every group that is looked up exists, so no lookup assertion fails |
| LSUnitRuns.GraphOfRun | CustomHWUnits/MCADLSUnit.cpp:346-362 | In every reachable state each cursor is 0 or names a live group, edges go from smaller to larger live ids, and the outstanding predecessors of a group are the edges that live groups list |
| LSUnitCursors.CursorsOfRun | CustomHWUnits/MCADLSUnit.cpp:187-334 | In every run each cursor names the group of the last load, load barrier, store or store barrier dispatched while that group lives, and is 0 otherwise; an operation acts as a store if it may store or its metadata says so |
| LSUnitCursors.GroupOfDispatched | CustomHWUnits/MCADLSUnit.cpp:200-275 | In every run a load joins the group of the last load iff it is no barrier and that group has an instruction still to be issued and is younger than the last store and the last load barrier that live; every other operation gets a group of its own |
| LSUnitCursors.DispatchableIff | CustomHWUnits/MCADLSUnit.cpp:277-286 | In every run a memory operation can be dispatched iff the unretired loads are fewer than a bounded load queue holds if it loads, and the unretired stores fewer than a bounded store queue holds if it acts as a store |
| LSUnitRuns.StatusMeansHeldBack | CustomHWUnits/MCADLSUnit.h:126-142 | A group is ready iff nobody holds it back, waiting iff somebody not fully issued does, pending iff neither |
| LSUnitRuns.LowestGroupIsReady | CustomHWUnits/MCADLSUnit.cpp:313-334 | The lowest-numbered live group is always ready |
| LSUnitRuns.Progress | CustomHWUnits/MCADLSUnit.cpp:81-109 | While a group lives, some instruction can issue or execute after finitely many cycles of waiting for the cache |
| LSUnitRuns.EveryRunCanDrain | CustomHWUnits/MCADLSUnit.cpp:313-334 | No deadlock: every run can be continued without new dispatches until no group is left |
| LSUnitRuns.EveryRunCanRetire | CustomHWUnits/MCADLSUnit.cpp:288-311 | And then everything can retire, which leaves both queues empty |
| LSUnitRuns.RunKeepsInv | CustomHWUnits/MCADLSUnit.cpp:111-334 | Every run keeps the invariants of graph, cursors, members of groups and queue slots |
| LSUnitSteps.StepKeepsInv | CustomHWUnits/MCADLSUnit.cpp:111-343 | Every enabled step finds the groups it looks up and keeps the invariant |
| LSUnitSteps.LeavesExecuted | CustomHWUnits/MCADLSUnit.cpp:321-323 | A group leaves the unit only with all its instructions executed |
| LSUnitSteps.DispatchKeepsQueues | CustomHWUnits/MCADLSUnit.cpp:277-286 | Slots in use are the operations not yet retired, and a bounded queue is never overfilled |
| LSUnitInvariant.UnissuedBlocksStore | CustomHWUnits/MCADLSUnit.cpp:157-185 | A group with an unissued instruction keeps every younger store from being ready |
| LSUnitInvariant.StoreGroupsOk | CustomHWUnits/MCADLSUnit.cpp:157-185 | A new store is held back by every unissued cursor, and by an aliasing current store until it has executed |
| LSUnitInvariant.LoadGroupsOk | CustomHWUnits/MCADLSUnit.cpp:232-259 | A new load is held back by the load barrier, a new barrier by the last load, both by an aliasing current store |
| LSUnitInvariant.ExecuteKeepsUnit | CustomHWUnits/MCADLSUnit.cpp:313-334 | Removing an executed group and clearing its cursors leaves every unissued group with a chain to a cursor and to every younger store |
| LSUnitChains.StepKeepsBarriers | CustomHWUnits/MCADLSUnit.cpp:167-175 | Every step keeps a chain of data edges from each live store barrier to each younger store |
| MemoryGroups.LinkKeepsGraph | CustomHWUnits/MCADLSUnit.cpp:160-175 | Linking a live group to a younger one that has not started keeps the graph invariant |
| MemoryGroups.IssueKeepsGraph | CustomHWUnits/MCADLSUnit.h:158-161 | Issuing an instruction of a ready group releases exactly the order edges and keeps the graph invariant |
| MemoryGroups.ExecuteKeepsGraph | CustomHWUnits/MCADLSUnit.cpp:318-323 | Executing an instruction releases the data edges with the last one and keeps the graph invariant |
| LSUnit.MCADLSUnit.constructor | CustomHWUnits/MCADLSUnit.h:116-120 | The unit starts empty, with all cursors 0 and the first id 1 |
| LSUnit.MCADLSUnit.Dispatch | CustomHWUnits/MCADLSUnit.cpp:111-275 | Takes exactly the dispatch step, returns the token and keeps the invariant |
| LSUnit.MCADLSUnit.DispatchAsStore | CustomHWUnits/MCADLSUnit.cpp:148-198 | A store opens a group linked from the load, store barrier and store cursors, and moves the cursors |
| LSUnit.MCADLSUnit.DispatchAsLoad | CustomHWUnits/MCADLSUnit.cpp:200-275 | A load opens a linked group in exactly the five situations of the code, and otherwise joins the last load group |
| LSUnit.MCADLSUnit.Acquire | CustomHWUnits/MCADLSUnit.cpp:115-146 | The cache timer of the address is set and the queue slots are taken |
| LSUnit.MCADLSUnit.CreateCustomMemoryGroup | CustomHWUnits/MCADLSUnit.h:188-192 | A new empty group under the next id |
| LSUnit.MCADLSUnit.IsAvailable | CustomHWUnits/MCADLSUnit.cpp:277-286 | Available iff no bounded queue that the operation needs is full |
| LSUnit.MCADLSUnit.IsInstOperandWaitingForCache | CustomHWUnits/MCADLSUnit.cpp:81-109 | Waiting iff the timer of the address has not run out |
| LSUnit.MCADLSUnit.IsReady | CustomHWUnits/MCADLSUnit.h:126-130 | Ready iff the group is ready and the cache access is done |
| LSUnit.MCADLSUnit.OnInstructionIssued | CustomHWUnits/MCADLSUnit.h:158-161 | Takes exactly the issue step and keeps the invariant |
| LSUnit.MCADLSUnit.OnInstructionExecuted | CustomHWUnits/MCADLSUnit.cpp:313-334 | Takes exactly the execute step: the group leaves with its last instruction and every cursor to it is cleared |
| LSUnit.MCADLSUnit.OnInstructionRetired | CustomHWUnits/MCADLSUnit.cpp:288-311 | Gives the slots back, forgets the cache timer, and keeps the invariant |
| LSUnit.MCADLSUnit.CycleEvent | CustomHWUnits/MCADLSUnit.cpp:336-343 | Advances the clock and nothing else |
| CacheLRU.HitIffRecentlyUsed | CustomHWUnits/Cache.h:71-156 | After any trace of nonzero line addresses an access hits iff its line was used and fewer than `numWays` other lines were used since whose line number, the address divided by 64, is congruent modulo the number of sets |
| CacheLRU.HeldOnce | CustomHWUnits/Cache.h:134-156 | The ways in use of a set hold, without duplicates, exactly the lines used whose line number leaves that remainder and since which fewer than `numWays` others of these were used |
| CacheSpec.SetIndex | CustomHWUnits/Cache.h:109-111 | The set of an address is its line number modulo the number of sets |
| CacheSpec.ShareSetIff | CustomHWUnits/Cache.h:109-111 | Two addresses share a set iff the difference of their line numbers is a multiple of the number of sets |
| CacheLRU.StampsWrap | CustomHWUnits/Cache.h:38-41 | The bound on traces is needed: the access behind 2^32 - 1 others is stamped 0, so that in a full set the line just used is the next to be evicted |
| CacheLRU.MoreWaysIncludeFewer | CustomHWUnits/Cache.h:118-156 | Stack inclusion: with equally many sets and the same trace, the cache with more ways holds all that the other holds |
| CacheLRU.MoreWaysMissLess | CustomHWUnits/Cache.h:71-84 | Load misses never increase with associativity |
| CacheLRU.ReplayKeepsInv | CustomHWUnits/Cache.h:71-156 | After any such trace fill pointers, stored lines and time stamps agree with the history |
| CacheLRU.LeastRecentIsOldest | CustomHWUnits/Cache.h:146-155 | The smallest time stamp belongs to the least recently used line |
| CacheLRU.ReloadHitsIffAligned | CustomHWUnits/Cache.h:118-129 | After an access its line is resident; the same address hits again iff it is the start of a line |
| CacheChain.LoadCost | CustomHWUnits/Cache.h:71-84 | A load costs the latencies down to the first level that holds the line, plus the memory's if none does |
| CacheChain.LoadLeavesLine | CustomHWUnits/Cache.h:71-84 | After a load the line is in every level visited, and the levels below are unchanged |
| CacheChain.StoreCost | CustomHWUnits/Cache.h:88-99 | A store costs the latencies of all levels and the memory, and leaves the line in every level |
| CacheChain.ReloadCost | CustomHWUnits/Cache.h:71-99 | Loading a line address again right after a load or store costs one first-level latency |
| CacheChain.RepeatCost | CustomHWUnits/Cache.h:71-99 | For any address, a load right after a load or store of the same never costs more than that, takes time if the first level does, and costs less after a store of a line address if anything lies behind the first level |
| CacheChain.UnalignedAlwaysMisses | CustomHWUnits/Cache.h:122 | A load of an address inside a line always costs every level and the memory |
| CacheChain.PerformKeepsLRU | CustomHWUnits/Cache.h:71-99 | An access keeps every level, shared ones included, a least-recently-used cache of the accesses that reached it |
| CacheChain.RunKeepsLRU | CustomHWUnits/Cache.h:71-166 | So does every interleaving of fetches, loads and stores |
| CacheIdeal.CostIsOfHistory | CustomHWUnits/Cache.h:71-99 | In any interleaving of fetches, loads and stores of line addresses, the next access costs what a reference without tables says, which knows only the numbers of sets and ways, the latencies and the history of accesses, and lets lines with congruent line numbers compete |
| CacheIdeal.HistoryAgrees | CustomHWUnits/Cache.h:71-99 | Which accesses reach which level is decided by the histories alone |
| CacheUnits.BuiltRunIsLRU | MCAWorker.cpp:250-295 | That holds for every hierarchy that can be built with caches that have a set |
| CacheUnits.FirstLoadCosts | MCAWorker.cpp:262-279 | A first load or fetch costs all enabled levels and the memory; a load behind a fetch of its line costs the data cache and the first enabled level of 2 and 3, or the memory |
| CacheUnits.LevelFits | CustomHWUnits/Cache.h:57-60 | A cache has as many sets of its ways as fit into its size, at 64 bytes a line |
| CacheUnits.BuildCache | MCAWorker.cpp:250-295 | Exactly the enabled caches are built, with or without sets; both first-level caches are chained to the same objects below, and they can be accessed if every enabled one has a set |
| CacheUnits.PerformOn | MCAWorker.cpp:268-279 | With shared lower levels, an access through one first-level cache changes what the other sees exactly as the hierarchy says |
| CacheUnits.CacheUnit.constructor | CustomHWUnits/Cache.h:57-67 | A new cache is empty and chained to its next level, and can be accessed iff it and the levels behind it have a set |
| CacheUnits.CacheUnit.Load | CustomHWUnits/Cache.h:71-84 | Cost and new state of the whole chain are those of the specification; a miss is counted iff the level did not hold the line |
| CacheUnits.CacheUnit.Store | CustomHWUnits/Cache.h:88-99 | Cost and new state of the whole chain are those of the specification |
| CacheUnits.CacheUnit.GetEntry | CustomHWUnits/Cache.h:118-129 | The scan finds the first way that holds the address, if any |
| CacheUnits.CacheUnit.EvictEntry | CustomHWUnits/Cache.h:134-156 | The free way if there is one, otherwise the last way with the smallest time stamp |
| Recency.MissEvicts | CustomHWUnits/Cache.h:146-155 | In the reference, a miss without room replaces exactly the least recently used key |
| Recency.MorePlacesKeepMore | CustomHWUnits/Cache.h:134-156 | In the reference, more places keep at least as much |
| BrokerRuns.AccessesReachIff | plugins/qemu-broker/Broker.cpp:374-411 | Over any interleaving of messages and fetches, the single accesses of what was delivered, followed by those of what is queued, are the accesses that the messages report within their slices, each attached to the instruction its index leads to, iff every such index lies in its block |
| BrokerRuns.AccessesLeadHomeIff | plugins/qemu-broker/Broker.cpp:384-385 | Each of them is attached to the first machine instruction of the raw one that reported it iff all raw instructions up to these exist and decode; and then the condition above holds |
| BrokerRuns.DeliveredIsKept | plugins/qemu-broker/Broker.cpp:290-371 | In trimming mode, with no block entering a second region, what all messages enqueue is exactly the executed instructions that belong to a region by their addresses (from one at a key of the table while no region is open, through the first at that region's end address, across blocks and messages), the region reported with that last one; what was delivered is a prefix of it |
| BrokerRuns.TrueAddressesIff | plugins/qemu-broker/Broker.cpp:304-305 | The scan sees the true addresses of all executed blocks iff the offsets of each fit one byte or it lies below the code |
| BrokerRuns.DeliveredIsTrue | plugins/qemu-broker/Broker.cpp:290-371 | So where the offsets fit, on the true addresses |
| BrokerRuns.EnqueuedIsAll | plugins/qemu-broker/Broker.cpp:290-371 | Without trimming, every instruction of every executed block is enqueued, in order, and no region ends; what was delivered is a prefix of it |
| BrokerRuns.EndedIff | plugins/qemu-broker/Broker.cpp:272-281 | The stream has ended iff an end signal has been received |
| BrokerRuns.NoMoreAfterEnd | plugins/qemu-broker/Broker.cpp:784-795 | A fetch answers "no more" only behind an end signal and the delivery of all that was enqueued |
| BrokerRuns.EnqueuedIsSliced | plugins/qemu-broker/Broker.cpp:356-411 | In trimming mode what all messages enqueue is what the scan slices out of the executed blocks, the region carried from message to message |
| BrokerRuns.MessagesAreAccepted | plugins/qemu-broker/Broker.cpp:258-412 | Whatever is reported in order, what a message leads to can be enqueued |
| TraceBroker.RunConserves | plugins/qemu-broker/Broker.cpp:406-411 | In every interleaving, the instructions delivered followed by those the queue stands for are those that were enqueued |
| TraceBroker.AccessesConserved | plugins/qemu-broker/Broker.cpp:862-897 | So are the accesses: delivered followed by queued are those filed, none lost, duplicated or moved |
| TraceBroker.AllAreFiledIff | plugins/qemu-broker/Broker.cpp:849-899 | All accesses that were enqueued are filed iff each belongs to an instruction of its slice and block |
| TraceBroker.DeliveredIsPrefix | plugins/qemu-broker/Broker.cpp:848-900 | The delivered batches are a prefix of the enqueued slices, and their accesses a prefix of those filed |
| TraceBroker.NoMoreMeansAllDelivered | plugins/qemu-broker/Broker.cpp:784-795 | "No more" is answered only when the stream has ended and everything enqueued has been delivered |
| TraceBroker.AnswersOk | plugins/qemu-broker/Broker.cpp:818-820 | No batch goes past the end of a region, and the end is reported exactly with the region's last instruction |
| TraceBroker.SimpleFetchIsSafe | plugins/qemu-broker/Broker.cpp:797-821 | With slices closed within their blocks, or open from the first instruction of blocks no longer than the batches, every fetch keeps the queue in order |
| TraceBroker.OpenSliceOverruns | plugins/qemu-broker/Broker.cpp:805-808 | Every open slice of a block longer than the batches is fetched batch by batch, and then comes the fetch that cuts it behind the block, unless the next start is no index |
| TraceBroker.OpenSliceStep | plugins/qemu-broker/Broker.cpp:805-808 | One such fetch, with any accesses: it moves the start by a batch, and is safe iff that stays in the block or is no index |
| TraceQueue.SelectKeepsContent | plugins/qemu-broker/Broker.cpp:797-821 | Selected and remaining slices stand for the same instructions as before, the selected ones fit the batch, and the queue stays in order iff no slice is cut behind its block |
| TraceQueue.SelectTakes | plugins/qemu-broker/Broker.cpp:797-821 | A fetch takes the first slices that are assumed to fill the batch (of each as many instructions as its bounds and its block allow), fewer only if a region ends or there are no more, and cuts the last one so that exactly as many as asked for are assumed |
| TraceQueue.SelectStopsAtRegionEnd | plugins/qemu-broker/Broker.cpp:801-820 | A region ends at most with the last selected instruction, and that is what is reported |
| TraceQueue.CutKeepsItems | plugins/qemu-broker/Broker.cpp:173-198 | Splitting a slice within its block keeps every instruction with its access and the region end with the last one |
| TraceQueue.SplitDivides | plugins/qemu-broker/Broker.cpp:173-198 | A split divides the accesses: none is lost or copied, and each goes with the part that has its instruction |
| TraceQueue.CutKeepsOk | plugins/qemu-broker/Broker.cpp:173-198 | What is left after a split is in order iff the split point lies within the block |
| TraceQueue.SelectedFit | plugins/qemu-broker/Broker.cpp:797-821 | Whatever else is queued, selected slices that lie in their blocks fit the batch |
| TraceQueue.ItemsCarry | plugins/qemu-broker/Broker.cpp:849-899 | The instructions of a slice get exactly the accesses of its chain, in order, except those of instructions behind its end or its block |
| TraceBroker.QemuBroker.constructor | plugins/qemu-broker/Broker.cpp:208-216 | The queue starts empty, the stream open |
| TraceBroker.QemuBroker.EnqueueSlice | plugins/qemu-broker/Broker.cpp:406-411 | A slice goes to the end of the queue, and a queue in order stays so if the slice lies in its block |
| TraceBroker.QemuBroker.SelectSlices | plugins/qemu-broker/Broker.cpp:797-821 | The loop selects exactly what the specification selects |
| TraceBroker.QemuBroker.DeliverOne | plugins/qemu-broker/Broker.cpp:862-897 | An instruction is delivered under a token never used before, with its address and its access filed under that token |
| TraceBroker.QemuBroker.DeliverSlice | plugins/qemu-broker/Broker.cpp:849-899 | Walking instructions and access chain in step delivers each instruction of the slice once, with exactly its own access |
| TraceBroker.QemuBroker.DeliverAll | plugins/qemu-broker/Broker.cpp:848-900 | All selected slices are delivered one after the other; batch position k gets the token of the k-th delivered instruction |
| TraceBroker.QemuBroker.FetchRegion | plugins/qemu-broker/Broker.cpp:766-909 | Answers -1 iff nothing is left, otherwise delivers the selected slices and reports the region that ends; the queue stays in order iff no slice had to be cut behind its block |
| TraceBroker.QemuBroker.TokensCarry | plugins/qemu-broker/Broker.cpp:862-897 | The accesses filed by token are those of the delivered instructions, each under the token of its own instruction |
| AccessChains.ChainKeepsAccesses | plugins/qemu-broker/Broker.cpp:374-404 | No access inside the slice is lost, none outside gets in, and none changes its instruction or its order |
| AccessChains.ChainIsSorted | plugins/qemu-broker/Broker.cpp:100-103 | For accesses in instruction order the chain is sorted, one entry an instruction, within the slice |
| AccessChains.BuildChain | plugins/qemu-broker/Broker.cpp:374-404 | The loop builds exactly that chain |
| AccessChains.AppendCoversIff | CustomHWUnits/MCADLSUnit.cpp:29-43 | The range of a bundle covers a new access always, and the old range iff the new access does not both start and end lower |
| AccessChains.AlwaysCoversIff | CustomHWUnits/MCADLSUnit.cpp:29-43 | The range of a bundle covers all its accesses after every append iff none starts below all before it and ends below one of them; then it is the smallest such range |
| AccessChains.ChainIsBundled | plugins/qemu-broker/Broker.cpp:390-403 | Every entry of a chain is a bundle built by appending |
| TranslationBlocks.TranslationBlock.constructor | plugins/qemu-broker/Broker.cpp:69-98 | A new block has no machine instructions |
| TranslationBlocks.TranslationBlock.Disassemble | plugins/qemu-broker/Broker.cpp:717-760 | The index map sends a raw index to the machine instructions before it plus the undecodable raw ones, and leaves others alone; sizes and addresses are those of the decoded instructions in order, offsets are kept in one byte |
| TranslationBlocks.LeadsToFirstIff | plugins/qemu-broker/Broker.cpp:720-756 | An index leads to the first machine instruction of its raw one iff that and all before it exist and decode |
| TranslationBlocks.LookupIncreases | plugins/qemu-broker/Broker.cpp:384-385 | The order of raw instructions is kept, whether they decode or not |
| TranslationBlocks.BeforeIncreases | plugins/qemu-broker/Broker.cpp:717-760 | Decodable raw instructions have different places, in order |
| TranslationBlocks.TranslationBlock.DisassembleRaw | plugins/qemu-broker/Broker.cpp:723-757 | One raw instruction is decoded until its bytes or the decoder give out |
| TranslationBlocks.IndexMapIsRightIff | plugins/qemu-broker/Broker.cpp:720-721 | A raw index is mapped to the number of machine instructions before it iff every raw instruction before it decodes |
| TranslationBlocks.DecodedWhere | plugins/qemu-broker/Broker.cpp:723-757 | The machine instructions of a raw one begin where the bytes of the raw ones before it end, each right behind the one before, with the size that the decoder gives or 1 if that is 0, until the bytes end or do not decode |
| RegionTrim.ScanAgreesIff | plugins/qemu-broker/Broker.cpp:290-335 | The block-at-a-time scan keeps exactly the instructions that belong to a region by the addresses, whatever region is carried in, iff none starts in the block behind the end of another, and then it carries on the open one |
| RegionTrim.RunAgreesIff | plugins/qemu-broker/Broker.cpp:356-371 | The slices of all executed blocks are exactly the instructions of the one stream of addresses that belong to a region, iff no block enters a second region |
| RegionTrim.AutomatonAgreesIff | plugins/qemu-broker/Broker.cpp:290-335 | The scan always keeps a prefix of what an automaton over single instructions keeps |
| RegionSpec.AutomatonKeeps | plugins/qemu-broker/Broker.cpp:319-335 | That automaton keeps exactly the instructions that belong to a region by the addresses |
| RegionTrim.SliceItemsAreKept | plugins/qemu-broker/Broker.cpp:356-371 | The enqueued slice stands for the kept instructions and reports the region's end with the same one |
| RegionTrim.TrimGivesOkSlice | plugins/qemu-broker/Broker.cpp:369-371 | A trim that is not empty gives a slice within its block |
| RegionTrim.AddressesAreTrueIff | plugins/qemu-broker/Broker.cpp:304-305 | The scan sees the true addresses of a block iff all its instructions begin in its first 256 bytes, or it lies below the code |
| RegionTrim.BlockTrimmer.constructor | plugins/qemu-broker/Broker.cpp:115-118 | No region is active at first |
| RegionTrim.BlockTrimmer.FindStart | plugins/qemu-broker/Broker.cpp:300-308 | The loop finds the first instruction whose address is a key of the table and makes that region current, or runs to the end of the block |
| RegionTrim.BlockTrimmer.FindEnd | plugins/qemu-broker/Broker.cpp:319-326 | The loop finds the first instruction whose address is the end address of the region |
| RegionTrim.BlockTrimmer.HandleBinaryRegions | plugins/qemu-broker/Broker.cpp:293-335 | Bounds, ended region and carried region are those of the scan |
| TbExec.SliceForIsOk | plugins/qemu-broker/Broker.cpp:369-409 | Whatever a message leads to enqueue is a slice of its block, with its accesses in order if they were reported so |
| TbExec.ReportIsInOrder | plugins/qemu-broker/Broker.cpp:100-103 | Accesses reported in the order of raw instructions of the block are in the order of machine instructions, as the chain has to be |
| TbExec.Translate | plugins/qemu-broker/Broker.cpp:337-343 | Translating a block leaves a correct index map and one-byte offsets |
| TbExec.TbExec | plugins/qemu-broker/Broker.cpp:258-412 | A message ends the stream, or is skipped if its block is unknown, or enqueues exactly the trimmed slice with its accesses, which is the step that whole runs take for it; the queue stays in order if the accesses are |
| FetchDelay.InOrder | CustomStages/MCADFetchDelayStage.cpp:23-39 | In every run, what was passed on followed by what is queued is what was given, in order |
| FetchDelay.DelayIsServed | CustomStages/MCADFetchDelayStage.cpp:107-115 | However ready the next stage is, no instruction leaves before its whole delay has been counted down at the front |
| FetchDelay.DelayIsExact | CustomStages/MCADFetchDelayStage.cpp:23-39 | With a next stage that is always ready, each leaves exactly then |
| FetchDelay.DrainsInTotal | CustomStages/MCADFetchDelayStage.cpp:107-115 | With nothing arriving and a next stage that is always ready, any queue is empty after exactly the sum of the remaining delays, one cycle more if its front is due already, and not before |
| FetchStage.ChargedIffMispredicted | CustomStages/MCADFetchDelayStage.cpp:59-91 | In every stream an instruction is charged iff the one before is a branch, both addresses are known, and: the branch is not remembered and the instruction is not at its address plus size, or it is remembered and whether it is there differs from the last time that the stream shows; all read off the addresses of the stream |
| FetchStage.StreamMatches | CustomStages/MCADFetchDelayStage.cpp:59-91 | The branches that the predictor has seen, and how they went, are those that the addresses of the stream show |
| FetchStage.RecordedKeepsSeparate | CustomStages/MCADFetchDelayStage.cpp:67 | Recording adds no key but the recorded branch, so lookups stay unambiguous |
| FetchStage.Capped | CustomStages/MCADFetchDelayStage.cpp:93-98 | A delay within the limit is kept, a longer one becomes the limit, and a negative limit is none |
| FetchStage.MCADFetchDelayStage.constructor | CustomStages/MCADFetchDelayStage.cpp:41-52 | The stage starts with an empty queue and nothing predicted |
| FetchStage.MCADFetchDelayStage.ForwardDueInstrs | CustomStages/MCADFetchDelayStage.cpp:23-39 | The loop passes on what is due until the next stage refuses |
| FetchStage.MCADFetchDelayStage.ResolveBranch | CustomStages/MCADFetchDelayStage.cpp:60-84 | The branch before is recorded as it went, and counted and charged if it was mispredicted |
| FetchStage.MCADFetchDelayStage.PredictNext | CustomStages/MCADFetchDelayStage.cpp:85-90 | A branch with a known address is predicted, anything else clears the prediction |
| FetchStage.MCADFetchDelayStage.Execute | CustomStages/MCADFetchDelayStage.cpp:41-105 | The instruction is queued with its load time plus the penalty, up to the limit; predictor, counters and queue take their steps, and without a predictor only the queue does |
| FetchStage.MCADFetchDelayStage.CycleStart | CustomStages/MCADFetchDelayStage.cpp:107-115 | The front is counted down once, then what is due is passed on |
| BranchPredictor.PredictionIsLastDirection | CustomHWUnits/NaiveBranchPredictorUnit.cpp:7-36 | In every run a branch is answered its last direction if fewer than n-1 other branches were used since, otherwise NOT_TAKEN, and at most n-1 are held |
| BranchPredictor.ConfusedIffTouching | MetadataCategories.h:34-36 | The order of the table confuses two branches iff some address is in, or right behind, both |
| BranchPredictor.RecordedKeys | CustomHWUnits/NaiveBranchPredictorUnit.cpp:16-25 | Recording leaves exactly the n-1 most recently used branches |
| BranchPredictor.PredictThenRecord | CustomHWUnits/NaiveBranchPredictorUnit.cpp:7-36 | Predicting and then recording is one use in the history |
| BranchPredictor.NaiveBranchPredictorUnit.constructor | CustomHWUnits/NaiveBranchPredictorUnit.cpp:7-36 | The history starts empty, the access counter at any value |
| BranchPredictor.NaiveBranchPredictorUnit.RecordTakenBranch | CustomHWUnits/NaiveBranchPredictorUnit.cpp:7-26 | The branch is entered with the current stamp; at capacity an entry with the smallest stamp leaves |
| BranchPredictor.NaiveBranchPredictorUnit.PredictBranch | CustomHWUnits/NaiveBranchPredictorUnit.cpp:28-36 | A known branch is stamped and answered, an unknown one is not taken |
| BranchPredictor.NaiveBranchPredictorUnit.Find | CustomHWUnits/NaiveBranchPredictorUnit.cpp:30 | With separated keys a lookup by order finds exactly the equal key |
| IntMath.MulUnsignedManual | lib/gem5/intmath.h:152-175 | The exact 128-bit product of two 64-bit words |
| IntMath.CarryOut | lib/gem5/intmath.h:167-174 | The carries added by halves are the carry of the true sum, and no intermediate sum wraps around |
| IntMath.HighWord | lib/gem5/intmath.h:159-174 | The high word of the product from the four products of halves |
| IntMath.ProductByHalves | lib/gem5/intmath.h:139-151 | The identity behind the multiplication by place values |
| IntMath.MulSignedManual | lib/gem5/intmath.h:194-209 | The exact signed 128-bit product, low word read as unsigned |
| IntMath.FloorLog2 | lib/gem5/intmath.h:55-75 | For every positive word of 1, 2, 4 or 8 bytes, 2^y <= x < 2^(y+1) |
| IntMath.CeilLog2 | lib/gem5/intmath.h:80-89 | The least exponent whose power covers the word |
| IntMath.AndBits | lib/gem5/intmath.h:94-101 | A bit of the bitwise "and" is set iff it is set in both words |
| IntMath.IsPowerOf2Iff | lib/gem5/intmath.h:94-101 | The bit trick holds iff the number is some power of two |
| IntMath.RoundDownIsNearest | lib/gem5/intmath.h:275-282 | The nearest multiple below |
| IntMath.RoundUpIsNearestIff | lib/gem5/intmath.h:256-263 | The nearest multiple above, iff adding the mask does not wrap around |
| CodeRegionSpec.RegionsHoldTheirRange | Brokers/AsmUtils/CodeRegion.cpp:108-113 | If every directive stands behind the instructions before it, each region ends up with exactly the parsed instructions that are not before its start nor behind its end, in order |
| CodeRegionSpec.HeldIff | Brokers/AsmUtils/CodeRegion.cpp:24-30 | So an instruction is in a region iff it was parsed, its place is at or behind the start if there is one, and at or before the end if there is one |
| CodeRegionSpec.ParsedGoesWhere | Brokers/AsmUtils/CodeRegion.cpp:108-113 | Whatever came before, the next instruction is appended to every region in which it lies; one behind the end or before the start of a region leaves it as it was |
| CodeRegionSpec.After | Brokers/AsmUtils/CodeRegion.cpp:32-106 | After any directives and instructions, refused ones included, the active map is a one-to-one naming of the open regions |
| CodeRegionSpec.ErrorsIffNamesClash | Brokers/AsmUtils/CodeRegion.cpp:42-106 | A directive is refused iff a book of names alone refuses it |
| CodeRegionSpec.NoneOverlapIff | Brokers/AsmUtils/CodeRegion.h:23-25 | At no time two regions are open iff no region begins while one with another name is open |
| CodeRegionSpec.NamesMayOverlap | Brokers/AsmUtils/CodeRegion.cpp:64-65 | Two regions with any different names that overlap, and no directive is refused |
| CodeRegionSpec.EndsRegionIff | Brokers/AsmUtils/CodeRegion.cpp:68-106 | An end directive ends a region iff that is open and has the name given or, without a name, is the only open one, or is the untouched default region and no name is given |
| CodeRegionSpec.EndsLastIff | Brokers/AsmUtils/CodeRegion.h:20-21 | After any events, an end directive without a name ends the region that began last iff that is open and the only one or nameless, or is the untouched default region |
| CodeRegionSpec.EndsEarlierRegion | Brokers/AsmUtils/CodeRegion.cpp:89-94 | A run in which one ends the nameless region though another has begun since |
| CodeRegionSpec.BeginKeepsNaming | Brokers/AsmUtils/CodeRegion.cpp:32-66 | A begin directive keeps the naming, and the default region goes or is ended before there is another |
| CodeRegionSpec.EndKeepsNaming | Brokers/AsmUtils/CodeRegion.cpp:68-106 | An end directive keeps the naming |
| CodeRegionSpec.CloseHolds | Brokers/AsmUtils/CodeRegion.cpp:24-30 | Ending a region behind all instructions takes nothing out of it |
| CodeRegionSpec.NoneBefore | Brokers/AsmUtils/CodeRegion.cpp:24-30 | A region that begins behind all instructions holds none of them |
| CodeRegions.CodeRegion.constructor | Brokers/AsmUtils/CodeRegion.h:65-66 | A new region is empty and has no end |
| CodeRegions.CodeRegion.AddInstruction | Brokers/AsmUtils/CodeRegion.h:68-70 | The instruction goes to the end of the region |
| CodeRegions.CodeRegion.SetEndLocation | Brokers/AsmUtils/CodeRegion.h:75 | The region is ended there, and nothing else changes |
| CodeRegions.CodeRegionTable.constructor | Brokers/AsmUtils/CodeRegion.cpp:19-22 | Starts with the default region alone |
| CodeRegions.CodeRegionTable.BeginRegionAt | Brokers/AsmUtils/CodeRegion.cpp:32-66 | Replaces the default region, opens a region, or reports an error, as specified, and keeps the naming |
| CodeRegions.CodeRegionTable.EndActive | Brokers/AsmUtils/CodeRegion.cpp:89-94 | Ends the named active region and takes it off the active ones |
| CodeRegions.CodeRegionTable.EndRegionAt | Brokers/AsmUtils/CodeRegion.cpp:68-106 | Ends the named region, the only active one, or the default one, or reports an error, as specified, and keeps the naming |
| CodeRegions.CodeRegionTable.AddInstructionToAll | Brokers/AsmUtils/CodeRegion.cpp:108-113 | The loop offers the instruction to every region |
| RegionBatches.RegionsAreHandedOut | Brokers/AsmFileBroker.cpp:99-138 | For any positive sizes the batches join to all regions in order, each lies in one region, and the end flag is raised exactly once for each region that is not empty, in order |
| RegionBatches.FlatIsContents | Brokers/AsmFileBroker.cpp:63-76 | What is handed out is the contents of the regions, one behind the other, empty ones skipped |
| RegionBatches.EndsOfBatch | Brokers/AsmFileBroker.cpp:127-133 | A batch has at most one last instruction, at its end |
| RegionBatches.BatchSize | Brokers/AsmFileBroker.cpp:108-134 | A batch ends behind the first last instruction or when it is full, and is not empty while something is left |
| AsmFileBrokers.AsmFileBroker.constructor | Brokers/AsmFileBroker.cpp:44-61 | All regions are still to be handed out, or none if parsing fails |
| AsmFileBrokers.AsmFileBroker.ParseIfNeeded | Brokers/AsmFileBroker.cpp:44-61 | Parses once; answers whether that worked, and hands out nothing |
| AsmFileBrokers.AsmFileBroker.FetchOne | Brokers/AsmFileBroker.cpp:63-76 | The next instruction, or nothing iff nothing is left |
| AsmFileBrokers.AsmFileBroker.Fetch | Brokers/AsmFileBroker.cpp:78-97 | As many of the next instructions as fit, in order; -1 only at the end |
| AsmFileBrokers.AsmFileBroker.FetchRegion | Brokers/AsmFileBroker.cpp:99-138 | Exactly the next batch, the end flag with a region's last instruction, and the region's description; -1 only at the end |
| Timeline.PrintTimelineViewEntry | MCAViews/TimelineView.cpp:129-169 | For cycles in order, one character for each cycle from the first through the last, saying what the instruction does in it |
| Timeline.PrintExecution | MCAViews/TimelineView.cpp:142-158 | The characters from dispatch through execution |
| Timeline.SymbolsMean | MCAViews/TimelineView.cpp:129-169 | For every cycle of a row and every symbol, exactly when that symbol is shown, the dots among them |
| Timeline.CyclesCanBeRead | MCAViews/TimelineView.cpp:138-168 | Dispatch, execution and retirement can be read off a row |
| Timeline.SameRowIff | MCAViews/TimelineView.cpp:138-168 | Two instructions have the same row iff they agree on everything but whether they were issued as dispatched or a cycle later |
| Timeline.IssueCannotBeRead | MCAViews/TimelineView.cpp:151-152 | Two instructions with different cycles of issue and the same row |

## Left out

- Memory groups of LLVM: their counters and notifications are a stated contract, because that class is not part of the repository; instructions issue only from ready groups, as its scheduler does. Critical-path data of groups and the per-cycle notification of groups are not modelled.
- Alias queries: the answer of the ordered container is an input of the dispatch, for every set of groups, because its comparison is not a strict weak order on bundles.
- Latencies, access counters, clocks and token counters are unbounded integers; the narrow fields modelled are the remaining cycles of an access, the 32-bit time stamps of cache lines, the 8-bit offsets of a block and the 16-bit end index of an open slice. Results on caches are for fewer than 2^32 accesses.
- Cycle statistics: the counter adds one whatever amount it is given, so only event counts (misses, branches, mispredictions) are modelled.
- CacheUnits.CacheUnit.Load: excludes chains with a cache whose size gives no set, because every access to one divides by zero; so does CacheUnits.CacheUnit.Store. Statistics pointers are not modelled.
- CacheUnits.BuildCache: the copies of the first-level caches into their units are the same objects.
- BranchPredictor.NaiveBranchPredictorUnit.Find: keys that touch each other are excluded, because the order of the `std::map` is not a strict weak order then and its lookups have no defined result.
- BranchPredictor.NaiveBranchPredictorUnit.RecordTakenBranch: excludes keys that touch each other, for the same reason.
- BranchPredictor.NaiveBranchPredictorUnit.PredictBranch: excludes keys that touch each other, for the same reason.
- FetchStage.MCADFetchDelayStage.ResolveBranch: excludes keys that touch each other, for the same reason.
- FetchStage.MCADFetchDelayStage.PredictNext: excludes keys that touch each other, for the same reason.
- FetchStage.MCADFetchDelayStage.Execute: excludes keys that touch each other if branches are predicted; errors of the next stage and the counter of skipped cycles are not modelled, and the time to load an instruction is an input.
- TbExec.TbExec: promises a queue in order only for accesses in the order of machine instructions, as the source says of its chains; `TbExec.ReportIsInOrder` derives that from the order of raw instructions. For other orders the binary search in a split has no defined result, and the runs of `BrokerRuns` leave them out.
- TraceBroker.QemuBroker.FetchRegion: waiting on the condition variable is a precondition, the test of the remaining size inside the delivery loop is left out because the selected slices are proved to fit, and a fetch that selects a slice which starts behind its block is excluded, because its loop never meets its end.
- TraceBroker.QemuBroker.EnqueueSlice: ownership of the access chains and their release are not modelled; chains are values.
- Region markers of the marking mode, blocks that are translated again under an old index, empty blocks that are disassembled on every execution, and slices that name an unknown block.
- TranslationBlocks.TranslationBlock.Disassemble: the decoder is an input, and the switch between ARM and Thumb decoding is not modelled.
- RegionTrim.RunAgreesIff: speaks of the stored offsets; `BrokerRuns.TrueAddressesIff` says when these give the true addresses.
- CodeRegions.CodeRegionTable.BeginRegionAt: the texts of error messages.
- Timeline.PrintTimelineViewEntry: says nothing for cycles out of order; the index in front of the row, the header, and the bookkeeping of regions to be printed.
- The signed and unsigned products that the compiler's 128-bit type computes, products of narrower words, and rounding-up division.
- Sockets, message framing, the disassembler, symbol tables, manifests, option parsing, pipeline assembly, the metadata registry and generated code.
- The remaining branch predictors, the Binary Ninja and vivisect brokers and the summary view: unfinished, random, easy or dependent on foreign calls.

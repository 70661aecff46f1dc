# A Dafny model of the ChampSim simulator and its prefetchers

This project models the parts of ChampSim that work as step-driven state machines, and the tables that ought to
agree with a simple list or map, and proves properties of them over all inputs and all runs. `dafny verify
dfyconfig.toml` checks it.

## How it is organised

Each component has a value-level model (states and step functions), the invariants of its steps, the theorems about
its runs, and a class or methods that change fields and arrays in place, loop by loop, and are proved equal to the
step functions.

For each operation there are two kinds of results: invariants and theorems about runs, and the exact effect of the
operation, stated on the elements of the state and not through the helpers of the step (`CoreStages`, `CoreQueues`,
`CacheStages`, `CacheCollisions`, `DramStages`, `GazeRequests`, `PerceptronLearning`, `IndexBits`, `PageFaults`,
`DspatchBits`).

- **Back end of the core** (`CoreTypes`, `CoreRegisters`, `CoreMemory`, `CorePipeline`, `CoreStages`, `CoreQueues`,
  `CoreTheorems`, `CoreProgress`, `CoreMachine`): reorder buffer, register producers, load and store queues, and the
  stages of one cycle. Object references are instruction ids and slot numbers, and finding the referenced object is
  part of what is proved. The memory side, the arrivals and warm-up come from an arbitrary environment.
- **Cache level** (`CacheModel`, `CacheProofs`, `CacheInvariants`, `CacheTheorems`, `CacheLevels`, `CacheOperate`,
  `CacheStages`, `CacheCollisions`, `CacheMachine`): request queues with collision checks, tags, miss registers,
  writes in flight and data returns. The replacement policy and the answers of the lower level are arbitrary. Debts,
  a waiter together with a block, are kept as multisets (`Waiters`), so both losing and duplicating an answer would
  be noticed. Two levels are composed, with the lower one answering the upper one's misses.
- **DRAM channel** (`DramModel`, `DramProofs`, `DramTheorems`, `DramStages`, `DramMachine`): request slots, bank
  requests, the data bus, mode changes, collision checks and address decoding.
- **Tables** (`LruTable`, `SetAssociative`, `SetAssociativeMachine`): recency lists, lookup maps, SRRIP victims.
- **Virtual memory** (`VirtualMemory`, `FrameCount`, `PageFaults`): frames for pages and page tables, how many are
  taken, and who pays for a new one.
- **Prefetchers** (`Gaze`, `GazeRequests`, `GazeMachine`, `HashIndex`, `IndexBits`, `Bingo`, `Dspatch`,
  `DspatchBits`, `DspatchMachine`): learning tables against lists of first touches, what is asked for, recall of
  footprints, and coverage of predictions.
- **Branch predictor** (`HashedPerceptron`, `PerceptronLearning`): history words, indices, weights and threshold,
  and what is learned in the end.
- `Bits`, `Seqs`, `Wrappers`, `Waiters`: powers of two, quotients, exclusive or, counting, options, debts.

## Where the code is not what one might expect

These are properties of the code as it is; each has a theorem that says exactly when the expected property holds.

- A cache that does not match offset bits sends missing writes past the miss registers. A block can then be valid in
  two ways as soon as a set has two (`TwinsExactly`).
- A hit that is no write clears the dirty bit, so the written data of the way is given up without a write-back
  (`WrittenDataKeptExactly`).
- The order of fills depends on warm-up never restarting (`AnswerOrderExactly`, `WarmupRestartBreaksOrder`), and so
  does the pairing of DRAM banks and packets (`WarmupRestartExactly`).
- With a single write slot, seven eighths of the slots round to nothing: a reading channel without any write then
  changes to writing, and in no other configuration (`NothingToWrite`).
- A table entry's own address bits are part of the key of its table, so a page table never holds two used entries
  (`EntryBits`).
- Page tables larger than a page overlap each other (`OverlapExactly`). A translation asks for a frame before it
  looks at the mapping, so translating a mapped page also needs a free frame (`AllowedExactly`), and a run can reach
  a state in which it is refused (`MappedRefusedExactly`).
- `cams[index][tag]` adds a mapping for an absent key, so promotion is safe exactly for stored keys
  (`PromotionNeedsPresence`); masks and remainders agree exactly for power-of-two set counts (`IndexingCoincides`).
- `con_counter >> 1` has no effect, so Gaze's streaming counter never falls back once above two
  (`StreamingFallsExactly`, `CounterSticks`). Its deque of hashed counters is not renewed by a counter that comes up
  again, so it holds the last eight that entered, not the last eight seen (`ForgetsRecent`).
- A DSPatch coverage pattern covers what trained it only after an OR or a reset (`CoversTrainedExactly`).
- Four comparators put some entries before themselves, and so are no strict orders (`ForwardLessReflexive`,
  `ComparatorsReflexive`, `BeforeReflexive`). The scans that use them are loops here, and what they pick is proved
  (`MaxScanPicks`, `NextBankEarliest`, `NextEntryEarliest`, `MinMax`).

## Model

| member | source | states |
|---|---|---|
| `CoreTheorems.ReadAfterWrite` | ChampSim/src/ooo_cpu.cc:358-389 | in every reachable state, an instruction that has started executing finds the youngest older writer of each of its sources completed, whether still in flight or long retired |
| `CoreTheorems.OldestCanStart` | ChampSim/src/ooo_cpu.cc:381-389 | no register deadlock: the oldest uncompleted instruction, once scheduled and due, always meets the start condition |
| `CoreTheorems.MemoryAccounted` | ChampSim/src/ooo_cpu.cc:674-687 | for every instruction in flight, completed operations plus held load slots plus unissued stores equal its memory operations; nothing completes or retires with one pending; every queue entry has its instruction |
| `CoreTheorems.DrainedStoreFinished` | ChampSim/src/ooo_cpu.cc:449-469 | whenever a store may leave the queue it was issued, and no queued load has it as its producer any more |
| `CoreTheorems.EveryDrainFinished` | ChampSim/src/ooo_cpu.cc:449-469 | in every cycle after every run, at the moment when stores are drained, what leaves is a prefix of the queue of issued stores, with no load left waiting for any of them |
| `CoreProgress.HeadAdvances` | ChampSim/src/ooo_cpu.cc:35-44 | what one cycle does for the oldest instruction, exactly: a completed one retires; any other stays the oldest and is scheduled, starts or completes as soon as it may |
| `CoreProgress.OldestRetires` | ChampSim/src/ooo_cpu.cc:35-44 | progress on every run: an oldest instruction whose memory operations have finished retires within a bound made of its waiting time and the two latencies, whatever arrives and whatever the memory does |
| `CoreProgress.ReachableProgress` | ChampSim/src/ooo_cpu.cc:35-44 | this progress from every reachable state |
| `CoreProgress.CycleCloser` | ChampSim/src/ooo_cpu.cc:35-44 | a cycle that does not retire the oldest instruction brings it strictly closer to retiring |
| `CoreTheorems.WaitingLoadOwned` | ChampSim/src/ooo_cpu.cc:417-437 | every load with a producer is allocated, unissued, and in the waiting list of one queued, unfinished, older store of its address |
| `CoreTheorems.RetiresInOrder` | ChampSim/src/ooo_cpu.cc:598-604 | retired, in-flight and buffered instructions together are exactly the arrived program, in order, with their operands unchanged |
| `CoreTheorems.ReachableSafe` | ChampSim/src/ooo_cpu.cc:35-44 | the whole back-end invariant holds after any number of cycles under any memory behaviour and any arrivals |
| `CoreTheorems.RunSafe` | ChampSim/src/ooo_cpu.cc:35-44 | the invariant and the program history are kept over every run from any safe state |
| `CorePipeline.CycleSafe` | ChampSim/src/ooo_cpu.cc:35-44 | one cycle of all stages keeps the invariant and the program history |
| `CorePipeline.RetireSafe` | ChampSim/src/ooo_cpu.cc:598-604 | retiring a prefix of completed instructions keeps everything |
| `CorePipeline.CompleteSafe` | ChampSim/src/ooo_cpu.cc:552-561 | completing due instructions within the width keeps everything |
| `CorePipeline.ExecuteSafe` | ChampSim/src/ooo_cpu.cc:381-408 | starting ready instructions and marking their queue entries keeps everything |
| `CorePipeline.ScheduleSafe` | ChampSim/src/ooo_cpu.cc:347-379 | scheduling in program order within the search width keeps everything |
| `CorePipeline.MemoryReturnSafe` | ChampSim/src/ooo_cpu.cc:586-595 | finishing all issued loads of returned blocks keeps everything |
| `CorePipeline.FinishStoresSafe` | ChampSim/src/ooo_cpu.cc:457-465 | issuing a prefix of ready stores, and finishing the loads behind them, keeps everything |
| `CorePipeline.DrainSafe` | ChampSim/src/ooo_cpu.cc:467-469 | draining retired stores keeps everything |
| `CorePipeline.IssueSafe` | ChampSim/src/ooo_cpu.cc:471-482 | issuing ready loads keeps everything |
| `CorePipeline.LsqSafe` | ChampSim/src/ooo_cpu.cc:449-483 | the three parts of the queue step together keep everything |
| `CorePipeline.DispatchSafe` | ChampSim/src/ooo_cpu.cc:315-340 | dispatching while buffer and queues have room keeps everything |
| `CoreRegisters.ScheduleKeeps` | ChampSim/src/ooo_cpu.cc:358-379 | producer lists stay exactly the sorted scheduled uncompleted writers, edges go to younger instructions, counts are exact, and every source with a pending writer is waited for |
| `CoreRegisters.StartKeeps` | ChampSim/src/ooo_cpu.cc:391-393 | starting keeps the dependency invariant |
| `CoreRegisters.CompleteKeeps` | ChampSim/src/ooo_cpu.cc:529-546 | completion removes its producers and edges, lowers each dependent by one, and keeps the dependency invariant |
| `CoreRegisters.CompleteEffect` | ChampSim/src/ooo_cpu.cc:540-546 | exactly the listed dependents have their count lowered, each by one, and stay scheduled; nothing else changes |
| `CoreRegisters.DispatchKeeps` | ChampSim/src/ooo_cpu.cc:335-337 | a new unscheduled instruction keeps the dependency invariant |
| `CoreRegisters.RetireKeeps` | ChampSim/src/ooo_cpu.cc:598-604 | removing the oldest completed instruction keeps the dependency invariant |
| `CoreRegisters.StartedHasInputs` | ChampSim/src/ooo_cpu.cc:381-389 | a started instruction has the youngest older writer of each source completed |
| `CoreRegisters.OldestWaitsForNobody` | ChampSim/src/ooo_cpu.cc:540-546 | with everything older completed, the count of pending producers is zero |
| `CoreMemory.ForwardLessReflexive` | ChampSim/src/ooo_cpu.cc:418-420 | the comparator puts an entry before itself exactly if its address differs, so it is no strict order |
| `CoreMemory.MaxScanPicks` | ChampSim/src/ooo_cpu.cc:417-421 | despite its comparator, the scan finds the youngest store of the address whenever one exists |
| `CoreMemory.ForwardFromYoungest` | ChampSim/src/ooo_cpu.cc:417-421 | forwarding happens exactly if some queued store has the address, and from the youngest one |
| `CoreMemory.DispatchKeeps` | ChampSim/src/ooo_cpu.cc:410-441 | entering all loads and stores of a new instruction keeps conservation, liveness and ownership |
| `CoreMemory.FinishStoreKeeps` | ChampSim/src/ooo_cpu.cc:485-496 | finishing a store and its waiting loads keeps conservation, liveness and ownership |
| `CoreMemory.ReturnSlotKeeps` | ChampSim/src/ooo_cpu.cc:588-593 | returned data finds the load's instruction and keeps the memory invariant |
| `CoreMemory.DrainKeeps` | ChampSim/src/ooo_cpu.cc:467-469 | removing a retired store keeps the memory invariant |
| `CoreMemory.RetiredStoreIssued` | ChampSim/src/ooo_cpu.cc:452-455 | a store older than everything in flight was issued |
| `CoreMemory.RetireKeeps` | ChampSim/src/ooo_cpu.cc:598-604 | retiring a completed instruction keeps the memory invariant |
| `CoreMachine.MaxElement` | ChampSim/src/ooo_cpu.cc:418-420 | the scan loop picks the youngest store of the address whenever one exists |
| `CoreMachine.EraseProducer` | ChampSim/src/ooo_cpu.cc:530-536 | the completing instruction is found in each producer list, and erased once per destination |
| `CoreMachine.ReleaseDependent` | ChampSim/src/ooo_cpu.cc:540-546 | the dependent is in the buffer, its count does not become negative, and zero schedules it |
| `CoreMachine.ReleaseDependents` | ChampSim/src/ooo_cpu.cc:540-546 | releasing every dependent is the specified release |
| `CoreMachine.WaitForSources` | ChampSim/src/ooo_cpu.cc:360-368 | marking sources one by one adds each edge once |
| `CoreMachine.ScheduleRegisters` | ChampSim/src/ooo_cpu.cc:358-377 | marking sources and registering destinations is the specified scheduling |
| `CoreMachine.FinishEntry` | ChampSim/src/ooo_cpu.cc:674-680 | the entry of the instruction is found, and its count stays within its number of operations |
| `CoreMachine.FinishStoreAndWaiters` | ChampSim/src/ooo_cpu.cc:485-496 | each waiting load is allocated, belongs to the store, finishes and is freed |
| `CoreMachine.RetireSpan` | ChampSim/src/ooo_cpu.cc:599-604 | the retired span is the longest completed prefix within the width |
| `CoreMachine.DoMemoryScheduling` | ChampSim/src/ooo_cpu.cc:410-441 | slots are found for all loads; loads and stores enter as specified |
| `CoreMachine.O3Cpu.RetireRob` | ChampSim/src/ooo_cpu.cc:598-604 | refines the retire stage in place |
| `CoreMachine.O3Cpu.CompleteInflightInstruction` | ChampSim/src/ooo_cpu.cc:552-561 | refines the completion stage in place |
| `CoreMachine.O3Cpu.DoCompleteExecution` | ChampSim/src/ooo_cpu.cc:529-546 | refines one completion in place |
| `CoreMachine.O3Cpu.ExecuteInstruction` | ChampSim/src/ooo_cpu.cc:381-389 | refines the execute stage in place |
| `CoreMachine.O3Cpu.StartExecution` | ChampSim/src/ooo_cpu.cc:391-403 | refines one start, with its load and store entries |
| `CoreMachine.O3Cpu.ScheduleInstruction` | ChampSim/src/ooo_cpu.cc:347-356 | refines the schedule stage in place |
| `CoreMachine.O3Cpu.DoScheduling` | ChampSim/src/ooo_cpu.cc:358-379 | refines one scheduling in place |
| `CoreMachine.O3Cpu.HandleMemoryReturn` | ChampSim/src/ooo_cpu.cc:586-595 | refines the data-return stage in place |
| `CoreMachine.O3Cpu.OperateLsq` | ChampSim/src/ooo_cpu.cc:449-483 | refines the queue step in place |
| `CoreMachine.O3Cpu.DoFinishStore` | ChampSim/src/ooo_cpu.cc:485-496 | refines finishing one store in place |
| `CoreMachine.O3Cpu.DrainRetiredStores` | ChampSim/src/ooo_cpu.cc:467-469 | refines the draining of retired stores |
| `CoreMachine.O3Cpu.IssueReadyLoads` | ChampSim/src/ooo_cpu.cc:471-482 | refines the issue of ready loads |
| `CoreMachine.O3Cpu.DispatchInstruction` | ChampSim/src/ooo_cpu.cc:315-340 | refines the dispatch stage in place |
| `CoreMachine.O3Cpu.Operate` | ChampSim/src/ooo_cpu.cc:35-44 | one cycle of the machine is one cycle of the model, and keeps its invariant |
| `CoreStages.MemoryReturnExactly` | ChampSim/src/ooo_cpu.cc:586-595 | with n the smaller of the bandwidth and the number of returned addresses: a slot is freed exactly if it holds an issued load whose block is that of one of the first n addresses, no other slot changes, every instruction gains one finished operation for each of its freed slots, and the first n addresses are gone |
| `CoreStages.ReturnBlockExactly` | ChampSim/src/ooo_cpu.cc:588-593 | the same for one returned address |
| `CoreStages.RetireExactly` | ChampSim/src/ooo_cpu.cc:598-604 | exactly the longest completed prefix within the width moves from the buffer to the retired instructions |
| `CoreStages.CompleteExactly` | ChampSim/src/ooo_cpu.cc:526-561 | exactly the first instructions that execute, are due and have all memory operations finished, up to the width, complete; each other waits for as many producers less as completing instructions list it |
| `CoreStages.ExecuteExactly` | ChampSim/src/ooo_cpu.cc:381-408 | exactly the first scheduled, unstarted, due instructions that wait for nobody, up to the width, start; exactly their queue entries become ready with them |
| `CoreStages.ScheduleExactly` | ChampSim/src/ooo_cpu.cc:347-379 | exactly the unscheduled instructions inside the search window, which counts the unexecuted ones, are scheduled |
| `CoreQueues.FinishReadyExactly` | ChampSim/src/ooo_cpu.cc:457-465 | the stores that finish are the first unissued ones, as long as they are due and within the width; exactly they are issued, and exactly the loads that wait for them finish |
| `CoreQueues.FinishStoresExactly` | ChampSim/src/ooo_cpu.cc:485-496 | finishing a span of stores issues exactly them, frees exactly the slots behind them, and credits each instruction with its own stores and loads |
| `CoreQueues.DrainExactly` | ChampSim/src/ooo_cpu.cc:467-469 | exactly the longest prefix of due stores older than everything in flight leaves, as far as writes are taken |
| `CoreQueues.IssueExactly` | ChampSim/src/ooo_cpu.cc:471-482 | exactly the first loads that wait for no store, are unissued, due and taken, up to the width, are issued |
| `CoreQueues.DispatchExactly` | ChampSim/src/ooo_cpu.cc:315-340 | a prefix of the dispatch buffer enters, in order, and dispatch stops only for its width, an empty buffer, an instruction that is not due, or a lack of room in buffer or queues |
| `CoreQueues.AddLoadsExactly` | ChampSim/src/ooo_cpu.cc:410-437 | loads that forward from an issued store finish at once; every other load gets one free slot, with its address and its producer, and no slot of another load changes |
| `CoreQueues.AddStoresExactly` | ChampSim/src/ooo_cpu.cc:439-441 | stores enter at the back, in order, with their addresses, unissued and with nobody waiting |
| `CacheTheorems.TagsExclusive` | ChampSim/src/cache.cc:339-370 | for a cache that matches offset bits (or takes no writes), on every run and for any victims, bypasses and refusals: no block is valid twice, none is valid and outstanding, miss registers have distinct blocks and stay within their number |
| `CacheTheorems.TwinsExactly` | ChampSim/src/cache.cc:313-329 | some run makes a block valid twice exactly if writes fill without a look at the miss registers and a set has two ways |
| `CacheTheorems.NoWaiterLost` | ChampSim/src/cache.cc:140-145 | on every run, whoever waited or was accepted is answered or still waits for the same block, and nobody is answered more often than asked |
| `CacheTheorems.DrainedAnswersAll` | ChampSim/src/cache.cc:202-206 | from any moment of any run: once nobody waits any more, everybody who waited then, or was accepted since, has been answered since, and nobody else |
| `CacheTheorems.FillExactly` | ChampSim/src/cache.cc:27-145 | a completed fill makes its block present and gives up nothing while a way is free, otherwise at most the chosen way's block |
| `CacheTheorems.ReadyFillFirst` | ChampSim/src/cache.cc:331-337 | a fill that is ready never waits behind one that is not |
| `CacheTheorems.AnswerOrderExactly` | ChampSim/src/cache.cc:472-502 | a data return keeps the order of fills exactly if nothing already returned is due after now plus the fill delay |
| `CacheTheorems.WarmupRestartBreaksOrder` | ChampSim/src/cache.cc:472-502 | were warm-up to restart, a ready fill could be stuck behind an unready one |
| `CacheTheorems.AnswerableExactly` | ChampSim/src/cache.cc:474-485 | a data return finds its entry and an unreturned entry to swap with exactly for blocks still asked for |
| `CacheTheorems.RepliesExact` | ChampSim/src/cache.cc:272-306 | each step asks only for blocks not yet asked for, and open questions are those asked and not returned |
| `CacheTheorems.RepliesAlwaysFindTheirMiss` | ChampSim/src/cache.cc:474-485 | after any run, returns are welcome exactly for blocks asked for and not yet returned |
| `CacheTheorems.SentIsAcceptable` | ChampSim/src/cache.cc:272-290 | a forwarded miss meets what the next level demands and waits there on behalf of this cache alone |
| `CacheLevels.LevelsCompose` | ChampSim/src/cache.cc:472-485 | two levels on every interleaving, with the lower one deciding what it takes and when it answers: each return finds an unreturned miss above, so the sanity check of return_data holds, and the upper level waits below, once each, for exactly the blocks it still misses |
| `CacheLevels.BelowKeeps` | ChampSim/src/cache.cc:140-145 | whatever a step of the lower level answers is welcome above, in any order, and both levels stay in step |
| `CacheLevels.AboveKeeps` | ChampSim/src/cache.cc:272-306 | a forwarded miss enters the lower level exactly when it is allocated above, and both levels stay in step |
| `CacheLevels.ReturnsWelcome` | ChampSim/src/cache.cc:472-502 | returns of different open blocks are all accepted, and close exactly these blocks |
| `CacheTheorems.RunKeeps` | ChampSim/src/cache.cc:339-370 | the cache invariant holds on every run |
| `CacheInvariants.ApplyKeeps` | ChampSim/src/cache.cc:339-370 | every step keeps the cache invariant |
| `CacheInvariants.ApplySettles` | ChampSim/src/cache.cc:140-145 | no step loses a waiter or answers one that was not waiting |
| `CacheInvariants.FillMissExclusive` | ChampSim/src/cache.cc:27-145 | filling a returned miss keeps blocks in one way and outstanding blocks absent |
| `CacheInvariants.PlacePresence` | ChampSim/src/cache.cc:103-112 | writing a way changes the presence of the replaced and the new block only |
| `CacheInvariants.JoinedSame` | ChampSim/src/cache.cc:230-266 | joining an outstanding miss keeps its block, its progress and all waiters, and a demand takes a prefetch over |
| `CacheInvariants.MissKeeps` | ChampSim/src/cache.cc:214-311 | a miss, joined, allocated, passed on or refused, keeps the invariant |
| `CacheInvariants.SwapSequenced` | ChampSim/src/cache.cc:499-502 | the swap keeps the returned prefix in order exactly if the new entry is due no earlier |
| `CacheProofs.MissSettles` | ChampSim/src/cache.cc:230-306 | a handled miss leaves the packet's waiters with the block's outstanding entry |
| `CacheProofs.LookupSettles` | ChampSim/src/cache.cc:343-353 | a finished lookup answers the packet's waiters or keeps them |
| `CacheProofs.MergeSettles` | ChampSim/src/cache_queues.cc:49-64 | merging joins the waiters of one block and invents or forgets none |
| `CacheProofs.MergeWritesServes` | ChampSim/src/cache_queues.cc:80-89 | merging the write queue forgets no address |
| `CacheProofs.CollideReadsSettles` | ChampSim/src/cache_queues.cc:91-117 | each waiter of the read queue is answered from the write queue or keeps waiting for its block |
| `CacheProofs.CollideSettles` | ChampSim/src/cache_queues.cc:76-118 | collision checks over all queues lose no waiter |
| `CacheProofs.OfferSettles` | ChampSim/src/cache_queues.cc:163-189 | an accepted packet adds exactly its waiters |
| `CacheMachine.MergeDuplicates` | ChampSim/src/cache_queues.cc:80-89 | the erasing loop over the write queue is the specified merge |
| `CacheMachine.CollideQueue` | ChampSim/src/cache_queues.cc:91-103 | the erasing loop over a read queue is the specified collision check, with its answers |
| `CacheMachine.DoAddQueue` | ChampSim/src/cache_queues.cc:163-189 | insertion ahead of packets without a cycle, or refusal when full |
| `CacheMachine.Cache.AddRq` | ChampSim/src/cache_queues.cc:191-206 | refines an offer to the read queue in place |
| `CacheMachine.Cache.AddWq` | ChampSim/src/cache_queues.cc:208-222 | refines an offer to the write queue in place |
| `CacheMachine.Cache.AddPq` | ChampSim/src/cache_queues.cc:224-236 | refines an offer to the prefetch queue in place |
| `CacheMachine.Cache.AddPtwq` | ChampSim/src/cache_queues.cc:238-252 | refines an offer to the page-walk queue in place |
| `CacheMachine.Cache.CheckCollisions` | ChampSim/src/cache_queues.cc:76-118 | refines the collision checks in place |
| `CacheCollisions.CollisionsExactly` | ChampSim/src/cache_queues.cc:76-118 | a collision check, packet by packet: a new write joins the first earlier one of its address, at the write grain, exactly if both are translated; a new read or prefetch is answered and gone exactly if it is translated and the first write of its address in the merged write queue is; else it joins the first earlier one of its block exactly if both are translated; all others stay in order and are checked, and nobody else is answered or waits with another |
| `CacheCollisions.CollideFates` | ChampSim/src/cache_queues.cc:91-117 | what becomes of every packet of a read queue |
| `CacheCollisions.MergeFates` | ChampSim/src/cache_queues.cc:80-89 | what becomes of every packet of the write queue |
| `CacheCollisions.AnsweredExactly` | ChampSim/src/cache_queues.cc:91-117 | exactly the waiters of the answered packets are answered |
| `CacheCollisions.AllCheckedAfter` | ChampSim/src/cache_queues.cc:81-103 | everything that is left has been checked |
| `CacheStages.OfferExactly` | ChampSim/src/cache_queues.cc:163-252 | an offer is refused exactly by a full queue; else the packet, marked as translated or not, filling or not, and due after the hit delay, stands ahead of the packets without a cycle, and nothing else changes |
| `CacheMachine.Cache.HandleFillPacket` | ChampSim/src/cache.cc:27-145 | refines a fill in place |
| `CacheMachine.Cache.TryHitPacket` | ChampSim/src/cache.cc:147-212 | refines a tag lookup in place |
| `CacheMachine.Cache.HandleMissPacket` | ChampSim/src/cache.cc:214-311 | refines miss handling in place |
| `CacheMachine.Cache.HandleWritePacket` | ChampSim/src/cache.cc:313-329 | refines the direct write in place |
| `CacheMachine.Cache.OperateMisses` | ChampSim/src/cache.cc:331-337 | scanning first and erasing the prefix afterwards equals taking the misses one by one |
| `CacheMachine.Cache.OperateWrites` | ChampSim/src/cache.cc:331-337 | the same for writes in flight |
| `CacheMachine.Cache.OperateTags` | ChampSim/src/cache.cc:331-337 | the same for each request queue |
| `CacheMachine.Cache.OperateCycle` | ChampSim/src/cache.cc:339-370 | refines one operate in place and keeps the invariant |
| `CacheMachine.Cache.ReturnBlock` | ChampSim/src/cache.cc:472-502 | refines a data return in place |
| `CacheOperate.OperateReaches` | ChampSim/src/cache.cc:339-370 | an operate is a legal run of no more steps than the two bandwidths allow |
| `CacheOperate.OperateKeeps` | ChampSim/src/cache.cc:339-370 | between two operates the invariant holds and no waiter is lost |
| `CacheStages.OperateExactly` | ChampSim/src/cache.cc:331-370 | an operate is six turns, fills on one bandwidth and then lookups on the other, in this order of queues: a packet that is first in its queue's turn, due, and can be handled, is handled while there is bandwidth, and nothing else happens |
| `CacheStages.DrainExactly` | ChampSim/src/cache.cc:331-337 | one queue's turn: packets are handled from the front, each as stated, and it ends exactly without bandwidth, without a due packet, or at one that cannot be handled |
| `CacheStages.LookupExactly` | ChampSim/src/cache.cc:147-329 | a lookup is refused exactly if no way holds the block, it is no direct write, no register waits for it, and no register is left or the lower level refuses; else exactly what is stated of a hit, a direct write, a join, or a new register happens |
| `CacheStages.FillStepExactly` | ChampSim/src/cache.cc:27-145 | a fill waits exactly if every way is taken and the victim's dirty data cannot be written back; else it writes the first free way, or the victim's, or none on a bypass, and no other |
| `CacheStages.WrittenDataKeptExactly` | ChampSim/src/cache.cc:200-209 | a full set with a dirty victim makes a fill wait for the write-back; after a hit on that way it still does exactly if the hit was a write |
| `CacheStages.ReturnExactly` | ChampSim/src/cache.cc:472-502 | a data return moves the register of its block behind the returned ones, due after the fill delay, and the register from there takes its place; no other changes |
| `CacheStages.SetIndexExactly` | ChampSim/src/cache.cc:374-374 | the set of an address is its block number modulo the largest power of two that the number of sets reaches |
| `DramTheorems.BanksAndPacketsPaired` | ChampSim/src/dram_controller.cc:140-155 | on every run from an empty channel, valid bank requests and scheduled packets correspond one to one, each packet decoding to its bank |
| `DramTheorems.CollisionsLeaveDistinctBlocks` | ChampSim/src/dram_controller.cc:185-233 | after collision checks no two requests of a queue are for the same block |
| `DramTheorems.CollisionsSpareScheduled` | ChampSim/src/dram_controller.cc:185-233 | collision checks never clear or change a packet that a bank holds, beyond adding waiters |
| `DramTheorems.GrantExactly` | ChampSim/src/dram_controller.cc:101-127 | a grant goes to an earliest ready request, only on an idle and free bus, never to the request already on it; waiting always adds at least one congested cycle |
| `DramTheorems.ScheduleExactly` | ChampSim/src/dram_controller.cc:130-155 | exactly the first earliest pending packet of the mode is scheduled, if it is due and its bank is free, with the row and delay of a row hit or miss; otherwise nothing is, so a busy bank of that packet holds up all others |
| `DramTheorems.FlipExactly` | ChampSim/src/dram_controller.cc:69-99 | counting the occupied slots: a reading channel changes to writing exactly if at least seven eighths of the write slots are in use, or some write and no read waits; a writing one to reading exactly if no write waits, or some read and fewer writes than six eighths of the slots; then all banks but the one on the bus are freed and the bus is delayed |
| `DramTheorems.ReadsNeverLost` | ChampSim/src/dram_controller.cc:43-67 | on every run each waiter of an accepted read is answered or still in a slot of its block, nobody is answered too often, and no congestion difference is negative |
| `DramTheorems.DrainedAnswersAll` | ChampSim/src/dram_controller.cc:43-67 | from any moment of any run: once no read is left, everybody who waited then, or whose read was accepted since, has been answered since, and nobody else |
| `DramTheorems.WarmupRestartExactly` | ChampSim/src/dram_controller.cc:43-52 | restarting warm-up keeps banks and packets paired exactly if no bank holds a packet |
| `DramTheorems.OperateKeeps` | ChampSim/src/dram_controller.cc:41-157 | one operate keeps the invariant, loses no read and never lowers the congestion count |
| `DramTheorems.DecodeInjective` | ChampSim/src/dram_controller.cc:279-302 | within the capacity, channel, bank, column, rank and row identify the block |
| `DramProofs.CollideKeeps` | ChampSim/src/dram_controller.cc:185-233 | collision checks keep all invariants and check every request |
| `DramProofs.CheckWritesPended` | ChampSim/src/dram_controller.cc:186-197 | dropping duplicate writes leaves a write for every block that had one |
| `DramTheorems.CheckReadsOwes` | ChampSim/src/dram_controller.cc:199-232 | forwarding and merging reads loses no waiter |
| `DramProofs.FinishKeeps` | ChampSim/src/dram_controller.cc:58-67 | completion keeps all invariants and leaves nothing overdue on the bus |
| `DramProofs.ResetBanksKeeps` | ChampSim/src/dram_controller.cc:76-89 | resetting leaves only the request on the bus, untouched |
| `DramModel.ComparatorsReflexive` | ChampSim/src/dram_controller.cc:102-133 | each comparator puts an entry before itself exactly if the entry is out of the race, so neither is a strict order |
| `DramProofs.NextBankEarliest` | ChampSim/src/dram_controller.cc:102-103 | despite its comparator, the scan finds the first earliest valid request whenever there is one |
| `DramProofs.NextEntryEarliest` | ChampSim/src/dram_controller.cc:131-138 | despite its comparator, the scan finds the first earliest pending packet whenever there is one |
| `DramProofs.ScheduleKeeps` | ChampSim/src/dram_controller.cc:130-155 | scheduling keeps all invariants |
| `DramMachine.CollideWrites` | ChampSim/src/dram_controller.cc:186-197 | the in-place loop over the write slots is the specified check |
| `DramMachine.CollideReads` | ChampSim/src/dram_controller.cc:199-232 | the in-place loop over the read slots is the specified check, with its answers |
| `DramMachine.DramChannel.AddRq` | ChampSim/src/dram_controller.cc:235-254 | refines accepting a read in place |
| `DramMachine.DramChannel.AddWq` | ChampSim/src/dram_controller.cc:256-270 | refines accepting a write in place |
| `DramMachine.DramChannel.DrainForWarmup` | ChampSim/src/dram_controller.cc:43-52 | answers every read and empties both queues in place |
| `DramMachine.DramChannel.FinishRequest` | ChampSim/src/dram_controller.cc:58-67 | refines completion in place |
| `DramMachine.DramChannel.FlipMode` | ChampSim/src/dram_controller.cc:69-99 | refines the mode change in place |
| `DramMachine.DramChannel.GrantBus` | ChampSim/src/dram_controller.cc:101-128 | refines the grant in place |
| `DramMachine.DramChannel.ScheduleNext` | ChampSim/src/dram_controller.cc:130-155 | refines scheduling in place |
| `DramMachine.DramChannel.OperateCycle` | ChampSim/src/dram_controller.cc:41-157 | refines one operate of a channel in place and keeps its invariant |
| `DramStages.ModeChangesExactly` | ChampSim/src/dram_controller.cc:69-99 | the mode after the step, exactly: it changes under these conditions and in no other case |
| `DramStages.NothingToWrite` | ChampSim/src/dram_controller.cc:69-75 | with no write waiting, the mode afterwards is reading, except that a write queue of a single slot makes a reading channel change to writing |
| `DramStages.ModeStaysBetween` | ChampSim/src/dram_controller.cc:69-75 | with a read waiting and the writes from six eighths up to, not including, seven eighths, neither mode changes |
| `DramStages.FlipEffect` | ChampSim/src/dram_controller.cc:76-99 | a mode change takes every request back that is not on the bus, exactly once, closes rows exactly as stated, and turns the bus around; without one nothing changes |
| `DramStages.ResetBanksExactly` | ChampSim/src/dram_controller.cc:76-89 | exactly the packets of the banks that are reset become unscheduled, due now |
| `DramStages.FinishExactly` | ChampSim/src/dram_controller.cc:58-67 | the request on the bus completes exactly when its cycle has come, answers exactly its packet's waiters, and frees bank, slot and bus |
| `DramStages.CollisionsExactly` | ChampSim/src/dram_controller.cc:185-233 | a collision check, slot by slot: a new write is dropped exactly if its block has a checked or a later write; then a new read is answered exactly if its block has a write, and else joins a checked or later read of its block, or stays and is checked |
| `DramStages.CheckWritesExactly` | ChampSim/src/dram_controller.cc:186-197 | what becomes of every write |
| `DramStages.CheckReadsExactly` | ChampSim/src/dram_controller.cc:199-232 | what becomes of every read, and who waits in its slot |
| `DramStages.ReadsAnsweredExactly` | ChampSim/src/dram_controller.cc:199-207 | exactly the waiters of the new reads whose block has a write are answered |
| `DramStages.AddExactly` | ChampSim/src/dram_controller.cc:235-270 | a request takes exactly the first empty slot, unchecked and due at once, and is refused exactly if there is none |
| `DramStages.DecodeExactly` | ChampSim/src/dram_controller.cc:279-307 | from the lowest bit upwards a block number consists of channel, bank, column, rank and row, each with as many bits as its number of values provides |
| `LruTable.BeforeReflexive` | ChampSim/inc/msl/lru_table.h:81-91 | the comparator puts a block before itself exactly if the block is invalid, so it is no strict order |
| `LruTable.MinMax` | ChampSim/inc/msl/lru_table.h:110-110 | despite a comparator that puts invalid blocks before each other, the pairwise scan returns an invalid block if there is one, else an earliest, and a match if there is one |
| `LruTable.FillRefines` | ChampSim/inc/msl/lru_table.h:106-116 | whichever way the scan picks, a fill is a fill of the recency list: in place, or evicting exactly the least recently used of a full set |
| `LruTable.HitsExactlyWithinCapacity` | ChampSim/inc/msl/lru_table.h:73-127 | a used element still hits exactly if at no time since have as many distinct other tags of its set as there are ways been used without being invalidated after their last use |
| `LruTable.HitsExactlyWhileFewTouched` | ChampSim/inc/msl/lru_table.h:73-116 | without invalidations: a used element still hits exactly while fewer distinct other tags of its set than ways were used since |
| `LruTable.InvalidateDrops` | ChampSim/inc/msl/lru_table.h:118-127 | an invalidation takes exactly its tag out of the list |
| `LruTable.RecencyApart` | ChampSim/inc/msl/lru_table.h:73-79 | a set holds a tag once |
| `LruTable.ProbeUses` | ChampSim/inc/msl/lru_table.h:94-104 | a probe of a set is a use of its tag if it hits and changes nothing otherwise |
| `LruTable.FillUses` | ChampSim/inc/msl/lru_table.h:106-116 | a fill of a set is a use of the filled tag |
| `LruTable.Table.CheckHit` | ChampSim/inc/msl/lru_table.h:94-104 | a hit returns the data of its tag and moves it to the front; a miss changes nothing; other sets are untouched |
| `LruTable.Table.FillElement` | ChampSim/inc/msl/lru_table.h:106-116 | in place on the block array: the filled recency list, other sets untouched |
| `LruTable.Table.Invalidate` | ChampSim/inc/msl/lru_table.h:118-127 | the block of the tag leaves its set, other sets untouched |
| `VirtualMemory.DataAddresses` | ChampSim/src/vmem.cc:56-64 | on every run the page offset is preserved, and two data accesses share a frame exactly if they share processor and page |
| `VirtualMemory.EntryAddresses` | ChampSim/src/vmem.cc:66-95 | on every run two table entries share a table exactly if they share processor, prefix and level, and each sits at its offset |
| `VirtualMemory.DataAndTablesApart` | ChampSim/src/vmem.cc:56-95 | no data access ever lands in a frame that holds page tables |
| `VirtualMemory.ResultsStable` | ChampSim/src/vmem.cc:56-95 | every address returned on a run is what the final mappings say |
| `VirtualMemory.OverlapExactly` | ChampSim/src/vmem.cc:76-82 | with three frames, page tables can overlap exactly if a table is larger than a page |
| `FrameCount.AllowedExactly` | ChampSim/src/vmem.cc:41-95 | after any run, exactly: a translation needs a frame to be left even for a page that is mapped, while a table entry needs one only where its table is new and no placed frame has room |
| `FrameCount.FramesCounted` | ChampSim/src/vmem.cc:41-82 | on every run the next frame is the reserve plus one page for each mapped page and for each frame of tables |
| `FrameCount.MappedRefusedExactly` | ChampSim/src/vmem.cc:56-57 | translating a page that is mapped can trip the assertion exactly where there is a frame at all, and does so only once all frames are taken |
| `FrameCount.AdmissibleHasFrames` | ChampSim/src/vmem.cc:26-33 | every allocator that passes the assertions of the constructor has a frame |
| `VirtualMemory.RunKeeps` | ChampSim/src/vmem.cc:56-95 | alignment, reserve, order and disjointness of frames and tables hold on every run |
| `VirtualMemory.TranslateKeeps` | ChampSim/src/vmem.cc:56-64 | a translation keeps the invariant |
| `VirtualMemory.WalkKeeps` | ChampSim/src/vmem.cc:66-82 | a table access keeps the invariant when tables fit pages |
| `VirtualMemory.Allocator.VaToPa` | ChampSim/src/vmem.cc:56-64 | refines a translation in place |
| `VirtualMemory.Allocator.GetPtePa` | ChampSim/src/vmem.cc:66-95 | refines a table access in place |
| `PageFaults.PenaltyExactly` | ChampSim/src/vmem.cc:56-95 | on every run an access pays the penalty exactly if no earlier access was to the same page of the same processor, or through the same table entry |
| `PageFaults.EntryBits` | ChampSim/src/vmem.cc:48-86 | on every run an entry lies at eight times its level's address bits within its table; two entries share a table exactly if processor, level and all address bits from this level's lowest upwards agree, which includes the entry's own bits: no table ever holds two used entries |
| `PageFaults.WalkDeterminesPage` | ChampSim/src/vmem.cc:46-50 | within the address range the levels' fields cut the page number without a gap or an overlap: the entries of two whole walks have the same places exactly for addresses of one page |
| `SetAssociative.IndexingCoincides` | ChampSim/inc/custom_util.h:413-414 | masks and shifts agree with remainders and quotients exactly for power-of-two set counts |
| `SetAssociative.InsertStores` | ChampSim/inc/custom_util.h:411-440 | insertion keeps map and ways in agreement and stores exactly this, giving up at most the victim of a full set |
| `SetAssociative.EraseRemoves` | ChampSim/inc/custom_util.h:396-406 | erasure keeps the agreement and removes exactly this tag |
| `SetAssociative.FindFinds` | ChampSim/inc/custom_util.h:442-454 | a lookup finds a way exactly if the tag is stored, with the stored data |
| `SetAssociative.PromotionNeedsPresence` | ChampSim/inc/custom_util.h:536-542 | promoting a key keeps the agreement exactly if the key is stored |
| `SetAssociative.InsertMru` | ChampSim/inc/custom_util.h:521-534 | inserting and promoting is a fill of the set's recency list, evicting the least recently used of a full set |
| `SetAssociative.PromoteMru` | ChampSim/inc/custom_util.h:521-525 | promoting moves the entry to the front of the recency list |
| `SetAssociative.EraseRecency` | ChampSim/inc/custom_util.h:396-406 | erasing takes the entry out of the recency list |
| `SetAssociativeMachine.SelectSrripVictim` | ChampSim/inc/custom_util.h:668-678 | the search ends, ages all ways by the same least amount, and picks the first way that held the largest value; none exceeds the maximum |
| `SetAssociativeMachine.Age` | ChampSim/inc/custom_util.h:689-694 | one saturating step of every way |
| `SetAssociativeMachine.LruCache.FindAndPromote` | ChampSim/inc/custom_util.h:442-454 | returns the entry of the key and moves it to the front of its set |
| `SetAssociativeMachine.LruCache.InsertAndPromote` | ChampSim/inc/custom_util.h:411-440 | returns the replaced entry; contents and recency of the set are as specified, other sets untouched |
| `SetAssociativeMachine.LruCache.EraseKey` | ChampSim/inc/custom_util.h:396-406 | contents and recency of the set lose exactly this key |
| `SetAssociativeMachine.LruCache.Flush` | ChampSim/inc/custom_util.h:456-462 | all sets are empty, and still in agreement |
| `Gaze.AccessRefines` | ChampSim/prefetcher/gaze/gaze.cc:315-363 | every access refines the machine of first-touch lists |
| `Gaze.EvictRefines` | ChampSim/prefetcher/gaze/gaze.cc:365-372 | ending a region refines the machine of first-touch lists |
| `Gaze.ApplyRefines` | ChampSim/prefetcher/gaze/gaze.cc:315-372 | any event from any refining state refines, and keeps the streaming bounds |
| `Gaze.EntryIsFirstTouchOrder` | ChampSim/prefetcher/gaze/gaze.cc:70-102 | on every run, in every accumulate entry trigger and second are set and different, the time stamp counts the set bits, their orders are exactly 1 to the time stamp, and the key is not in the filter table |
| `Gaze.LearnRefines` | ChampSim/prefetcher/gaze/gaze.cc:143-168 | a learned entry has trigger and second set, and is remembered under them; the streaming counter stays within 8 with at most 8 distinct hashed counters |
| `Gaze.RecallsFootprint` | ChampSim/prefetcher/gaze/gaze.cc:170-173 | on every run a recalled pattern is, bit for bit, the last footprint that ended with this trigger and second |
| `Gaze.StreamingFallsExactly` | ChampSim/prefetcher/gaze/gaze.cc:143-168 | the counter falls, by one, exactly if a streaming region not touched in full ends at a count of one or two, and rises exactly for one touched in full below eight; once above two it never falls back |
| `Gaze.CounterSticks` | ChampSim/prefetcher/gaze/gaze.cc:161-166 | a run from the empty tables after which the counter is three, and a streaming region that is not touched in full and yet leaves it there |
| `Gaze.StrideAsksForNewBlocks` | ChampSim/prefetcher/gaze/gaze.cc:320-337 | a stride request never names a block of the region that was touched |
| `GazeRequests.RequestExactly` | ChampSim/prefetcher/gaze/gaze.cc:170-201 | on every run, block by block, what the second offset of a region asks for: from blocks 0 and 1 the first quarter at level one and the rest at level two if the count of fully touched regions is eight or this hashed counter is remembered, the first quarter at level two if the count exceeds two, and else nothing; from any other pair exactly the blocks of the last footprint that ended with it, at level one, unless there is none or it was the pair alone; with the metadata of each, and what the region keeps |
| `GazeRequests.StrideExactly` | ChampSim/prefetcher/gaze/gaze.cc:315-338 | on every run, what any later access of a region asks for: only at a new offset, only if the second offset found nothing or was streamed, only if the stride repeats, and then exactly the untouched blocks three to six strides ahead |
| `GazeRequests.RunFollows` | ChampSim/prefetcher/gaze/gaze.cc:143-168 | on every run the streaming counter, the remembered hashed counters and each region's first program counter are functions of the regions that have ended |
| `GazeRequests.ForgetsRecent` | ChampSim/prefetcher/gaze/gaze.cc:155-160 | the remembered counters are the last eight to enter, not the last eight seen: one that came up two regions ago can be forgotten |
| `GazeMachine.FillStride` | ChampSim/prefetcher/gaze/gaze.cc:325-330 | the loop builds exactly the untouched strides ahead inside the region |
| `GazeMachine.GazePrefetcher.SetPattern` | ChampSim/prefetcher/gaze/gaze.cc:70-89 | refines a first touch in place |
| `GazeMachine.GazePrefetcher.LearnPattern` | ChampSim/prefetcher/gaze/gaze.cc:143-168 | refines learning in place, under the asserted condition |
| `GazeMachine.GazePrefetcher.AccessRegion` | ChampSim/prefetcher/gaze/gaze.cc:315-363 | refines an access in place; the asserted condition always holds |
| `GazeMachine.GazePrefetcher.EvictRegion` | ChampSim/prefetcher/gaze/gaze.cc:365-372 | refines the end of a region in place; the asserted condition always holds |
| `HashedPerceptron.PushWord` | ChampSim/branch/hashed_perceptron/hashed_perceptron.cc:187-199 | shifting with the carry of the word before is one word of the pushed register |
| `HashedPerceptron.ShiftHistory` | ChampSim/branch/hashed_perceptron/hashed_perceptron.cc:187-199 | the carry loop over 20 twelve-bit words is one push on a register of 240 outcomes |
| `HashedPerceptron.IndexDependsOnRecentOutcomes` | ChampSim/branch/hashed_perceptron/hashed_perceptron.cc:130-169 | each index is below the table size and depends only on the address and the last outcomes its table is meant to see |
| `HashedPerceptron.HashHistory` | ChampSim/branch/hashed_perceptron/hashed_perceptron.cc:149-163 | the loop over whole words and one masked word computes this index |
| `HashedPerceptron.Predictor.PredictBranch` | ChampSim/branch/hashed_perceptron/hashed_perceptron.cc:121-176 | the prediction is the sign of the sum of the selected weights, which stays within 2048 |
| `HashedPerceptron.Predictor.Train` | ChampSim/branch/hashed_perceptron/hashed_perceptron.cc:207-223 | every selected weight moves by one towards the outcome unless it is at that end of its eight bits; no other weight moves |
| `HashedPerceptron.Predictor.LastBranchResult` | ChampSim/branch/hashed_perceptron/hashed_perceptron.cc:178-247 | exactly a misprediction or a correct prediction below the threshold trains; with the weights moving as stated, the threshold rises and falls exactly as stated, and after a prediction for this address it is a step of the learning relation |
| `HashedPerceptron.Predictor.AdjustThreshold` | ChampSim/branch/hashed_perceptron/hashed_perceptron.cc:225-245 | the threshold rises on the misprediction that completes eighteen net ones, falls on the weak correct prediction that completes eighteen net ones, and then the count starts over |
| `PerceptronLearning.LearnsTowardsOutcome` | ChampSim/branch/hashed_perceptron/hashed_perceptron.cc:201-223 | the sum of the selected weights rises on a taken branch, and falls on one not taken, by the number of selected weights that are not at that end, exactly on a misprediction or a weak prediction; after a misprediction this number is positive |
| `PerceptronLearning.LearnsConstant` | ChampSim/branch/hashed_perceptron/hashed_perceptron.cc:121-247 | a branch that always goes the same way is learned for good: from any state, once the history has filled up and at most 2049 outcomes more, every prediction is right |
| `PerceptronLearning.ThresholdIsNet` | ChampSim/branch/hashed_perceptron/hashed_perceptron.cc:225-245 | on every run, eighteen times the threshold plus its counter has changed by the mispredictions less the weak correct predictions |
| `IndexBits.PerceptronIndexBits` | ChampSim/branch/hashed_perceptron/hashed_perceptron.cc:130-169 | each bit of a table's index is the parity of that bit of the address and of every twelfth outcome from there on within the table's length |
| `HashIndex.HashInvolution` | ChampSim/src/custom_util.cc:100-107 | the index hash is its own inverse, for every index length |
| `HashIndex.HashWidth` | ChampSim/src/custom_util.cc:100-107 | the hash keeps the width of keys at least as wide as the index |
| `HashIndex.HashLoop` | ChampSim/src/custom_util.cc:100-107 | the loop over shifted tags computes this hash |
| `IndexBits.HashBits` | ChampSim/src/custom_util.cc:100-107 | the hash keeps the bits above the index; each bit of the index becomes the parity of all key bits a multiple of the index length above it |
| `HashIndex.RegionKeysExactly` | ChampSim/prefetcher/gaze/gaze.cc:54-57 | two regions share a table key exactly if their lowest 37 bits agree |
| `HashIndex.RotateBack` | ChampSim/inc/custom_util.h:69-78 | rotating by the negated amount and then by the amount is the identity |
| `HashIndex.RotateLoop` | ChampSim/inc/custom_util.h:69-78 | the loop with truncated remainders computes this rotation |
| `HashIndex.RotatesUp` | ChampSim/inc/custom_util.h:69-78 | a rotation moves every element up by its amount, around the end |
| `Bingo.MinMatchExactly` | ChampSim/prefetcher/bingo/bingo.h:285-296 | two keys fall into one set and match partially exactly if program counter and offset are equal |
| `Bingo.MaxMatchExactly` | ChampSim/prefetcher/bingo/bingo.h:285-296 | two keys fall into one set and match fully exactly if program counter and address are equal |
| `Bingo.LookupExactly` | ChampSim/prefetcher/bingo/bingo.h:224-255 | a lookup returns the stored pattern alone exactly if its key is stored, else all partial matches in order |
| `Bingo.RecallsWhatWasInserted` | ChampSim/prefetcher/bingo/bingo.h:211-218 | what was inserted is recalled for the same program counter and address, bit for bit |
| `Bingo.AnchoredAtTrigger` | ChampSim/prefetcher/bingo/bingo.h:211-218 | a stored footprint begins at its trigger, and each line is stored at its distance from it around the end |
| `Bingo.RecallsUnevicted` | ChampSim/prefetcher/bingo/bingo.h:224-255 | it is still recalled after any insertions that do not replace or evict it |
| `Bingo.FindPatterns` | ChampSim/prefetcher/bingo/bingo.h:224-255 | the loop over the ways is this lookup, and names the first way that matches in full, whose pattern is the one returned |
| `Dspatch.RotateBack` | ChampSim/prefetcher/dspatch/bitmap.cc:47-67 | rotating left undoes rotating right |
| `Dspatch.CompressBack` | ChampSim/prefetcher/dspatch/bitmap.cc:69-102 | compressing undoes decompressing |
| `Dspatch.DecompressCovers` | ChampSim/prefetcher/dspatch/bitmap.cc:69-102 | decompressing what was compressed loses no bit |
| `DspatchMachine.RotateLeftLoop` | ChampSim/prefetcher/dspatch/bitmap.cc:47-56 | the index loops compute this rotation |
| `DspatchMachine.RotateRightLoop` | ChampSim/prefetcher/dspatch/bitmap.cc:58-67 | the index loops compute this rotation |
| `DspatchMachine.CompressLoop` | ChampSim/prefetcher/dspatch/bitmap.cc:69-87 | the nested loops compute this compression |
| `DspatchMachine.DecompressLoop` | ChampSim/prefetcher/dspatch/bitmap.cc:89-102 | the nested loops compute this decompression |
| `DspatchMachine.OrLoop` | ChampSim/prefetcher/dspatch/bitmap.cc:104-112 | the loop computes the union |
| `DspatchMachine.AndLoop` | ChampSim/prefetcher/dspatch/bitmap.cc:114-122 | the loop computes the intersection |
| `Dspatch.TrainedKeeps` | ChampSim/prefetcher/dspatch/dspatch.cc:334-365 | training keeps the accuracy pattern within the coverage pattern, whatever the ratios were |
| `Dspatch.CoversTrainedExactly` | ChampSim/prefetcher/dspatch/dspatch.cc:304-349 | a coverage prediction at the same signature and offset covers the whole trained footprint exactly if the update was an OR or a reset, or the old pattern covered it |
| `Dspatch.InvokeKeeps` | ChampSim/prefetcher/dspatch/dspatch.cc:99-147 | one access keeps every accuracy pattern within its coverage pattern, and buffered pages distinct and bounded |
| `Dspatch.AccuracyWithinCoverage` | ChampSim/prefetcher/dspatch/dspatch.cc:304-365 | on every run, in every table entry, the accuracy pattern stays within the coverage pattern, compressed and decompressed |
| `Dspatch.EvictionCoversExactly` | ChampSim/prefetcher/dspatch/dspatch.cc:99-147 | the page that leaves the buffer trains its entry with exactly the lines touched since it entered, and the coverage pattern then covers them all exactly if the update was an OR or a reset, or it covered them before |
| `Dspatch.PredictsWhatWasTouched` | ChampSim/prefetcher/dspatch/dspatch.cc:99-190 | from touches to predictions on every run: after such an update, and until the entry is trained again, a coverage prediction at the same trigger offset asks for every line that had been touched on the page, its trigger apart |
| `Dspatch.InvokeRecords` | ChampSim/prefetcher/dspatch/dspatch.cc:106-133 | a buffered footprint is exactly what was touched since its page entered |
| `DspatchBits.TrainedExactly` | ChampSim/prefetcher/dspatch/dspatch.cc:291-367 | a training, group by group of lines counted from the trigger: the coverage pattern gains the groups that were seen, or is replaced by them, or stays, and the accuracy pattern becomes the seen groups that are covered now |
| `DspatchBits.CountersExactly` | ChampSim/prefetcher/dspatch/dspatch.cc:291-367 | the three counters after a training: the count of growths rises exactly if some touched line was in no covered group |
| `DspatchBits.PredictedExactly` | ChampSim/prefetcher/dspatch/dspatch.cc:149-190 | a line is asked for exactly if it is not the trigger and its group, counted from the trigger, is in the pattern that the bandwidth and the counters select, which is none where accuracy is poor or throttled |
| `DspatchMachine.Train` | ChampSim/prefetcher/dspatch/dspatch.cc:291-367 | refines the update of an entry |
| `DspatchMachine.DspatchPrefetcher.GeneratePrefetch` | ChampSim/prefetcher/dspatch/dspatch.cc:149-190 | refines the prediction, without the trigger and unless throttled |
| `DspatchMachine.DspatchPrefetcher.InvokePrefetcher` | ChampSim/prefetcher/dspatch/dspatch.cc:99-147 | refines an access in place and keeps its invariant |

## Left out

- Front end of the core: fetching, decoding, branch prediction calls and their delays. Instructions arrive in the
  dispatch buffer with increasing ids, their registers and addresses chosen by the environment.
- Returns of the instruction cache, the deadlock exceptions, the heartbeat, statistics and debug output. They change
  no modelled state, except the congestion count of the DRAM, which is modelled because of its subtractions.
- Unsigned overflow of cycle counters and ids: numbers are unbounded, and the largest cycle is a separate value.
- Translating queues, which overwrite addresses, and the page table walker.
- Calls of a prefetcher during a lookup: the packets it adds enter the prefetch queue as a step of their own.
- Block data, prefetch metadata and prefetch bits of a cache. No claim about written data over a run is made, since a
  hit overwrites the dirty bit by the kind of its access (`CacheStages.WrittenDataKeptExactly`).
- The block array of a cache is modelled set by set, as a sequence of ways per set.
- CoreProgress.OldestRetires: counts from the moment when the memory operations have finished, since the memory side
  is arbitrary and may never answer.
- CacheLevels.LevelsCompose: both levels have the same block size, and write-backs of the upper level arrive below
  as packets without waiters at any time.
- Several DRAM channels: one channel is modelled, since channels share only the clock and the address decides which
  one is used.
- DramTheorems.ReadsNeverLost: counts the waiters of reads; writes are offered without waiters, as caches do.
- LruTable.MinMax: `std::minmax_element` is taken to compare elements in pairs, as the usual library does.
- Gaze and Bingo tables inside the prefetchers: Gaze uses maps with a victim chosen by the replacement policy, which
  is what `SetAssociative.InsertStores` proves a table to be; Bingo's history is one set with an arbitrary victim.
- Bingo's filter and accumulation tables repeat the shape of Gaze's; its vote over partial matches is arithmetic on
  floating-point ratios.
- DSPatch ratios: the outcomes of their comparisons are arbitrary. Its signature hash is an arbitrary function into
  the table.
- The prefetch buffers, which only issue what was predicted until the queue is full.
- Least-frequently-used, bimodal and dynamically indexed table variants, the remaining prefetchers and predictors.

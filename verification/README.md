# Verified models of MacSim's memory-side components

MacSim is a cycle-level simulator of heterogeneous processors. This project models the
parts of it that are state machines over queues, timers and tables, and proves what they
keep over every run:

- **DRAM controller** (`Dram*.dfy`): address split, FCFS and FR-FCFS choice, the bank state
  machine, command and data-bus arbitration, the delay buffer, the two-class send loop, the
  whole controller cycle. `DramModel.Tick` is the cycle as a function of the state and
  `DramCtrl.Controller` is the same cycle carried out in place; the theorems of `DramRun`,
  `DramOutcome`, `DramProgress`, `DramStarvation`, `DramDataBus` and `DramHistory` are about all
  runs of `Tick`.
- **Memory management unit** (`Recency.dfy`, `ReplacementUnit.dfy`, `Mmu*.dfy`): page walks,
  fault buffer, batches, frame allocation, and the linked replacement list with its hash
  index. `ReplacementUnit.Unit` is the linked structure, `Recency` the sequence it stands for,
  and `Mmu.Unit` owns one: the recency list of the model is what that list holds. A setting
  says whether an evicted page's key is erased; both ways are modelled. A run's log
  (`MmuRun.Log`) records from its events which uops entered and left, which pages were used
  and when batches began and pages were prepared; `MmuRecent` and `MmuTiming` are stated over it.
- **Miss handling** (`MshrForest.dfy`, `Mshr.dfy`): allocation, merging, promotion, flushing and the recursive
  completion of merged requests.
- **Cache** (`Cache*.dfy`): look-up, LRU replacement, the static CPU/GPU partition, and the
  fill step with its write-back of dirty victims.
- **Dependence map** (`StoreMap.dfy`): the quadword table of in-flight stores.
- **Clock domains** (`Clock.dfy`): gcd, lcm and the tick schedule.

`Lists.dfy`, `Bits.dfy` and `Arith.dfy` hold the shared list, bit and arithmetic operations.

What comes from outside a component is a parameter that may take any value: the network's
answers, arriving requests, the clock lock, cache ports and queues accepting or refusing,
the TLB entries a replacement displaces.

## Where the code differs from what it is meant to do

Each of these is modelled as the code has it, with the exact condition under which the
intended property holds.

- `ReplacementUnit::getVictim` overwrites the entry's page before it erases the key, so the
  victim's key stays in the hash index. Such a page can never be inserted again
  (`ReplacementUnit.VictimCannotReturn`); a batch step fails exactly when it serves a fault
  on a page with such a key (`MmuRun.BatchStepKeeps`). With the key erased no step ever fails
  and evicted pages return (`MmuRun.FaultsNeverFail`, `MmuOutdated.EvictedPageReturns`).
- A translated uop keeps its frame when its page is evicted, and the frame may be given to
  another page before the uop reaches the data cache (`MmuOutdated.OutdatedFrameIsShared`).
  As written a carried frame is the page's exactly if the page has never been evicted
  (`MmuCarried.RunCarries`); in either mode it goes out of date exactly by an eviction
  (`MmuCarried.OutdatedExactlyByEviction`).
- The FR-FCFS comparator narrows the open row to a signed 32-bit value, so the pick is the best
  of every buffer exactly for the open rows that fit one (`DramPolicy.PicksBestIffNarrow`).
- With partitioned virtual channels a class can wait although none of its requests was refused:
  the first pass stops at a refusal of the other class after it has sent some of this one, and
  the second pass is then left out (`DramSend.ClassWaitsForTheOther`,
  `DramSend.NoClassWaitsForTheOtherIff`).
- XOR bank permutation with the XOR field equal to the bank field maps different addresses to
  one location (`DramAddress.SelfPermutationCollides`).
- Banks left over when the bank count is not a multiple of the channel count never get a
  command (`DramStarvation.LeftoverBankNeverServed`, `DramStarvation.ServedIffWired`).
- A demand that promotes a prefetch held by another core leaves the entry on the wrong core's
  list (`MshrForest.FreeKeepsPartition`, `Mshr.Unit.NewReq`).
- The LRU search starts from `MAX_INT` and settles for way 0 once every line is newer
  (`CacheModel.VictimIsLeastRecent`, `CacheModel.LateVictimIsNotLeastRecent`).
- Invalidating a line does not decrement the partition counters
  (`CachePartition.InvalidationMiscounts`), and the set's constructor does not initialise them:
  the partition theorems start them at zero, and any other start stays wrong by the same amount
  (`CachePartition.CountersStayOff`).
- A dirty victim at base address 0 is taken for "no victim" and is not written back
  (`CacheFill.MissConserves`).
- The search for the youngest store keeps its maximum in 32 bits
  (`StoreMap.ScanFindsYoungest`, `StoreMap.WideNumbersMisleadTheScan`).
- A load is given the youngest store in flight that it overlaps exactly when that store starts
  in the quadword in which the load starts, is on the load's path, and has not been overwritten
  by a later store to the same address (`StoreMap.DepIsRightIffVisible`); there is an input for
  each way to miss one.

## Model

| member | source | states |
|---|---|---|
| `DramAddress.BankInRange` | src/dram_ctrl.cc:826-854 | the bank an address maps to exists, with and without XOR permutation |
| `DramAddress.RowIsNeverTheClosedMarker` | src/dram_ctrl.cc:826-854 | no address has the row id that marks a closed row |
| `DramAddress.LocationBits` | src/dram_ctrl.cc:826-854 | column, bank and row are the named fields of the address, bit by bit, for every controller count; the permutation flips the bank bits set in the XOR field |
| `DramAddress.LocationIsUnique` | src/dram_ctrl.cc:830-835 | bank, row and column determine the address, for a power-of-two controller count, whenever the XOR field is not the bank field itself |
| `DramAddress.LocationAndRemainderAreUnique` | src/dram_ctrl.cc:837-845 | for any other controller count and no permutation, two addresses with one location are equal if and only if the division by the count leaves the same remainder |
| `DramAddress.SelfPermutationCollides` | src/dram_ctrl.cc:838-852 | when the XOR field is the bank field two different addresses have one location: the condition above is exact |
| `DramPolicy.NarrowingIsExact` | src/dram_ctrl.cc:862-867 | the open row survives the narrowing exactly below 2^31 and in the top 2^31 values, which include the closed mark |
| `DramPolicy.BeforeIsPreferred` | src/dram_ctrl.cc:862-878 | the comparator is demand before prefetch, then open row before other rows, then age |
| `DramPolicy.BeforeIsStrictWeakOrder` | src/dram_ctrl.cc:862-878 | the comparator is irreflexive and transitive and its ties are transitive, as list sorting needs |
| `DramPolicy.SortEntriesSorts` | src/dram_ctrl.cc:887-891 | scheduling permutes the buffer and leaves it ordered |
| `DramPolicy.FrFcfsPick` | src/dram_ctrl.cc:887-891 | for every open row that survives the narrowing the entry picked beats every other: no prefetch before a demand, no row miss before a row hit, no younger before an older |
| `DramPolicy.WideRowsMissTheOpenRow` | src/dram_ctrl.cc:862-878 | for every other open row a hit on it loses to any older miss of its class on a row not seen in its place |
| `DramPolicy.PicksBestIffNarrow` | src/dram_ctrl.cc:862-891 | the pick of every buffer is the best of it if and only if the open row is below 2^31 or among the top 2^31 values |
| `DramArbiter.Oldest` | src/dram_ctrl.cc:684-700 | the arbiter's choice is eligible and older than every other eligible bank of the channel, lower index first; none exactly when none is eligible |
| `DramArbiter.CmdEffect` | src/dram_ctrl.cc:684-732 | after all channels have issued, each bank is unchanged except the one its own channel picked, whatever the other channels did |
| `DramArbiter.AcquireAdvances` | src/dram_ctrl.cc:791-811 | an acquisition moves the bus position by exactly the bytes asked for and keeps 0 < available <= width |
| `DramArbiter.DataChannelEffect` | src/dram_ctrl.cc:735-781 | the grant loop ends and grants to each bank of the channel at most once, only where data was pending |
| `DramArbiter.DataChannelBandwidth` | src/dram_ctrl.cc:755-811 | the bytes granted in one cycle are at most what the bus position advanced |
| `DramBank.PoolIsConstant` | src/dram_ctrl.cc:265-330 | free, buffered and current entries of a bank add up to the pool size and no free entry is listed twice |
| `DramBank.CompletionImpliesDataWait` | src/dram_ctrl.cc:434-440 | a request that completes is waiting for its data and its row is open: the assertion cannot fail |
| `DramBank.IssueKeeps` | src/dram_ctrl.cc:699-732 | a command keeps pool, timers and requests consistent |
| `DramBank.GrantKeeps` | src/dram_ctrl.cc:755-781 | a data grant keeps pool, timers and requests consistent |
| `DramBank.CompleteAccounts` | src/dram_ctrl.cc:434-539 | what a bank held before a completion is what it holds after plus what is delivered or retired |
| `DramBank.CompleteKeeps` | src/dram_ctrl.cc:434-539 | a completion returns each entry to the pool once and clears the timers |
| `DramBank.AdvanceKeeps` | src/dram_ctrl.cc:631-662 | the bank's state steps keep the pool and the timers in agreement |
| `DramBank.FlushKeeps` | src/dram_ctrl.cc:300-315 | flushing removes exactly the prefetches and returns their entries |
| `DramBank.EnqueueKeeps` | src/dram_ctrl.cc:317-330 | a buffered request takes one free entry |
| `DramSend.FullPass` | src/dram_ctrl.cc:564-614 | the first pass sends up to the first refusal and knows the classes it has seen |
| `DramSend.ClassPass` | src/dram_ctrl.cc:564-614 | the pass for one class sends a prefix of that class, all of it unless refused |
| `DramSend.SendsPrefixOfEachClass` | src/dram_ctrl.cc:564-614 | for every accept and reject pattern the requests sent of each class are a prefix of that class in buffer order |
| `DramSend.SendsUntilRefused` | src/dram_ctrl.cc:564-614 | exactly what is sent: without partition everything up to the first refusal; with it, if the first pass reached one class only, also the other class up to its own first refusal, the attempts counted on |
| `DramSend.NoClassWaitsForTheOtherIff` | src/dram_ctrl.cc:587-608 | each class is sent whole or was itself refused if and only if everything is sent, the second pass takes place, or nothing of the other class lies behind the refused request |
| `DramSend.ClassWaitsForTheOther` | src/dram_ctrl.cc:587-608 | an output buffer and answers for which a class stays behind although none of it was refused |
| `DramSend.SendsOnce` | src/dram_ctrl.cc:564-614 | no request is sent twice in a call and the rest stays |
| `DramRun.InitialInv` | src/dram_ctrl.cc:152-242 | a new controller satisfies the invariant and holds nothing |
| `DramRun.TickConserves` | src/dram_ctrl.cc:342-368 | every cycle keeps the invariant, and requests taken in equal those kept plus those sent, retired or flushed |
| `DramRun.RunConserves` | src/dram_ctrl.cc:265-330 | the same balance over every run |
| `DramRun.AcceptedExactlyOnce` | src/dram_ctrl.cc:434-614 | in every run each accepted request is in one place or has left exactly once, the total counter is the load of the banks, and every pool is whole |
| `DramService.BankTick` | src/dram_ctrl.cc:342-368 | a controller cycle seen from one bank: command, grant, completion, advance and arrival in this order and nothing else |
| `DramService.AllOkRun` | src/dram_ctrl.cc:631-781 | timers and timestamps stay in agreement with the states over every run |
| `DramOutcome.DoneIsAnswered` | src/dram_ctrl.cc:443-505 | a finished bank completes exactly its current request and, with merging, the buffered ones for the same address; write-backs are retired and all others delivered |
| `DramOutcome.BufferAfterComplete` | src/dram_ctrl.cc:443-460 | what stays buffered is exactly what is for another address, or everything without merging |
| `DramOutcome.FlushedArePrefetches` | src/dram_ctrl.cc:300-315 | a flush drops exactly the buffered prefetches |
| `DramOutcome.TickAnswers` | src/dram_ctrl.cc:342-368 | in a cycle a write-back is retired exactly when it was answered, any other answered request waits to be sent for exactly the additional latency, what waited is sent or waits on, and only prefetches are flushed |
| `DramOutcome.RunAnswers` | src/dram_ctrl.cc:434-614 | over every run what is sent or retired was answered by a completion for its own address, write-backs are retired and others sent, and whatever was answered is retired, sent or on its way out |
| `DramOutcome.ServedFromItsRow` | src/dram_ctrl.cc:265-330 | over every run each request is in the bank of its address, and its data is transferred while the row of its address is open |
| `DramOutcome.InitiallyInPlace` | src/dram_ctrl.cc:152-242 | this holds at the start |
| `DramProgress.BankProgresses` | src/dram_ctrl.cc:631-672 | in every unlocked cycle a finished or idle bank starts the policy's choice of what waits, the first or the one that beats all others, a bank whose command has elapsed asks for the next, and any other goes on |
| `DramProgress.AdvanceProgresses` | src/dram_ctrl.cc:631-662 | the same of the completion and advance of one bank |
| `DramProgress.AcceptedIff` | src/dram_ctrl.cc:265-330 | a request is taken in if and only if its bank has a free entry or a prefetch to give up; prefetches go only for want of a free entry; the new entry comes last with the row of its address and the cycle |
| `DramStarvation.RankDrops` | src/dram_ctrl.cc:684-732 | a waiting bank that gets no command has strictly fewer waiting banks ahead of it in the next cycle |
| `DramStarvation.NoStarvation` | src/dram_ctrl.cc:684-732 | a waiting bank gets its command within as many unlocked cycles as its channel has banks |
| `DramStarvation.LeftoverBankNeverServed` | src/dram_ctrl.cc:684-690 | a bank beyond the last full channel never gets a command |
| `DramStarvation.ServedIffWired` | src/dram_ctrl.cc:684-732 | within that bound a waiting bank is served if and only if it belongs to a channel |
| `DramDataBus.GrantsAhead` | src/dram_ctrl.cc:735-811 | in a cycle in which a bank with pending data is not granted, everything granted is older; something is whenever the bus is free, and it is then busy for at most one transfer |
| `DramDataBus.DataRankDrops` | src/dram_ctrl.cc:735-781 | such a cycle lets nobody new get ahead, and when the bus was free leaves fewer banks ahead |
| `DramDataBus.NoDataStarvation` | src/dram_ctrl.cc:735-811 | in every run a bank with pending data gets the bus before more unlocked cycles pass than the current transfer and those of the older banks take |
| `DramDataBus.WaitBound` | src/dram_ctrl.cc:735-811 | that is at most one transfer and one cycle for each other bank of the channel, and the rest of the current transfer |
| `DramDataBus.GrantTimes` | src/dram_ctrl.cc:755-811 | a granted bank's data is ready exactly when the bus, from where it stood, has carried the transfers granted up to and including its own |
| `DramHistory.ServiceRun` | src/dram_ctrl.cc:631-781 | throughout its service a request's remaining commands and latency account for the commands issued and the cycles passed |
| `DramHistory.ServiceTakesItsCommands` | src/dram_ctrl.cc:699-781 | a served request takes exactly the commands its row state asked for, at most three, and no fewer cycles than their latencies add up to |
| `DramHistory.FcfsServesInArrivalOrder` | src/dram_ctrl.cc:665-672 | without FR-FCFS a bank serves in arrival order in every run, merges and flushes included |
| `DramHistory.NothingDueStays` | src/dram_ctrl.cc:541-558 | on a sorted delay buffer no due request is left behind |
| `DramHistory.DelayRun` | src/dram_ctrl.cc:463-470 | the delay buffer stays sorted by ready cycle over every run |
| `DramHistory.BandwidthNeverExceeded` | src/dram_ctrl.cc:755-811 | over every run the bytes granted on a channel are at most the advance of its bus position |
| `DramCtrl.SendOnce` | src/dram_ctrl.cc:572-600 | the loop over the output buffer is the pass function |
| `DramCtrl.Controller.Send` | src/dram_ctrl.cc:564-614 | both passes in place: what is sent is what the exact law above says, and the rest stays in order |
| `DramCtrl.Controller.DelayPacket` | src/dram_ctrl.cc:541-558 | moves the due prefix of the delay buffer |
| `DramCtrl.Controller.FindOldest` | src/dram_ctrl.cc:684-700 | the scan with its ULLONG_MAX start is the oldest eligible bank |
| `DramCtrl.Controller.ScheduleCommands` | src/dram_ctrl.cc:684-732 | the in-place channel loop is the command phase |
| `DramCtrl.Controller.IssueAt` | src/dram_ctrl.cc:699-732 | issues precharge, activate or column access according to the open row |
| `DramCtrl.Controller.AcquireBus` | src/dram_ctrl.cc:791-811 | updates one bus as the accounting says and gives the ready cycle |
| `DramCtrl.Controller.TransferChannel` | src/dram_ctrl.cc:735-781 | the while loop over pending transfers of a channel |
| `DramCtrl.Controller.CompleteBank` | src/dram_ctrl.cc:434-539 | completes one bank as the model does: the requests answered, delivery, write-backs, entry release, counter |
| `DramCtrl.Controller.ScheduleComplete` | src/dram_ctrl.cc:434-539 | the loop over the banks is the completion phase |
| `DramCtrl.Controller.ScheduleNew` | src/dram_ctrl.cc:631-662 | the loop over the banks is the advance phase |
| `DramCtrl.Controller.SchedulePolicy` | src/dram_ctrl.cc:665-672 | the queue order of the policy in use |
| `DramCtrl.Controller.FlushPrefetch` | src/dram_ctrl.cc:300-315 | drops the prefetches of one bank and adjusts the counter |
| `DramCtrl.Controller.InsertNewReq` | src/dram_ctrl.cc:265-298 | accepts, flushes or refuses as the model does |
| `DramCtrl.Controller.RunACycle` | src/dram_ctrl.cc:342-368 | the in-place cycle is exactly a tick of the model and keeps every invariant |
| `Recency.OrderedByLastUse` | src/mmu.cc:75-124 | every run of updates, insertions and evictions leaves the list ordered by last insertion or update |
| `Recency.VictimIsLeastRecent` | src/mmu.cc:109-124 | the page given up next is the least recently inserted or updated one |
| `ReplacementUnit.Unit.constructor` | src/mmu.h:160-176 | an empty, well-linked list with all entries free |
| `ReplacementUnit.Unit.Detach` | src/mmu.h:138-141 | unlinking one node keeps the list well linked and acyclic and removes just that node |
| `ReplacementUnit.Unit.Attach` | src/mmu.h:143-148 | linking a node after the head keeps the list well linked and acyclic |
| `ReplacementUnit.Unit.LastIsLeastRecentlyUsed` | src/mmu.cc:109-124 | the linked list always stands for the list its operations so far produce, so its last page is the least recently used one |
| `ReplacementUnit.Unit.Update` | src/mmu.cc:75-81 | the listed page moves to the front, the others keep their order |
| `ReplacementUnit.Unit.Insert` | src/mmu.cc:83-107 | succeeds exactly for a page that is neither listed nor left behind as a key, and puts it in front, dropping the last page if no entry is free |
| `ReplacementUnit.Unit.GetVictim` | src/mmu.cc:109-124 | gives up the page whose last use is the longest ago; its key stays in the index as written, and is erased as intended |
| `ReplacementUnit.VictimCannotReturn` | src/mmu.cc:109-124 | a page that was inserted and evicted is refused when it comes again |
| `ReplacementUnit.ErasedVictimReturns` | src/mmu.cc:95-106 | with the key erased, as the replacing branch of insert does it, the page is taken again |
| `MmuMemory.InitialMemory` | src/mmu.cc:126-164 | the initial page table, frames and list satisfy the invariant |
| `MmuMemory.EvictFrames` | src/mmu.cc:576-598 | an eviction keeps page table and non-free frames in bijection and the free counter exact |
| `MmuMemory.EvictList` | src/mmu.cc:576-598 | an eviction keeps the listed pages equal to the mapped pages |
| `MmuMemory.SearchFindsFree` | src/mmu.cc:485-502 | the circular search ends on a free frame whenever one remains |
| `MmuMemory.MapList` | src/mmu.cc:508-527 | mapping a page puts it in front without dropping any listed page |
| `MmuMemory.MapKeeps` | src/mmu.cc:508-527 | mapping a page keeps the bijection, the counter and the list |
| `MmuMemory.TranslationIsInjective` | src/mmu.cc:335-358 | two mapped addresses with one physical address are the same address |
| `MmuQueues.ReleaseCounts` | src/mmu.cc:529-564 | releasing a served page's uops moves each to the retry queue, none lost or duplicated |
| `MmuQueues.BeginBatchCounts` | src/mmu.cc:622-643 | starting a batch overwrites no waiting uop |
| `MmuRun.InitialInv` | src/mmu.cc:126-164 | the unit starts in the invariant with no uop waiting |
| `MmuRun.TranslateKeeps` | src/mmu.cc:170-224 | a translation keeps the invariant |
| `MmuRun.TranslateCounts` | src/mmu.cc:170-224 | a miss puts the uop into exactly one collection, a hit into none |
| `MmuRun.CycleConserves` | src/mmu.cc:226-333 | a cycle keeps the invariant, and each uop stays in one collection or leaves to the data cache once |
| `MmuRun.CycleLeavesNoneDue` | src/mmu.cc:226-333 | the walk queue stays sorted and no due walk is left |
| `MmuRun.PrepareKeeps` | src/mmu.cc:567-600 | before a page is served a frame is free or one can be evicted |
| `MmuRun.BatchStepKeeps` | src/mmu.cc:443-614 | a batch step keeps the invariant and fails exactly in swap mode, keys not erased, on a page whose key an eviction left behind |
| `MmuRun.BatchStepCounts` | src/mmu.cc:443-614 | a batch step loses and duplicates no uop |
| `MmuRun.FaultsConserve` | src/mmu.cc:418-431 | fault handling, with a batch ending and the next beginning, keeps the invariant and every uop |
| `MmuRun.RunConserves` | src/mmu.cc:170-643 | over every run each translating uop is in exactly one collection until it leaves |
| `MmuRun.FaultsNeverFail` | src/mmu.cc:418-614 | with keys erased, or without swapping, every reachable state handles its page faults, so the run theorems cover every run |
| `MmuWalks.EachRetried` | src/mmu.cc:226-299 | every uop of the retry queue is retried: on a hit it carries its frame and stays only if the data cache refuses it, otherwise it waits for a walk of its page |
| `MmuWalks.EachWalked` | src/mmu.cc:301-416 | every uop whose walk is due and, with the fault buffer drained, every uop that found it full is walked: released with the frame of the page table, or put in the fault buffer, or back in line only if that is full without its page; the first in line never |
| `MmuWalks.CycleBounded` | src/mmu.cc:372-392 | without exemptions a cycle takes the fault buffer not beyond its size |
| `MmuWalks.CycleCaches` | src/mmu.cc:351-354 | a page a walk finds mapped, or that was in the TLB, is in the TLB after the cycle unless a walk displaces it |
| `MmuRecent.WalkLeads` | src/mmu.cc:356-358 | a walk that finds its page mapped makes it the most recent one, and the other mapped pages keep their order |
| `MmuRecent.CycleRanks` | src/mmu.cc:301-358 | over a cycle the list stays in the order of last use, the uses being the pages that walks find mapped, in order |
| `MmuRecent.RunEvictsLeastRecentlyUsed` | src/mmu.cc:455-458 | in every run, when a page leaves the page table every other page mapped then was used later, by a walk that found it mapped or by its own fault, and stays; and its frame is the only free one. The uses are recorded from the run's events, not from the list |
| `MmuTiming.LeavesIff` | src/mmu.cc:226-299 | exactly those uops leave that are retried, hit and are taken by the data cache |
| `MmuTiming.WalkLatency` | src/mmu.cc:190-224 | a miss waits for the walk of its page, due one walk latency after the first miss on it |
| `MmuTiming.WalksExactly` | src/mmu.cc:301-330 | a cycle walks exactly the uops whose walks are due and, with the fault buffer drained, those that found it full |
| `MmuTiming.ServedExactlyOnTime` | src/mmu.cc:443-614 | in every run the first page of a batch is prepared exactly when the overhead has passed, a page is served exactly when the fault latency, plus the eviction latency if a page was given up for it, has passed since, and no fault waits while no batch is under way |
| `MmuTiming.ServingReleases` | src/mmu.cc:508-564 | serving a page releases every uop that waits for it and leaves the page mapped, unless its frame is the only one |
| `MmuTiming.FaultBufferBounded` | src/mmu.cc:372-392 | in every run without exemptions the fault buffer stays within its size |
| `MmuRun.ReachableTranslationIsInjective` | src/mmu.cc:335-341 | in every reachable state different mapped virtual addresses have different physical addresses in the page table |
| `MmuCarried.RunCarries` | src/mmu.cc:170-188 | over every run as written, the frame a translated uop carries is its page's frame if and only if the page has never been evicted |
| `MmuCarried.AlwaysCurrentWithoutSwapping` | src/mmu.cc:170-188 | without swapping every translated uop carries its page's frame in every reachable state |
| `MmuCarried.CarriedFramesAreDistinct` | src/mmu.cc:180-186 | uops with different virtual addresses and current frames go to the data cache with different physical addresses |
| `MmuCarried.OutdatedExactlyByEviction` | src/mmu.cc:576-598 | in every event a new translation is current, and a current carried frame goes out of date if and only if its page is evicted |
| `MmuOutdated.OutdatedFrameIsShared` | src/mmu.cc:170-171 | a run after which two uops on different pages wait for the data cache with the same physical address |
| `MmuOutdated.EvictedPageReturns` | src/mmu.cc:443-614 | with keys erased, a run after which a page that a uop was translated with is not mapped, and that goes on to map it again |
| `Mmu.Unit.Translate` | src/mmu.cc:170-224 | the in-place translation is the model's |
| `Mmu.Unit.DoPageTableWalk` | src/mmu.cc:335-416 | the in-place walk, with the linked list updated for the walked page, is the walk of the laws above |
| `Mmu.Unit.RunACycle` | src/mmu.cc:226-333 | the in-place cycle with its three loops is the model's and keeps the invariant |
| `Mmu.CircularSearch` | src/mmu.cc:485-502 | the wrapping loop ends on the first free frame from the start on |
| `Mmu.Unit.EvictVictim` | src/mmu.cc:576-598 | unmaps the mapped page whose last use is the longest ago and frees its frame for the next page; table, frames, counter and list stay consistent |
| `Mmu.Unit.MapFault` | src/mmu.cc:487-527 | maps the page to a free frame; the replacement unit then has a free entry, so its insertion drops no page, and it succeeds exactly if it does not hold the key |
| `Mmu.Unit.ReleaseUops` | src/mmu.cc:529-564 | the two loops move the waiting uops to the retry queue; every uop stays in as many collections as before |
| `Mmu.Unit.DoBatchProcessing` | src/mmu.cc:443-614 | the in-place batch step is the model's, and keeps the invariant whenever it goes through |
| `Mmu.Unit.BeginBatchProcessing` | src/mmu.cc:622-643 | the batch takes the faults over in page order |
| `Mmu.Unit.HandlePageFaults` | src/mmu.cc:418-431 | the in-place handling is the model's, and never fails with keys erased or without swapping |
| `Mmu.SortFaults` | src/mmu.cc:622-643 | the processing list is the fault set in ascending page order, each once |
| `MshrForest.FreeKeepsPartition` | src/memory.cc:1983-2004 | freeing keeps live and free lists a partition if and only if it is done for the core whose list the entry is on |
| `MshrForest.AllocateKeepsPartition` | src/memory.cc:1875-1883 | allocation moves one entry from the free to the live list of its core |
| `MshrForest.UnderIsYounger` | src/memory.cc:1899-1935 | a request waiting below another was issued later, so completion by recursion ends |
| `MshrForest.UnderIsCovered` | src/memory.cc:1886-1896 | the bytes of a merged request are among those of every request above it |
| `MshrForest.FirstMatch` | src/memory.cc:1886-1896 | the search gives a live request covering the range, and none only if no core has one |
| `MshrForest.ForestAdd` | src/memory.cc:1849-1866 | merging a new request keeps the forest |
| `MshrForest.AcceptedByChildren` | src/memory.cc:117-140 | a tree is accepted whole exactly when its root and the trees of its merged requests are |
| `Mshr.Unit.constructor` | src/memory.cc:1598-1608 | the given number of free entries on the list of each core |
| `Mshr.Unit.FillMerged` | src/memory.cc:117-126 | tries every merged request and collects exactly those whose trees are accepted |
| `Mshr.Unit.ReleaseAll` | src/memory.cc:128-132 | frees the completed ones, whose own merge lists are empty, and removes them from the merge list |
| `Mshr.Unit.FillLine` | src/memory.cc:117-140 | succeeds exactly when no request of the tree is refused; below it, exactly the requests with accepted trees are gone; nothing outside the tree changes |
| `Mshr.Unit.Complete` | src/memory.cc:1317-1332 | a request completes, once, and is freed exactly when it and all below it are accepted; the rest stays for the next try |
| `Mshr.Unit.FlushPrefetch` | src/memory.cc:2168-2183 | drops exactly the queued prefetches of the core and no demand; an entry is free afterwards if and only if one was or one was dropped |
| `Mshr.Unit.Search` | src/memory.cc:1744-1747 | the loop over cores and lists gives the first match |
| `Mshr.Unit.Place` | src/memory.cc:1838-1883 | a new entry with the next id, merged below the match if there is one |
| `Mshr.Unit.Promote` | src/memory.cc:1938-1970 | a prefetch becomes the demand; the lists stay consistent if and only if the demand is of the same core |
| `Mshr.Unit.MakeRoom` | src/memory.cc:1789-1828 | there is room exactly for a demand with a free entry or a prefetch to drop, and for a prefetch only with an entry free once a full queue has been flushed and is full no more; demands survive, and nothing is dropped without need |
| `Mshr.Unit.NewReq` | src/memory.cc:1728-1872 | a request gets an entry if and only if it promotes a prefetch or there is room for it, prefetches only if not stopped or redundant; a demand is refused exactly if it gets none; the entry is its own or the promoted one, below the right request; the unit stays valid unless the promotion crosses cores |
| `Mshr.Unit.EachRequestOnce` | src/memory.cc:117-140 | every issued request is live in one entry or has completed or was flushed, exactly one of these and once |
| `CacheModel.TagAndSetNameTheLine` | src/cache.cc:156-160 | set and tag agree exactly when the line bases agree |
| `CacheModel.AddressBits` | src/cache.cc:156-160 | the set is the address field right above the line offset, the tag what lies above it, in place, and the base the address without offset, bit by bit |
| `CacheModel.NeighboursLieInDifferentSets` | src/cache.cc:156-160 | consecutive lines, as many as there are sets, lie in different sets |
| `CacheModel.TagAndSetNameTheLineOfATile` | src/cache.cc:161-180 | the same for the addresses of one of several tiles, after the tile bits are divided out |
| `CacheModel.LocalAddressBits` | src/cache.cc:161-180 | bit by bit, the address within a tile keeps the bits below the tile number and has the quotient above |
| `CacheModel.TileShiftIsDivision` | src/cache.cc:163-175 | the shift used for a power-of-two number of tiles is that division |
| `CacheModel.FreeWayFirst` | src/cache.cc:259-265 | a valid line is replaced only when no way is free |
| `CacheModel.VictimIsLeastRecent` | src/cache.cc:256-275 | a full set gives up a least recently used line if and only if way 0 is one or some line is older than MAX_INT |
| `CacheModel.LateVictimIsNotLeastRecent` | src/cache.cc:258-272 | two lines after MAX_INT of which the newer goes |
| `CacheRecency.StackIsByLastRef` | src/cache.cc:187-233 | the reference stack lists exactly the lines referenced, by decreasing last reference |
| `CacheRecency.VictimIsLast` | src/cache.cc:256-275 | the victim of a full set is the line referenced longest ago among those held |
| `CacheRecency.SetsMirrorStacks` | src/cache.cc:187-392 | after every run of references each set holds exactly the most recently referenced lines mapping to it, as many as it has ways, none twice |
| `CacheRecency.HitsWhenRecent` | src/cache.cc:187-226 | an address hits if and only if its line was referenced and fewer other lines of its set than ways have been referenced since |
| `CacheRecency.MoreWaysHitMore` | src/cache.cc:187-392 | on the same references a cache with more ways hits whenever one with fewer does |
| `CacheUnit.Cache.Access` | src/cache.cc:187-226 | finds the first way holding the line; a hit renews its time only if asked to |
| `CacheUnit.Cache.FindReplacement` | src/cache.cc:256-275 | the scan with early exit is the replacement way |
| `CacheUnit.Cache.FindSameType` | src/cache.cc:278-320 | the scan with early exit is the way of the same type, none where it gives up |
| `CacheUnit.Cache.Insert` | src/cache.cc:351-403 | the line, the counters of both types, and the base of the line replaced |
| `CacheUnit.Cache.Reference` | src/cache.cc:187-392 | access and insertion on a miss are one reference of the LRU run theorem, or one step of the partition's, stuck exactly where its search gives up |
| `CacheUnit.Cache.Invalidate` | src/cache.cc:419-440 | clears the line found and nothing else |
| `CachePartition.StuckOnlyWithoutQuota` | src/cache.cc:278-320 | within quotas the search gives up if and only if the type's quota is 0 |
| `CachePartition.VictimIsOfSameType` | src/cache.cc:278-320 | what is replaced is a free way while the type has room, else the least recently used line of the same type |
| `CachePartition.RunKeepsPartition` | src/cache.cc:278-403 | with 0 < CPU quota < ways and counters starting at zero every run keeps both types within quota and both counters exact, and never gives up |
| `CachePartition.CountersStayOff` | src/cache.cc:58-61 | whatever the counters start with, every run keeps their error: they are exact if and only if both started at zero |
| `CachePartition.InvalidationMiscounts` | src/cache.cc:406-440 | an invalidation keeps the counters exact if and only if it finds nothing |
| `CachePass.StoredIsPresent` | src/memory.cc:1105-1182 | after a fill the line is present, dirty if and only if the data is or the line was; no other line changes, and the line replaced is written back if dirty and not at base 0 |
| `CachePass.WhoGoes` | src/memory.cc:1063-1336 | of the requests tried exactly those are filled that are new, ready and find their line or get a port and a way, and exactly those leave that are ready, can be passed on and are filled; the others stay, marked if filled |
| `CacheFill.HitConserves` | src/memory.cc:1180-1182 | a fill that hits adds its line to the dirty data exactly when it comes dirty and was not dirty |
| `CacheFill.MissConserves` | src/memory.cc:1126-1179 | a fill that misses keeps all dirty data, in cache or write-back queue, if and only if the victim is not a dirty line at base 0 |
| `CacheFill.Level.StoreLine` | src/memory.cc:1105-1182 | the exact new sets and write-back queue, stuck with nothing changed exactly if no way is found; dirty lines plus queued write-backs after equal those before plus the incoming one, under exactly that condition; with the queue not full the push cannot fail |
| `CacheFill.Level.Done` | src/memory.cc:1397-1484 | succeeds if and only if the write-back queue is not full, the port is free and a way is found, with the exact new state, and else changes nothing; conserves the dirty data under the same exact condition |
| `CacheFill.Level.FillOne` | src/memory.cc:1087-1270 | one try as a pass over values has it: fills a new request once, on a hit or with a port, and passes it on when it can; the dirty data changes by what it brings, less an overlooked victim |
| `CacheFill.Level.ProcessFill` | src/memory.cc:1059-1336 | the first n requests are tried in order, each with the exact effect on cache and write-back queue, n short of the queue only because four have left, the write-back queue is full or the partition is stuck; the queue after is what stays of those and then the rest; dirty data after is that before plus what each fill brought, less the overlooked victims at base 0, of which there are none without a line there |
| `StoreMap.OverlapIsSharing` | src/map.cc:71-72 | non-empty ranges overlap exactly when they share a byte |
| `StoreMap.KeyNamesTheQuadword` | src/map.cc:62 | key and first byte name address and path, no more and no less |
| `StoreMap.CurrentIsLatestUnretired` | src/map.cc:334-391 | a byte's store is the latest one fetched for it that has not retired since |
| `StoreMap.UpdatedAgrees` | src/map.cc:334-391 | fetching a store keeps table and list of stores in agreement, whatever was there |
| `StoreMap.DeletedAgrees` | src/map.cc:480-511 | retiring a store keeps the agreement, also when a later store took its byte, and no empty entry stays |
| `StoreMap.Map.UpdateStore` | src/map.cc:334-391 | the in-place update follows the list of events |
| `StoreMap.Map.DeleteStore` | src/map.cc:480-511 | the in-place removal follows the list of events |
| `StoreMap.Map.AddSource` | src/map.cc:176-214 | a store becomes a source unless one with its number is one already |
| `StoreMap.Map.AddStoreDeps` | src/map.cc:394-477 | gives the store of the fast path or the scan; with out-of-order stores exactly the stores feeding the load become sources |
| `StoreMap.ScanFindsYoungest` | src/map.cc:431-463 | the scan chooses the youngest store if and only if its number is not 0 and no later slot exceeds its low 32 bits |
| `StoreMap.WideNumbersMisleadTheScan` | src/map.cc:431-463 | two stores above 2^32 of which the scan takes the older |
| `StoreMap.FastPathIsScan` | src/map.cc:413-428 | the short cut for a single store is what the scan gives, if and only if neither access is empty |
| `StoreMap.DepIsYoungestTabled` | src/map.cc:394-477 | the store found is the youngest overlapping one in the load's table entry, and none is found exactly when there is none |
| `StoreMap.TabledIsVisible` | src/map.cc:334-409 | the table holds for a load exactly the stores in flight that start in its quadword, are on its path and are the latest to their address |
| `StoreMap.YoungestIsFoundIffVisible` | src/map.cc:394-477 | the youngest overlapping store in flight is found if and only if it is one of those |
| `StoreMap.DepIsRightIffVisible` | src/map.cc:394-477 | over every history of fetched and retired stores the answer, a store or none, is right if and only if the youngest store the load overlaps, if any, is one of those |
| `StoreMap.NothingFoundIff` | src/map.cc:403-409 | none is found if and only if no overlapping store in flight is one of those |
| `StoreMap.SpillingStoreIsNotFound` | src/map.cc:403-409 | a store reaching into the load's quadword from the one before is missed |
| `StoreMap.SpillingLoadFindsNothing` | src/map.cc:403-409 | a load reaching into the store's quadword from the one before misses it |
| `StoreMap.OffPathLoadFindsNothing` | src/map.cc:62 | a load off the path misses a store on it at the same address |
| `StoreMap.HiddenStoreIsNotFound` | src/map.cc:384 | a store is missed when a later, shorter one to its address has taken its slot |
| `Clock.GcdIsGreatest` | src/macsim.h:369-377 | Euclid's result divides both numbers and every common divisor divides it |
| `Clock.Gcd` | src/macsim.h:369-377 | the do-while loop is Euclid's algorithm |
| `Clock.LcmIsLeast` | src/macsim.h:380-385 | both numbers divide the result and it divides every common multiple |
| `Clock.Lcm` | src/macsim.h:380-385 | the three assignments compute it |
| `Clock.FoldIsLeast` | src/macsim.cc:888-891 | the folded value is the least common multiple of all frequencies |
| `Clock.RunInvariant` | src/macsim.cc:952-1006 | after any number of cycles, whole periods and the part of the current one account for the clock and the ticks |
| `Clock.EvenlySpaced` | src/macsim.cc:902-905 | a domain ticks exactly at the multiples of lcm/frequency, across period resets |
| `Clock.TicksPerPeriod` | src/macsim.cc:1076-1082 | in every lcm consecutive cycles, wherever they begin, a domain ticks exactly its frequency |
| `Clock.Domains.constructor` | src/macsim.cc:882-891 | the loop folds the lcm of all frequencies and the schedule starts at 0 |
| `Clock.Domains.TickCores` | src/macsim.cc:990-1006 | starting from any pivot each core has its turn exactly once |
| `Clock.Domains.StepClock` | src/macsim.cc:1076-1082 | the internal clock steps and everything is reset at the end of a period |
| `Clock.Domains.RunACycle` | src/macsim.cc:952-1082 | the in-place cycle is exactly a step of the schedule, and exactly the domains due tick |

## Left out

- DRAM: memory encryption, the abort after 5000 cycles without progress, and counters reaching 2^64 - 1; runs end before that cycle.
- DramAddress.LocationAndRemainderAreUnique: without XOR permutation; with it and a controller count that is not a power of two uniqueness is not stated.
- DramDataBus.NoDataStarvation: the bound is in terms of the sizes of the transfers ahead.
- MMU: the bookkeeping of parent uops is a parameter (whether a uop may exceed the fault buffer), TLB replacement is a parameter (which entries an insertion displaces), the map from cycles to walks is one list in order of insertion, and in swap mode every page carries the process id that `get_pid` gives there.
- Mshr.Unit.Complete: instruction fetches and the separate store path of PTX compute capability 2.0 are not modelled, nor are request fields that play no part in matching and completion; ids are unbounded.
- Queues of the cache levels: an insertion that fails both stores the request for a retry and reports failure to a caller that keeps it, so no single-location claim is made.
- CacheUnit.Cache.Access: one tile; for several the address within the tile is to be passed.
- Cache: pseudo-LRU, prefetch and skip bits, the cache-wide line totals, and the page invalidation loops.
- CacheFill.Level.ProcessFill: passing a request on is one accept or reject answer, whatever the next queue is.
- StoreMap.DepIsRightIffVisible: stated for non-empty accesses and distinct numbers between 1 and 2^32 - 1; the register map is not modelled.
- Clock.Domains.RunACycle: frequencies are positive integers, the quotient is exact (the source divides in double precision), and the lcm is unbounded; dynamic frequency changes are not modelled.
- External DRAM back ends, the on-chip network, trace reading, the core pipelines, coherence, statistics and knobs.

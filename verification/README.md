# A memory allocator and a task scheduler, modelled and verified

This project models two programs of the repository and proves what they keep, call by call and over
whole runs.

**The allocator** (`hw4-simple-memory-allocator/lib`) serves small requests from a region of 64 KiB. Free
chunks of 2^(i+5) bytes are listed in `bin[i]`, for i from 0 to 10, by ascending address; live chunks are
listed in `allocated_heap`. A request that finds its bin empty splits the lowest larger chunk down; a free
puts the chunk back and merges touching chunks of equal size, bin by bin upwards. Requests above 32 KiB get a
mapping of their own, listed in `mmap_alloc_list` by ascending size.

**The scheduler** (`hw3-scheduling-simulation`) keeps tasks in a linked queue and dispatches the first ready
'H' task, else the first ready 'L' task; the timer tick, `hw_suspend` and completion send the current task
back to the rear.

Each program is modelled twice. A class has the source's variables and edits them in place: the allocator its
list heads and the headers in memory, the scheduler its linked nodes. A specification says what each call
does to an abstract state, and every method's postcondition equates the new abstract state with the
specification's. The laws are then proved of the specification, for every state its runs can reach.

| file | holds |
|---|---|
| `Options.dfy` | the option type |
| `Sizes.dfy` | chunk sizes, the size-to-bin lookup, the 31-bit size field |
| `HeapRegion.dfy` | the region as a map of chunks: tiling, bins, splitting, merging |
| `HeapLaws.dfy` | what allocation and release mean for bytes, pairs and each other |
| `HeapState.dfy` | the allocator's whole state, one call at a time, and its invariant |
| `HeapRuns.dfy` | what holds of calls in every reachable state |
| `HeapExamples.dfy` | runs from the start that reach the cases the laws single out |
| `ChunkLists.dfy` | headers in memory and the doubly linked lists through them |
| `ListsOfRegion.dfy` | how the thirteen lists represent the region |
| `Allocator.dfy` | the allocator itself |
| `Tasks.dfy` | tasks, and the queue as a sequence |
| `Machine.dfy` | the scheduler as a state machine, and its invariant |
| `MachineRuns.dfy` | what holds over runs of the scheduler |
| `MachineSteps.dfy` | each step told in the fields of the tasks, and what follows for one task |
| `TaskQueue.dfy` | the linked queue itself |
| `Scheduler.dfy` | the scheduler itself |

A chunk in the abstract region is free, live or held; it is held while an operation has it on no list. All
addresses are absolute. The results of `sbrk` and `mmap` are parameters of `HwMalloc`: a non-null start of the
region, and a page from which on the bytes asked for are apart from all that is mapped and from the region, and
which is not below 64 KiB (so that it cannot be mistaken for an offset into the region). `munmap` takes away the
length it is given, which is the size the header records, not the length that was mapped.

Where the code does not do what one would expect of it, the model follows the code:

- Returning a 32 KiB chunk while the other one is free makes `merge` write to `bin[11]`. `FreeOverrunsIff`
  says that this is the only such case, and `OverrunExample` that the first request can lead to it. `HwFree`
  excludes just this case.
- The first heap request empties the list of large chunks (line 34 of `hw_malloc.c`), and a chunk of 2^30 bytes
  or more is recorded with a wrong size, so that `hw_free` takes it off the list and passes `munmap` a length
  that is refused or too short. `TrackedIff` says that the list is exact up to these two calls, `LargeRoundTrip`
  what stays mapped after the second, and `LostForever` that no later call unmaps what the list has lost.
  `LostChunkExample` and `NeverUnmappedExample` show both.
- An allocation can leave two touching chunks of equal size in a bin: `AllocateCoalescedIff`,
  `CoalescingLostExample`. A free into such a bin merges more than the allocation before it split:
  `MallocFreeIdentityIff`, `NotRestoredExample`, and `FirstReleaseExample` for the first request of all.
- Two requests can use up the region: `RequestServedIff`, `ExhaustedExample`.
- The scheduler compares a task's queueing time, not its quantum, with 'L', so that every task gets one tick:
  `EveryTickPreempts`.
- A task whose priority is neither 'H' nor 'L' is dispatched only when it is alone (`PopIs`), so never again once
  two tasks have been created: `OtherNeverDispatched`. If it is ready, the loop never ends: `OtherStaysReady`,
  `OtherStarvesExample`.
- A task suspended with a negative count is not woken by ticks: `SleepsExactly`, `SuspendSleeps`.
- An `add` line of six words is read by position: with `-p` before `-t`, quantum and priority are exchanged
  (`ExecuteAdd`).

## Model

| member | source | states |
|---|---|---|
| `HeapLaws.AllocateReleaseIdentityIff` | hw4-simple-memory-allocator/lib/hw_malloc.c:99-147 | releasing the chunk just allocated gives every chunk back exactly as it was if and only if the bin it was taken from held no touching pair, or a 32 KiB chunk was split for it |
| `HeapRuns.MallocFreeIdentityIff` | hw4-simple-memory-allocator/lib/hw_malloc.c:14-84 | the same for `hw_malloc` followed by `hw_free` of the offset returned, in every state: under exactly that condition the size returned is the chunk's and the whole state is the one the request was served from, which for the first heap request is the region just carved |
| `ListsOfRegion.MallocFreeListsIff` | hw4-simple-memory-allocator/lib/hw_malloc.c:14-84 | the same for the lists: under exactly that condition all thirteen lists and their heads are as they were |
| `HeapExamples.FirstReleaseExample` | hw4-simple-memory-allocator/lib/hw_malloc.c:149-162 | a run in which the condition fails: the first request ever, freed again, does not give the carved region back |
| `HeapExamples.NotRestoredExample` | hw4-simple-memory-allocator/lib/hw_malloc.c:14-84 | another: six calls lead to a state in which a request of 40 bytes and its free leave fewer chunks than there were |
| `HeapLaws.MergeUndoesHalvings` | hw4-simple-memory-allocator/lib/hw_malloc.c:164-221 | the merge cascade undoes every level of the split, because the split chunk was the lowest one of all larger bins |
| `HeapRuns.ReachableTiling` | hw4-simple-memory-allocator/lib/hw_malloc.c:14-84 | after any sequence of calls, a byte lies in a chunk exactly if it is in the 64 KiB region, in only one, which is free or live, of one of the eleven classes and at a multiple of 32 |
| `HeapRuns.RunInv` | hw4-simple-memory-allocator/lib/hw_malloc.c:14-84 | every run keeps the invariant: tiling, no chunk left on no list, the large list in order of size without duplicates and outside the region |
| `HeapRegion.HalvedTiles` | hw4-simple-memory-allocator/lib/hw_malloc.c:136-146 | splitting a chunk over any number of levels keeps the tiling |
| `HeapRegion.MergeTiles` | hw4-simple-memory-allocator/lib/hw_malloc.c:164-221 | merging over any number of levels keeps the tiling |
| `HeapRegion.CarvedTiles` | hw4-simple-memory-allocator/lib/hw_malloc.c:149-162 | the first carving tiles the region, from whichever class it is made |
| `HeapRegion.CarvedExactly` | hw4-simple-memory-allocator/lib/hw_malloc.c:149-162 | which chunks the first carving makes: one free chunk of each class from the index up, each at its own size from the start, one more of the lowest class at the start, and no other |
| `HeapRuns.FirstRequest` | hw4-simple-memory-allocator/lib/hw_malloc.c:28-52 | the first heap request returns the first payload of the region, leaves exactly the other carved chunks free, sets the start of the region and empties the large list |
| `HeapLaws.ReleaseKeepsCoalesced` | hw4-simple-memory-allocator/lib/hw_malloc.c:77-80 | if no bin below the top one holds two touching chunks before a release, none does afterwards |
| `HeapRuns.FreeKeepsCoalesced` | hw4-simple-memory-allocator/lib/hw_malloc.c:55-84 | the same for any call of `hw_free` |
| `HeapLaws.MergeCoalesces` | hw4-simple-memory-allocator/lib/hw_malloc.c:164-221 | the cascade removes the one possible pair of each bin it visits and never fails below the top bin |
| `HeapLaws.MergeKeepsLive` | hw4-simple-memory-allocator/lib/hw_malloc.c:164-221 | a merge cascade leaves all live chunks alone, and changes the region exactly if its first bin held a pair, each time with fewer chunks |
| `HeapLaws.AllocateCoalescedIff` | hw4-simple-memory-allocator/lib/hw_malloc.c:114-147 | an allocation keeps a coalesced heap coalesced if and only if it does not split a chunk that a free chunk of half its size follows |
| `HeapExamples.CoalescingLostExample` | hw4-simple-memory-allocator/lib/hw_malloc.c:122-147 | five calls from the start leave a coalesced heap that is not coalesced after a sixth, a request of 8 bytes |
| `HeapLaws.AllocateSafe` | hw4-simple-memory-allocator/lib/hw_malloc.c:99-147 | an allocation hands out only bytes that were free; exactly its bytes turn from free to live; no other live chunk changes or overlaps |
| `HeapLaws.AllocateExactly` | hw4-simple-memory-allocator/lib/hw_malloc.c:99-147 | which chunks an allocation leaves: the one taken, cut to the class asked for and live, one free chunk of each class split off, all others as they were, and nothing else |
| `HeapRuns.MallocSafe` | hw4-simple-memory-allocator/lib/hw_malloc.c:14-53 | the address returned is 24 bytes into such a chunk, 24 modulo 32 from the start of the region, and the chunk holds the request and its header but not twice as much |
| `HeapRuns.PlacedInRegionIff` | hw4-simple-memory-allocator/lib/hw_malloc.c:14-27 | the payload lies in the region if and only if at most 32744 bytes are asked for |
| `HeapLaws.TakenIsLowest` | hw4-simple-memory-allocator/lib/hw_malloc.c:99-135 | a corollary of how the specification chooses: no chunk of the bin, or, if that is empty, of all larger bins together, lies below the one taken; that the code makes this choice is stated by `FindLowestHead` and `TakeFirst` |
| `HeapRuns.MallocLowest` | hw4-simple-memory-allocator/lib/hw_malloc.c:14-53 | the same corollary for the address `hw_malloc` returns |
| `ListsOfRegion.LowestHeadIsSource` | hw4-simple-memory-allocator/lib/hw_malloc.c:124-132 | looking at the heads of the larger bins is enough to find the lowest chunk in them |
| `HeapLaws.ReleaseSafe` | hw4-simple-memory-allocator/lib/hw_malloc.c:72-80 | a release turns exactly the chunk's bytes from live to free, whatever merges follow, and leaves every other live chunk as it was |
| `HeapRuns.FreeHeapSafe` | hw4-simple-memory-allocator/lib/hw_malloc.c:55-84 | the same for `hw_free` of a live heap payload, which returns the size of its class and touches no large chunk |
| `HeapRuns.FreeSucceedsIff` | hw4-simple-memory-allocator/lib/hw_malloc.c:55-84 | `hw_free` returns a size other than 0 exactly for a live heap payload or a listed large one with a recorded size other than 0; for an address that is neither it changes nothing |
| `HeapRuns.FreeLargeIs` | hw4-simple-memory-allocator/lib/hw_malloc.c:55-66 | freeing the large chunk at any place of the list returns the size recorded for it, takes out just that entry, and unmaps that many bytes of that mapping and of no other |
| `HeapRuns.DoubleFree` | hw4-simple-memory-allocator/lib/hw_malloc.c:55-84 | freeing a heap payload a second time returns 0 and changes nothing |
| `HeapLaws.ReleaseOverrunsIff` | hw4-simple-memory-allocator/lib/hw_malloc.c:80-80 | a release runs past the top bin exactly if it returns a 32 KiB chunk while the top bin is not empty |
| `HeapRuns.FreeOverrunsIff` | hw4-simple-memory-allocator/lib/hw_malloc.c:77-80 | the same for `hw_free`, on any address, in every reachable state |
| `HeapExamples.OverrunExample` | hw4-simple-memory-allocator/lib/hw_malloc.c:149-162 | a first request of 32744 bytes, freed at once, runs past the top bin |
| `HeapRuns.RequestServedIff` | hw4-simple-memory-allocator/lib/hw_malloc.c:122-134 | after the first heap request, a heap request finds a chunk exactly if its own bin or a larger one has any; the first one always does |
| `HeapExamples.ExhaustedExample` | hw4-simple-memory-allocator/lib/hw_malloc.c:122-134 | two requests of 16384 bytes from the start, after which no heap request finds a chunk |
| `HeapRuns.LargeRoundTrip` | hw4-simple-memory-allocator/lib/hw_malloc.c:55-66 | freeing a large chunk just allocated restores list and region; it restores the mappings, and returns the size mapped, exactly below 2^30 bytes with the header, and from there on all of the chunk, or all but the first bytes, stays mapped |
| `HeapRuns.LargeLeavesHeap` | hw4-simple-memory-allocator/lib/hw_malloc.c:14-27 | every large request that leaves room for the header in a `size_t` is served; it returns the page plus 24, leaves the region as it is, and adds one entry to the list and one mapping |
| `HeapRuns.TrackedIff` | hw4-simple-memory-allocator/lib/hw_malloc.c:33-66 | a call keeps the large list exact, holding just what is mapped, if and only if it is neither the first heap request while something is mapped nor the free of a listed chunk of 2^30 bytes or more |
| `HeapRuns.LostForever` | hw4-simple-memory-allocator/lib/hw_malloc.c:55-66 | what is mapped but not listed stays so in every run |
| `HeapExamples.LostChunkExample` | hw4-simple-memory-allocator/lib/hw_malloc.c:34-34 | a large request followed by the first heap request leaves a mapped chunk that is not listed |
| `HeapExamples.NeverUnmappedExample` | hw4-simple-memory-allocator/lib/hw_malloc.c:61-66 | a request of 2^30 bytes from the start and its free leave the list empty and all bytes mapped, whatever calls follow |
| `HeapState.BigInsertOk` | hw4-simple-memory-allocator/lib/hw_malloc.c:245-265 | insertion keeps the large list in order of size and free of duplicates, each entry with the 31 bits of the byte count mapped there |
| `HeapState.BigInsertPlace` | hw4-simple-memory-allocator/lib/hw_malloc.c:245-265 | insertion puts the entry at one place and keeps all others: in front if the head is larger, else behind the head and behind all smaller ones that follow it; so no larger entry is before it and no smaller one behind it |
| `HeapState.BigRemoveOk` | hw4-simple-memory-allocator/lib/hw_malloc.c:306-350 | deletion by address, with the `munmap` of the recorded size, keeps this, and takes out that address |
| `HeapState.MunmapAllIff` | hw4-simple-memory-allocator/lib/hw_malloc.c:61-65 | the call takes exactly that mapping away if and only if it is given the full length |
| `HeapState.ReleaseSteps` | hw4-simple-memory-allocator/lib/hw_malloc.c:72-80 | the steps of freeing a live chunk, unlinked, relabelled and merged, add up to the specified release |
| `Sizes.ProperBinFits` | hw4-simple-memory-allocator/lib/hw_malloc.c:374-388 | the bin chosen is the smallest that holds the request; -1 exactly for requests that no bin holds |
| `Sizes.ProperBinRoundTrip` | hw4-simple-memory-allocator/lib/hw_malloc.c:374-429 | the size of a chunk leads back to the bin it came from |
| `Sizes.CorrespondIsSize` | hw4-simple-memory-allocator/lib/hw_malloc.c:390-429 | the table of sizes holds the doubled sizes of the eleven classes, and 0 beyond |
| `Sizes.Field31Faithful` | hw4-simple-memory-allocator/lib/hw_malloc.h:21-26 | the 31-bit field holds the value from -2^30 to 2^30 - 1 that is the byte count modulo 2^31: the count itself exactly below 2^30, never more, and 0 exactly on multiples of 2^31 |
| `ChunkLists.AscendingUnique` | hw4-simple-memory-allocator/lib/hw_malloc.c:223-243 | a strictly ascending list is determined by the chunks on it, so that a bin is its set of chunks |
| `ListsOfRegion.RepUnique` | hw4-simple-memory-allocator/lib/hw_malloc.c:223-265 | the abstract state determines all thirteen lists and their heads, so that a call that restores the state restores them |
| `ListsOfRegion.HeaderUnique` | hw4-simple-memory-allocator/lib/hw_malloc.c:223-278 | it also determines, field by field, the header of every listed chunk |
| `ChunkLists.LinkInIsList` | hw4-simple-memory-allocator/lib/hw_malloc.c:225-242 | linking a node in at any place gives a doubly linked list, with null at both ends, no node twice and the node at that place, and changes no header but for its links |
| `ChunkLists.LinkOutIsList` | hw4-simple-memory-allocator/lib/hw_malloc.c:177-206 | linking out any number of neighbours gives such a list without them |
| `ChunkLists.LinkInLinked` | hw4-simple-memory-allocator/lib/hw_malloc.c:223-243 | linking into one list leaves all others as they were, and no node on two lists |
| `ChunkLists.LinkOutLinked` | hw4-simple-memory-allocator/lib/hw_malloc.c:306-350 | the same for linking out, after which the nodes are on no list |
| `ListsOfRegion.FirstNeighboursAreFirst` | hw4-simple-memory-allocator/lib/hw_malloc.c:171-175 | the first touching neighbours on a bin's list are the lowest touching pair of the bin |
| `HwMalloc.Allocator.InsertSorted` | hw4-simple-memory-allocator/lib/hw_malloc.c:223-243 | keeps the list strictly ascending and adds just the node to it |
| `HwMalloc.Allocator.DeleteNode` | hw4-simple-memory-allocator/lib/hw_malloc.c:306-350 | removes just the given node and returns its size, or changes nothing and returns 0 if it is not on the list |
| `HwMalloc.Allocator.PopNode` | hw4-simple-memory-allocator/lib/hw_malloc.c:352-372 | removes and returns the first node, with its links cleared |
| `HwMalloc.Allocator.UnlinkPair` | hw4-simple-memory-allocator/lib/hw_malloc.c:177-206 | the four unlinking cases of `merge` all remove just the pair |
| `HwMalloc.Allocator.NewNode` | hw4-simple-memory-allocator/lib/hw_malloc.c:267-278 | writes the header with its size cut to 31 bits, which no list notices |
| `HwMalloc.Allocator.ScanBin` | hw4-simple-memory-allocator/lib/hw_malloc.c:171-175 | the scan stops at the first touching neighbours, or finds that there are none |
| `HwMalloc.Allocator.Merge` | hw4-simple-memory-allocator/lib/hw_malloc.c:164-221 | the recursive procedure over linked lists does what the specified cascade does to the region |
| `HwMalloc.Allocator.ScanHeads` | hw4-simple-memory-allocator/lib/hw_malloc.c:124-132 | finds the lowest head among the larger bins |
| `HwMalloc.Allocator.FindLowestHead` | hw4-simple-memory-allocator/lib/hw_malloc.c:124-133 | that head is the lowest free chunk of all larger classes |
| `HwMalloc.Allocator.SplitToAllocate` | hw4-simple-memory-allocator/lib/hw_malloc.c:122-147 | the split gives the region and the address that the specification gives |
| `HwMalloc.Allocator.NormalAllocate` | hw4-simple-memory-allocator/lib/hw_malloc.c:114-120 | so does taking the first chunk of the bin |
| `HwMalloc.Allocator.HeapAllocate` | hw4-simple-memory-allocator/lib/hw_malloc.c:99-113 | so does the choice between the two |
| `HwMalloc.Allocator.SplitToIndex` | hw4-simple-memory-allocator/lib/hw_malloc.c:149-162 | the carving loop gives the carved region |
| `HwMalloc.Allocator.MmapInsertSorted` | hw4-simple-memory-allocator/lib/hw_malloc.c:245-265 | links the node in at the place the specified insertion by size has |
| `HwMalloc.Allocator.MmapAllocate` | hw4-simple-memory-allocator/lib/hw_malloc.c:91-97 | lists a new mapping under its recorded size |
| `HwMalloc.Allocator.Initialise` | hw4-simple-memory-allocator/lib/hw_malloc.c:29-47 | the first heap request clears the bins and the large list and carves the region |
| `HwMalloc.Allocator.HwMalloc` | hw4-simple-memory-allocator/lib/hw_malloc.c:14-53 | the call gives the state and address of the specification, and all thirteen lists still represent that state |
| `HwMalloc.Allocator.HwFree` | hw4-simple-memory-allocator/lib/hw_malloc.c:55-84 | the call gives the state and size of the specification, and all thirteen lists still represent that state; when it returns 0 and the address is not listed as a large chunk, no head, list or header has changed |
| `HwMalloc.Allocator.SameLists` | hw4-simple-memory-allocator/lib/hw_malloc.c:14-84 | two moments with the same abstract state have the same lists and heads |
| `MachineRuns.BoundedWaiting` | hw3-scheduling-simulation/scheduling_simulator.c:276-305 | a ready 'H' task with i tasks ahead of it is among the next i + 1 tasks dispatched, whatever else happens |
| `MachineRuns.AheadRun` | hw3-scheduling-simulation/scheduling_simulator.c:439-493 | until a ready 'H' task is dispatched it stays ready; the tasks dispatched meanwhile and those still ahead of it are together just those that were ahead of it |
| `MachineRuns.RoundRobin` | hw3-scheduling-simulation/scheduling_simulator.c:448-471 | until a ready 'H' task is dispatched, each ready 'H' task ahead of it is dispatched exactly once, no task twice, and only 'H' tasks ahead of it at all |
| `MachineRuns.PreemptedRoundRobin` | hw3-scheduling-simulation/scheduling_simulator.c:276-300 | the same from the preemption of an 'H' task to its next dispatch, for all 'H' tasks ready in the queue at that moment |
| `MachineRuns.HighFirst` | hw3-scheduling-simulation/scheduling_simulator.c:453-471 | while a ready 'H' task is queued, an 'H' task is dispatched |
| `MachineRuns.IdleIff` | hw3-scheduling-simulation/scheduling_simulator.c:439-493 | the loop goes idle exactly if no 'H' or 'L' task is ready and no task is alone in the queue and ready |
| `MachineRuns.OtherNeverDispatched` | hw3-scheduling-simulation/scheduling_simulator.c:439-493 | once two tasks have been created, no run dispatches a task whose priority is neither 'H' nor 'L' |
| `MachineRuns.OtherStaysReady` | hw3-scheduling-simulation/scheduling_simulator.c:276-308 | if such a task is ready in the queue, it stays ready there in every run, and the loop never exits |
| `MachineRuns.OtherStarvesExample` | hw3-scheduling-simulation/scheduling_simulator.c:195-216 | a run from the start that leads to this: two tasks added, one with priority 'M' |
| `MachineSteps.AddIs` | hw3-scheduling-simulation/scheduling_simulator.c:58-86 | a task is added exactly for the names task1 to task6: at the rear, ready, with the next pid, the name, quantum and priority given and both counts 0; nothing else changes |
| `MachineSteps.AddedIsDispatched` | hw3-scheduling-simulation/scheduling_simulator.c:195-216 | an 'H' task just added is among the next dispatches, one for each task queued before it and its own |
| `MachineSteps.HighOvertakesExample` | hw3-scheduling-simulation/scheduling_simulator.c:195-216 | from the start, an 'L' task and then an 'H' task: the second one is dispatched |
| `MachineSteps.TickIs` | hw3-scheduling-simulation/scheduling_simulator.c:524-543 | one tick, in the fields of each queued task: which time grows, which count falls, and that only a waiting task with count 0 changes its state |
| `MachineSteps.TickRequeues` | hw3-scheduling-simulation/scheduling_simulator.c:102-114 | a tick sends the current task, as it is, to the rear, and brings control back to the loop |
| `MachineSteps.ReadyStays` | hw3-scheduling-simulation/scheduling_simulator.c:524-543 | a ready task of any priority that a run does not dispatch is ready in the queue at its end, unchanged but for 10 more of time for each tick |
| `MachineSteps.SuspendIs` | hw3-scheduling-simulation/scheduling_simulator.c:39-44 | a suspension sends the current task to the rear, waiting with the count given and otherwise as it is |
| `MachineSteps.SuspendSleeps` | hw3-scheduling-simulation/scheduling_simulator.c:39-44 | a task that suspends itself with n >= 0, and that nobody wakes, sleeps for n ticks and is ready after tick n + 1, not dispatched before; with n < 0 it sleeps on |
| `MachineSteps.CompletedForGood` | hw3-scheduling-simulation/scheduling_simulator.c:28-37 | a task that completes is at the rear, terminated, stays in the queue so through any run, and is never dispatched again |
| `MachineSteps.DispatchIs` | hw3-scheduling-simulation/scheduling_simulator.c:276-303 | a dispatch runs the chosen task as it was for one tick and keeps the order of the others, or waits for one tick and changes none |
| `MachineSteps.ExitIffDone` | hw3-scheduling-simulation/scheduling_simulator.c:545-558 | in every run from the start, whenever control is in the loop, it exits if and only if every task has terminated, and else dispatches |
| `MachineSteps.NeverStuck` | hw3-scheduling-simulation/scheduling_simulator.c:28-56 | no run gets stuck: which events can come in which state |
| `MachineRuns.TasksConserved` | hw3-scheduling-simulation/scheduling_simulator.c:276-300 | in every run from the start, the queue and the current task hold one task for each pid from 1 to the number created, no other, and none marked running |
| `MachineRuns.RunKeeps` | hw3-scheduling-simulation/scheduling_simulator.c:287-300 | no task is ever lost, and each keeps its pid, name, quantum and priority through all copies |
| `Machine.RunInv` | hw3-scheduling-simulation/scheduling_simulator.c:272-308 | every run keeps the invariant of the machine |
| `MachineRuns.SleepsExactly` | hw3-scheduling-simulation/scheduling_simulator.c:524-543 | a task suspended with n >= 0 that nobody wakes sleeps through n ticks, is not dispatched, and is ready after tick n + 1; with n < 0 it never is, as far as counts do not wrap around |
| `MachineRuns.WakesExactly` | hw3-scheduling-simulation/scheduling_simulator.c:495-522 | a wake-up readies exactly the sleeping tasks with that pid or name, and leaves order, all other tasks and the rest of the state as they are |
| `MachineRuns.TerminatedForGood` | hw3-scheduling-simulation/scheduling_simulator.c:28-37 | a terminated task stays in the queue unchanged and is never dispatched |
| `MachineRuns.ExitMeansDone` | hw3-scheduling-simulation/scheduling_simulator.c:276-308 | when the loop exits, no task is current and every task ever created is in the queue, terminated |
| `MachineRuns.QueueingTimeExact` | hw3-scheduling-simulation/scheduling_simulator.c:524-543 | the queueing time of a task is 10 times the ticks that found it in the queue and not terminated, through any number of dispatches |
| `MachineRuns.EveryTickPreempts` | hw3-scheduling-simulation/scheduling_simulator.c:280-284 | in every run a dispatched task has a quantum of one tick, whatever its own quantum, and the next tick puts it at the rear as it is |
| `Tasks.FirstReadyIs` | hw3-scheduling-simulation/scheduling_simulator.c:459-462 | the place searched for is the first one with a ready task of the priority |
| `Tasks.PopIs` | hw3-scheduling-simulation/scheduling_simulator.c:439-493 | what is dispatched, and when nothing is: the only task if ready, else the first ready 'H' task, else the first ready 'L' task |
| `Tasks.WakePidAt` | hw3-scheduling-simulation/scheduling_simulator.c:511-519 | waking by pid changes the first sleeping task with that pid and nothing else |
| `TaskQueues.TaskQueue.PopNode` | hw3-scheduling-simulation/scheduling_simulator.c:439-493 | takes the specified node out of the linked queue and keeps the order of the rest, front, rear and links |
| `TaskQueues.TaskQueue.TakeFirst` | hw3-scheduling-simulation/scheduling_simulator.c:453-491 | does so for one priority |
| `TaskQueues.TaskQueue.EnQueue` | hw3-scheduling-simulation/scheduling_simulator.c:367-378 | adds a new node at the rear |
| `TaskQueues.TaskQueue.WakeNode` | hw3-scheduling-simulation/scheduling_simulator.c:495-522 | the loop over the links wakes the tasks the specification says |
| `TaskQueues.TaskQueue.SetQueueAndSuspendTime` | hw3-scheduling-simulation/scheduling_simulator.c:524-543 | the loop over the links gives every task its tick |
| `TaskQueues.TaskQueue.HasTaskToRun` | hw3-scheduling-simulation/scheduling_simulator.c:545-558 | true exactly if the state of some node of the queue is ready or waiting |
| `Scheduling.Scheduler.SchedulingSimulator` | hw3-scheduling-simulation/scheduling_simulator.c:272-308 | the loop, given what happens at each of its context switches, does what the machine does with the trace of these turns, and has stopped exactly if no queued task is ready or waiting |
| `Machine.TraceIsRun` | hw3-scheduling-simulation/scheduling_simulator.c:272-308 | that trace is a run of the machine, so that all laws of runs hold of the loop |
| `Machine.TraceStopsIff` | hw3-scheduling-simulation/scheduling_simulator.c:276-308 | at the end of its turns the loop has stopped if and only if no queued task is ready or waiting |
| `Scheduling.Scheduler.DispatchNext` | hw3-scheduling-simulation/scheduling_simulator.c:277-303 | the loop body up to the context switch takes the machine's dispatch step |
| `Scheduling.Scheduler.SwitchBack` | hw3-scheduling-simulation/scheduling_simulator.c:287-300 | the current task is queued again as a copy with all its fields |
| `Scheduling.Scheduler.HandlerTimeFrame` | hw3-scheduling-simulation/scheduling_simulator.c:102-114 | takes the machine's tick step |
| `Scheduling.Scheduler.HwSuspend` | hw3-scheduling-simulation/scheduling_simulator.c:39-44 | takes the machine's suspension step |
| `Scheduling.Scheduler.Completion` | hw3-scheduling-simulation/scheduling_simulator.c:28-37 | takes the machine's completion step |
| `Scheduling.Scheduler.HwTaskCreate` | hw3-scheduling-simulation/scheduling_simulator.c:58-86 | returns -1 and changes nothing exactly for names other than task1 to task6; else it returns the next pid, which the new rear node has, with that name, quantum 'S' and priority 'L', ready; takes the machine's addition step |
| `Scheduling.Scheduler.AddCommand` | hw3-scheduling-simulation/scheduling_simulator.c:208-215 | the same with the quantum and priority given, each in its own field of the rear node |
| `Scheduling.Scheduler.ExecuteAdd` | hw3-scheduling-simulation/scheduling_simulator.c:195-216 | which words of an `add` line become quantum and priority: of six words the fourth and the sixth, whatever flags stand before them; of four the fourth, by the flag |
| `Scheduling.Scheduler.HwWakeupPid` | hw3-scheduling-simulation/scheduling_simulator.c:46-50 | takes the machine's step of waking by pid |
| `Scheduling.Scheduler.HwWakeupTaskname` | hw3-scheduling-simulation/scheduling_simulator.c:52-56 | takes the machine's step of waking by name |

## Left out

- `sbrk` and `mmap` failing: the model takes their results as parameters. It maps and unmaps bytes, where the kernel rounds lengths up to pages.
- A heap request when no bin of its class or above has a chunk (`RequestServedIff`): the code then indexes `bin[-1]`; `CanMalloc` excludes it, as it does a request of 0 bytes.
- What programs write into their payloads, and how the compiler lays out the chunk header; the model keeps the code's own 24 bytes.
- The field `prev_chunk_size`, which is always 0, and all printing.
- The command shells of both programs, but for `add`, from its line split into words, and `start` in the scheduler.
- Saved contexts, stacks and signals of the scheduler: what runs between a switch away from the loop and the switch back is given to `SchedulingSimulator` as a list of events, and `SwitchBack`, the rest of the loop body, is the end of the event that switches back.
- MachineRuns.SleepsExactly: does not model that `msec_10` and `queuing_time` are C `int`s, because a count wraps around only after 2^31 ticks.
- MachineRuns.QueueingTimeExact: does not model that wrap-around either, for the same reason; it comes after 2^31 / 10 ticks.
- `remove`: it drops a node from the middle of the queue without linking its neighbours, so that no property of the queue survives it.
- `state_name`, which only printing reads.
- `hw_wakeup_pid(0)` on a queue that is not empty: the code then compares with a null name; the machine's step excludes pid 0.
- The process tree (hw1) and the HTTP server (hw2): kernel structures, sockets and files.

# UltraOS kernel: verified models

Dafny models of the parts of the UltraOS kernel whose correctness is hardest to see from the code, with proofs of what
each part is for. The 64-bit build is modelled. Code that updates objects in place is modelled by classes with the same
fields and loops, each method proved against a specification; the protocols between processors are state machines whose
steps are the atomic actions of the code, and their theorems hold for every state of every run.

| files | part of the kernel |
|---|---|
| `RedBlackShape`, `RedBlackStore`, `RedBlackRepair`, `RedBlackSwap`, `RedBlackTree` | the red-black tree behind `Set` and `Map`, over linked node objects |
| `HeapRuns`, `HeapBitmap`, `HeapLayout`, `HeapBlock`, `HeapAllocator` | the kernel heap and its bitmap of two-bit allocation ids |
| `PhysicalRanges`, `MapCorrection`, `MapRuns`, `MemoryMap` | the correction of the physical memory map |
| `DiskGeometry`, `DiskView`, `DiskCache` | the write-back disk cache |
| `SchedulerState`, `SchedulerSteps`, `SchedulerPasses`, `Scheduler` | threads, blockers, processes and the scheduler's locked sections |
| `Shootdown`, `ShootdownProgress` | unmapping with TLB shootdown through inter-processor requests |
| `VirtualRanges`, `VirtualAllocator` | the allocator of virtual address ranges |
| `PageTables`, `AddressSpace` | four-level page tables |
| `PipeRing`, `Pipe` | pipes |
| `Mutex` | the sleeping mutex and the shared mutex |
| `DeferredIrq`, `DeferredProgress` | deferred interrupt work |
| `PhysicalRegion` | the bit array and the physical page allocator |
| `Calendar` | Unix time and calendar dates |
| `Common`, `Arithmetic`, `DistinctLists` | shared definitions and small lemmas |

The tree keeps a ghost tree of its node objects and a position in it; every pointer write is an edit of a snapshot of
the fields, and the steps of the repair are lemmas about trees with a hole. The heap keeps the map of live allocations
as a decoding of the bitmap. The disk cache keeps the byte sequence of the whole volume, dirty buffers over device
contents. The scheduler's invariant has a hole for the processor that is in the middle of a switch; what a whole pass
does is stated over the state before it. The two protocols are also shown to make progress: unless all is at rest some
step is open, and a measure falls with every step that finishes work.

Where the kernel does not keep what it promises, the model does what the code does, a lemma names an input, and a
condition says when the promise holds:

- freeing in a heap block that has no id slot after its last chunk can run on into the chunks (`HeapLayout.SpareSlotIff`,
  `HeapBlocks.FreeWithoutSpareSlot`, `HeapBlocks.WrongFreeExample`);
- correcting a memory map always goes wrong on reserved ranges crowded into one page of usable memory
  (`MapRuns.CorrectedIff`, `MemoryMaps.CrowdedPageFails`), and can on addresses covered three times and on empty
  entries (`MemoryMaps.TripleCoverFails`, `MemoryMaps.EmptyEntryFails`);
- the disk cache accepts every block of a file system exactly when less than a block is left over behind the last
  whole cache unit (`DiskViews.EveryBlockAcceptedIff`);
- an unblock that comes late ends whatever the thread waits on by then (`SchedulerSteps.UnblockKeepsIff`,
  `SchedulerSteps.LateUnblockEndsOtherWait`);
- the loop that frees dead threads would skip every second one; it never meets two
  (`Schedulers.Scheduler.FreeDeferredThreads`);
- the queue of inter-processor requests suffices for 33 processors and no more (`Shootdown.QueueHasRoom`,
  `Shootdown.QueueCanFill`);
- allocating a given virtual range misses some clashes, and freeing an empty one can leave two ranges touching
  (`VirtualAllocators.ClashCases`, `VirtualAllocators.VirtualAllocator.Deallocate`);
- a page mapped for user mode is usable there only if no table above it was created for the supervisor
  (`AddressSpaces.AddressSpace.MapPage`, `AddressSpaces.MapNeighbours`).

The comment on the memory map type promises unique entries in ascending order, and the first assertion on block sizes in
the disk cache's constructor reads a field before it is set; the model follows the code in the first case and the
evident intent of the assertion in the second.

## Model

| member | source | states |
|---|---|---|
| `RedBlackTrees.RedBlackTree.constructor` | Kernel/Common/RedBlackTree.h:230-233 | a new tree is valid and empty |
| `RedBlackTrees.RedBlackTree.Emplace` | Kernel/Common/RedBlackTree.h:416-493 | a new key is put in its sorted place and nothing else moves, an equal key is refused and leaves the tree alone; the red-black shape, order, size and cached ends are kept |
| `RedBlackTrees.RedBlackTree.Remove` | Kernel/Common/RedBlackTree.h:523-539 | the sequence of nodes loses exactly the given node object; shape, order, size and cached ends are kept |
| `RedBlackTrees.RedBlackTree.RemoveKey` | Kernel/Common/RedBlackTree.h:541-560 | removes the node with the key if there is one, and changes nothing otherwise |
| `RedBlackTrees.RedBlackTree.RemoveNode` | Kernel/Common/RedBlackTree.h:794-861 | a node with any number of children leaves a balanced tree of the other nodes in the same order |
| `RedBlackTrees.RedBlackTree.RemoveLow` | Kernel/Common/RedBlackTree.h:801-854 | removing a node with at most one child rebalances and keeps the order of the rest |
| `RedBlackTrees.RedBlackTree.SinkNode` | Kernel/Common/RedBlackTree.h:856-860 | exchanging with the in-order successor brings the node down to where it has no left child; the other nodes keep their order |
| `RedBlackTrees.RedBlackTree.SwapNodeWithSuccessor` | Kernel/Common/RedBlackTree.h:863-964 | the two node objects trade places and colours, adjacent or apart, and all links around them agree |
| `RedBlackTrees.RedBlackTree.FixDoubleBlack` | Kernel/Common/RedBlackTree.h:980-1112 | from a tree one black short at a node, the cases end with a settled tree in the same order; some case always matches and the recursion ends |
| `RedBlackTrees.RedBlackTree.FixRemovalViolations` | Kernel/Common/RedBlackTree.h:966-977 | after unlinking, the repair is called exactly when a black node went, and settles the tree |
| `RedBlackTrees.RedBlackTree.FixInsertionViolations` | Kernel/Common/RedBlackTree.h:1115-1166 | from a tree whose only fault is a red node under a red one, the loop ends with a red-black tree in the same order |
| `RedBlackTrees.RedBlackTree.RotateLeft` | Kernel/Common/RedBlackTree.h:1168-1194 | the pointer writes are exactly a left rotation and move the root when they must |
| `RedBlackTrees.RedBlackTree.RotateRight` | Kernel/Common/RedBlackTree.h:1196-1222 | the pointer writes are exactly a right rotation and move the root when they must |
| `RedBlackTrees.RedBlackTree.SkipEnds` | Kernel/Common/RedBlackTree.h:527-537 | before a removal the cached first and last nodes become those of the tree without the node |
| `RedBlackTrees.RedBlackTree.CacheEnds` | Kernel/Common/RedBlackTree.h:427-455 | the cached ends take in a new key that is smaller or greater than all |
| `RedBlackTrees.RedBlackTree.FindNode` | Kernel/Common/RedBlackTree.h:774-792 | the node with the key exactly when there is one |
| `RedBlackTrees.RedBlackTree.LowerBound` | Kernel/Common/RedBlackTree.h:753-771 | the first node in order whose key is not smaller, or the end |
| `RedBlackTrees.RedBlackTree.UpperBound` | Kernel/Common/RedBlackTree.h:732-750 | the first node in order whose key is greater, or the end |
| `RedBlackTrees.RedBlackTree.InorderSuccessor` | Kernel/Common/RedBlackTree.h:12-35 | the pointer walk finds the next node in order, or the end |
| `RedBlackTrees.RedBlackTree.InorderPredecessor` | Kernel/Common/RedBlackTree.h:37-61 | the pointer walk finds the previous node in order, or the end |
| `RedBlackTrees.RedBlackTree.Begin` | Kernel/Common/RedBlackTree.h:386-389 | the first node in order, or the end |
| `RedBlackTrees.RedBlackTree.Next` | Kernel/Common/RedBlackTree.h:83-90 | iteration visits the nodes in order |
| `RedBlackTrees.RedBlackTree.Previous` | Kernel/Common/RedBlackTree.h:145-154 | iteration backwards, from the end as well |
| `RedBlackRepair.RedSiblingStep` | Kernel/Common/RedBlackTree.h:999-1016 | case 2 keeps the deficit where it is, keeps the order and makes progress |
| `RedBlackRepair.PushUpStep` | Kernel/Common/RedBlackTree.h:1018-1031 | case 3 moves the deficit to the parent |
| `RedBlackRepair.RedParentStep` | Kernel/Common/RedBlackTree.h:1033-1047 | case 4 settles the tree |
| `RedBlackRepair.NearNephewStep` | Kernel/Common/RedBlackTree.h:1049-1079 | case 5, on either side, makes the far nephew red and keeps the deficit |
| `RedBlackRepair.FarNephewStep` | Kernel/Common/RedBlackTree.h:1081-1109 | case 6, on either side, settles the tree |
| `RedBlackRepair.RedAuntStep` | Kernel/Common/RedBlackTree.h:1126-1133 | recolouring moves the fault up two levels |
| `RedBlackRepair.StraightenStep` | Kernel/Common/RedBlackTree.h:1135-1151 | the first rotation turns an inner grandchild into an outer one |
| `RedBlackRepair.HoistStep` | Kernel/Common/RedBlackTree.h:1140-1160 | the second rotation removes the fault |
| `RedBlackSwap.SwappedFocus` | Kernel/Common/RedBlackTree.h:863-964 | exchanging two nodes in all links around them renames them in the tree they form |
| `RedBlackSwap.ExchangedSettled` | Kernel/Common/RedBlackTree.h:863-964 | the exchange with the successor keeps the red-black shape |
| `RedBlackSwap.ExchangedOrder` | Kernel/Common/RedBlackTree.h:863-964 | and keeps the order of all other nodes |
| `HeapLayout.LayoutFits` | Kernel/Memory/HeapAllocator.cpp:52-102 | bitmap and aligned chunks lie inside the fed block with an id for each chunk; less than a chunk is lost before the chunks and less than a chunk behind them |
| `HeapLayout.SpareSlotIff` | Kernel/Memory/HeapAllocator.cpp:52-102 | exactly which blocks have no id slot after the last chunk |
| `HeapLayout.LargeBlocksHaveSpareSlot` | Kernel/Memory/HeapAllocator.cpp:52-102 | blocks of 125 or more default-size chunks always have one |
| `HeapLayout.PowerOfTwoIff` | Kernel/Memory/HeapAllocator.cpp:149-154 | the alignments accepted are products of twos: one bit set |
| `HeapLayout.AlignedIff` | Kernel/Memory/HeapAllocator.cpp:183-195 | the chunks the aligned search visits are exactly the aligned ones |
| `HeapBlocks.HeapBlock.constructor` | Kernel/Memory/HeapAllocator.cpp:52-102 | a fed block is valid, inside its memory, all free, and has every whole chunk there is room for behind the bitmap |
| `HeapBlocks.HeapBlock.Scan` | Kernel/Memory/HeapAllocator.cpp:197-231 | finds the first lane with enough free chunks, skipping ahead over occupied ones without missing any |
| `HeapBlocks.HeapBlock.FindRun` | Kernel/Memory/HeapAllocator.cpp:183-231 | the first suitable aligned run, or none if there is none |
| `HeapBlocks.FreshId` | Kernel/Memory/HeapAllocator.cpp:261-263 | the least id that differs from both neighbours; three always suffice |
| `HeapBlocks.HeapBlock.ChooseId` | Kernel/Memory/HeapAllocator.cpp:233-263 | the least id that differs from those of both neighbouring chunks |
| `HeapBlocks.HeapBlock.Commit` | Kernel/Memory/HeapAllocator.cpp:233-277 | exactly one live allocation is added, the others keep their extent |
| `HeapBlocks.HeapBlock.Allocate` | Kernel/Memory/HeapAllocator.cpp:175-292 | the lowest aligned address with room for the size, or nothing changed and no such address exists |
| `HeapBlocks.HeapBlock.Free` | Kernel/Memory/HeapAllocator.cpp:334-378 | freeing an allocation removes exactly it and counts its chunks; an address in a free chunk is a double free and changes nothing |
| `HeapBlocks.ClearFrom` | Kernel/Memory/HeapAllocator.cpp:340-375 | the loop of a free clears exactly the run of equal ids it starts in, wherever the bitmap ends |
| `HeapBlocks.FreeWithoutSpareSlot` | Kernel/Memory/HeapAllocator.cpp:341-378 | run on a block without a spare slot, the loop frees just the allocation and leaves the chunks alone exactly when the first chunk byte does not look like its id |
| `HeapBlocks.WrongFreeExample` | Kernel/Memory/HeapAllocator.cpp:341-378 | such an aligned block and contents, on which the loop counts four chunks too many and clears a byte of the allocation |
| `HeapAllocators.HeapAllocator.FeedBlock` | Kernel/Memory/HeapAllocator.cpp:52-102 | a block apart from the others joins the list behind the first, with every whole chunk there is room for free, and exactly their bytes join the total |
| `HeapAllocators.HeapAllocator.Allocate` | Kernel/Memory/HeapAllocator.cpp:141-312 | takes the lowest suitable chunks of the first block that has room and touches no other; refuses exactly the bad sizes and alignments; out of memory only if every block is |
| `HeapAllocators.HeapAllocator.OwnBlock` | Kernel/Memory/HeapAllocator.h:57-61 | a handed-out address belongs to one block only, although block ends are inclusive |
| `HeapAllocators.HeapAllocator.Free` | Kernel/Memory/HeapAllocator.cpp:314-392 | every handed-out address is freed in its own block and removes exactly its allocation; a free chunk is a double free, and null, unknown addresses and double frees change nothing |
| `HeapAllocators.HeapAllocator.GetStats` | Kernel/Memory/HeapAllocator.cpp:394-412 | counts the blocks and their bytes, and the summed free bytes agree with the running total |
| `MapCorrection.PiecesCover` | Kernel/Memory/MemoryMap.cpp:57-96 | the parts of two overlapping ranges cover what the pair did, once, with the greater type, and are shorter in all; only usable memory in a spoilt page is given up |
| `MemoryMaps.MemoryMap.ShatterAt` | Kernel/Memory/MemoryMap.cpp:122-166 | writing the parts back in place replaces the pair by the valid ones, in order |
| `MemoryMaps.MemoryMap.EraseRangeAt` | Kernel/Memory/MemoryMap.cpp:98-111 | removes one entry and closes the gap |
| `MemoryMaps.MemoryMap.EmplaceRangeAt` | Kernel/Memory/MemoryMap.h:190-208 | inserts one entry and shifts the rest |
| `MapCorrection.ShatterStep` | Kernel/Memory/MemoryMap.cpp:113-175 | splitting keeps the list sorted, at most doubly covered and uncrowded |
| `MapCorrection.MergeStep` | Kernel/Memory/MemoryMap.cpp:124-129 | joining touching ranges of one type keeps all that and the map |
| `MemoryMaps.MemoryMap.CorrectOverlappingRanges` | Kernel/Memory/MemoryMap.cpp:113-175 | always ends; a sorted list without empty ranges and triple cover comes out sorted, disjoint and merged, with no failed assertion, exactly if no page is crowded, and then every address keeps its type except usable memory in pages shared with unusable memory |
| `MapRuns.CorrectedIff` | Kernel/Memory/MemoryMap.cpp:113-175 | the same of every run of the correction, turn by turn |
| `MapRuns.TidyRun` | Kernel/Memory/MemoryMap.cpp:113-175 | a run on an uncrowded list never stops and ends in order, describing the same memory |
| `MapRuns.OvershootSticks` | Kernel/Memory/MemoryMap.cpp:132-172 | splitting off a free rest that begins above the next range leaves the list out of order for good |
| `MapRuns.StuckTurn` | Kernel/Memory/MemoryMap.cpp:122-172 | no turn puts such a list in order again |
| `MapRuns.DoomedRun` | Kernel/Memory/MemoryMap.cpp:113-175 | every run on a crowded list stops at an assertion or ends out of order |
| `PhysicalRanges.WholePagesKept` | Kernel/Memory/MemoryMap.cpp:113-175 | where all ranges are whole pages every address keeps its type |
| `MemoryMaps.TripleCoverFails` | Kernel/Memory/MemoryMap.cpp:113-175 | three ranges over one address, and the turns that lead to the failed assertion |
| `MemoryMaps.CrowdedPageFails` | Kernel/Memory/MemoryMap.cpp:113-175 | two small reserved ranges in one page of usable memory, and the turns that leave the list out of order |
| `MemoryMaps.EmptyEntryFails` | Kernel/Memory/MemoryMap.cpp:113-175 | an empty entry that keeps two overlapping ranges apart |
| `DiskGeometry.UnitSectors` | Kernel/FileSystem/DiskCache.cpp:63-81 | a cache unit is read and written as exactly the sectors that hold it |
| `DiskGeometry.BlockInUnit` | Kernel/FileSystem/DiskCache.cpp:83-86 | every block lies inside the unit it is cached in |
| `DiskViews.EveryBlockAcceptedIff` | Kernel/FileSystem/DiskCache.cpp:71-81 | exactly when every block of the file system can be cached |
| `DiskViews.FlushKeeps` | Kernel/FileSystem/DiskCache.cpp:213-227 | flushing does not change what the volume reads as |
| `DiskViews.LoadKeeps` | Kernel/FileSystem/DiskCache.cpp:97-131 | nor does loading into a new or a reused buffer |
| `DiskViews.WriteChanges` | Kernel/FileSystem/DiskCache.cpp:171-193 | writing into a buffer changes exactly those bytes of the volume |
| `DiskViews.CleanMeansSaved` | Kernel/FileSystem/DiskCache.cpp:229-246 | with no dirty buffer the device holds the volume |
| `DiskCaches.DiskCache.constructor` | Kernel/FileSystem/DiskCache.cpp:18-61 | a new cache shows the device's contents; its units are a page or a larger block |
| `DiskCaches.DiskCache.Lookup` | Kernel/FileSystem/DiskCache.cpp:97-131 | the unit comes to the front and the volume is unchanged; a full cache gives up exactly its least recently used unit |
| `DiskCaches.DiskCache.EvictOne` | Kernel/FileSystem/DiskCache.cpp:133-146 | the last unit is saved if dirty before its buffer is reused |
| `DiskCaches.DiskCache.ReadOne` | Kernel/FileSystem/DiskCache.cpp:148-169 | returns the bytes of the volume, up to an access violation |
| `DiskCaches.DiskCache.WriteOne` | Kernel/FileSystem/DiskCache.cpp:171-193 | changes exactly the bytes written, also when the copy stops half way |
| `DiskCaches.DiskCache.ZeroFillOne` | Kernel/FileSystem/DiskCache.cpp:195-211 | zeroes exactly one block |
| `DiskCaches.DiskCache.FlushBlock` | Kernel/FileSystem/DiskCache.cpp:213-227 | saves one unit and leaves the volume as it reads |
| `DiskCaches.DiskCache.FlushAll` | Kernel/FileSystem/DiskCache.cpp:229-246 | afterwards the device holds the volume and nothing is dirty |
| `DiskCaches.DiskCache.FlushSpecific` | Kernel/FileSystem/DiskCache.cpp:248-262 | afterwards the device holds that unit, cached or not |
| `SchedulerState.ExactlyOnePlace` | Kernel/Multitasking/Scheduler.cpp:277-323 | between locked sections a thread is in exactly one place: on one processor, once on the ready list, blocked on an unresolved blocker, or handed over for freeing |
| `SchedulerState.AliveCount` | Kernel/Multitasking/Process.h:106-115 | the alive counter is the number of threads in the first three places |
| `SchedulerSteps.WakeKeeps` | Kernel/Multitasking/Thread.cpp:207-218 | waking a blocked thread keeps the invariant |
| `SchedulerSteps.AliveIsCounted` | Kernel/Multitasking/Process.h:108-115 | decrementing the alive counter never meets zero |
| `SchedulerSteps.NextIsReady` | Kernel/Multitasking/Scheduler.cpp:269-318 | the thread switched to is ready and runs nowhere else |
| `SchedulerSteps.SwitchKeeps` | Kernel/Multitasking/Scheduler.cpp:310-318 | the switch closes the hole in the invariant |
| `SchedulerSteps.NeverBlockedOnResolved` | Kernel/Multitasking/Scheduler.cpp:292-308 | no thread waits on a blocker that has been resolved: no wake-up is lost |
| `SchedulerSteps.UnblockHitsOwnIff` | Kernel/Multitasking/Scheduler.cpp:229-242 | an unblock ends the wait it was meant for exactly when its blocker was unresolved |
| `SchedulerSteps.UnblockResolves` | Kernel/Multitasking/Scheduler.cpp:229-242 | afterwards the blocker is resolved, no earlier result has changed, and its thread waits on nothing |
| `SchedulerSteps.UnblockKeepsIff` | Kernel/Multitasking/Blocker.cpp:19-25 | the invariant survives exactly when the wait ended was not a sleep |
| `SchedulerSteps.LateUnblockEndsOtherWait` | Kernel/Multitasking/Blocker.cpp:19-25 | states in which a late unblock ends another wait, of either kind, or requeues a freed sleeper |
| `SchedulerSteps.SleeperFreed` | Kernel/Multitasking/Scheduler.cpp:147-153 | the killer's steps that free a sleeper |
| `SchedulerSteps.RaceIsReached` | Kernel/Multitasking/Scheduler.cpp:277-323 | the pass in which a killer frees a sleeper ends in that last state |
| `Schedulers.Scheduler.constructor` | Kernel/Multitasking/Scheduler.cpp:16-30 | a machine with every processor on its idle thread, and nothing else, is valid |
| `Schedulers.Scheduler.RegisterProcess` | Kernel/Multitasking/Scheduler.cpp:166-179 | all threads of a new process become ready in order and are counted, and nothing else changes |
| `Schedulers.Scheduler.RegisterThread` | Kernel/Multitasking/Scheduler.cpp:194-212 | a thread of an exiting process is freed and never counted, any other becomes ready |
| `Schedulers.Scheduler.ExitThread` | Kernel/Multitasking/Scheduler.cpp:53-61 | marks the current thread |
| `Schedulers.Scheduler.ExitProcess` | Kernel/Multitasking/Scheduler.cpp:63-77 | only the first thread to ask becomes the killer of its process; the process is not alive afterwards and nothing else changes |
| `Schedulers.Scheduler.SetInvulnerable` | Kernel/Multitasking/Thread.h:70-71 | changes only that flag |
| `Schedulers.Scheduler.NewBlocker` | Kernel/Multitasking/Blocker.cpp:7-11 | the new blocker is unresolved, with the given kind and time, and disturbs nothing |
| `Schedulers.Scheduler.BeginBlock` | Kernel/Multitasking/Thread.h:143-149 | the thread has no blocker yet, as asserted, and then asks to block on this one |
| `Schedulers.Scheduler.UnblockUnchecked` | Kernel/Multitasking/Scheduler.cpp:229-242 | resolves the blocker of a thread that is not blocked, or wakes the thread from whatever it waits on |
| `Schedulers.Scheduler.Unblock` | Kernel/Multitasking/Scheduler.cpp:223-242 | whatever happened before the lock was taken, the blocker ends up resolved and the thread not blocked; the invariant is kept unless a sleep was ended |
| `Schedulers.Scheduler.FreeDeferredThreads` | Kernel/Multitasking/Scheduler.cpp:99-106 | the doubly advancing loop frees a single dead thread and leaves the second of two |
| `Schedulers.Scheduler.WakeReadyThreads` | Kernel/Multitasking/Scheduler.cpp:38-51 | exactly the sleepers due are woken, their threads stand behind the ready ones in order of their times, and nothing else changes |
| `Schedulers.Scheduler.HandleRequest` | Kernel/Multitasking/Scheduler.cpp:292-308 | the thread blocks exactly when nobody has resolved its blocker and otherwise goes on without it; a sleep joins the sleepers |
| `Schedulers.Scheduler.RetireCurrent` | Kernel/Multitasking/Scheduler.cpp:116-122 | the dying thread is handed over and uncounted |
| `Schedulers.Scheduler.FreeThread` | Kernel/Multitasking/Scheduler.cpp:148-161 | a sleeping or ready thread of a killed process leaves its list and is freed, and no other thread is touched |
| `Schedulers.Scheduler.InterruptThread` | Kernel/Multitasking/Thread.cpp:220-232 | an interruptable wait ends as interrupted and the thread goes behind the ready ones |
| `Schedulers.Scheduler.KillProcess` | Kernel/Multitasking/Scheduler.cpp:141-163 | in whatever order they are visited, the other threads of the process are told to die; those ready or asleep are handed over, those in an interruptable wait are interrupted and made ready, and no other thread or blocker is touched |
| `Schedulers.Scheduler.KillCurrentThread` | Kernel/Multitasking/Scheduler.cpp:108-164 | the thread ends, alone or with its whole process if it is the killer; one thread is added to the dead list |
| `Schedulers.Scheduler.Dispatch` | Kernel/Multitasking/Scheduler.cpp:310-318 | switches to the next ready thread or the idle one |
| `Schedulers.Scheduler.PickNext` | Kernel/Multitasking/Scheduler.cpp:277-323 | one pass keeps the invariant and every recorded result and hands over the dead thread; every sleeper due is unblocked and awake and every other sleep stays pending; the next thread is the first of the ready, the woken and last the current one, or the idle thread if there is none; the record of every thread afterwards |
| `SchedulerPasses.PassIs` | Kernel/Multitasking/Scheduler.cpp:277-323 | waking, settling the current thread and switching, one after the other, are such a pass |
| `SchedulerPasses.WokeAllDue` | Kernel/Multitasking/Scheduler.cpp:38-51 | stopping at the first sleeper that is not due misses none |
| `SchedulerPasses.KilledNext` | Kernel/Multitasking/Scheduler.cpp:141-163 | killing one more thread adds exactly that one to those killed, at any point of the loop |
| `SchedulerPasses.SleepIs` | Kernel/Multitasking/Scheduler.cpp:277-323 | what a pass makes of each sleep: over if due, else as it was unless its process is ended |
| `SchedulerPasses.MovesUp` | Kernel/Multitasking/Scheduler.cpp:269-323 | with every pass on any processor a ready thread runs or stands nearer the head of the list, unless its process is ended |
| `Shootdown.StepKeeps` | Kernel/Interrupts/IPICommunicator.cpp:56-98 | every atomic step of any processor keeps the protocol's invariant |
| `Shootdown.RunKeeps` | Kernel/Memory/AddressSpace.cpp:379-399 | in every state of every run a cached translation is in the table or is being unmapped |
| `Shootdown.CountdownCounts` | Kernel/Interrupts/IPICommunicator.cpp:19-98 | a request's countdown is the number of processors that still hold it |
| `Shootdown.UnmapReturnsClean` | Kernel/Memory/AddressSpace.cpp:390-399 | when unmapping returns no processor caches a translation of the range from before, whoever removed it, and none still holds the request |
| `Shootdown.StaleMeanwhile` | Kernel/Memory/AddressSpace.cpp:379-399 | a run in which another processor still caches a mapping after it was cleared, so the requests are needed |
| `Shootdown.QuietMeansCoherent` | Kernel/Memory/AddressSpace.cpp:516-526 | while nobody is unmapping, every cached translation is in the table |
| `Shootdown.QueueHasRoom` | Kernel/Core/CPU.cpp:45-56 | with at most 33 processors a push never finds the queue full |
| `Shootdown.QueueCanFill` | Kernel/Core/CPU.cpp:45-56 | any larger machine has a run that does |
| `ShootdownProgress.NoDeadlock` | Kernel/Interrupts/IPICommunicator.cpp:19-98 | unless all processors are at rest some step of the protocol is open: waiting processors never wait for each other alone |
| `ShootdownProgress.OneStep` | Kernel/Interrupts/IPICommunicator.cpp:19-98 | every step of an unmap under way lowers the number of steps left by exactly one |
| `ShootdownProgress.OtherStep` | Kernel/Memory/AddressSpace.cpp:379-399 | mappings and page table walks leave that number alone and an unmap adds its own steps at its beginning |
| `ShootdownProgress.ExactlySoManySteps` | Kernel/Interrupts/IPICommunicator.cpp:19-98 | in every run, while no further unmap begins, the protocol takes exactly the steps it has left and is at rest when it has taken them |
| `VirtualRanges.AlignedToIsLeast` | Kernel/Memory/Range.h:216-227 | the aligned part begins at the least aligned address, and is empty only if there is none |
| `VirtualRanges.MergeKeeps` | Kernel/Memory/VirtualAllocator.cpp:59-80 | inserting with merging keeps the ranges sorted and apart |
| `VirtualRanges.MergeCovers` | Kernel/Memory/VirtualAllocator.cpp:59-80 | and adds exactly the new addresses |
| `VirtualAllocators.VirtualAllocator.constructor` | Kernel/Memory/VirtualAllocator.cpp:9-12 | nothing is allocated |
| `VirtualAllocators.VirtualAllocator.IsAllocated` | Kernel/Memory/VirtualAllocator.cpp:37-57 | decides membership in the allocated ranges |
| `VirtualAllocators.VirtualAllocator.MergeAndEmplace` | Kernel/Memory/VirtualAllocator.cpp:59-80 | joins the range with the neighbours it touches |
| `VirtualAllocators.VirtualAllocator.FindGap` | Kernel/Memory/VirtualAllocator.cpp:126-143 | the first gap with aligned room; no lower address would do |
| `VirtualRanges.RoundUpIs` | Kernel/Memory/VirtualAllocator.cpp:82-100 | rounding up gives the least multiple of a page, or wraps to less than the length |
| `VirtualAllocators.VirtualAllocator.Allocate` | Kernel/Memory/VirtualAllocator.cpp:82-164 | for the least whole number of pages that holds the length: the lowest aligned address with room, adding exactly its range; panics exactly if there is none, which includes every length that cannot be rounded up in 64 bits |
| `VirtualAllocators.VirtualAllocator.AllocateRange` | Kernel/Memory/VirtualAllocator.cpp:166-216 | takes the least run of whole pages around the range; exactly which clashes are noticed, and that the list is spoilt exactly by the others and by pages that reach beyond the base |
| `VirtualAllocators.ClashCases` | Kernel/Memory/VirtualAllocator.cpp:190-212 | what the neighbours of the insertion point say about clashes |
| `VirtualAllocators.SwallowBreaks` | Kernel/Memory/VirtualAllocator.cpp:208-212 | a swallowed neighbour always leaves an ill-formed list |
| `VirtualAllocators.SwallowExample` | Kernel/Memory/VirtualAllocator.cpp:208-212 | such an input |
| `VirtualAllocators.VirtualAllocator.Deallocate` | Kernel/Memory/VirtualAllocator.cpp:228-275 | frees exactly the range if all of it is allocated; the list stays well formed exactly when the range is not an empty one inside another |
| `VirtualAllocators.CutKeepsIff` | Kernel/Memory/VirtualAllocator.cpp:266-274 | cutting out a range keeps the rest apart unless nothing was cut out of the middle |
| `VirtualAllocators.EmptyRangeExample` | Kernel/Memory/VirtualAllocator.cpp:266-274 | such an empty range and the two touching ranges it leaves |
| `PageTables.EntryRoundTrip` | Kernel/Memory/GenericPagingEntry.h:113-133 | an entry has exactly the attribute bits asked for and returns the page address it was given exactly when that has 52 bits |
| `PageTables.IndicesInjective` | Kernel/Memory/AddressSpace.cpp:109-117 | two pages share their four indices exactly when their low 48 bits agree |
| `PageTables.Reach` | Kernel/Memory/AddressSpace.cpp:233-295 | every table is found by walking its own path |
| `PageTables.LeafWrite` | Kernel/Memory/AddressSpace.cpp:286-294 | writing a last-level entry changes one page's translation |
| `PageTables.HangTranslates` | Kernel/Memory/AddressSpace.cpp:247-284 | hanging in an empty table changes none |
| `PageTables.HangOpens` | Kernel/Memory/AddressSpace.cpp:247-284 | and closes a way exactly if it is the supervisor's and on it |
| `PageTables.ClosedLevels` | Kernel/Memory/AddressSpace.cpp:247-284 | creating the missing tables of a page closes exactly the ways that share the first of them |
| `PageTables.UserLeaf` | Kernel/Memory/AddressSpace.cpp:286-294 | user mode can use the page exactly when its entry and the way to it both allow it |
| `AddressSpaces.AddressSpace.constructor` | Kernel/Memory/AddressSpace.cpp:20-29 | an empty space maps nothing and closes no way |
| `AddressSpaces.AddressSpace.EnsureTable` | Kernel/Memory/AddressSpace.cpp:247-284 | the next table is found or hung in, and no other table appears; no translation and no use from user mode changes, and a table hung in for the supervisor closes every way through it |
| `AddressSpaces.AddressSpace.MapPage` | Kernel/Memory/AddressSpace.cpp:233-295 | the page gets its frame, every other page keeps its own and its use from user mode, only tables are written; user mode can use the page exactly when it was mapped for it and no table on the way is the supervisor's, and a supervisor mapping closes exactly the ways that share a table it creates |
| `AddressSpaces.MapNeighbours` | Kernel/Memory/AddressSpace.cpp:233-295 | in a new space a user page under the same top-level table as a supervisor page can be used exactly if it is mapped first |
| `AddressSpaces.AddressSpace.MapRange` | Kernel/Memory/AddressSpace.cpp:349-360 | every page of the range gets its frame and can be used from user mode exactly when it was mapped for it and its way was open before; no other page changes; mapped for the supervisor the range closes exactly the ways that share a missing table with one of its pages |
| `AddressSpaces.RangeSharesGrows` | Kernel/Memory/AddressSpace.cpp:349-360 | what one more page of the range closes, in terms of the tables missing before the first |
| `AddressSpaces.AddressSpace.LocalUnmapPage` | Kernel/Memory/AddressSpace.cpp:421-440 | clears one translation and its use from user mode, and nothing else |
| `AddressSpaces.AddressSpace.LocalUnmapRange` | Kernel/Memory/AddressSpace.cpp:443-453 | clears those of the range, and nothing else |
| `AddressSpaces.AddressSpace.PhysicalAddressOf` | Kernel/Memory/AddressSpace.cpp:455-472 | the address of a mapped page; for an unmapped one exactly when the answer is null, as the last entry's present bit is not looked at |
| `PipeRings.Taken` | Kernel/FileSystem/Pipe.cpp:67-84 | reading a straight stretch takes it off the front of what the ring holds |
| `PipeRings.Appended` | Kernel/FileSystem/Pipe.cpp:114-131 | writing one appends it, around the end as well |
| `Pipes.Pipe.constructor` | Kernel/FileSystem/Pipe.cpp:7-21 | an empty pipe of the least number of whole pages for its capacity |
| `Pipes.Pipe.Clone` | Kernel/FileSystem/Pipe.cpp:23-45 | a new end is counted; a closed one cannot be cloned |
| `Pipes.Pipe.Read` | Kernel/FileSystem/Pipe.cpp:47-92 | returns the oldest bytes, as many as asked for and held, and wakes every parked writer; a fault changes nothing |
| `Pipes.Pipe.Write` | Kernel/FileSystem/Pipe.cpp:94-139 | accepts as many bytes as fit and wakes every parked reader; a fault changes nothing that is held |
| `Pipes.Pipe.ReadsArePrefix` | Kernel/FileSystem/Pipe.cpp:47-139 | over any run what was read is a prefix of what was written, and the ring holds the rest |
| `Pipes.Pipe.Close` | Kernel/FileSystem/Pipe.cpp:141-172 | closing the last end of a side wakes exactly the threads parked for it, and any other close wakes nobody |
| `Pipes.Pipe.ParkReader` | Kernel/FileSystem/Pipe.cpp:174-204 | parks exactly on an empty pipe with a writer left |
| `Pipes.Pipe.ParkWriter` | Kernel/FileSystem/Pipe.cpp:206-236 | parks exactly on a full pipe with a reader left |
| `Pipes.Pipe.Leave` | Kernel/FileSystem/Pipe.cpp:174-236 | takes one thread off the lists and no other |
| `Mutexes.Mutex.TryLock` | Kernel/Multitasking/Mutex.cpp:6-33 | takes a free mutex or queues the thread, so that at most one thread ever holds it |
| `Mutexes.Mutex.Unlock` | Kernel/Multitasking/Mutex.cpp:35-48 | frees the mutex and wakes the longest waiter: a free mutex with waiters has a woken thread |
| `Mutexes.SharedMutex.WriterExcludes` | Kernel/Multitasking/Mutex.cpp:50-134 | a writer excludes every other holder |
| `Mutexes.SharedMutex.NeverForgotten` | Kernel/Multitasking/Mutex.cpp:50-134 | while a thread waits for a mutex nobody holds, another has been woken and is on no list |
| `Mutexes.SharedMutex.TryExclusive` | Kernel/Multitasking/Mutex.cpp:50-74 | takes a mutex nobody holds or queues the thread |
| `Mutexes.SharedMutex.TryShared` | Kernel/Multitasking/Mutex.cpp:98-122 | joins the readers unless there is a writer, or queues the thread |
| `Mutexes.SharedMutex.ExclusiveUnlock` | Kernel/Multitasking/Mutex.cpp:76-96 | wakes all shared waiters, or the first exclusive one if there is none |
| `Mutexes.SharedMutex.SharedUnlock` | Kernel/Multitasking/Mutex.cpp:124-134 | the last reader wakes the first exclusive waiter |
| `DeferredIrq.StepKeeps` | Kernel/Interrupts/DeferredIRQ.cpp:18-84 | every atomic step of the thread and the invokers keeps the invariant: the published blocker exists, counters agree, and pending work is on its way |
| `DeferredIrq.RunKeeps` | Kernel/Interrupts/DeferredIRQ.cpp:18-84 | so it holds in every state of every run |
| `DeferredIrq.NoForgottenWork` | Kernel/Interrupts/DeferredIRQ.cpp:47-84 | if work is pending while the thread is blocked and unresolved, an invoker is about to wake it |
| `DeferredIrq.NoInvocationLost` | Kernel/Interrupts/DeferredIRQ.cpp:18-29 | invocations are exactly those handled and those pending |
| `DeferredIrq.CountedWhenTaken` | Kernel/Interrupts/DeferredIRQ.h:21-27 | the counter is positive whenever one is taken off |
| `DeferredProgress.WorkIsOpen` | Kernel/Interrupts/DeferredIRQ.cpp:47-84 | unless the thread sleeps with nothing pending and nobody about to wake it, a step is open |
| `DeferredProgress.WorkFalls` | Kernel/Interrupts/DeferredIRQ.cpp:47-84 | every step that finishes work lowers a bound on the steps left |
| `DeferredProgress.WorkEnds` | Kernel/Interrupts/DeferredIRQ.cpp:47-84 | so without new work the thread comes to rest within that many steps |
| `DeferredProgress.PendingIsRun` | Kernel/Interrupts/DeferredIRQ.cpp:47-84 | in every run, what was invoked before the thread published its blocker has been run before it blocks |
| `PhysicalRegions.DynamicBitArray.FindBit` | Kernel/Common/DynamicBitArray.h:26-57 | finds the first bit of the wanted value from the hint's word on, going round at the end, exactly when there is one |
| `PhysicalRegions.DynamicBitArray.SetBit` | Kernel/Common/DynamicBitArray.h:108-120 | changes one bit |
| `PhysicalRegions.PhysicalRegion.NumbersAndAddresses` | Kernel/Memory/PhysicalRegion.cpp:18-28 | page numbers and page addresses are inverse to each other |
| `PhysicalRegions.PhysicalRegion.Partition` | Kernel/Memory/PhysicalRegion.cpp:30-76 | pages are free or handed out, and the two counts add up |
| `PhysicalRegions.PhysicalRegion.AllocatePage` | Kernel/Memory/PhysicalRegion.cpp:30-56 | the first page not handed out from the hint's word on, or none exactly when all are out; the hint moves behind it |
| `PhysicalRegions.PhysicalRegion.FreePage` | Kernel/Memory/PhysicalRegion.cpp:58-76 | takes back exactly a handed-out page of the region and refuses anything else |
| `Calendar.MonthTable` | Kernel/Time/Time.cpp:47-123 | the table of days before a month sums the lengths of the months before it, and a year is its twelve months |
| `Calendar.MonthIs` | Kernel/Time/Time.cpp:22-123 | leap years are those the Gregorian calendar has, and the months of a year have its twelve lengths, given as a list |
| `Calendar.MonthStarts` | Kernel/Time/Time.cpp:47-123 | the days before a month in one formula, without the table |
| `Calendar.PosixSeconds` | Kernel/Time/Time.cpp:125-130 | the conversion is the formula of section 4.16 of POSIX.1-2017, with the day of the year from that formula |
| `Calendar.SecondsIncrease` | Kernel/Time/Time.cpp:125-130 | later dates are exactly those with more seconds |
| `Calendar.DaysInYearsSinceEpochBefore` | Kernel/Time/Time.cpp:34-45 | sums the lengths of the years since 1970 |
| `Calendar.ToUnix` | Kernel/Time/Time.cpp:125-130 | the seconds since 1970 of a date by that formula |
| `Calendar.FromUnix` | Kernel/Time/Time.cpp:132-179 | the one date of the Gregorian calendar with that many seconds |
| `Calendar.RoundTrip` | Kernel/Time/Time.cpp:125-179 | converting a date there and back returns it |

## Left out

- HeapBlocks.HeapBlock.constructor: requires a block with a spare id slot, because without one freeing reads past the bitmap; `SpareSlotIff` and `FreeWithoutSpareSlot` say exactly when that happens.
- HeapAllocators.HeapAllocator.FeedBlock: requires chunk sizes that are powers of two and a block large enough for its bitmap, because otherwise the kernel's alignment arithmetic and unsigned sizes wrap.
- MemoryMaps.MemoryMap.CorrectOverlappingRanges: for lists with triple cover or empty entries no exact condition is given, because some of them come out right; one failing run of each kind is.
- MemoryMaps.MemoryMap.CorrectOverlappingRanges: entry types are positive, as the firmware's are, because type 0 would rank below usable memory.
- DiskCaches.DiskCache.constructor: requires the file system block to divide a page or be a multiple of one, because the assertion that should check this reads a field that is not yet set.
- VirtualAllocators.VirtualAllocator.AllocateRange: requires a base that stays out of the last page of the address space, because rounding up would wrap there.
- Pipes.Pipe.Clone: counts the new end in one step with the test that the old one is open, because the kernel changes the counts without the lock that other operations hold.
- Calendar.FromUnix: times up to the last year a 16-bit year can hold, because later ones wrap.
- Heap refilling from virtual memory and the check for a deadlocked heap.
- Copying and sorting of the firmware's memory map before the correction, and the fixed size of the entries buffer.
- The disk cache's bypass for file systems in memory.
- Copying and clearing of red-black trees and transparent comparators, which would only repeat the search and insertion with another comparison.
- Red-black trees that allow equal keys: there an insertion caches a key equal to the greatest as the last node although it hangs to the left of the old one.
- Huge pages, page attribute tables, the no-execute bit and the two-level tables of the 32-bit build.
- Spin locks and interrupt disabling: a section under a lock is one step or one method; atomic operations are single steps.
- Time-outs of inter-processor requests and requests to hang a processor.
- The task finalizer that frees handed-over threads and processes, and exit codes.
- Unregistering deferred interrupt handlers.
- Threads, blockers, processes and processors are records found by number, not linked objects; the scheduler's lists and the ordered sets of ranges are sequences, so aliasing of their nodes is not captured.
- Words of the bit array are sequences of 64 booleans; bit tricks on them are stated as what they compute.
- Drivers, file systems, the virtual file system, system calls, the window manager and the task loader, which do not share the properties modelled here.

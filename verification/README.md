# Verified models of the kernel's core algorithms

This project models six stateful parts of the kernel in Dafny and proves what each of them keeps:
the red-black tree, physical frames and page tables, the process manager, the allocator for large
blocks, the ext4 allocators and inode tables, and the path parser with the mount table. Check it with
`dafny verify dfyconfig.toml`.

## How the models are built

Code that changes things in place is modelled by classes whose methods make the same assignments.
Each method is proved against an abstract value, and the main properties are proved about that value
for every input and every run.

- **Red-black tree** (`RedBlackShape`, `RedBlackLinks`, `RedBlackRules`, `RedBlackTree`). The fields
  of the nodes are arrays indexed by node number: `left`, `right`, `parent`, `color`, and a shared
  sentinel `nil` whose `parent` is written during a deletion. Keys are a function of the node, fixed
  while the node is in the tree. Ghost state pairs a subtree with the path above it; every turn of the
  two repair loops is a step on such pairs. The abstract value is the in-order sequence of node
  numbers, so that equal keys, order and node identity are all visible in it. `Relink` and the case
  methods give names to pieces of the program that it writes out more than once or inside one loop.
- **Frames and page tables** (`Bits`, `FramePool`, `PageTables`, `VirtualMemory`, `FrameOwnership`). The pool has a word
  bitmap, reference counts and a free counter; its abstract value is the sequence of counts. Page
  directories and tables refine a map from directory and page to an entry (`Lookup`). Page tables are
  page-aligned objects with a number of their own, since `>> 12` keeps nothing else. Memory for tables
  and directories may be refused at any time (a ghost counter records it). TLB flushes do nothing.
- **Process manager** (`Scheduler`, `ProcessManager`). `Scheduler` is a state machine over process
  numbers with one inductive invariant. `ProcessManager` has the table of processes, the byte bitmap,
  the heads of the queues and one `next` link per process, and is proved to take exactly the steps of
  that machine. The links are an array indexed by process number. Tick counts and slices wrap as
  32-bit numbers do. The software interrupt that asks for scheduling is a separate, later step.
- **Large blocks** (`Heap`, `MemoryManager`). Chunk headers are a map from address to header; the
  proof that chunks never overlap is what makes a write to one header leave the others alone. A header
  takes 20 bytes (32-bit pointers and sizes, with padding). Each call is one atomic step.
- **ext4** (`GroupBitmaps`, `Ext4Layout`, `Ext4Inodes`, `Ext4`). The disk is a map from block number
  to block. Every metadata block has one role, so blocks of different roles are different blocks.
  Transfers move one whole block. Blocks and inodes are allocated by two methods that are proved
  against one definition.
- **Paths and mounts** (`Paths`, `MountTable`). A pointer that has reached the terminator is an index
  equal to the length of the string. `Split` is an independent definition of the parts of a path.

## What turned out false or surprising

- A free pool frame at physical address 0 is taken for a refusal: an allocation that reaches it fails
  and never gives it back. A failed allocation (with memory for page tables granted) restores the pool
  if and only if no free frame has that address (`VirtualMemory.VirtualMemoryManager.AllocatePages`,
  `FramePool.NoFreeNull`). `VirtualMemory.NullFrameLost` shows the loss on the pool that the kernel sets
  up on a machine with 8 MB, where the size of the pool wraps around.
- The roll-back of a failed allocation restores the old translations if and only if the pages it can
  reach, the first `Reach` ones, had none. Mapping over a mapped page leaks its frame; an allocation
  leaks none if and only if no page of its range held one (`FrameOwnership.AllocationTight`).
- A size above 2^32 - 4096 rounds up to no page at all, and the allocation then succeeds with nothing
  mapped (`VirtualMemory.PagesCover`). Rounding a request for memory wraps in the same way above
  2^32 - 16, and such a request is then served as a small one (`Heap.LargeExactly`).
- A large block that is freed is never used again: its header is off the list and has no links, so
  neither merging loop is entered. `Heap.NothingReused` proves this over every run.
- An inode record in memory is 166 bytes. Writing an inode spares the next one of its block if and only
  if slots are at least that large (`Ext4Inodes.NeighbourSpared`); the usual slots of 128 bytes are not.
- The block allocator numbers bit i of group g as g * per + i + 1, which is the block that the bit
  stands for if and only if the first data block is block 1. Otherwise it can hand out a block that is
  in use (`GroupBitmaps.HandsOutFreeExactly`, an if-and-only-if).
- Only one leading slash of a path is skipped, so a path that begins with two has an empty first
  component (`Paths.ComponentsClean`), and its parent path fails to parse back in exactly one case
  (`Paths.ParentParses`).
- A mount serves its own path only if that ends in a slash (`MountTable.ServesItself`).
- Blocking or ending the current process clears `current_process` before the test that would request
  the scheduler, so that the test never holds (`Terminate` and `Block` return it, and it is proved
  false); the processor stays idle until the next step.
- Process number 0, which a comment reserves, is the first one handed out.
- `README_new_process_manager.md` speaks of 256 processes and priorities 0 to 3. The code has 64
  processes and 16 levels, and the model follows the code.

## Model

| member | source | states |
|---|---|---|
| RedBlackTree.RBTree.constructor | src/kernel/kerstd/rbtree.c:175-185 | a new tree is valid and empty; its root is the black sentinel |
| RedBlackTree.RBTree.LeftRotate | src/kernel/kerstd/rbtree.c:6-32 | a rotation at any place of any tree turns exactly that subtree, with all parent links right, and leaves the sentinel's parent alone |
| RedBlackTree.RBTree.RightRotate | src/kernel/kerstd/rbtree.c:35-61 | the mirror image |
| RedBlackShape.RotateLeftKeepsOrder | src/kernel/kerstd/rbtree.c:6-32 | rotations keep the in-order sequence of nodes |
| RedBlackShape.RotateRightKeepsOrder | src/kernel/kerstd/rbtree.c:35-61 | the mirror image |
| RedBlackTree.RBTree.InsertFixup | src/kernel/kerstd/rbtree.c:64-108 | from a tree whose only fault is a red node below a red parent, or a red root, the loop reaches a red-black tree with the same in-order nodes, with at most two rotations and otherwise two levels per turn |
| RedBlackTree.RBTree.InsertFixLeft | src/kernel/kerstd/rbtree.c:66-84 | one turn keeps "the only fault is at z": it either climbs two levels or rotates and ends the loop |
| RedBlackTree.RBTree.InsertFixRight | src/kernel/kerstd/rbtree.c:85-104 | the mirror image |
| RedBlackRules.PushUpKeeps | src/kernel/kerstd/rbtree.c:68-73 | recolouring parent, uncle and grandparent moves the possible fault up two levels and keeps black heights and order |
| RedBlackRules.TurnOutKeeps | src/kernel/kerstd/rbtree.c:75-79 | turning an inner grandchild outwards keeps the fault where it is, between the same two red nodes |
| RedBlackRules.RotateOverKeeps | src/kernel/kerstd/rbtree.c:80-83 | the last rotation leaves no fault: z's parent is black |
| RedBlackRules.RotateOverOrder | src/kernel/kerstd/rbtree.c:80-83 | and keeps the order |
| RedBlackRules.InsertStateEnds | src/kernel/kerstd/rbtree.c:106-107 | when the loop stops, blackening the root gives a red-black tree |
| RedBlackTree.RBTree.AttachLeaf | src/kernel/kerstd/rbtree.c:217-229 | the new node hangs as a red leaf where the search ended, all other links unchanged |
| RedBlackTree.RBTree.Insert | src/kernel/kerstd/rbtree.c:203-233 | inserting any fresh node into any valid tree, equal keys included, gives a valid tree whose nodes in order are the old ones with z after every key that is not larger; at most two rotations, and twice the climbs are at most the height |
| RedBlackShape.SortedInsertPosition | src/kernel/kerstd/rbtree.c:207-215 | equal keys go to the right: the new node comes after all equal keys and before all larger ones |
| RedBlackShape.SortedInsertFacts | src/kernel/kerstd/rbtree.c:203-233 | the new contents are sorted and are the old nodes plus z |
| RedBlackTree.RBTree.DeleteFixup | src/kernel/kerstd/rbtree.c:111-172 | from a tree in which one subtree is a black level short, the loop reaches a red-black tree with the same in-order nodes, with at most three rotations and otherwise one level per turn |
| RedBlackTree.RBTree.DeleteFixLeft | src/kernel/kerstd/rbtree.c:113-140 | one turn for a left child keeps "x is one black level short", or ends the loop |
| RedBlackTree.RBTree.DeleteFixRight | src/kernel/kerstd/rbtree.c:141-169 | the mirror image |
| RedBlackTree.RBTree.DeleteCase1Left | src/kernel/kerstd/rbtree.c:115-121 | a red sibling is rotated away: same shortage, black sibling, red parent |
| RedBlackTree.RBTree.DeleteCase2 | src/kernel/kerstd/rbtree.c:122-125 | a black sibling with black children turns red, and the shortage moves up one level |
| RedBlackTree.RBTree.DeleteCases34Left | src/kernel/kerstd/rbtree.c:126-140 | with a red child of the sibling, at most two rotations pay the shortage |
| RedBlackTree.RBTree.DeleteCase1Right | src/kernel/kerstd/rbtree.c:143-149 | mirror image of case 1 |
| RedBlackTree.RBTree.DeleteCases34Right | src/kernel/kerstd/rbtree.c:154-168 | mirror image of cases 3 and 4 |
| RedBlackRules.SiblingUpKeeps | src/kernel/kerstd/rbtree.c:115-121 | case 1 keeps the shortage and makes the sibling black |
| RedBlackRules.ShortageUpKeeps | src/kernel/kerstd/rbtree.c:122-125 | case 2 keeps all black heights but that of the parent, which is then short |
| RedBlackRules.NearTurnedKeeps | src/kernel/kerstd/rbtree.c:127-133 | case 3 makes the sibling's far child red and keeps black heights |
| RedBlackRules.PaidKeeps | src/kernel/kerstd/rbtree.c:134-139 | case 4 ends the shortage and creates no red pair |
| RedBlackRules.DeleteStateEnds | src/kernel/kerstd/rbtree.c:171-171 | when the loop stops, blackening x gives a red-black tree |
| RedBlackRules.OneChildState | src/kernel/kerstd/rbtree.c:241-264 | taking out a node with at most one child leaves a red-black tree, or one whose replacement is one level short if the node was black |
| RedBlackRules.TwoChildrenState | src/kernel/kerstd/rbtree.c:265-305 | the same when the successor takes the node's place and colour |
| RedBlackRules.TwoChildrenOrder | src/kernel/kerstd/rbtree.c:265-305 | and the in-order sequence loses exactly the node taken out |
| RedBlackTree.RBTree.TakeOut | src/kernel/kerstd/rbtree.c:237-305 | relinking takes exactly z out in all three cases, and x, whose parent may be recorded in the sentinel, marks the place of the shortage |
| RedBlackTree.RBTree.Delete | src/kernel/kerstd/rbtree.c:236-311 | deleting any node of any valid tree gives a valid tree whose nodes in order are the old ones without z; at most three rotations, and climbs at most the height |
| RedBlackShape.WithoutPosition | src/kernel/kerstd/rbtree.c:236-311 | what is taken out is the node z itself and nothing moves |
| RedBlackShape.DistinctNoRepeats | src/kernel/kerstd/rbtree.c:236-311 | a node is in the tree at most once, so that without z means the old set minus z |
| RedBlackTree.RBTree.Minimum | src/kernel/kerstd/rbtree.c:314-319 | the leftmost node of a subtree, the first of it in order |
| RedBlackTree.RBTree.Search | src/kernel/kerstd/rbtree.c:188-200 | a node of the tree with the key if there is one, otherwise none, even with equal keys on both sides; 2^links <= (n + 1)^2 |
| RedBlackShape.HeightBound | src/kernel/kerstd/rbtree.c:64-172 | every red-black tree of n nodes has height at most 2 log2(n + 1) |
| RedBlackShape.DescendAvoids | src/kernel/kerstd/rbtree.c:191-197 | the side the search leaves behind cannot hold the key |
| RedBlackTree.RunMatchesBag | src/kernel/kerstd/rbtree.c:203-311 | over every run of insertions and deletions the keys in the tree are those of a plain multiset |
| RedBlackTree.RunAndSearch | src/kernel/kerstd/rbtree.c:188-311 | after every such run, on the linked nodes, a search succeeds exactly if the multiset holds the key |
| FramePool.PageFrameManager.constructor | src/kernel/memory/paging.c:38-63 | a new pool has all frames free, at consecutive page-aligned addresses |
| FramePool.PageFrameManager.Allocate | src/kernel/memory/paging.c:66-91 | takes the first free frame; bit set iff count positive, and the counter equals the number of free frames, before and after |
| FramePool.PageFrameManager.Free | src/kernel/memory/paging.c:94-128 | gives back one reference of the frame an address names, with the same agreement kept; every other address changes nothing |
| FramePool.IndexOfAddress | src/kernel/memory/paging.c:57-57 | the address handed out for a frame names that frame |
| FramePool.AddressOfIndex | src/kernel/memory/paging.c:103-103 | and an aligned address is the address of the frame it names |
| FramePool.FreeForeign | src/kernel/memory/paging.c:102-117 | a free changes nothing if and only if its address is in no frame in use, in pools that wrap around too |
| FramePool.FreedOne | src/kernel/memory/paging.c:119-127 | a free of an address in a frame in use takes one reference from that frame and from no other |
| FramePool.AllocateThenFree | src/kernel/memory/paging.c:66-128 | freeing what was just allocated restores the counts |
| FramePool.FreeCountUpdate | src/kernel/memory/paging.c:82-125 | the counter moves by one exactly when a count becomes or stops being zero |
| FramePool.FreeCountZero | src/kernel/memory/paging.c:75-90 | the search fails exactly if the counter is zero |
| FramePool.NullFrame | src/kernel/memory/paging.c:57-90 | exactly which pools have a frame at address 0, the failure value |
| FramePool.ReachAll | src/kernel/memory/paging.c:66-91 | the number of allocations before the failure value comes up is at most the number of free frames, and equal to it if and only if no free frame has address 0 |
| FramePool.ReachBefore | src/kernel/memory/paging.c:66-91 | otherwise it is the number of free frames before that one |
| PageTables.WithTableKeeps | src/kernel/memory/paging.c:231-245 | adding an empty table changes no translation |
| PageTables.WithEntryKeeps | src/kernel/memory/paging.c:247-256 | writing an entry changes one page's translation, and no user page of another directory |
| PageTables.WithDirectoryKeeps | src/kernel/memory/paging.c:140-159 | a new directory has no user page, shares the kernel's, and changes no other directory |
| PageTables.MadeWord | src/kernel/memory/paging.c:250-256 | the 32-bit word of a new entry is the base from bit 12 on and the low five bits of the flags, with bit 0 set |
| PageTables.WordDetermines | include/kernel/memory/paging.h:30-42 | different entries have different words |
| PageTables.WithTableAdds | src/kernel/memory/paging.c:231-245 | a table that is added gets the same five bits in its directory entry, and no other directory entry changes |
| VirtualMemory.VirtualMemoryManager.PdCreate | src/kernel/memory/paging.c:140-159 | a new directory as above, or nothing changes |
| VirtualMemory.VirtualMemoryManager.GetPhysicalAddress | src/kernel/memory/paging.c:180-207 | walking the two levels gives what the flat map gives, 0 if the page is absent |
| VirtualMemory.VirtualMemoryManager.MapPage | src/kernel/memory/paging.c:221-262 | on success exactly one page of the flat map changes, and the word of its entry is the page's physical address with the five flag bits that were asked for and bit 0 set; directory entries appear only for missing tables, with those bits; it fails, changing nothing, only without a directory, for address 0, or when memory for a missing table is refused |
| VirtualMemory.VirtualMemoryManager.UnmapPage | src/kernel/memory/paging.c:265-300 | exactly one page becomes absent, all bits of its entry are cleared, and its frame loses one reference |
| VirtualMemory.VirtualMemoryManager.AllocatePages | src/kernel/memory/paging.c:515-546 | on success every page of the range maps to its own previously free frame, with the entry's word as for one page, and nothing else changes; unless memory for a table is refused it succeeds if and only if the range is no longer than `Reach`; after a failure the counts are as before if and only if memory was refused or no free frame has address 0, and the translations are if and only if the first `Reach` pages had none |
| VirtualMemory.VirtualMemoryManager.RollBack | src/kernel/memory/paging.c:528-542 | undoes the mappings made so far and gives back each frame |
| VirtualMemory.VirtualMemoryManager.FreePages | src/kernel/memory/paging.c:549-564 | every page of the range becomes absent and each page's frame loses one reference |
| VirtualMemory.AllOrNothing | src/kernel/memory/paging.c:526-542 | a failed allocation leaves no trace if and only if it lost no frame and the pages reached had no translation; without a free frame at address 0 it loses none |
| VirtualMemory.RestoredIffUnmapped | src/kernel/memory/paging.c:528-542 | unmapping pages restores the translations if and only if they had none; it always does if the whole range had none |
| VirtualMemory.NullFrameLost | src/kernel/memory/paging.c:451-459 | on a new pool that begins at 16 MB, on a machine with 8 MB, a request that reaches the frame at address 0 fails and leaves one frame fewer |
| VirtualMemory.TakenCount | src/kernel/memory/paging.c:525-543 | taking frames lowers the free counter by exactly their number |
| VirtualMemory.PagesCover | src/kernel/memory/paging.c:522-522 | the pages cover the size asked for if and only if it is at most 2^32 - 4096 |
| VirtualMemory.FreeAfterAllocate | src/kernel/memory/paging.c:515-564 | freeing a range just allocated restores every count |
| VirtualMemory.TranslationsAfterFree | src/kernel/memory/paging.c:515-564 | and every translation |
| FrameOwnership.AllocationKeepsOwned | src/kernel/memory/paging.c:515-546 | an allocation of user pages keeps "no frame is mapped twice, and each mapped one has count 1", across all directories |
| FrameOwnership.RefusalKeepsOwned | src/kernel/memory/paging.c:526-542 | so does a failed one |
| FrameOwnership.FreeKeepsOwned | src/kernel/memory/paging.c:549-564 | so does a release |
| FrameOwnership.NewDirectoryKeepsOwned | src/kernel/memory/paging.c:140-159 | so does a new directory |
| FrameOwnership.AllocationTight | src/kernel/memory/paging.c:515-546 | if every frame in use is mapped, this is still so after an allocation if and only if no page of its range held a frame |
| FrameOwnership.RefusalTight | src/kernel/memory/paging.c:526-542 | after a failed one, if and only if it lost no frame and no page that it reached held one |
| FrameOwnership.FreeTight | src/kernel/memory/paging.c:549-564 | a release leaks no frame |
| FrameOwnership.Run | src/kernel/memory/paging.c:140-564 | every run of these on any number of directories keeps single ownership, and the user pages of directories that it does not name |
| FrameOwnership.RunFromStart | src/kernel/memory/paging.c:438-472 | so does every run that begins with a new pool and a kernel directory |
| ProcessQueues.LinkInsert | src/kernel/multitask/process.c:52-57 | linking a process in before a position gives the chain with it there |
| ProcessQueues.LinkRemove | src/kernel/multitask/process.c:92-97 | unlinking gives the chain without it |
| ProcessQueues.ChainUnique | include/kernel/multitask/process.h:86-86 | the links determine the queue |
| ProcessManagement.ProcessManager.Enqueue | src/kernel/multitask/process.c:36-58 | the queue gains the process in the order of identifiers, links outside it and the process unchanged |
| ProcessManagement.ProcessManager.Dequeue | src/kernel/multitask/process.c:61-72 | takes the first process and clears its link, none from an empty queue |
| ProcessManagement.ProcessManager.Remove | src/kernel/multitask/process.c:75-99 | takes a process out wherever it is and clears its link; finds it exactly if it is in the queue |
| ProcessManagement.ProcessManager.FindFreePid | src/kernel/multitask/process.c:11-20 | the least identifier not in use, from the bitmap alone |
| ProcessManagement.ProcessManager.SetPidInUse | src/kernel/multitask/process.c:23-33 | changes one bit, none for an identifier out of range |
| ProcessManagement.ProcessManager.Create | src/kernel/multitask/process.c:147-271 | a new process under the least free identifier, ready on its clamped level with a full slice, or nothing changes; table, bitmap, links and counter agree |
| ProcessManagement.ProcessManager.Terminate | src/kernel/multitask/process.c:274-307 | the current process moves to the queue of terminated ones, unknown identifiers are ignored, and the scheduler is never requested |
| ProcessManagement.ProcessManager.Block | src/kernel/multitask/process.c:310-338 | a ready or the current process moves to the blocked queue with its wake-up time, any other is left alone, and the scheduler is never requested |
| ProcessManagement.ProcessManager.Unblock | src/kernel/multitask/process.c:341-359 | a blocked process moves to the ready queue of its level; any other is left alone |
| ProcessManagement.ProcessManager.Schedule | src/kernel/multitask/process.c:372-424 | takes exactly the machine's scheduling step |
| ProcessManagement.ProcessManager.WakeSleepers | src/kernel/multitask/process.c:446-454 | the scan, which unlinks from the list it walks, wakes exactly what waking each due process in turn does |
| ProcessManagement.ProcessManager.Reap | src/kernel/multitask/process.c:457-476 | every terminated process leaves table, bitmap and counter |
| ProcessManagement.ProcessManager.Tick | src/kernel/multitask/process.c:427-477 | takes exactly the machine's clock step |
| ProcessManagement.Run | src/kernel/multitask/process.c:124-477 | after every run, tables, bitmap, links and counters represent the machine's state after that run |
| Scheduler.CreatedKeeps | src/kernel/multitask/process.c:147-271 | creation keeps the invariant: one place per process, sorted queues, levels in range, true count |
| Scheduler.ExitedKeeps | src/kernel/multitask/process.c:274-307 | so does ending |
| Scheduler.SleptKeeps | src/kernel/multitask/process.c:310-338 | so does blocking |
| Scheduler.WokenKeeps | src/kernel/multitask/process.c:341-359 | so does waking |
| Scheduler.ReapedKeeps | src/kernel/multitask/process.c:457-476 | so does clearing away the terminated |
| Scheduler.OnePlace | src/kernel/multitask/process.c:36-99 | under the invariant a process is in exactly the place its state names |
| Scheduler.ScheduleConserves | src/kernel/multitask/process.c:372-424 | scheduling loses and gains no runnable process; only the current one changes level or slice, by one level at most, with a slice of 10 (16 - level) when used up |
| Scheduler.ScheduleChooses | src/kernel/multitask/process.c:402-416 | the process chosen has the best level of all runnable ones after the current one is put back, and the least identifier on it; none only if none is runnable |
| Scheduler.ScanExact | src/kernel/multitask/process.c:446-454 | a tick's scan wakes exactly the processes with 0 < wake-up time <= ticks, each into the ready queue of its own level; the rest stay in order, and nothing else changes |
| Scheduler.TickRemoves | src/kernel/multitask/process.c:427-477 | a tick removes exactly the terminated processes, and only every 100 ticks |
| Scheduler.TickProcess | src/kernel/multitask/process.c:427-454 | a tick takes one from the slice and adds one to the run time of the current process (modulo 2^32), makes ready exactly the blocked processes with 0 < wake-up time <= the new time, and changes no other field of a process that stays |
| Scheduler.TickPlaces | src/kernel/multitask/process.c:446-454 | after it the woken are in the ready queue of their level, and all others that stay are where they were |
| Scheduler.TickRest | src/kernel/multitask/process.c:432-476 | the time, the current process, the order of those still blocked, and what is cleared every 100 ticks |
| Scheduler.CreatedLaw | src/kernel/multitask/process.c:167-265 | a new process is ready on the level asked for, at most 15, with a slice of 10 (16 - level), and no other process changes |
| Scheduler.ExitedLaw | src/kernel/multitask/process.c:284-298 | ending makes the current process terminated, leaves no current one, and changes no other |
| Scheduler.SleptLaw | src/kernel/multitask/process.c:315-332 | blocking sets the wake-up time to the present one plus the wait (modulo 2^32), for ready and running processes only |
| Scheduler.WokenLaw | src/kernel/multitask/process.c:346-358 | waking makes a blocked process ready on its own level, and changes nothing otherwise |
| Scheduler.SpawnedUnlessFull | src/kernel/multitask/process.c:11-20 | a free identifier is found exactly if there are fewer than 64 processes |
| Scheduler.TableDetermines | src/kernel/multitask/process.c:36-58 | the states and levels of the processes determine every queue with its order, the current process and the count |
| Scheduler.SleepThenWake | src/kernel/multitask/process.c:310-359 | waking undoes blocking: a ready process is back in its place, with nothing but its wake-up time changed |
| Scheduler.RunInvariant | src/kernel/multitask/process.c:147-477 | in every state of every run each process is in exactly the place its state names, base <= level <= 15, and the counter is the number of processes, at most 64 |
| Heap.LargeExactly | src/kernel/memory/malloc.c:265-272 | requests above 1024 up to 2^32 - 16 and only those take the large path; the rounding is the next multiple of 16 for sizes up to there and for no other |
| Heap.BestFit | src/kernel/memory/malloc.c:32-43 | the first of the smallest sufficient listed chunks; none only if all are too small |
| Heap.TakenServes | src/kernel/memory/malloc.c:27-86 | what a request gets and what it leaves alone; it fails only if no listed chunk is large enough |
| Heap.TakenCuts | src/kernel/memory/malloc.c:62-77 | the chunk is cut to the size asked for exactly if it has at least 36 bytes more, the rest becoming the first of the list, and otherwise handed out whole, with no new chunk |
| Heap.TiledCut | src/kernel/memory/malloc.c:63-77 | cutting a chunk in two keeps the tiling of the heap |
| Heap.TakenKeeps | src/kernel/memory/malloc.c:27-86 | a request keeps the tiling and the list of chunks never handed out |
| Heap.ReleasedKeeps | src/kernel/memory/malloc.c:282-331 | so does giving a block back |
| Heap.ReleasedLaw | src/kernel/memory/malloc.c:304-330 | a release clears the chunk's flag and changes neither its size, nor another chunk, nor the list |
| Heap.SplitFits | src/kernel/memory/malloc.c:63-63 | the comparison that decides on a split does not wrap in a heap that begins at 16 or above |
| Heap.RunTiles | src/kernel/memory/malloc.c:28-331 | over every run all chunks ever carved are disjoint, inside the heap, and with their headers add up to it exactly |
| Heap.RunUsable | src/kernel/memory/malloc.c:28-331 | over every run of requests for at least 16 bytes in a heap of at least 36, no chunk gets smaller than 16 bytes |
| Heap.NothingReused | src/kernel/memory/malloc.c:28-331 | over every run no chunk is handed out twice, whatever is given back, and the chunks handed out and the list add up to the heap |
| Heap.GrantedKept | src/kernel/memory/malloc.c:28-331 | a chunk that was handed out keeps its size and stays off the list for the rest of every run |
| ChunkList.Unlinking | src/kernel/memory/malloc.c:51-60 | taking a chunk out keeps the links right in both directions |
| ChunkList.Prepending | src/kernel/memory/malloc.c:64-74 | so does putting the rest of a chunk in front |
| MemoryManagement.MemoryManager.constructor | src/kernel/memory/malloc.c:192-214 | the heap begins as one chunk, or with none if it cannot hold a header |
| MemoryManagement.MemoryManager.GetSizeClassIndex | src/kernel/memory/malloc.c:17-24 | the first class that is large enough |
| MemoryManagement.MemoryManager.FindBestFit | src/kernel/memory/malloc.c:32-43 | the walk along the links finds the best fit |
| MemoryManagement.MemoryManager.AllocateLarge | src/kernel/memory/malloc.c:28-86 | headers, links and result are exactly those of the request on the abstract heap |
| MemoryManagement.MemoryManager.Malloc | src/kernel/memory/malloc.c:260-280 | the same for the rounded size of every request above 1 KB |
| MemoryManagement.MemoryManager.Free | src/kernel/memory/malloc.c:282-331 | clears the chunk's flag and nothing else: no merging takes place |
| MemoryManagement.RunHeap | src/kernel/memory/malloc.c:28-331 | after every run of requests and releases, headers and links represent the abstract heap that the run theorems speak of |
| GroupBitmaps.TakenConserves | src/fs/ext4.c:1336-1414 | an allocation keeps used bits plus free count of every group, and the superblock's distance from the groups' sum |
| GroupBitmaps.GivenConserves | src/fs/ext4.c:1416-1485 | so does a release |
| GroupBitmaps.TakenMarksOne | src/fs/ext4.c:1368-1406 | the number handed out was not in use and is now, and no other changes |
| GroupBitmaps.GivenClearsOne | src/fs/ext4.c:1449-1479 | a release clears the one number |
| GroupBitmaps.TakeThenGive | src/fs/ext4.c:1336-1485 | freeing what was just allocated restores bitmap, group count and superblock count |
| GroupBitmaps.TakenLeast | src/fs/ext4.c:1341-1414 | where counts match bitmaps, an allocation fails only if the superblock says there is nothing or nothing eligible is clear, and otherwise hands out the least eligible number |
| GroupBitmaps.TakenInode | src/fs/ext4.c:1205-1274 | the inode number handed out is above 2 (above 1 in groups of one) and, where counts match bitmaps, the least unused such number; the call fails exactly if the total is zero or all those are used |
| GroupBitmaps.TakenBlock | src/fs/ext4.c:1341-1414 | the same for block numbers above the first data block |
| GroupBitmaps.GivenExactly | src/fs/ext4.c:1416-1461 | a release changes nothing if and only if the number is not in use or names a block up to the first data block |
| GroupBitmaps.NeverTwice | src/fs/ext4.c:1200-1485 | over every run no number is handed out while it is held, and both conservation laws hold since the start |
| GroupBitmaps.InodesReserved | src/fs/ext4.c:1236-1239 | in every run the inode numbers 1 and 2 (only 1 in groups of one) are neither held nor come into use |
| GroupBitmaps.BlocksReserved | src/fs/ext4.c:1373-1377 | in every run no block up to the first data block is held, taken or released |
| GroupBitmaps.NumberingAgrees | src/fs/ext4.c:1374-1374 | the allocator's number of every bit is the block that the bit stands for if and only if the first data block is block 1 |
| GroupBitmaps.HandsOutFreeExactly | src/fs/ext4.c:1369-1405 | blocks in use on the disk are never handed out, in every file system with a given first data block, if and only if that is block 1 |
| Ext4Layout.RecountedSpace | src/fs/ext4.c:1382-1398 | writing a bitmap and a descriptor changes one group of one allocator and nothing of the other |
| Ext4.Ext4FileSystem.AllocateBlock | src/fs/ext4.c:1336-1414 | on the disk: exactly an allocation of a block, inode bitmaps, counts and records unchanged |
| Ext4.Ext4FileSystem.FreeBlock | src/fs/ext4.c:1416-1485 | exactly a release; reserved, too large and unused numbers are ignored |
| Ext4.Ext4FileSystem.AllocateInode | src/fs/ext4.c:1200-1274 | on the disk: exactly an allocation of an inode number, as `GroupBitmaps.TakenInode` describes it; blocks and records unchanged |
| Ext4.Ext4FileSystem.FreeInode | src/fs/ext4.c:1276-1334 | exactly a release of an inode number |
| Ext4.RunBlocks | src/fs/ext4.c:1336-1485 | every run of block allocations and releases on the disk is a run of the allocator above, and spares inode numbers and records |
| Ext4.RunInodes | src/fs/ext4.c:1200-1334 | the same for inode numbers |
| Ext4.Ext4FileSystem.ReadInode | src/fs/ext4.c:92-130 | the record of any inode whose place lies in one block |
| Ext4.Ext4FileSystem.WriteInode | src/fs/ext4.c:1487-1526 | the record is replaced, every inode that it does not overlap reads as before, and the allocators' state is unchanged |
| Ext4Inodes.WriteThenRead | src/fs/ext4.c:92-130 | reading after writing gives the record written, and every inode that it does not overlap reads as before |
| Ext4Inodes.WriteSpares | src/fs/ext4.c:1487-1526 | writing one inode leaves another alone, whatever is written, if and only if their records do not overlap |
| Ext4Inodes.SlotsFitApart | src/fs/ext4.c:1493-1507 | if slots hold a record and divide the block, no two inodes overlap, so that the tables are a map from numbers to records |
| Ext4Inodes.SlotsApart | src/fs/ext4.c:1505-1507 | different inodes of a block lie a slot apart |
| Ext4Inodes.SlotPlace | src/fs/ext4.c:111-113 | where the div and mod of an inode's offset put it, and that it does not straddle blocks |
| Ext4Inodes.NeighbourSpared | src/fs/ext4.c:1520-1520 | writing an inode spares the next one of its block if and only if a slot holds a whole record |
| Paths.PassesAgree | src/fs/vfs.c:282-345 | the counting and the filling pass agree on every string |
| Paths.ComponentsAreParts | src/fs/vfs.c:277-350 | the components are the non-empty parts between slashes, with an empty one in front exactly for two leading slashes |
| Paths.ComponentsClean | src/fs/vfs.c:277-350 | no component has a slash, and one is empty exactly for two leading slashes |
| Paths.ParseJoin | src/fs/vfs.c:277-350 | parsing the joined path of any non-empty components gives them back |
| Paths.ParentParses | src/fs/ext4.c:321-346 | the parent path parses to all components but the last, except in exactly one case |
| Paths.ParentRebuilds | src/fs/ext4.c:321-346 | the parent path is absolute, and with the last component it is the joined path |
| Paths.ParentFits | src/fs/ext4.c:327-343 | the parent path of a path of at most 255 characters fits the 256-byte buffer |
| Paths.CountComponents | src/fs/vfs.c:282-302 | the counting loop counts what the definition counts |
| Paths.ParsePath | src/fs/vfs.c:277-350 | every slot of the array is filled with its component, and the last one is empty; there is no result if and only if memory is refused before all is stored |
| Paths.BuildParentPath | src/fs/ext4.c:321-346 | the construction loop builds the parent path; the empty case never arises |
| MountTable.BestIsLongest | src/fs/vfs.c:114-137 | the search finds a longest mount that serves the path, the first on ties, and none only if none serves it |
| MountTable.FoundLongest | src/fs/vfs.c:103-159 | if any mount serves the path, the one found is a longest, and prefix plus rest give the path back |
| MountTable.FoundFallback | src/fs/vfs.c:139-155 | if no mount serves the path there is a result if and only if the table is not empty: the first mount, and the path from that mount's length on, or a slash |
| MountTable.TiesAgree | src/fs/vfs.c:132-135 | mounts of equal length that serve a path are the same up to a slash |
| MountTable.ServesItself | src/fs/vfs.c:124-131 | a mount serves its own path if and only if that ends in a slash |
| MountTable.WithoutExact | src/fs/vfs.c:220-245 | unmounting takes away the entry for the path and keeps all others in order |
| MountTable.MountThenUnmount | src/fs/vfs.c:182-245 | mounting and then unmounting restores the table |
| MountTable.Strncmp | src/kernel/string.c:70-93 | zero if and only if the first n characters agree |
| MountTable.MountPoints.FindMountPoint | src/fs/vfs.c:103-159 | the loop over the table finds exactly that mount and that rest |
| MountTable.MountPoints.Mount | src/fs/vfs.c:182-217 | appends the mount, or changes nothing if the table is full, the path is taken, or the file system is missing or refuses |
| MountTable.MountPoints.Umount | src/fs/vfs.c:220-245 | removes the mount for the path, or changes nothing; paths stay distinct |

## Left out

- ProcessManagement.ProcessManager.Terminate: does not cover a process that exists but is not the current one, because line 285 of process.c overwrites the state that lines 289 to 295 test; every caller passes the current process.
- VirtualMemory.VirtualMemoryManager.MapPage: the accessed, dirty, global and other bits that the code never assigns are not modelled.
- FramePool.PageFrameManager.Free: on a pool without frames the code reads frame 0; the model returns.
- MemoryManagement.MemoryManager.Malloc: covers requests above 1024 bytes whose rounding does not wrap. Line 176 of malloc.c computes what is left of a chunk from a header that line 160 has overwritten, so the small size classes are not part of this model.
- MemoryManagement.MemoryManager.Free: covers blocks from the large path only, for the same reason.
- Heap.TakenServes: nothing is said about using freed large blocks again, because the code never does.
- Ext4.Ext4FileSystem.AllocateBlock: high halves of counts are zero, and time stamps, the superblock's own sector and a refused transfer buffer are not modelled.
- Ext4.Ext4FileSystem.FreeBlock: the same.
- Ext4.Ext4FileSystem.AllocateInode: the same.
- Ext4.Ext4FileSystem.FreeInode: the same.
- Ext4.Ext4FileSystem.ReadInode: covers inode numbers that exist and whose record lies in one block; for others the code reads outside its buffer or outside the table.
- Ext4.Ext4FileSystem.WriteInode: the same.
- Paths.BuildParentPath: the string is unbounded; `Paths.ParentFits` says for which paths the 256-byte buffer is enough.
- MountTable.MountPoints.FindMountPoint: covers absolute paths, because relative ones need a format that this `snprintf` does not know, and mount paths that fit the 256-byte buffer with a slash and a terminator.
- Hardware and assembly: ports, disks, interrupt setup, control registers, boot code.
- Scheduling inside the nested interrupt of a tick (process.c:441-443): it is a later step.
- Saved registers, stacks, names, exit codes, parents and page directories of processes; whether their memory can be had is a parameter of `Create`.
- Interleavings of spin locks: each call is one step.
- The identity mapping of the kernel's own pages, the page fault handler, file mapping, `vmm_map_pages`, destruction of directories.
- `rbtree_maximum`, the mirror image of `rbtree_minimum`.
- ext4 directory entries, whole directory operations, file reading and opening, and the 512-byte buffers (a transfer is one whole block).
- Block numbers large enough for the product with the block size to wrap.
- Refused memory in the mount search and in the construction of the parent path.
- The registry of file systems and what a file system does when mounted: parameters of `Mount` and `Umount`.
- Shell, installer, printing, keyboard, devfs, GDT packing.

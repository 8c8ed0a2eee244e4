# Buddy allocators and two semaphore protocols, verified

This project models, in Dafny, three pieces of the repository and proves what they are meant to guarantee.

* **The buddy allocator** of `buddy_alloc/src/buddy_malloc.c` on the intrusive lists of `list.c`. The heap is an
  implicit binary tree; the program keeps one XOR bit per inner node, one circular list of free blocks per block size,
  the bucket of the current root (`bucket_limit`) and the backing frontier (`max_ptr`). Nothing stores whether a block
  is free: the proofs rest on one invariant tying bits, lists, headers and root to a ghost picture of the tree.
* **Its second encoding**, `buddy_malloc_2.c`, with no header and two status bits per node, proved to run in lockstep
  with the first, with the exact condition under which its status fields survive the heap becoming empty.
* **Two System V semaphore protocols** of `mutual_exclusion/`, producers/consumers and readers/writers, as step
  relations over any number of processes.

The sizes (`MAX_ALLOC_LOG2`, `MIN_ALLOC_LOG2`, hence `BUCKET_COUNT`) are symbolic; (31, 4) is one admissible pair.

## How it is laid out

| files | content |
|---|---|
| `Options.dfy` | optional values |
| `Geometry.dfy` | node indices, addresses, intervals, the shift formulas |
| `Tree.dfy` | the ghost picture of the tree, tiling, uniqueness, how each operation redraws it |
| `FreeLists.dfy` | sequences as lists: take the last, take one out |
| `BuddySpec.dfy` | what `malloc_1` and `free_1` compute, on values, branch by branch |
| `BuddyInvariant.dfy`, `BuddyMallocProof.dfy`, `BuddyFreeProof.dfy` | the invariant and its preservation |
| `BuddyTheorems.dfy` | what holds over whole runs: tiling, completeness, smallest fit, history independence, undoing |
| `Memory.dfy` | memory as words, rings inside it, `list.c` as methods |
| `StatusBits.dfy`, `BuddyLayout.dfy`, `BuddyImage.dfy` | packed bits; how a value-level state lies in memory |
| `BuddyMalloc.dfy` | `buddy_malloc.c` as a class, proved against `BuddySpec` |
| `StatusFields.dfy`, `Buddy2Spec.dfy` | two-bit fields; what `malloc_2` and `free_2` compute |
| `Lockstep.dfy`, `Buddy2Theorems.dfy`, `LastFree.dfy` | the simulation, its consequences, the last free |
| `BuddyMalloc2.dfy` | `buddy_malloc_2.c` as a class, proved against `Buddy2Spec` |
| `Semaphores.dfy` | `semop()`: an array of operations, all or nothing; sums over processes |
| `ProducersConsumers.dfy`, `ReadersWriters.dfy` | the two protocols |

`dafny verify dfyconfig.toml` checks everything.

In both allocators the statics are fields changed in place, the heap is a sequence of words that the list operations
overwrite, and each method is proved equal to a function on values (`BuddySpec`, `Buddy2Spec`), about which the
theorems are stated. Addresses in those functions are offsets from `base_ptr`. `sbrk` is a function `grant` saying up
to which offset the break may move; within one call it is never asked about the same value twice, so any behaviour of
`sbrk` is covered. The second class keeps the first allocator's state as a ghost, which is what carries the lockstep.

## What the proofs found

* `malloc_1` adds the header size before comparing with `MAX_ALLOC`; `size_t` wraps around, so for the eight largest
  requests the sum is tiny and, whenever a smallest block is to be had, one is handed out that cannot hold the request
  (`BuddyTheorems.WrappedRequest`; the very first call already does, `BuddyTheorems.WrappedFirstRequest`).
  `BuddyTheorems.ReturnedBlock` states exactly when the block is large enough.
* `malloc_2` keeps its status counts, and `free_2` finds the block size by climbing the tree, for every request but one
  for more than half of an entirely free heap, as long as some block stays live. When the last block is freed, the fields
  return to UNUSED if and only if the node above the root is SPLIT before the call; otherwise that node's field goes
  below zero, which leaves 3, no status at all, in it and in the fields before it in the same byte, or, when the heap is
  at its full size, node 0 keeps its status (`LastFree.LastFreeExact`). Over runs the condition means that the heap is
  below its full size and its root has not moved since the heap was last empty (`LastFree.MarkHistory`).
  `LastFree.LastFreeGoesWrong` gives a run of three calls after which the next `free_2` leaves fields at 3.
* The producers index a buffer that is never reused: every maximal run overruns it when more items are produced than it
  holds and anything is consumed, and no run does otherwise (`ProducersConsumers.HowRunsEnd`, `NeverOverrun`). Every run
  extends to a maximal one, so such runs exist (`ProducersConsumers.RunsReachAnEnd`, `OverrunHappens`).
* The waiting semaphores of the readers/writers program change only inside one atomic call, so they hold nobody back:
  two overlapping readers keep a writer asleep for any number of rounds (`ReadersWriters.WriterMayStarve`).

## Model

| member | source | states |
|---|---|---|
| Geometry.ChildGeometry | buddy_alloc/src/buddy_malloc.c:38-46 | the two children of a node are the left and the right half of its interval |
| Geometry.PtrForNodeIsAddr | buddy_alloc/src/buddy_malloc.c:83-85 | the shift formula gives the start of the node's interval |
| Geometry.NodeOfAddr | buddy_alloc/src/buddy_malloc.c:88-90 | on every level, node_for_ptr of a node's address is that node |
| Geometry.AddrOfNode | buddy_alloc/src/buddy_malloc.c:83-90 | every aligned address of the heap names one node of the level, whose address it is |
| Geometry.BaseNode | buddy_alloc/src/buddy_malloc.c:121 | the node of base_ptr in a bucket is the leftmost node of that level |
| Geometry.AddrAligned | buddy_alloc/src/buddy_malloc.c:83-85 | every block starts at a multiple of its size |
| Geometry.BuddyIsXor | buddy_alloc/src/buddy_malloc.c:290 | on machine words the sibling formula steps to the other child |
| Geometry.DisjointOrNested | buddy_alloc/src/buddy_malloc.c:38-46 | two nodes' intervals are disjoint or nested, nested exactly when one node is an ancestor of the other |
| Memory.PushFamily | buddy_alloc/src/list.c:27-33 | the four writes append the node to the owning ring and leave every other ring of a family well formed and unchanged |
| Memory.UnlinkFamily | buddy_alloc/src/list.c:38-43 | the two writes take the entry out of the ring that holds it, the other rings being unchanged |
| Memory.Ram.ListInit | buddy_alloc/src/list.c:7-10 | the node becomes the head of a new empty ring; all other rings stay |
| Memory.Ram.ListPush | buddy_alloc/src/list.c:27-33 | the ring's contents gain the node at the end; only link words are written |
| Memory.Ram.ListRemove | buddy_alloc/src/list.c:38-43 | given no ring, removes the entry from whichever ring holds it; only link words are written, and the entry keeps its own |
| Memory.Ram.ListPop | buddy_alloc/src/list.c:49-54 | takes the last entry, NULL exactly when the ring is empty |
| StatusBits.ToggleOne | buddy_alloc/src/buddy_malloc.c:92-100 | flipping a packed bit changes that bit and no other |
| BuddySpec.BucketFor | buddy_alloc/src/buddy_malloc.c:103-114 | the smallest bucket whose blocks hold the request |
| Tree.Tiling | buddy_alloc/src/buddy_malloc.c:38-53 | in a well-formed tree the free and live blocks partition the range from 0 to the root's size |
| Tree.PictureUnique | buddy_alloc/src/buddy_malloc.c:38-53 | the whole picture of the tree is determined by the live blocks and the root |
| BuddyInvariant.InitOk | buddy_alloc/src/buddy_malloc.c:160-171 | the invariant holds after initialisation |
| BuddyInvariant.RootBit | buddy_alloc/src/buddy_malloc.c:124-126 | the bit above the root is 1 exactly when the root is not free |
| BuddyInvariant.FreeRootIsAlone | buddy_alloc/src/buddy_malloc.c:126-131 | when base_ptr is removed it is the only element of its list |
| BuddyInvariant.GrowFreeKeeps | buddy_alloc/src/buddy_malloc.c:126-131 | growth past a free root keeps the invariant: the new root is the single free block |
| BuddyInvariant.GrowUsedKeeps | buddy_alloc/src/buddy_malloc.c:135-146 | growth past a root in use keeps the invariant: the right buddy joins the root's list |
| BuddyInvariant.PopFlipKeeps | buddy_alloc/src/buddy_malloc.c:190-234 | popping a block and flipping one bit is taking a free block of that size, everything else in order |
| BuddyInvariant.SplitKeeps | buddy_alloc/src/buddy_malloc.c:238-246 | one round of splitting keeps the invariant |
| BuddyInvariant.FlippedBitMeansBuddyInUse | buddy_alloc/src/buddy_malloc.c:279-290 | after the flip the bit is 0 exactly when the buddy is a whole free block, which is then in the list of this bucket |
| BuddyInvariant.MergeKeeps | buddy_alloc/src/buddy_malloc.c:290-292 | merging with the buddy keeps the invariant |
| BuddyMallocProof.LowerLimitKeeps | buddy_alloc/src/buddy_malloc.c:118-150 | growth reaches the asked limit, or sbrk refused exactly the sixteen bytes after the root reached; the frontier ends at the links of the last right buddy listed; live blocks and invariant stay |
| BuddyMallocProof.SecondPopFinds | buddy_alloc/src/buddy_malloc.c:203-207 | when the tree grew because the root's list was empty, the second pop finds the new right child |
| BuddyMallocProof.FindBlockKeeps | buddy_alloc/src/buddy_malloc.c:174-208 | the search ends at the smallest free block that is large enough, grows only if there is none and only as far as needed, and never uses a popped NULL |
| BuddyMallocProof.MallocKeeps | buddy_alloc/src/buddy_malloc.c:152-255 | malloc_1 keeps the invariant; success adds exactly one live block of the requested bucket; NULL changes no live block and means too large, full, or that sbrk refused the memory for the very block to be used next |
| BuddyFreeProof.FreedNodeIsLive | buddy_alloc/src/buddy_malloc.c:273-276 | the header read back leads to the node that was handed out |
| BuddyFreeProof.FreeKeeps | buddy_alloc/src/buddy_malloc.c:264-298 | free_1 keeps the invariant and takes exactly that block out of the live ones |
| BuddyTheorems.RunKeepsInv | buddy_alloc/src/buddy_malloc.c:117-298 | every state of every run satisfies the invariant |
| BuddyTheorems.RunsTile | buddy_alloc/src/buddy_malloc.c:117-298 | in every state of every run the live blocks and the blocks on the lists of their sizes tile the heap, no gap and no overlap |
| BuddyTheorems.RunsStayBacked | buddy_alloc/src/buddy_malloc.c:70-80 | max_ptr never decreases; live blocks and the links of free ones lie below it in every state of every run |
| BuddyTheorems.BitMeaning | buddy_alloc/src/buddy_malloc.c:38-53 | the bit of a split node is 1 exactly when one child is free; all bits in and below blocks are 0 |
| BuddyTheorems.HistoryIndependence | buddy_alloc/src/buddy_malloc.c:278-297 | states with the same live blocks and root have the same bits and free blocks |
| BuddyTheorems.RunsAgree | buddy_alloc/src/buddy_malloc.c:278-297 | any two runs ending with the same live blocks and root agree, whatever the order of calls |
| BuddyTheorems.AllFreed | buddy_alloc/src/buddy_malloc.c:278-297 | after everything is freed there is one free block, the root, and every bit is 0 |
| BuddyTheorems.Completeness | buddy_alloc/src/buddy_malloc.c:152-255 | NULL for every request that is too large or has no aligned block of its size clear of the live ones; otherwise NULL only when sbrk has refused the next block, so never if sbrk never refuses |
| BuddyTheorems.ReturnedBlock | buddy_alloc/src/buddy_malloc.c:174-251 | the block has the least power-of-two size, is aligned, backed, disjoint from live blocks; large enough exactly when the size sum does not wrap |
| BuddyTheorems.WrappedRequest | buddy_alloc/src/buddy_malloc.c:154-174 | for the eight largest requests a block too small for them is handed out whenever a smallest block is to be had |
| BuddyTheorems.WrappedFirstRequest | buddy_alloc/src/buddy_malloc.c:154-174 | the very first call does so |
| BuddyTheorems.SmallestFit | buddy_alloc/src/buddy_malloc.c:179-208 | the block is cut from the smallest large-enough free block of the tree as it is after any growth, the one freed last among equals; the root moves only when no free block was large enough |
| BuddyTheorems.GrowsNoFurther | buddy_alloc/src/buddy_malloc.c:118-208 | the root moves no further than it has to: under a root one size smaller no block of the required size would have been clear |
| BuddyTheorems.FrontierMoves | buddy_alloc/src/buddy_malloc.c:70-80 | max_ptr stays or moves to a value sbrk has granted, just below which a live block or the links of a listed free block end |
| BuddyTheorems.FrontierWasUsed | buddy_alloc/src/buddy_malloc.c:59-61 | in every run max_ptr is the highest address that was ever in use |
| BuddyTheorems.FreshHeap | buddy_alloc/src/buddy_malloc.c:160-171 | the heap starts as one free block of the smallest size with its sixteen link bytes backed |
| BuddyTheorems.FailureAtomic | buddy_alloc/src/buddy_malloc.c:184-225 | NULL leaves the live blocks and all invariants; without growth nothing has changed at all |
| BuddyTheorems.FreeUndoesMalloc | buddy_alloc/src/buddy_malloc.c:179-297 | an immediate free restores every bit and every list in order exactly when the root has not moved |
| BuddyTheorems.MallocUndoesFree | buddy_alloc/src/buddy_malloc.c:278-297 | when the buddy of a freed block is not free, asking for the same size gives the same block and the same state back, list orders included |
| BuddyLayout.UnlinkMatches | buddy_alloc/src/buddy_malloc.c:290 | unlinking a block by its address alone takes it off the list of its own bucket |
| BuddyLayout.ListStepPreserves | buddy_alloc/src/list.c:27-43 | a list operation changes no word of any live block |
| BuddyMalloc.Allocator.UpdateMaxPtr | buddy_alloc/src/buddy_malloc.c:70-80 | fails without effect exactly when sbrk refuses |
| BuddyMalloc.Allocator.ParentSplit | buddy_alloc/src/buddy_malloc.c:92-95 | reads the parent's bit out of the packed array |
| BuddyMalloc.Allocator.FlipParentSplit | buddy_alloc/src/buddy_malloc.c:97-100 | toggles the parent's packed bit |
| BuddySpec.BucketForRequest | buddy_alloc/src/buddy_malloc.c:103-114 | the loop computes the smallest bucket that holds the request |
| BuddyMalloc.Allocator.LowerBucketLimit | buddy_alloc/src/buddy_malloc.c:118-150 | the growth loop in memory does what growth on values does, preserving live blocks |
| BuddyMalloc.Allocator.Initialize | buddy_alloc/src/buddy_malloc.c:160-171 | the first call leaves memory representing the initial state |
| BuddyMalloc.Allocator.FindFree | buddy_alloc/src/buddy_malloc.c:179-208 | the search loop terminates with the block the search on values finds, popped from its ring |
| BuddyMalloc.Allocator.TakeBlock | buddy_alloc/src/buddy_malloc.c:213-234 | backs and marks the popped block, or restores memory and lists when sbrk refuses |
| BuddyMalloc.Allocator.SplitTo | buddy_alloc/src/buddy_malloc.c:238-246 | the splitting loop ends at the leftmost part, each right half in the ring of its size |
| BuddyMalloc.Allocator.WriteHeader | buddy_alloc/src/buddy_malloc.c:248-251 | storing the header touches no other live block and no link |
| BuddyMalloc.Allocator.Malloc1 | buddy_alloc/src/buddy_malloc.c:152-255 | memory ends representing the new state; the pointer is NULL, or lies eight bytes into a new block whose first word holds the request; no header or payload word of a live block changes |
| BuddyMalloc.Allocator.Climb | buddy_alloc/src/buddy_malloc.c:279-297 | the merging loop in memory does what merging on values does |
| BuddyMalloc.Allocator.Free1 | buddy_alloc/src/buddy_malloc.c:264-298 | reads back the header stored at allocation, frees that block, changes no word of the other live blocks |
| StatusFields.IncOne | buddy_alloc/src/buddy_malloc_2.c:100-104 | an increment below the maximum carries into no neighbouring field |
| StatusFields.DecOne | buddy_alloc/src/buddy_malloc_2.c:106-110 | a decrement above zero borrows from no neighbouring field |
| StatusFields.IncCarries | buddy_alloc/src/buddy_malloc_2.c:100-104 | an increment of any field: what it does to every field of the byte, carries included |
| StatusFields.DecBorrows | buddy_alloc/src/buddy_malloc_2.c:106-110 | a decrement of any field: what it does to every field of the byte, borrows included |
| StatusFields.SetOne | buddy_alloc/src/buddy_malloc_2.c:112-118 | setting a field changes no other |
| Lockstep.GrowOnceSim | buddy_alloc/src/buddy_malloc_2.c:149-173 | one round of growth keeps the simulation relation and fails in both allocators or in neither |
| Lockstep.FindBlockSim | buddy_alloc/src/buddy_malloc_2.c:198-230 | the two searches find the same block |
| Lockstep.TakeParent | buddy_alloc/src/buddy_malloc_2.c:252-256 | the increment on taking a block starts from 1 in the tree and from 0 above the root of an empty heap, so it never carries |
| Lockstep.PromotionChangesNothing | buddy_alloc/src/buddy_malloc_2.c:271-284 | the promotion loop leaves the status array as it is |
| Lockstep.MallocLockstep | buddy_alloc/src/buddy_malloc_2.c:178-290 | malloc_2 of a request and malloc_1 of eight bytes less return the same block, or both NULL, and stay in the relation |
| Lockstep.SizeRecovery | buddy_alloc/src/buddy_malloc_2.c:120-132 | climbing from the deepest bucket, the first USED node at a live block's address is the block |
| Lockstep.FreeLockstep | buddy_alloc/src/buddy_malloc_2.c:292-328 | matching frees stay in the relation while another block is live or the mark above the root is there |
| Lockstep.LockstepRun | buddy_alloc/src/buddy_malloc_2.c:149-328 | over whole runs in scope: same limit, frontier and lists as sequences, the same answers |
| Lockstep.BitIsSplitStatus | buddy_alloc/src/buddy_malloc_2.c:48-56 | for every node of the tree the first encoding's bit is 1 exactly when the second's status is SPLIT |
| Buddy2Theorems.StatusCounts | buddy_alloc/src/buddy_malloc_2.c:48-56 | the status in the tree is USED for a live block and otherwise the number of children that are not UNUSED |
| Buddy2Theorems.Completeness2 | buddy_alloc/src/buddy_malloc_2.c:178-290 | malloc_2 answers NULL exactly when the request is too large or no aligned block of its size is clear of the live ones |
| Buddy2Theorems.SizeRecoveryInRun | buddy_alloc/src/buddy_malloc_2.c:120-132 | in every state of a run in scope every live block's bucket is recovered from its address |
| LastFree.LastFreeExact | buddy_alloc/src/buddy_malloc_2.c:305-317 | freeing the last live block returns all fields to UNUSED if and only if the node above the root is SPLIT; otherwise that field and those before it in its byte end at 3, or node 0 keeps its status, and every other field is UNUSED |
| LastFree.MallocMark | buddy_alloc/src/buddy_malloc_2.c:169-256 | after malloc_2 the field above the root is SPLIT exactly when the block is the first of an empty heap, or it was SPLIT and the root has not moved |
| LastFree.MarkHistory | buddy_alloc/src/buddy_malloc_2.c:149-328 | over runs that field is SPLIT exactly when the root has not moved since the heap was last empty |
| LastFree.LastFreeGoesWrong | buddy_alloc/src/buddy_malloc_2.c:305-317 | a run of three calls after which freeing the last block leaves 3 in the field above the root and in those before it in its byte |
| Buddy2Spec.SameBucket | buddy_alloc/src/buddy_malloc_2.c:180-198 | malloc_2 refuses the requests malloc_1 refuses for eight bytes less and looks for the others in the same bucket, requests below 8 included |
| BuddyMalloc2.Allocator2.GetNodeStatus | buddy_alloc/src/buddy_malloc_2.c:95-98 | reads the packed field |
| BuddyMalloc2.Allocator2.ParentIncStatus | buddy_alloc/src/buddy_malloc_2.c:100-104 | adds one in the parent's packed field, with the carries of the byte addition |
| BuddyMalloc2.Allocator2.ParentDecStatus | buddy_alloc/src/buddy_malloc_2.c:106-110 | subtracts one in the parent's packed field, with the borrows of the byte subtraction |
| BuddyMalloc2.Allocator2.NodeSetStatus | buddy_alloc/src/buddy_malloc_2.c:112-118 | overwrites the packed field |
| BuddyMalloc2.Allocator2.BucketForAllocedPointer | buddy_alloc/src/buddy_malloc_2.c:120-132 | the loop returns the deepest USED bucket at the address |
| BuddyMalloc2.Allocator2.LowerBucketLimit | buddy_alloc/src/buddy_malloc_2.c:149-176 | the growth loop in memory does what growth on values does, in step with the first allocator |
| BuddyMalloc2.Allocator2.FindFree | buddy_alloc/src/buddy_malloc_2.c:203-231 | the search loop pops the block both searches on values find |
| BuddyMalloc2.Allocator2.PromoteParents | buddy_alloc/src/buddy_malloc_2.c:273-284 | the promotion loop terminates and computes the promotion on values |
| BuddyMalloc2.Allocator2.Malloc2 | buddy_alloc/src/buddy_malloc_2.c:178-290 | memory and fields end representing the new state, in step with malloc_1; the pointer is NULL or the first byte of a new block; no word of a live block changes |
| BuddyMalloc2.Allocator2.Climb | buddy_alloc/src/buddy_malloc_2.c:305-327 | the merging loop in memory does what merging on values does, in step with free_1 |
| BuddyMalloc2.Allocator2.Free2 | buddy_alloc/src/buddy_malloc_2.c:292-328 | frees the block whose size it finds in the tree; lists and tree come out right for every live block, the fields exactly when another block is live or the mark is there; no word of another live block changes |
| Semaphores.SemopMeaning | mutual_exclusion/lin_readers_writers.c:21-48 | a call passes exactly when each operation passes after those before it, and then changes each semaphore by their sum |
| ProducersConsumers.StepKeepsInv | mutual_exclusion/lin_consumers_producers.c:31-88 | every atomic action of every process keeps the invariant |
| ProducersConsumers.RunsConserve | mutual_exclusion/lin_consumers_producers.c:31-88 | at most one process in the buffer, and the conservation law of the three semaphores, in every state of every run |
| ProducersConsumers.ReadsFollowWrites | mutual_exclusion/lin_consumers_producers.c:60-82 | the k-th read returns what the k-th write stored, the character whose code is that of 'a' plus k |
| ProducersConsumers.RunsAreFinite | mutual_exclusion/lin_consumers_producers.c:124-146 | no run is longer than the work there was at the start |
| ProducersConsumers.HowRunsEnd | mutual_exclusion/lin_consumers_producers.c:98-146 | when a maximal run ends with all processes finished, everything then being written and read, and when it overruns the buffer of twenty places, both exactly |
| ProducersConsumers.RunsReachAnEnd | mutual_exclusion/lin_consumers_producers.c:124-146 | every run extends to a maximal one |
| ProducersConsumers.OverrunHappens | mutual_exclusion/lin_consumers_producers.c:60-64 | with more produced than the buffer holds and anything consumed, a run that overruns it exists |
| ProducersConsumers.NeverOverrun | mutual_exclusion/lin_consumers_producers.c:60-82 | with no more produced than the buffer holds, or nothing consumed, every index is in bounds |
| ProducersConsumers.MainFinishes | mutual_exclusion/lin_consumers_producers.c:18-146 | the program's own numbers: every maximal run ends with all finished and abcdefghijklmnopqr written and read |
| ProducersConsumers.MainHasAnEnd | mutual_exclusion/lin_consumers_producers.c:18-146 | the program's processes have a run that ends with all of them done |
| ReadersWriters.StepKeepsInv | mutual_exclusion/lin_readers_writers.c:47-80 | every atomic action of every process keeps the invariant |
| ReadersWriters.SemaphoresCountInsiders | mutual_exclusion/lin_readers_writers.c:21-43 | the active semaphores count the processes inside, the waiting ones are constant between calls |
| ReadersWriters.Exclusion | mutual_exclusion/lin_readers_writers.c:47-80 | a writer inside is alone |
| ReadersWriters.SleepsExactlyWhen | mutual_exclusion/lin_readers_writers.c:21-43 | which processes sleep: a writer while anybody is inside, a reader while a writer is |
| ReadersWriters.SomeStepEnabled | mutual_exclusion/lin_readers_writers.c:47-80 | some process can always act |
| ReadersWriters.VisitEnds | mutual_exclusion/lin_readers_writers.c:47-80 | a process inside is out again after its own next steps, four at most for a writer and two for a reader, whatever the others do |
| ReadersWriters.StableWhileReading | mutual_exclusion/lin_readers_writers.c:65-76 | the counter does not change while some reader is always inside, readers relieving one another included |
| ReadersWriters.NoLostIncrement | mutual_exclusion/lin_readers_writers.c:53-54 | the writers print 1, 2, 3 and so on; no increment is lost; what readers see never goes back |
| ReadersWriters.WhatStepsPrint | mutual_exclusion/lin_readers_writers.c:53-71 | a reader prints the number of values written so far, a writer one more, and no other step prints anything |
| ReadersWriters.VisitsPrintOnce | mutual_exclusion/lin_readers_writers.c:47-80 | every visit of a reader or a writer prints exactly once |
| ReadersWriters.WriterMayStarve | mutual_exclusion/lin_readers_writers.c:29-39 | two readers can keep a writer asleep for any number of rounds |

## Left out

- The system calls themselves: `sbrk` is an oracle that extends the heap contiguously or refuses; `errno` and `printf`
  are dropped, except that what the protocol processes print is recorded.
- The very first reservation in `malloc_1` and `malloc_2`: its result is ignored by the program, so it is assumed to succeed.
- Pointers: they are integers, `base_ptr` is taken to be 16-byte aligned, memory is read and written by aligned 8-byte
  words, and pointer provenance is not modelled.
- `free_1` and `free_2` of anything but NULL or a currently live block.
- Debug printing (`print_tree`, `debug_tree_rec`, `debug_buckets` and their helpers), `list_size` and `list_contains`.
- BuddyMalloc2.Allocator2.Malloc2: a request for more than half of `MAX_ALLOC` on an entirely free heap, because for node 0 the promotion loop starts at an index that has wrapped around and reads outside `node_status`.
- Lockstep.MallocLockstep: the same request, for the same reason.
- Buddy2Theorems.Completeness2: the same request, for the same reason.
- Lockstep.LockstepRun: a run ends with a last free outside the stated condition; what the fields hold after that one call is stated, what later calls make of them is not.
- BuddyMalloc.Allocator.LowerBucketLimit, BuddyMalloc.Allocator.FindFree and their neighbours: the loops of the two C functions are cut into several methods, with the order of their statements kept.
- ProducersConsumers.HowRunsEnd: sleeps, fork failures, `EINTR` and processes dying inside are not modelled; after an index leaves the buffer nothing is said.
- ReadersWriters.StepKeepsInv: SIGINT and the end of the loops, the largest semaphore value, `int` overflow of the counter, and fairness are not modelled.
- The protocols are step relations on values rather than classes, since each process runs the same code and the interleaving is the point.
- `mutual_exclusion/win_reades_writers.c`, the tablet driver, the kernel modules, sockets, the `/proc` reader, the fork and exec programs, the protected-mode code and the diagrams: their pure fragments would only add easy members.

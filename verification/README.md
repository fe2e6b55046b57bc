# Redwing OS in Dafny

A model of the algorithmic cores of the Redwing kernel and its file system, with proofs of what they
promise.  `dafny verify dfyconfig.toml` checks all of it.

| files | what they model |
|---|---|
| `Buddy.dfy`, `BuddyTiling.dfy`, `PageFlags.dfy`, `PageCache.dfy` | the buddy page allocator, its page flags and the per-CPU page caches |
| `Bitmap.dfy`, `SuperBlock.dfy`, `BlockMap.dfy`, `BlockNeed.dfy`, `Efs.dfy` | the EFS file system: bitmap, disk layout, inode block map and the blocks it needs, reading and writing |
| `Pte.dfy`, `PageTree.dfy`, `Sv39.dfy`, `Sv39Range.dfy`, `RangeIter.dfy`, `RangeNeed.dfy`, `RangeState.dfy`, `Vmap.dfy`, `MapRange.dfy` | the Sv39 page table of section 4.4 of the RISC-V Privileged Architecture, its range iterator, `vmap` and `vunmap`, `map_range` and `unmap_range` |
| `Pipe.dfy`, `PipeCounts.dfy` | pipes and wait queues as a step system over lock acquisitions; what callers are told |
| `RunQueue.dfy`, `Cfs.dfy` | task states and the run queue on any number of CPUs; the completely fair scheduler |
| `Slab.dfy`, `SlabCache.dfy` | the slab allocator and its shared and per-CPU caches |
| `PathComponents.dfy` | the double-ended path component iterator |
| `LittleEndian.dfy`, `UserMemory.dfy`, `ExecArgs.dfy` | the argument and environment blocks from `execve` to the user library |
| `Arithmetic.dfy`, `Wrappers.dfy` | powers of two, bits of numbers and sums; sizes, options and results |

Objects that the kernel updates in place are classes; their `Valid()` is the invariant that every
method keeps.  Pipes and the run queue, which many CPUs run at once, are step systems: a state, the
events that are enabled in it, and lemmas about every run.  Pages, blocks and frames are natural
numbers; intrusive lists and the red-black tree are sequences; ghost fields record who holds what.
Bits are taken from numbers by halving; `PageFlags.FlagBits` ties the flag byte to bit-vectors.

Some promises do not hold of the code as it stands.  For each the model has an input that shows it
and the exact condition under which the promise holds:

- A range whose end is a multiple of 512 pages (2 MiB) is walked only up to an earlier page, because
  the exclusive end index is 0 at level 0 (`Vmap.WholeRangeReached`, `Vmap.NothingReached`).
- If such a range begins late in the table that it ends in, the walk slices a table out of order and
  panics (`RangeNeed.Misordered` says for which ranges, `Vmap.Vmap`, `Vmap.PanicReached`).
- The rollback of a failed `vmap` can leave pages mapped (`Vmap.RollbackComplete`,
  `Vmap.RollbackLeaves`, `Vmap.RollbackRun`).  So can that of a failed `map_range`
  (`MapRange.RollbackExact`, `MapRange.RollbackNeverComplete`, `MapRange.RollbackRun`).
- A task that a signal wakes takes itself out of a wait queue while it holds its own lock, whereas a
  waker takes a task's lock while it holds the queue's: the two can wait for each other for ever
  (`Pipe.CrossedReachable`, `Pipe.CrossedForGood`).  There is no other way to get stuck
  (`Pipe.Progress`), and none without a signal (`Pipe.CrossedBySignal`, `Pipe.ProgressWithoutSignals`).
- A pipe call that a signal interrupts fails also when it has moved bytes, and its count is lost
  (`PipeCounts.FailedCall`, `PipeCounts.ToldCounts`, `PipeCounts.LostWrite`).
- Each tick charges a task for all of its turn so far, so that a turn of several ticks is charged more
  than its time (`Cfs.TurnCostsItsTime`, `Cfs.TwoTicksCostThree`).
- The free size that the page allocator reports misses a page that a CPU has taken off its list and
  not freed yet (`PageCache.PageAllocator.EndReport`, `PageCache.ShortReport`).
- The active objects that a slab allocator reports can be wrong, and their computation can underflow,
  while other CPUs refill or drain their caches (`SlabCache.SlabAllocator.EndInfo`,
  `SlabCache.InfoUnderflows`).
- `as_path` of an iterator that was advanced at the front can panic or give another path
  (`PathComponents.Components.AsPath`, `PathComponents.PathLeftIsAbsolute`,
  `PathComponents.PathLeftPanics`).

The argument check of `mkfs` (`mkfs/src/img_file.rs:55-75`) lets 8192 bytes of inodes pass, which
`RawSuperBlock::new` refuses (`SuperBlock.MkfsLayout`).

## Model

| member | source | states |
|---|---|---|
| Buddy.FindOrderIsLeast | kernel/src/mmu/buddy.rs:103-105 | `find_order` gives the least order whose block holds the bytes |
| PageFlags.FlagBits | kernel/src/mmu/types.rs:61-85 | the arithmetic on the flag byte that the models use is the bit arithmetic of the setters and getters |
| Buddy.FlagTestIsListSearch | kernel/src/mmu/buddy.rs:272-305 | the O(1) test of the free bit and the order bits of a page is true exactly when the page is on the free list of that order |
| BuddyTiling.XorIsBuddy | kernel/src/mmu/buddy.rs:309-311 | on an aligned block the exclusive-or gives the other half of the block twice as large |
| Buddy.BuddyAllocator.BuddyAddress | kernel/src/mmu/buddy.rs:309-311 | the exclusive-or of addresses relative to the start is the address of the buddy page |
| BuddyTiling.ExactlyOneBlockPerPage | kernel/src/mmu/buddy.rs:347-448 | in a tiling every page lies in exactly one block |
| BuddyTiling.SplitKeepsTiling | kernel/src/mmu/buddy.rs:427-448 | splitting a block in halves keeps a tiling: aligned, no overlap, no gap |
| BuddyTiling.JoinKeepsTiling | kernel/src/mmu/buddy.rs:272-305 | joining two buddies keeps a tiling |
| BuddyTiling.NoPairMeansTopOnly | kernel/src/mmu/buddy.rs:413-425 | a tiling without a pair of buddies of one order below the top holds top-order blocks only |
| Buddy.SplitStep | kernel/src/mmu/buddy.rs:427-448 | splitting keeps the books of free and used blocks, and leaves at most the pair that was just made |
| Buddy.MergeStep | kernel/src/mmu/buddy.rs:272-305 | merging keeps the books, and the only free pair left, if any, involves the merged block |
| Buddy.AllocStep | kernel/src/mmu/buddy.rs:374-394 | handing out a free block keeps the books and leaves no free pair |
| Buddy.FreeStep | kernel/src/mmu/buddy.rs:396-411 | taking a block back keeps the books, and the only free pair left involves that block |
| Buddy.AllReturnedMeansAllMerged | kernel/src/mmu/buddy.rs:413-448 | with nothing handed out and no free pair, the lists hold exactly the top-order blocks |
| Buddy.BuddyAllocator.constructor | kernel/src/mmu/buddy.rs:331-368 | a new allocator is valid: flags agree with lists, the blocks tile the range, no free pair exists, the byte count is right |
| Buddy.BuddyAllocator.Init | kernel/src/mmu/buddy.rs:347-368 | `init` fills the range with top-order blocks |
| Buddy.BuddyAllocator.PushFront | kernel/src/mmu/buddy.rs:234-241 | pushes a block and sets its free bit; flags and lists still agree |
| Buddy.BuddyAllocator.PopFront | kernel/src/mmu/buddy.rs:243-254 | pops a block and clears its free bit; flags and lists still agree |
| Buddy.BuddyAllocator.ExpandArea | kernel/src/mmu/buddy.rs:256-270 | takes the front block off its list as two halves |
| Buddy.BuddyAllocator.MergeArea | kernel/src/mmu/buddy.rs:272-305 | takes the front block and its buddy off the list exactly when the buddy is on the same list, and leaves everything alone otherwise |
| Buddy.BuddyAllocator.Expand | kernel/src/mmu/buddy.rs:427-448 | the recursive split ends, makes a block of the wanted order exactly when a larger one is free, and changes nothing when it fails |
| Buddy.BuddyAllocator.Merge | kernel/src/mmu/buddy.rs:413-425 | merges upward until no free pair is left |
| Buddy.BuddyAllocator.AllocByOrder | kernel/src/mmu/buddy.rs:374-394 | fails exactly when no block of the order or larger is free, and then changes nothing; otherwise hands out an aligned block that was not handed out; tiling and eager coalescing are kept |
| Buddy.BuddyAllocator.FreeByOrder | kernel/src/mmu/buddy.rs:396-411 | takes a block back; tiling, eager coalescing and the byte count are kept |
| Buddy.BuddyAllocator.EveryPageInOneBlock | kernel/src/mmu/buddy.rs:320-329 | in every state each page lies in exactly one block, and that block is handed out or on the free list of its order |
| Buddy.BuddyAllocator.AllMerged | kernel/src/mmu/buddy.rs:413-448 | once every block was freed the lists are exactly those after `init` |
| PageCache.PageAllocator.AllocPage | kernel/src/mmu/buddy.rs:467-474 | hands out a cached page that no caller has, or begins a refill |
| PageCache.PageAllocator.RefillRound | kernel/src/mmu/buddy.rs:476-486 | one round of the refill loop under the buddy lock; it ends early exactly when the buddy allocator is empty |
| PageCache.PageAllocator.FinishAlloc | kernel/src/mmu/buddy.rs:488-492 | after the refill: a page that no caller has, or none exactly when the cache is empty |
| PageCache.PageAllocator.DeallocPage | kernel/src/mmu/buddy.rs:495-502 | caches a page and begins a drain exactly when the cache reaches its limit |
| PageCache.PageAllocator.DrainPop | kernel/src/mmu/buddy.rs:505-507 | the first half of a drain round, without the buddy lock: the unchecked pop always finds a page, which is then in hand and in no list |
| PageCache.PageAllocator.DrainFree | kernel/src/mmu/buddy.rs:508-510 | the second half, under the buddy lock: the page in hand goes back; the cache is under its limit after the last round |
| PageCache.PageAllocator.AllocBlock | kernel/src/mmu/buddy.rs:173-210 | larger blocks bypass the caches; fails exactly when the buddy allocator has none |
| PageCache.PageAllocator.FreeBlock | kernel/src/mmu/buddy.rs:212-220 | takes a larger block back |
| PageCache.PageAllocator.BeginReport | kernel/src/mmu/buddy.rs:528-536 | a report takes the buddy lock; its steps interleave with all steps that need no such lock |
| PageCache.PageAllocator.ReadLength | kernel/src/mmu/buddy.rs:537-540 | it reads one length at a time, without the lock of that list |
| PageCache.PageAllocator.EndReport | kernel/src/mmu/buddy.rs:526-548 | conservation in every interleaving: reported size, what callers hold and the pages in hand make up the whole range, but for what lengths changed since they were read; with unchanged lengths the figure is exact if and only if no CPU is between taking a page off its list and freeing it |
| PageCache.TakePage | kernel/src/mmu/buddy.rs:466-493 | all of `alloc_page` on one CPU: fails if and only if its cache is empty and the buddy allocator has no block; not as long as a page is neither out nor cached nor in hand |
| PageCache.ShortReport | kernel/src/mmu/buddy.rs:505-510 | a run that ends in a report that is one page short |
| Bitmap.TrailingOnesIsLeastClear | fs/redwing_efs/src/bitmap.rs:128-144 | the count of trailing ones is the least clear bit of a word |
| Bitmap.LocateIsConsistent | fs/redwing_efs/src/bitmap.rs:146-152 | block, word and bit of an index lead back to the index |
| Bitmap.BitmapBlocks.constructor | fs/redwing_efs/src/bitmap.rs:41-50 | an empty bitmap of as many blocks as needed |
| Bitmap.BitmapBlocks.AllocBit | fs/redwing_efs/src/bitmap.rs:79-144 | takes the least index not in use; fails exactly when all are in use |
| Bitmap.BitmapBlocks.GetBit | fs/redwing_efs/src/bitmap.rs:154-166 | tells membership; refuses an index past the end |
| Bitmap.BitmapBlocks.SetBit | fs/redwing_efs/src/bitmap.rs:182-194 | adds exactly one index across words and blocks |
| Bitmap.BitmapBlocks.ClearBit | fs/redwing_efs/src/bitmap.rs:168-180 | removes exactly one index |
| Bitmap.BitmapBlocks.CountAllocatedBits | fs/redwing_efs/src/bitmap.rs:196-208 | the word-wise count is the number of indices in use |
| SuperBlock.MkfsLayout | fs/redwing_efs/src/superblock.rs:74-99 | for every size mkfs accepts the regions follow each other without overlap, fill the image and pass verification; the smallest inode size mkfs accepts is the one `new` refuses |
| SuperBlock.InodesDisjoint | fs/redwing_efs/src/inode.rs:63-78 | inodes lie in the inode region and never share a byte |
| BlockMap.DataSlotFacts | fs/redwing_efs/src/inode.rs:770-807 | different file blocks have different places in the map |
| BlockMap.NoSharing | fs/redwing_efs/src/inode.rs:770-866 | two places that hold the same block are the same place |
| BlockMap.PutFresh | fs/redwing_efs/src/inode.rs:809-866 | hanging a fresh zeroed block into an empty place changes that place and no other |
| BlockMap.WriteDataKeepsPlaces | fs/redwing_efs/src/inode.rs:868-923 | writing file data changes no place of the map |
| BlockMap.BmapIsVal | fs/redwing_efs/src/inode.rs:697-768 | the recursive read walk finds what the place of the block holds and reports a missing block otherwise |
| BlockMap.ChunkOverwrites | fs/redwing_efs/src/inode.rs:868-923 | writing one chunk into its block overwrites that part of one flat byte array and leaves all other files alone |
| Efs.HangBlock | fs/redwing_efs/src/inode.rs:809-866 | hanging a newly marked block keeps the state consistent and only extends the map |
| Efs.EfsFileSystem.constructor | mkfs/src/img_file.rs:77-90 | a zero-filled image is consistent, and its inodes hold nothing |
| Efs.EfsFileSystem.BlockOwnership | fs/redwing_efs/src/inode.rs:770-866 | in every state each block that a file reaches lies in the data region, is marked in the bitmap and is reached by one path only |
| Efs.EfsFileSystem.MarkedIsHeld | fs/redwing_efs/src/inode.rs:688-866 | the converse: in every state each marked block is held by a place of a file, so neither a success nor a failure part way loses a block |
| Efs.EfsFileSystem.AllocDataBlock | fs/redwing_efs/src/fs.rs:107-112 | marks exactly one more block, a zeroed data block that nothing holds; fails exactly when all are marked |
| Efs.EfsFileSystem.AllocIfNeed | fs/redwing_efs/src/inode.rs:809-866 | fills just that place, if it is empty, with a fresh block; fails exactly when it is empty and all blocks are in use; contents of all files stay |
| Efs.EfsFileSystem.Bmap0Mut | fs/redwing_efs/src/inode.rs:839-866 | reaches the place of a block below a table, filling just the empty places on the way; past the last place the file is too large and nothing changes; else it fails only if the free blocks do not last |
| Efs.EfsFileSystem.BmapMutFromBlk | fs/redwing_efs/src/inode.rs:809-837 | the same, making the table itself first: succeeds if and only if there is such a place and the free blocks last for the table and the empty places; past the last place it fails for want of space if there is no block for the table, else as too large, and the table stays |
| Efs.EfsFileSystem.BmapAndAllocIfNeed | fs/redwing_efs/src/inode.rs:688-695 | the block of an offset: below the maximal size it succeeds if and only if the free blocks last for the empty places on the trail of that block, filling just these, and else lacks space; past the maximal size it lacks space if a missing double indirect table finds no block, and is too large otherwise |
| Efs.EfsFileSystem.InitInode | fs/redwing_efs/src/inode.rs:85-104 | initializes an inode that is unknown and refuses any other; no block is lost as long as unknown inodes hold none, which `Write` keeps |
| Efs.EfsFileSystem.Write | fs/redwing_efs/src/inode.rs:868-923 | overwrites the flat byte array of the file by the written prefix of the source, other files are unchanged; it writes all up to the maximum size if and only if the free blocks last for the empty places, tables included, of all blocks of the range, and else exactly the bytes before the first block for which they do not last |
| Efs.EfsFileSystem.WriteRound | fs/redwing_efs/src/inode.rs:880-921 | one round of the loop writes what fits into one block, and fills just the empty places of that block |
| BlockNeed.FilledThen | fs/redwing_efs/src/inode.rs:809-866 | filling places one set after the other takes one block for each empty place of either, counted once |
| Efs.StepsAreTrail | fs/redwing_efs/src/inode.rs:770-807 | the allocating walk for a block comes to exactly that place and the tables it lies in |
| Efs.EfsFileSystem.Read | fs/redwing_efs/src/inode.rs:925-980 | returns exactly the part of the flat byte array that fits |
| Pte.ApplyPermPerm | kernel/src/mmu/pgtable.rs:101-119 | applying a permission and reading it back; the address stays |
| Pte.MappedEntry | kernel/src/arch/riscv64/pgtable.rs:90-108 | setting an address and a permission and reading both back |
| Pte.VmappedEntry | kernel/src/arch/riscv64/pgtable.rs:133-137 | the same for the permission bits that `vmap` sets at once |
| Pte.PdeFacts | kernel/src/arch/riscv64/pgtable.rs:119-131 | an entry made for a table is recognized as one and leads to it |
| PageTree.OneParent | kernel/src/arch/riscv64/pgtable.rs:262-298 | a table frame has one place in the tree |
| PageTree.AttachKeepsOwned | kernel/src/arch/riscv64/pgtable.rs:279-298 | hanging a zeroed table into an invalid entry keeps every table frame at one place |
| PageTree.LeafKeepsOwned | kernel/src/arch/riscv64/pgtable.rs:404-452 | writing a leaf entry moves no table |
| PageTree.PathInjective | kernel/src/arch/riscv64/pgtable.rs:222-234 | different pages have different index paths |
| Sv39.IndicesArePath | kernel/src/arch/riscv64/pgtable.rs:222-234 | the three indices of an address are the path of its page |
| Sv39.AttachKeepsLeaves | kernel/src/arch/riscv64/pgtable.rs:279-298 | a new table changes no page |
| Sv39.LeafWriteIsUpdate | kernel/src/arch/riscv64/pgtable.rs:404-452 | writing a leaf changes the map at one page |
| Sv39.PageTable.constructor | kernel/src/arch/riscv64/pgtable.rs:400-402 | an empty table maps nothing and has no table below it |
| Sv39.PageTable.NewTable | kernel/src/arch/riscv64/pgtable.rs:279-298 | makes a zeroed table below an invalid entry; changes no page |
| Sv39.PageTable.Descend | kernel/src/arch/riscv64/pgtable.rs:283-294 | one level of the walk: follows a valid entry or makes the missing table; fails only without a free frame |
| Sv39.PageTable.Walk | kernel/src/arch/riscv64/pgtable.rs:279-298 | finds or makes the leaf table of an address: succeeds if and only if there is a free frame for each table that is missing on the path; just that many frames become tables, all of the free ones on failure; changes no page |
| Sv39.PageTable.Map | kernel/src/arch/riscv64/pgtable.rs:404-417 | maps one page to the frame with the permission, if and only if the free frames last for the missing tables on its path, and takes just these; a failure changes no page |
| Sv39.PageTable.TryMap | kernel/src/arch/riscv64/pgtable.rs:419-440 | the same, but leaves a mapped page alone and says so |
| Sv39.PageTable.GetEntry | kernel/src/arch/riscv64/pgtable.rs:502-531 | finds the entry exactly when the page is mapped; the assertion about inner entries never fails |
| Sv39.PageTable.Unmap | kernel/src/arch/riscv64/pgtable.rs:442-452 | unmaps one page and returns its frame, if it was mapped |
| Sv39Range.IndexOfAddress | kernel/src/arch/riscv64/pgtable.rs:222-250 | indices and boundaries in page numbers are those of the addresses |
| Sv39Range.EffectiveEndIsEndOfWalk | kernel/src/arch/riscv64/pgtable.rs:236-250 | where the walk of a range ends, in closed form: before the end when that is a multiple of 512 pages |
| Sv39Range.LeavesExact | kernel/src/arch/riscv64/pgtable.rs:578-701 | the list of a range holds exactly its valid leaves, in ascending order |
| Sv39Range.RestStep | kernel/src/arch/riscv64/pgtable.rs:617-634 | moving a table iterator on splits off one entry |
| Sv39Range.InvalidEntry | kernel/src/arch/riscv64/pgtable.rs:620-631 | an invalid entry stands for no leaf |
| Sv39Range.ChildIter | kernel/src/arch/riscv64/pgtable.rs:674-688 | the iterator below a valid entry walks exactly the pages of that entry |
| RangeIter.InternalRangeIter.constructor | kernel/src/arch/riscv64/pgtable.rs:645-659 | the iterator will yield exactly the valid leaves from the start to the effective end |
| RangeIter.InternalRangeIter.TableNext | kernel/src/arch/riscv64/pgtable.rs:617-634 | the next valid entry of one table |
| RangeIter.InternalRangeIter.NextRecursive | kernel/src/arch/riscv64/pgtable.rs:661-692 | the three-level refill loses and repeats nothing and ends |
| RangeIter.InternalRangeIter.Next | kernel/src/arch/riscv64/pgtable.rs:698-700 | yields the first of what is left with its place; nothing is left exactly when it yields nothing |
| RangeIter.IterationUndisturbed | kernel/src/mmu/pgtable.rs:246-256 | clearing an entry that was yielded does not disturb the iteration |
| RangeNeed.OutOfOrder | kernel/src/arch/riscv64/pgtable.rs:312-326 | when the start index of a table slice lies after its end index the range meets the closed condition `Misordered`, and the walk has made just the tables on its way |
| RangeNeed.Ends | kernel/src/arch/riscv64/pgtable.rs:236-250 | how many tables of each level and how many pages a walk to a given end comes to |
| Vmap.WalkRange | kernel/src/arch/riscv64/pgtable.rs:301-366 | the part of the walk in one table: maps its pages to fresh frames of their own and makes just the missing tables, one frame each; breaks off only at a mapped page or without a free frame; panics only on a slice out of order, and a walk that gets done had none |
| Vmap.WalkEntry | kernel/src/arch/riscv64/pgtable.rs:331-366 | the same for one entry of a table |
| Vmap.WalkLeaf | kernel/src/arch/riscv64/pgtable.rs:461-483 | the closure of `vmap` on one leaf entry |
| Vmap.Vmap | kernel/src/arch/riscv64/pgtable.rs:454-496 | success if and only if the bounds are in order, no page up to the effective end is mapped, and the free frames cover these pages and the missing tables; a panic if and only if the bounds are out of order and the frames cover the tables, with nothing mapped; else it stops at the first page that is mapped or that the frames do not last for, with the break page and what the rollback leaves mapped stated exactly |
| Vmap.StoppedFirst | kernel/src/arch/riscv64/pgtable.rs:301-366 | a walk that breaks off does so at its first obstacle, and which error and break page it reports follows from the inputs |
| Vmap.PanicReached | kernel/src/arch/riscv64/pgtable.rs:326 | mapping 0x180 pages at page 0x200080, the base of user programs, panics, whatever is mapped, as soon as two frames are free |
| Vmap.Vunmap | kernel/src/mmu/pgtable.rs:246-256 | unmaps the mapped pages up to the effective end and frees each of their frames once |
| Vmap.VunmapUndoesVmap | kernel/src/arch/riscv64/pgtable.rs:454-496 | mapping and unmapping a range restores every page, and every frame that did not become a table is free again |
| Vmap.WholeRangeReached | kernel/src/arch/riscv64/pgtable.rs:236-250 | all pages of a range are reached if and only if it is empty or its end is no multiple of 512 pages |
| Vmap.NothingReached | kernel/src/arch/riscv64/pgtable.rs:236-250 | of the pages 0 to 512 none is reached |
| Vmap.RollbackComplete | kernel/src/arch/riscv64/pgtable.rs:485-495 | a failed `vmap` leaves nothing mapped if and only if its first obstacle, which the inputs determine, is the first page of the range or no multiple of 512 pages |
| Vmap.RollbackLeaves | kernel/src/arch/riscv64/pgtable.rs:485-495 | with page 512 mapped, mapping from page 0 over it fails and leaves pages 0 to 511 mapped |
| Vmap.RollbackRun | kernel/src/arch/riscv64/pgtable.rs:485-495 | a run from an empty page table to that failure |
| MapRange.UnmapRange | kernel/src/mmu/pgtable.rs:187-191 | clears the mapped entries up to the effective end, and no other; the tables stay |
| MapRange.MapRange | kernel/src/mmu/pgtable.rs:159-185 | maps the pages of a range to frames one behind the other, whatever they were mapped to: succeeds if and only if the free frames last for the missing tables of the range, and takes just these; else it stops at the first page they do not last for, every free frame has become a table, and which pages stay mapped is fixed |
| MapRange.LackAtTable | kernel/src/mmu/pgtable.rs:172-179 | it can only stop at the first page of the range or at a multiple of 512 pages |
| MapRange.RollbackExact | kernel/src/mmu/pgtable.rs:173-177 | after a failure the same pages are mapped as before if and only if no page that the rollback reaches was mapped and every other one before the failing page was |
| MapRange.RollbackNeverComplete | kernel/src/mmu/pgtable.rs:173-177 | so for a range that was not mapped the rollback is complete if and only if the first page fails |
| MapRange.RollbackRun | kernel/src/mmu/pgtable.rs:173-177 | a run: an empty page table and two free frames; mapping 513 pages fails at page 512 and leaves pages 0 to 511 mapped |
| Pipe.DrainToSlice | kernel/src/utils/vectool.rs:16-34 | copies the front of the queue, in order, over both slices, and drains what it copied |
| Pipe.BufferLockStep | kernel/src/pipe.rs:50-125 | every step keeps: the buffer lock is held by exactly the call that stands where it is held |
| Pipe.QueueLockStep | kernel/src/sync/wait.rs:122-185 | likewise for the lock of each wait queue |
| Pipe.QueueStep | kernel/src/sync/wait.rs:136-176 | every step keeps: a queue holds each blocked call of its side once, and else only calls that a signal woke |
| Pipe.ForgottenStep | kernel/src/pipe.rs:59-83 | every step keeps: a waiting call could move no byte, or a call that moved bytes is about to wake the queue |
| Pipe.StreamsStep | kernel/src/pipe.rs:50-125 | every step keeps: drained bytes and buffer are the pushed bytes in order, and each call moved exactly the filled part of its buffer |
| Pipe.InvInRuns | kernel/src/pipe.rs:50-172 | all of this holds in every state of every run of any number of calls, signals and the closing |
| Pipe.NoLostWakeup | kernel/src/pipe.rs:63-83 | whenever the buffer lock is free a blocked call is queued and could move no byte; with nonzero capacity readers and writers are never blocked on each other |
| Pipe.FirstInFirstOut | kernel/src/pipe.rs:50-125 | in every run bytes leave in the order they entered, and the buffer never exceeds its capacity |
| Pipe.ShortCall | kernel/src/pipe.rs:67-84 | a read that succeeds short finds the pipe closed and every pushed byte drained; a write that succeeds short finds it closed and full |
| PipeCounts.FailedCall | kernel/src/pipe.rs:81-121 | in every run a call fails only if a signal was sent to it and before it is done; the bytes that it had moved until then are drained or pushed all the same |
| PipeCounts.CountsInRuns | kernel/src/pipe.rs:58-125 | in every run the bytes on each side are as many as the calls of that side have counted |
| PipeCounts.ToldCounts | kernel/src/pipe.rs:81-125 | once the calls of a side have returned, the lengths that the successful ones reported fall short of the bytes that went through by just what the failed ones had moved; they are all of them if and only if these had moved nothing |
| PipeCounts.LostWrite | kernel/src/pipe.rs:121 | a run: a write of two bytes into a pipe for one pushes the first, waits, gets a signal and returns an error |
| Pipe.ClosedForGood | kernel/src/pipe.rs:162-171 | once closing has finished both queues are empty for good and no call is blocked |
| Pipe.Progress | kernel/src/pipe.rs:50-172 | while a call or the closing is under way some step is enabled, or a waker and an interrupted task wait for each other |
| Pipe.CrossedForGood | kernel/src/sync/wait.rs:147-184 | that waiting never ends |
| Pipe.CrossedBySignal | kernel/src/sync/wait.rs:147-184 | a run that gets there has sent a signal to the very task that leaves the queue |
| Pipe.ProgressWithoutSignals | kernel/src/pipe.rs:50-172 | in every run without signals: while a call or the closing is under way some step is enabled |
| Pipe.CrossedReachable | kernel/src/sync/wait.rs:147-184 | a run that ends in that deadlock |
| RunQueue.CpusStep | kernel/src/proc/sched/mod.rs:43-74 | every step keeps: the task a CPU has in hand is not queued and in the state the CPU is at |
| RunQueue.QueueStep | kernel/src/proc/task.rs:404-448 | every step keeps: queued tasks are Runable and queued once |
| RunQueue.SomewhereStep | kernel/src/proc/task.rs:404-455 | no step loses a Runable or Running task |
| RunQueue.InvInRuns | kernel/src/proc/sched/mod.rs:43-74 | this holds in every interleaving on any number of CPUs |
| RunQueue.FreeTask | kernel/src/proc/sched/mod.rs:43-74 | a task whose lock is free is Runable iff it is queued once or just picked by one CPU, Running iff current on one CPU, and never in two places |
| RunQueue.SchedulerAssertion | kernel/src/proc/sched/mod.rs:53 | the assertion that a picked task is Runable never fails |
| RunQueue.BlockingAssertion | kernel/src/sync/wait.rs:126-143 | the assertion that a task that blocks is Running never fails |
| RunQueue.ZombieForGood | kernel/src/proc/task.rs:683-694 | a zombie stays one and is never queued or picked again |
| Cfs.NicerIsLighter | kernel/src/proc/sched/cfs.rs:135-151 | a nicer task never weighs more |
| Cfs.InsertAt | kernel/src/proc/sched/cfs.rs:81-97 | a task goes behind every task whose key is not greater and before every other |
| Cfs.CfScheduler.EnqueueReady | kernel/src/proc/sched/cfs.rs:81-97 | keeps the order and the sum of queued weights; the key is raised to that of the front |
| Cfs.CfScheduler.Tick | kernel/src/proc/sched/cfs.rs:99-114 | charges the weighted time since the pick and yields exactly when the slice is used up |
| Cfs.RunTurn | kernel/src/proc/sched/cfs.rs:99-114 | a turn goes on until the first tick that finds the slice used up; the task is charged by each tick until then |
| Cfs.TurnCosts | kernel/src/proc/sched/cfs.rs:104-106 | the ticks of a turn charge the sum of the weighted times from the pick to each of them |
| Cfs.TurnCostsItsTime | kernel/src/proc/sched/cfs.rs:104-106 | a turn is charged at least its weighted time, and just that if and only if it has one tick or the last tick but one comes before the time so far weighs anything |
| Cfs.TwoTicksCostThree | kernel/src/proc/sched/cfs.rs:104-106 | two ticks at equal distance charge three times that distance for twice that time |
| Cfs.CfScheduler.PickNextTask | kernel/src/proc/sched/cfs.rs:116-132 | picks a least key; the slice lies between the minimum granularity and the latency; picked keys never decrease while the queue stays nonempty |
| Cfs.WaitBound | kernel/src/proc/sched/cfs.rs:81-132 | in every interleaving of charged turns on any number of CPUs the picks that pass over a queued task are at most the sum of the key gaps |
| Slab.EightObjectsFit | kernel/src/mmu/slab.rs:66-72 | a slab has room for eight objects of every allowed size |
| Slab.CarveCount | kernel/src/mmu/slab.rs:96-113 | a frame holds as many objects as the division says |
| Slab.ContainsIsOwner | kernel/src/mmu/slab.rs:157-162 | the range test of `slab_contains` finds the slab an object belongs to and no other |
| Slab.SlabMemCache.SlabNew | kernel/src/mmu/slab.rs:85-116 | carves a frame into distinct objects, all on the free list |
| Slab.SlabMemCache.Allocate | kernel/src/mmu/slab.rs:203-241 | hands out an object that is not out, or fails exactly when there is neither slab nor frame; lists and counters match the slabs |
| Slab.SlabMemCache.Deallocate | kernel/src/mmu/slab.rs:243-281 | always finds the slab of the object, takes the object back and moves the slab to its list |
| Slab.SlabMemCache.MaybeShrinkEmptySlabs | kernel/src/mmu/slab.rs:283-293 | gives four of more than eight empty slabs back; nothing that is out is touched |
| Arithmetic.MaskRoundsDown | kernel/src/mmu/mod.rs:59-62 | clearing the bits of a mask one less than a power of two rounds down to a multiple of that power |
| Arithmetic.AlignUpIsLeast | kernel/src/mmu/mod.rs:59-62 | `align_up`, by mask, gives the least multiple of a power of two that is large enough |
| ExecArgs.AlignToWordFits | kernel/src/mmu/mod.rs:66-68 | rounding up to words makes room for the bytes and adds less than a word |
| SlabCache.NewSlabAllocator | kernel/src/mmu/slab.rs:394-426 | panics exactly for object sizes that, rounded up, are too large or too small; else the limits and batch sizes fit each other |
| SlabCache.SlabAllocator.constructor | kernel/src/mmu/slab.rs:394-426 | a new allocator has no object out and every lock free |
| SlabCache.SlabAllocator.GrowFromCache | kernel/src/mmu/slab.rs:328-340 | adds up to a batch to the shared cache; it gets nothing exactly when the slabs are exhausted, and at least eight from an empty or new slab |
| SlabCache.SlabAllocator.ShrinkToCache | kernel/src/mmu/slab.rs:342-351 | a batch goes back to the slabs |
| SlabCache.SlabAllocator.Fetch | kernel/src/mmu/slab.rs:505-519 | an object of the own cache, which no caller has; a lock of the shared cache is given back |
| SlabCache.SlabAllocator.AllocBegin | kernel/src/mmu/slab.rs:502-507 | `allocate_obj` up to the lock of the shared cache: an object exactly when the own cache has one |
| SlabCache.SlabAllocator.RefillBegin | kernel/src/mmu/slab.rs:509-515 | with the lock: gives up exactly when the shared cache and the slabs have nothing |
| SlabCache.SlabAllocator.RefillOne | kernel/src/mmu/slab.rs:353-363 | one round of a batch into the own cache; every object is in exactly one place also in the middle of a batch, with steps of all CPUs in between |
| SlabCache.SlabAllocator.FreeBegin | kernel/src/mmu/slab.rs:546-551 | `deallocate_obj` up to the lock: the object goes into the own cache, and the rest follows exactly when that is full |
| SlabCache.SlabAllocator.DrainBegin | kernel/src/mmu/slab.rs:553-554 | takes the lock to pass a batch on |
| SlabCache.SlabAllocator.DrainOne | kernel/src/mmu/slab.rs:353-363 | one round of a batch into the shared cache; the own cache never runs out |
| SlabCache.SlabAllocator.DrainEnd | kernel/src/mmu/slab.rs:556-561 | a full shared cache passes a batch on to the slabs; the lock is free again |
| SlabCache.SlabAllocator.AllocateObj | kernel/src/mmu/slab.rs:502-520 | these steps one after the other: gives out an object that no caller has; fails exactly when the CPU cache, the shared cache and the slabs have none |
| SlabCache.SlabAllocator.DeallocateObj | kernel/src/mmu/slab.rs:546-562 | likewise for taking an object back: full caches pass batches on and every cache ends under its limit |
| SlabCache.SlabAllocator.BeginInfo | kernel/src/mmu/slab.rs:448-458 | `info` begins under two locks: active objects less the shared cache are what callers and the CPU caches hold |
| SlabCache.SlabAllocator.ReadLength | kernel/src/mmu/slab.rs:462-465 | it subtracts one CPU length at a time, without that lock and also in the middle of a batch |
| SlabCache.SlabAllocator.EndInfo | kernel/src/mmu/slab.rs:448-477 | in every interleaving with allocations and releases the figure is the number callers held at the beginning plus, over all CPUs, the length then less the length read; so it is exact if and only if these cancel out, and the subtraction underflows if and only if the lengths read exceed that number and the lengths then |
| SlabCache.InfoUnderflows | kernel/src/mmu/slab.rs:462-465 | a run in which the subtraction underflows |
| PathComponents.CompsIsComponentsOf | common/path/src/lib.rs:149-192 | the scanning definition of the component list is the one by splitting at slashes |
| PathComponents.CompsSplit | common/path/src/lib.rs:326-361 | cutting a path at a segment boundary cuts its component list |
| PathComponents.TrailingSlashes | common/path/src/lib.rs:371-392 | slashes at the end mean nothing unless they are all there is |
| PathComponents.Components.constructor | common/path/src/lib.rs:300-308 | a new iterator has all components of the path before it |
| PathComponents.Components.Next | common/path/src/lib.rs:326-361 | returns the first of the rest |
| PathComponents.Components.NextBack | common/path/src/lib.rs:366-404 | returns the last of the rest |
| PathComponents.Interleave | common/path/src/lib.rs:323-405 | for every interleaving: fronts, rest and reversed backs are the forward list |
| PathComponents.Components.AsPath | common/path/src/lib.rs:311-320 | panics if and only if only slashes are left and the byte before them is another one past the first byte; else the path has the components of what is left if and only if nothing was taken at the front, only slashes are left, or what is left begins neither with a slash nor with a lone dot |
| PathComponents.Parent | common/path/src/lib.rs:100-106 | the components of the parent are all but the last; none exactly for the root, a leading dot or no component |
| PathComponents.PathLeftIsAbsolute | common/path/src/lib.rs:311-320 | a//b after one component leaves /b |
| PathComponents.PathLeftPanics | common/path/src/lib.rs:311-320 | a// after one component panics |
| LittleEndian.DecodeEncode | kernel/src/proc/exec.rs:158-159 | a little-endian word reads back |
| UserMemory.ChunkStored | kernel/src/mmu/vm.rs:444-449 | copying a chunk into the frame of its page stores exactly those bytes |
| UserMemory.Vm.Write | kernel/src/mmu/vm.rs:426-455 | the page-splitting copy fails exactly when a page is not mapped to accessible memory; it stores the bytes before the first such address, all of them on success, and nothing else, and changes no frame of another page |
| ExecArgs.RoundTrip | ulib/rw_ulib/src/env.rs:66-96 | reading gives the strings back if and only if none of them holds a null byte |
| ExecArgs.PushCstrArray | kernel/src/proc/exec.rs:144-169 | fails exactly when the block is too large; else the block lies below the stack pointer |
| ExecArgs.PushBoth | kernel/src/proc/exec.rs:66-69 | both blocks lie in the four pages below the top and the second leaves the first alone |
| ExecArgs.ReadCstr | ulib/rw_ulib/src/env.rs:76-88 | the bytes up to the first null byte |
| ExecArgs.ReadCstrArray | ulib/rw_ulib/src/env.rs:66-96 | reads as many strings as the count says |
| ExecArgs.UvAlloc | kernel/src/mmu/vm.rs:238-277 | growing maps the new pages to fresh frames or fails, exactly as `vmap` does, or waits for their use; shrinking unmaps pages up to the effective end; the size changes on success only |
| ExecArgs.InitUserStack | kernel/src/proc/exec.rs:111-128 | never panics; succeeds if and only if the six pages are not mapped and the free frames cover them and the missing tables; then the four pages below the top have frames of their own |
| ExecArgs.PassArguments | kernel/src/proc/exec.rs:53-92 | from the new stack through the page table to the user library: it succeeds if and only if there is room for the stack and both lists fit, and the lists come back unchanged if and only if no string holds a null byte |

## Left out

- EFS truncate, deletion and reuse of inodes: table pointers stay set after their blocks are freed, so the invariants do not extend over them; runs start from a zero-filled image.
- EFS directories, links, the inode bitmap and the block cache: the cache and the device are one flat block store.
- `clear` of the page table, which gives a whole address space back.
- Ranges that end past the last virtual page: the source does not check for them.
- Frames: the page table, `vmap` and the slabs take their frames from a set of free frames and not from the buddy model; zeroing of fresh frames is part of making a table only.
- RunQueue: which queued task is picked is left open there (`Cfs` says which); reparenting in `exit`, timers and the signal masks are not modelled.
- Pipe: the task lock is modelled where a resumed task holds it; calls on the wrong end of the pipe, which fail at once, are not.
- Cfs.WaitBound: assumes a fixed set of tasks and that every turn is charged something.
- ExecArgs.InitUserStack: a new address space whose user area begins empty, as `execve` makes it; loading the program is not modelled.
- Widths of integers: sizes stay far below 2^64 in all the modelled code; memory orderings of atomics are sequentially consistent.
- Virtio, MMIO, UART, PLIC, trap entry, the VFS layer, procfs, devfs, ramfs, the shell and the user programs.

# A verified model of the kernel

This project models the parts of the kernel whose correctness is not visible from any one function, in Dafny, and
proves what they promise for every input, every run and every crash. Each part takes the form of its source: state
machines over values for protocols, classes with fields updated in place for objects, methods with loops for loops.

- **The write-ahead log** (`LogFormat`, `Journal`, `JournalProofs`, `JournalRuns`, `JournalShortLog`,
  `JournalDurable`). The disk is a sequence of blocks, one block is written at a time, and the machine may stop between
  any two writes. Operations begin, sync blocks and end in any interleaving; the last one to end runs the checkpoint;
  `init_bcache` replays the log; blocks may be written outside operations, changed or not. Every safe step refines a
  store with a current and a stable map.
- **The block cache** (`CacheList`, `BlockCache`, `HolderFlag`). A class with the list, the counter and the log of
  `src/fs/cache.c`, whose methods are its functions, loop by loop. Its states are reachable states of the machine
  above, so what is proved of runs holds of it.
- **The inode layer** (`FsLayout`, `FsFormat`, `FsFile`, `FsRoom`, `FsTrace`, `FsLog`, `InodeSteps`, `InodeLayer`,
  `InodeBudget`). Inodes, bitmap and indirect blocks down to their bytes; files as byte sequences; ownership of blocks;
  which blocks an operation has to log, as a function of the state before it. The layer works on what the cache shows of
  the disk. `FsFormat` says what every byte of the disk stands for, as mkfs writes it.
- **Both together** (`FsJournal`, `FsCrash`). The syncs of an operation of the inode layer are a run of the journal, and
  over all runs and crashes a recovery shows the consistent file system of a moment between two operations.
- **The red-black tree** (`RbShape`, `RbSurgery`, `RbInsert`, `RbErase`, `RbUnlink`, `RedBlackTree`). An arena of
  records with parent and colour packed in one word, overwritten in place; a ghost tree says what the arena holds. The
  mirrored halves of the source are one piece of code with a side as parameter.
- **The dynamic linker** (`CtorOrder`, `SymbolHash`). The constructor order, whose list and stack share a buffer and
  which is the post-order of a recursive search, and the GNU hash table with its Bloom filter.
- **Memory** (`KernelHeap`, `PageTable`). The allocator with headers in its pages, and the four-level page table.
- **Processes** (`Scheduler`, `Semaphores`). The run queue, and semaphores as a protocol between two locks.
- **Devices** (`Virtqueue`, `PipeRing`). The descriptor chains of a virtqueue, and the ring of a pipe.
- **Shared by all** (`Basics`). Options, word sizes, powers of two, sequences without duplicates.

Where comments in the source and its code disagree, the model follows the code. `src/fs/cache.h` says that `end_op`
waits until the operation is checkpointed, and that a block is locked for its holder; see the findings.

`dafny verify dfyconfig.toml` checks the whole project.

## Model

| member | source | states |
|---|---|---|
| LogFormat.HeaderRoundTrip | src/fs/cache.c:83-91 | the log header written to its block and read back is the same header: every word of every header that fits the C struct |
| LogFormat.DecodeEncodeWords | src/fs/defines.h:72-75 | little-endian words of any width survive encoding and decoding, for every list of words that fit the width |
| FsFormat.HeaderIs | src/fs/defines.h:72-75 | the log header byte by byte: the number of entries in the first 8 bytes, the home block of entry i in the 8 bytes from 8 * (i + 1) on, lowest byte first |
| FsFormat.ReplayIs | src/fs/cache.c:433-444 | what a recovery makes of a block, in these bytes: the i-th block behind the header for the block that entry i names, and itself for a block that none names |
| JournalRuns.InvStep | src/fs/cache.c:161-451 | every safe step of the block cache, the log, a checkpoint, a crash or a recovery, writes outside an operation included, keeps the invariant: header entries distinct home blocks, exactly the logged blocks pinned, unpinned blocks as on disk, budgets within the header, log blocks filled up to where the checkpoint stands; a write outside an operation changes just that block of what a recovery would bring back, and of the other device writes only that of the header changes it |
| JournalRuns.Refines | src/fs/cache.c:161-451 | every safe step is a step of a store with a current and a stable map: a sync changes one current block, a write outside an operation one current and the same stable block, the header write is the commit, a crash falls back to the stable map, everything else is invisible |
| JournalRuns.RunRefines | src/fs/cache.c:161-451 | every run of safe steps, of any length, is a run of that store with the same events |
| JournalRuns.DirectExactly | src/fs/cache.c:269-274 | a write outside an operation, in any state and with any contents, is such a step and keeps the invariant if and only if the block reads as it is stable and, where the write changes it, the checkpoint under way has no copy of it in the log |
| JournalRuns.ReachableIsRun | src/fs/cache.c:406-451 | the reachable states, as the least set closed under safe steps from a boot, are exactly the states at the end of a run from a boot |
| JournalRuns.ReachableInv | src/fs/cache.c:245-451 | every reachable state satisfies the invariant |
| JournalRuns.RoomyRunsAreSafe | src/fs/cache.c:372-383 | on a log with a block for each entry its header can hold, the end of an operation is never unsafe: only a write outside an operation can be |
| JournalRuns.NoPanic | src/fs/cache.c:293-308 | in every reachable state with an operation under way: no checkpoint is running, header entries plus all remaining budgets fit the header, an operation with budget left finds a free entry, and every logged block is cached and pinned |
| JournalRuns.CrashAtomicity | src/fs/cache.c:313-367 | whatever device writes a checkpoint made before a crash, however many recoveries were cut short after it, and whatever was written outside operations meanwhile, once the system is idle again the home blocks so written read as last written, and all others as stable before the checkpoint or all as read when it started; for every layout, if the log has a block for each logged entry |
| JournalShortLog.AtomicExactly | src/fs/cache.c:318-342 | for every header: the checkpoint is all or nothing for all contents, crashes and recoveries if and only if header.num_blocks is below the number of log blocks |
| JournalShortLog.Overrun | src/fs/cache.c:326 | in every state in which it is not: a crash right after the overrunning log write, and a recovery, leave the contents of one entry in the home block behind the log and every other home block as it was |
| JournalShortLog.LogFillsUp | src/fs/cache.c:245-310 | the header can fill up completely: six operations under way at once, after one that logged three blocks |
| JournalShortLog.ShortLogBreaks | src/user/mkfs/main.c:35-44 | on every disk with a log of 63 blocks, header included: a run from boot to a checkpoint after which a block nobody wrote has changed and none of the blocks written has, which is neither all nor nothing |
| JournalShortLog.MkfsLayoutIsShort | src/user/mkfs/main.c:108-117 | the layout mkfs writes is such a disk |
| JournalProofs.DirectSyncKeeps | src/fs/cache.c:268-274 | in every running state a sync outside an operation that changes nothing leaves what a crash would bring back alone if and only if the home writes are under way, or the block is not logged, or it reads as it is stable |
| JournalRuns.DirectSyncLeaks | src/fs/inode.c:276 | on every disk with an empty log: a running operation writes a block, the block is synced outside an operation (as inode_get does), and after a crash the write is there although no operation ended |
| JournalDurable.DurableExactly | src/fs/cache.h:146-148 | when cache_end_op returns, what was read at its call survives a crash if and only if it was the last operation under way or no logged block differed from the disk |
| JournalDurable.LastsExactly | src/kernel/sysfile.c:251-261 | a block written outside an operation, as munmap does, reads as written in every later state, over all crashes and recoveries, until somebody writes it again, if and only if the write changes nothing or the checkpoint under way has no copy of it in the log |
| JournalDurable.Undone | src/fs/cache.c:269-274 | in every state in which it has one, a crash brings that copy back in place of what was written |
| JournalDurable.MappedWriteIsLost | src/kernel/sysfile.c:251-261 | such a state from boot, on every disk with an empty log of at least two blocks: an operation syncs a block, the checkpoint copies it to the log, and whatever is then written outside an operation is gone after a crash |
| JournalDurable.EarlyEndIsLost | src/fs/cache.c:386-399 | on every disk with an empty log: of two operations under way the one that wrote ends first, and a crash then undoes its write |
| HolderFlag.ProtectedExactly | src/fs/cache.c:161-242 | over every run of processes that set the flag, take the lock and release the block, each a step of its own: a block that somebody holds, waits for or is about to lock has its acquired flag set throughout if and only if no release finds anybody asleep on the lock or between flag and lock |
| HolderFlag.WaiterLosesIt | src/fs/cache.c:232-242 | two processes are enough to lose the flag of a held block: one asleep on the lock when the other releases, |
| HolderFlag.LatecomerLosesIt | src/fs/cache.c:174-183 | or one that has set the flag and not yet taken the lock, so that no release ever finds a waiter |
| BlockCache.Cache.Find | src/fs/cache.c:93-111 | finds a block of the list by number, or nothing exactly if no block has it |
| BlockCache.Cache.Evict | src/fs/cache.c:113-139 | drops nothing if the cache is below the threshold or every block is acquired or pinned; otherwise exactly one block, of those that may go the one acquired longest ago; the counter stays the length of the list |
| BlockCache.Cache.MakeRoom | src/fs/cache.c:196-202 | where a block is missing, a block is dropped if and only if the cache has reached the threshold and one may go; it is then, of those that may go, the one acquired longest ago; the cache never gets longer than the threshold, or than one more than the most blocks that were held or pinned when one was missing |
| BlockCache.Cache.MoveToFront | src/fs/cache.c:169-191 | a hit changes neither contents nor pins, only the order of use |
| BlockCache.Cache.Load | src/fs/cache.c:196-229 | a miss, with its eviction as above and its device read, shows every reader of every block the same contents as before |
| BlockCache.Cache.Acquire | src/fs/cache.c:161-229 | the block is at the front of the list, held, and reads as last synced; no number is in the list twice; on a hit the rest of the list keeps its order and its entries, on a miss it is as MakeRoom leaves it; log, disk and operations are untouched |
| BlockCache.Cache.Release | src/fs/cache.c:232-242 | the block is no longer held, and contents, pins and the order of last use are as before |
| BlockCache.Cache.TryBegin | src/fs/cache.c:245-265 | an operation is admitted exactly if no checkpoint runs and the header has room for its whole budget and those of all others; otherwise nothing changes |
| BlockCache.Cache.FindLogged | src/fs/cache.c:280-289 | tells exactly whether the block is in the header |
| BlockCache.Cache.Sync | src/fs/cache.c:268-310 | panics exactly if the block is new to the log and the budget is spent; otherwise the block is pinned with the new contents, logged once, and charged only if it is new |
| BlockCache.Cache.SyncDirect | src/fs/cache.c:269-274 | a write outside an operation is that step of the machine, in every state; where it is safe, current and stable map change in that one block and are otherwise as before |
| BlockCache.Cache.LogAll | src/fs/cache.c:318-338 | every disk a crash could find on the way is stable as before, and readers see no change; the machine has then logged every entry; the blocks held are as before |
| BlockCache.Cache.WriteHeader | src/fs/cache.c:341-343 | this one write makes all that is read stable |
| BlockCache.Cache.HomeAll | src/fs/cache.c:346-351 | every disk a crash could find on the way is stable as after the commit, and readers see no change; every entry has then been written home; the blocks held are as before |
| BlockCache.Cache.DoCheckpoint | src/fs/cache.c:313-367 | of all the disks a crash could find, those up to one number are stable as before the checkpoint and those from it on as read when it started; at the end every home block itself holds that and the log is empty; whatever unlogged blocks other processes hold, they still do |
| BlockCache.Cache.EndOp | src/fs/cache.c:372-402 | the last operation returns with everything that is read at home and the log empty; any other writes nothing to the device and leaves the log and the budgets of all others alone |
| BlockCache.Cache.CopyAll | src/fs/cache.c:433-444 | the loop reaches the last entry, and every disk a crash could find on the way is stable as the first |
| BlockCache.Cache.InitBcache | src/fs/cache.c:406-451 | every disk a recovery leaves on its way, and the last, is stable as the first, so it may be cut short and started again any number of times; at the end the home blocks hold it and readers see it |
| CacheList.LastIsOldest | src/fs/cache.c:114-139 | in a list ordered by last use, the block nearest the end that may go is the least recently acquired of all that may |
| RedBlackTree.RbRoot.ChangeChild | src/common/rbtree.c:29-39 | one link changes, as ChangedChildCtx describes |
| RedBlackTree.RbRoot.RotateSetParents | src/common/rbtree.c:40-47 | three words change, as RotateCorrect describes |
| RedBlackTree.RbRoot.InsertFix | src/common/rbtree.c:48-118 | from one red node that may have a red parent to a valid tree with the nodes in the same order; the loop ends |
| RedBlackTree.RbRoot.InsertRecolour | src/common/rbtree.c:62-69 | with a red uncle: the grandparent is the new red node, two levels up, and only records above the node change |
| RedBlackTree.RbRoot.InsertTurn | src/common/rbtree.c:71-87 | with a black uncle: one or two rotations give a valid tree with the nodes in the same order |
| RedBlackTree.RbRoot.FindPlace | src/common/rbtree.c:260-282 | meets an equal node and changes nothing, or hangs the new node where the order wants it |
| RedBlackTree.RbRoot.Insert | src/common/rbtree.c:260-285 | under any strict order of the nodes concerned: -1 exactly if an equal node is there, and then the tree and every other record are as they were; otherwise a valid red-black tree with the old nodes and the new one, in search order, with consistent parent words |
| RedBlackTree.RbRoot.EraseRedSibling | src/common/rbtree.c:177-183 | a red sibling goes over the parent; the short side then has a black sibling and is as short as before |
| RedBlackTree.RbRoot.EraseRecolour | src/common/rbtree.c:186-198 | with two black nephews: done with a valid tree, or the short side is the parent, one level up |
| RedBlackTree.RbRoot.EraseFix | src/common/rbtree.c:171-259 | from a tree with one side a black node short to a valid tree with the nodes in the same order; the loop ends |
| RedBlackTree.RbRoot.UnlinkOneSided | src/common/rbtree.c:124-137 | a node with at most one child is replaced by it; the order loses just that node, and the result says whether a side is now short |
| RedBlackTree.RbRoot.FindSuccessor | src/common/rbtree.c:139-149 | walks to the leftmost node of the right subtree |
| RedBlackTree.RbRoot.UnlinkBetween | src/common/rbtree.c:138-168 | a node with two children is replaced by its successor, also where that is its own right child; the order loses just that node |
| RedBlackTree.RbRoot.Unlink | src/common/rbtree.c:119-170 | all three branches: the order loses just that node, and the result is the parent of the side that is short, if one is |
| RedBlackTree.RbRoot.Erase | src/common/rbtree.c:286-292 | a valid red-black tree (equal black heights, no red node with a red child, black root, consistent parent words and colours) with exactly the other nodes in their old order; sorted if it was |
| RedBlackTree.RbRoot.Lookup | src/common/rbtree.c:293-306 | a node equal under the order, or nothing exactly if there is none |
| RedBlackTree.RbRoot.First | src/common/rbtree.c:307-316 | the first node in order, which is the least if the tree is sorted; nothing exactly for the empty tree |
| RbUnlink.RemovedSorted | src/common/rbtree.c:286-292 | a sorted sequence stays sorted when a node is taken out |
| RbInsert.SortedInsert | src/common/rbtree.c:267-282 | putting a node between those before and those behind it keeps a sequence sorted |
| RbSurgery.ChangedChildCtx | src/common/rbtree.c:29-39 | the context of a subtree then leads to the new subtree and is otherwise the same, at the root as well |
| RbSurgery.RotateCorrect | src/common/rbtree.c:82-86 | any rotation, on either side, with any colours: the arena holds the rotated tree in its old context, and no node outside changes |
| CtorOrder.MoveInv | musl/ldso/dynlink.c:1549-1562 | each step of the search keeps: listed, stacked and unmarked objects are apart, the stack is a path, and what a listed object depends on is marked |
| CtorOrder.VisitedAll | musl/ldso/dynlink.c:1549-1562 | when the stack is empty, every object the root reaches is listed once, every dependency before its dependent unless the two lie on a cycle, and the list is the post-order of the recursive search |
| CtorOrder.VisitedOrder | musl/ldso/dynlink.c:1549-1562 | every state of the search leads to the list that a recursive depth-first search makes: objects in the order in which they are finished, dependencies visited in their order, whatever was marked elsewhere |
| CtorOrder.MoveOrder | musl/ldso/dynlink.c:1549-1562 | no step of the search changes what finishing the stack by recursion would give |
| CtorOrder.RoomEnough | musl/ldso/dynlink.c:1518-1526 | the buffer has more slots than there are objects the root reaches, with either way of counting |
| CtorOrder.Linker.Descend | musl/ldso/dynlink.c:1551-1560 | goes down to an object whose dependencies are all marked; the stack stays clear of the list in the buffer they share |
| CtorOrder.Linker.Sort | musl/ldso/dynlink.c:1549-1562 | ends, with the list in the front of the buffer |
| CtorOrder.Linker.FillQueue | musl/ldso/dynlink.c:1541-1564 | for every graph, cyclic ones included: the list, ended by NULL, is the post-order of the recursive search; it has each object the root reaches once, dependencies first unless on a cycle, and all marks are cleared |
| CtorOrder.Linker.FreeTorn | musl/ldso/dynlink.c:1565-1571 | frees the list once for each listed object left in the middle of its constructor by a fork, and at run time only once |
| CtorOrder.Linker.QueueCtors | musl/ldso/dynlink.c:1507-1574 | which of its four outcomes it has, exactly: no list in ldd mode, a failed allocation, torn constructors among the objects the root reaches, and then how often the list was freed, or a list with all of the above |
| CtorOrder.Linker.ListDeps | musl/ldso/dynlink.c:1324-1347 | the list that grows under the loop is the breadth-first one, for the rounds there was memory for; it is left early exactly at run time and without memory |
| CtorOrder.Linker.CountUnlisted | musl/ldso/dynlink.c:1326-1327 | counts the slots the reallocation has to add |
| CtorOrder.Linker.AppendDeps | musl/ldso/dynlink.c:1325-1346 | what is appended are the dependencies not listed yet, once each and in their order, and the slots counted before are enough |
| CtorOrder.Linker.ExtendBfsDeps | musl/ldso/dynlink.c:1302-1351 | whichever rounds have memory: the list is the breadth-first one, only objects reached by at least one edge are listed, the direct dependencies first as they were, every other object once; with memory in all rounds exactly those, the object itself only if it lies on a cycle; it jumps exactly at run time and without memory, and otherwise all marks are cleared |
| FsLayout.EntryRoundTrip | src/fs/defines.h:51-59 | every inode that fits its 64 bytes survives packing and unpacking |
| FsLayout.WordsRoundTrip | src/fs/defines.h:62-64 | so do the 128 block numbers of an indirect block |
| FsFormat.EntryIs | src/fs/defines.h:51-59 | each field of inode n stands where the C struct has it, from byte 64 * (n % 8) of block inode_start + n / 8 on |
| FsLayout.PutEntryFacts | src/fs/inode.c:47-54 | writing one inode changes that inode and no other, also in the same block |
| FsLayout.PutBitFacts | src/fs/cache.c:469-474 | setting or clearing the bit of one block changes the state of that block and of no other |
| FsFormat.UsedIs | src/fs/cache.c:465-477 | block b is marked by bit b % 8, the lowest first, of byte b % 4096 / 8 of block bitmap_start + b / 4096 |
| FsFormat.WithBitIs | src/fs/cache.c:469-474 | setting or clearing a bit changes the byte by its value, unless the bit is so already |
| FsFormat.FreshUsed | src/user/mkfs/main.c:258-271 | of the bitmap mkfs writes, with the first n bits set, just the first n blocks are used |
| FsFormat.ByteIs | src/user/mkfs/main.c:275-314 | byte i of a file is byte i % 512 of the block that entry i / 512 of the inode names, or, from the twelfth on, word i / 512 - 12 of its indirect block |
| FsFile.OtherContent | src/fs/inode.c:538-586 | what an operation on one inode may change leaves the entry and the content of every other inode alone |
| FsFile.FsInvKept | src/fs/inode.c:438-586 | and it keeps the whole file system consistent: each inode dense and well formed, a data block marked used exactly if an inode owns it, and then only one, in one place |
| FsFile.OperationKeeps | src/fs/inode.c:281-586 | both together, for any operation that is well formed before and after |
| FsFile.FreeContents | src/fs/inode.c:306-314 | whatever a free block holds, every file is the same and the file system is consistent, so it does not matter that the freed list of blocks was zeroed and not synced |
| InodeSteps.DirectStep | src/fs/inode.c:450-461 | a new direct block: blocks are conserved, the data stays, the inode on disk is the one in memory |
| InodeSteps.IndirectStep | src/fs/inode.c:466-477 | a new indirect block lists nothing, and the data stays |
| InodeSteps.ListedStep | src/fs/inode.c:480-490 | a new block listed in the indirect block: one place of the file changes |
| InodeSteps.Overlay | src/fs/inode.c:562-570 | byte by byte, the new bytes from the offset on and otherwise the old ones |
| InodeSteps.WriteStep | src/fs/inode.c:555-577 | a round of the write loop: the file holds the bytes overlaid so far, and nothing but the file has changed |
| InodeSteps.FreeRef | src/fs/inode.c:295-320 | freeing the block at one place of a file takes it from the file and from nothing else |
| FsRoom.RoomLacking | src/fs/cache.c:492-493 | where an allocation fails in a write, the disk had fewer free blocks than the write had places to fill |
| FsRoom.RoomNext | src/fs/file.c:219-245 | a write takes as many blocks from the free ones as it takes places from those that all the bytes need, so room for the rest is room for the whole |
| FsTrace.ChangedIsLogged | src/fs/inode.c:538-586 | a disk made from another by syncs alone differs from it only in blocks that were logged |
| FsLog.TakenAreLowest | src/fs/cache.c:460-490 | allocations one after the other take just as many of the lowest free blocks |
| FsLog.PlanIs | src/fs/inode.c:538-586 | the blocks a whole write logs are those of its plan, which is a function of the disk, the inode, the offset and the length before the call |
| FsLog.ClearPlanBound | src/fs/inode.c:281-327 | clearing a file of any size has to log at most the bitmap and one inode block |
| InodeLayer.InodeOp.Alloc | src/fs/cache.c:454-495 | the lowest free block, on a disk as mkfs leaves it the first one behind its blocks; it is marked and cleared, with one bit changed and nothing else; or nothing exactly if all are used |
| InodeLayer.InodeOp.Free | src/fs/cache.c:499-515 | clears that bit and nothing else |
| InodeLayer.InodeOp.Sync | src/fs/inode.c:204-233 | the entry on disk becomes the one in memory, or the other way round |
| InodeLayer.InodeOp.Map | src/fs/inode.c:438-495 | the block of a byte, allocated if it was missing; places that were filled stay, no others than those of that byte are filled, and it fails exactly with a place empty and no free block |
| InodeLayer.InodeOp.Find | src/fs/inode.c:450-494 | without an operation: the block of a byte, or 0 for none, and nothing changes |
| InodeLayer.InodeOp.Read | src/fs/inode.c:498-535 | its assertions hold exactly for an offset inside the file and a count that does not wrap around; the result is then exactly the requested slice, cut at the end of the file |
| InodeLayer.InodeOp.WriteAll | src/fs/inode.c:555-577 | after the loop the file holds the old bytes overlaid with the new; or it halts with a needed place empty and every block used |
| InodeLayer.InodeOp.Write | src/fs/inode.c:538-586 | succeeds exactly if it starts inside the file, ends within the largest size, finds a free block for each place it has to fill, and the budget left covers the planned blocks that are not logged yet; the content then has, byte by byte, the new bytes from the offset on and otherwise the old ones, the inode on disk is the one in memory, the disk is the old one with its syncs applied, just the planned blocks were logged and charged, and no other file has changed; two blocks a block of the file and three more, one less if it starts inside a block, always suffice |
| InodeLayer.InodeOp.WriteChunk | src/fs/file.c:222-235 | an operation of file_write stays within OP_MAX_NUM_BLOCKS, at any offset and with any bitmap, and the disk after it is the old one with its syncs applied |
| InodeLayer.ChunkBudget | src/fs/file.c:216 | why: the bound for at most maxbytes at any offset |
| InodeBudget.BudgetIsTight | src/fs/file.c:216 | on every layout with at least four bitmap blocks there is a consistent file system with a file for which the plan of a chunk has exactly OP_MAX_NUM_BLOCKS blocks: with a smaller budget the write would panic |
| InodeLayer.InodeOp.FileWrite | src/fs/file.c:204-257 | -1 exactly if not open for writing; panics exactly if there is something to write and it starts behind the end, ends beyond the largest size, or the disk lacks blocks for the whole; otherwise the content has, byte by byte, the new bytes from the offset on and otherwise the old ones, the offset is behind them, no other file has changed, and there was an operation for each piece of maxbytes, none beyond its budget |
| InodeLayer.InodeOp.Clear | src/fs/inode.c:281-327 | succeeds exactly if the budget left covers the planned blocks that are not logged yet, and always if it covers the bitmap and the inode; the file is then empty, exactly its direct, indirect and listed blocks have become free, every other file is as it was, and the disk is the old one with the syncs of the planned blocks applied |
| FsJournal.OperationRuns | src/fs/cache.c:245-310 | wherever an operation may begin, any syncs to file system blocks that touch no more blocks than the budget are a safe run of the journal that never panics and can end, and readers then see the disk with the syncs applied |
| FsCrash.ChunkJournaled | src/fs/file.c:222-235 | so a chunk of file_write is a run of the journal from there, and takes the file system to a consistent one |
| FsCrash.ClearJournaled | src/fs/inode.c:281-327 | and so is inode_clear, on disks whose bitmap fits the budget |
| FsCrash.MoveInv | src/fs/cache.c:245-451 | every step of the journal and every sync of a file operation, together, keep: what a recovery would show was shown when no operation was part way, and what is shown is the state of such a moment with the syncs done so far |
| FsCrash.FileSystemSurvives | src/fs/cache.c:245-451 | over every run of such operations, checkpoints, crashes and interrupted recoveries: what a recovery shows is a consistent file system, and one that was shown between two operations, as is what the running system shows whenever no operation is part way; each of these came from an earlier one by the syncs of one whole operation |
| SymbolHash.GnuHash | musl/ldso/dynlink.c:248-255 | wrapping around at 32 bits in each step gives the full number cut once |
| SymbolHash.HashOfPrintf | musl/ldso/dynlink.c:248-255 | the hash of printf, as a number |
| SymbolHash.AndBit | musl/ldso/dynlink.c:296-299 | a mask with one bit tests that bit, for numbers of any size |
| SymbolHash.AndMask | musl/ldso/dynlink.c:295 | a mask below a power of two takes the remainder |
| SymbolHash.ScanFinds | musl/ldso/dynlink.c:281-287 | the reference: a linear scan gives the first visible symbol of a name, or nothing exactly if there is none |
| SymbolHash.TwoSymbolsAreLaidOut | musl/ldso/dynlink.c:271-302 | a section with two symbols, word by word, is well formed |
| SymbolHash.GnuLookup | musl/ldso/dynlink.c:271-290 | for every well-formed table and every name: the walk stays inside its bucket and finds what the scan of all hashed symbols finds |
| SymbolHash.GnuLookupFiltered | musl/ldso/dynlink.c:292-302 | and so with the Bloom filter before it, which turns away no name that is there |
| KernelHeap.AllApart | src/kernel/mem.c:138-213 | in a heap that tiles its pages no two blocks overlap, headers included |
| KernelHeap.LiveApart | src/kernel/mem.c:147-205 | live payloads never overlap |
| KernelHeap.HeadersApart | src/kernel/mem.c:155-183 | no header lies in a live payload, so splitting and merging do not touch one |
| KernelHeap.MergeStep | src/kernel/mem.c:140-144 | merging two blocks keeps the tiling, the pages and the live allocations |
| KernelHeap.SplitStep | src/kernel/mem.c:159-166 | and so does cutting off the unused rest of one |
| KernelHeap.FitMerged | src/kernel/mem.c:168-186 | a free block serves whatever one that follows it in its page would, at either alignment |
| KernelHeap.FitTrimmed | src/kernel/mem.c:155-166 | the room behind a live payload serves as the block it becomes |
| KernelHeap.NoneFits | src/kernel/mem.c:152-188 | the first fit is missing exactly if no block, merged with the free ones behind it, has room for an aligned header and payload |
| KernelHeap.Heap.Merge | src/kernel/mem.c:138-145 | joins all free blocks that follow in the page, and none is left to join; whatever is asked for, the same payload serves |
| KernelHeap.Heap.TrimUsed | src/kernel/mem.c:155-166 | the rest behind a live payload becomes a block; live allocations stay, and the same payload serves |
| KernelHeap.Heap.TryFree | src/kernel/mem.c:168-186 | a free block grown as far as it can be; if it then serves the request, the aligned part of it, and otherwise the first fit is behind it |
| KernelHeap.Heap.Search | src/kernel/mem.c:152-188 | ends although the list changes under it, with the first fit of the list as it was, or nothing exactly if there is none; the heap stays tiled and live allocations stay |
| KernelHeap.Heap.Kalloc | src/kernel/mem.c:147-205 | the heap stays tiled, the live allocations gain exactly the new one, apart from all others and aligned to 8 or 4 bytes as its size asks; a page is taken exactly if no block, merged with the free ones behind it, has room for it, and otherwise the first that has is used; the block is as large as asked exactly for sizes up to 4080 |
| KernelHeap.Heap.Kfree | src/kernel/mem.c:207-213 | exactly that allocation is gone, its block is joined with the free ones behind it, and the heap stays tiled |
| KernelHeap.Heap.FreeThenAlloc | src/kernel/mem.c:147-213 | what has been freed can be had again without a new page |
| PageTable.PartsAreDigits | src/aarch64/mmu.h:68-71 | the four index parts are the digits of the 36-bit page number in base 512 |
| PageTable.PartsInjective | src/aarch64/mmu.h:68-71 | two addresses agree in all four parts exactly if they lie in the same page |
| PageTable.PackRoundTrip | src/aarch64/mmu.h:63-64 | the table address packed with its flags is found again, and no entry so made is 0 |
| PageTable.PackBits | src/aarch64/mmu.h:27 | an entry for a table is marked as one, and as valid |
| PageTable.LinkStep | src/kernel/pt.c:29-37 | a blank page linked as a new table leaves every translation of every address as it was |
| PageTable.PutStep | src/kernel/pt.c:148 | writing one last-level entry changes the translation of its page and of no other |
| PageTable.WalkIsEntry | src/aarch64/mmu.h:63-71 | the walk of the hardware through the tables in memory, top bits first, finds for every address just what the flat map says |
| PageTable.PageDir.GetPte | src/kernel/pt.c:6-72 | finds the place of the entry, allocating tables only if asked to; every translation and every page that is no new table stay as they were; without allocation it fails exactly if a table is missing, with it exactly if there is no page for one that is missing |
| PageTable.PageDir.Vmmap | src/kernel/pt.c:139-155 | for the hardware exactly the translation of that page changes, and its reference count goes up by one; or, exactly if there is no page for a missing table, none does |
| PageTable.PageDir.FreePgdir | src/kernel/pt.c:83-114 | every table page is given back once and no other page is |
| Scheduler.ActivatedInv | src/kernel/sched.c:128-162 | waking a process, in whatever state, keeps: a process is on the run queue exactly if RUNNABLE or RUNNING, and once; no process is current on two CPUs; an idle process that is not current is RUNNABLE |
| Scheduler.PickedRunnable | src/kernel/sched.c:202-220 | the one picked is RUNNABLE and nobody RUNNABLE stands before it in the queue; idle only if there is none, or in a panic |
| Scheduler.SwitchedInv | src/kernel/sched.c:252-257 | the assertion on the next process holds, and the switch restores the invariant |
| Scheduler.ScheduledInv | src/kernel/sched.c:242-262 | a whole sched keeps the invariant and changes the state of nobody but the one who leaves and the one who comes |
| Scheduler.FrontFirst | src/kernel/sched.c:165-262 | in a round of the scheduler on any CPU, of two RUNNABLE processes in the queue the one behind does not get the CPU |
| Scheduler.QueueOrder | src/kernel/sched.c:165-262 | over any run of rounds on any CPUs and wake-ups of anybody: until the one in front has run, the one behind has not run either and is still behind it |
| Scheduler.YieldGoesBehind | src/kernel/sched.c:165-187 | a process that gives up the CPU and may run on stands behind all others in the queue then, and they keep their order |
| Scheduler.YieldLetsOthersRun | src/kernel/sched.c:242-262 | it does not go on if another process is RUNNABLE and there is no panic |
| Scheduler.RoundRobin | src/kernel/sched.c:165-262 | over any run of rounds and wake-ups it does not run again before every process that was RUNNABLE when it yielded has run |
| Scheduler.Variables.Activate | src/kernel/sched.c:128-162 | wakes exactly sleepers, new processes and, without an alert, deep sleepers: they come to the front of the queue |
| Scheduler.Variables.UpdateThisState | src/kernel/sched.c:165-198 | the current process leaves the queue, and goes to its end if it may run on; the idle process never enters it |
| Scheduler.Variables.PickNext | src/kernel/sched.c:202-220 | the first RUNNABLE process of the queue; idle exactly if there is none or the kernel panics |
| Scheduler.Variables.Schedule | src/kernel/sched.c:242-262 | keeps the invariant; a killed process that is not about to end just goes on |
| Semaphores.InvStep | src/common/sem.c:24-96 | every step of waits, posts, alerts, kills, yields and exits, interleaved at the two locks, keeps the invariant of semaphores, processes and locks together |
| Semaphores.PostSem | src/common/sem.c:87-96 | its assertion holds, and it grants to the one who has waited longest |
| Semaphores.ResumeSem | src/common/sem.c:76-80 | the assertion of a wait that was interrupted holds, and the record leaves the list |
| Semaphores.PostEnabled | src/common/sem.c:87-96 | a post is possible whenever the lock of the semaphore is free |
| Semaphores.WakeInv | src/common/sem.c:94 | once a post to a waiter is complete, that process is RUNNABLE or RUNNING |
| Semaphores.SafeRuns | src/common/sem.c:24-96 | over every run from a start without waiters: the sleep list has max(0, -val) records and nobody twice, initial value plus posts is value plus grants plus waiters, a granted waiter is not asleep, and nobody sleeps outside a wait |
| Semaphores.UnalertableSucceeds | src/common/sem.c:62-85 | a wait that takes no alerts returns true, unless the process had been killed when it went to sleep |
| Semaphores.AsleepAs | src/common/sem.c:74 | a wait that takes alerts sleeps SLEEPING, one that does not DEEPSLEEPING |
| Semaphores.AlertInterrupts | src/kernel/sched.c:128-162 | an alert gets every process going that is in a wait that takes alerts, and leaves every other waiter as it is |
| Semaphores.ExitIsFinal | src/kernel/sched.c:242-262 | a process that exits, killed or not, is a ZOMBIE then, and no step of anybody changes that |
| Semaphores.Semaphore.PostAll | src/common/sem.c:51-60 | ends, wakes exactly those who wait, the longest waiting first, and returns their number; the value is then 0, or as before if nobody waited |
| Semaphores.Semaphore.Post | src/common/sem.c:87-96 | takes the last record of the list exactly if the value was negative |
| Semaphores.Semaphore.Get | src/common/sem.c:24-32 | succeeds exactly for a positive value |
| Semaphores.Semaphore.GetAll | src/common/sem.c:39-49 | takes all there is, never more |
| Virtqueue.Virtq.constructor | src/driver/virtio_blk.c:17-25 | all descriptors are free, in one list, for a queue of any size |
| Virtqueue.Virtq.AllocDesc | src/driver/virtio_blk.c:27-40 | the head of the free list, although the last member points to a stale place; fails exactly if the list is empty |
| Virtqueue.Virtq.Submit | src/driver/virtio_blk.c:80-106 | three descriptors become a chain exactly if three are free; free list and chains stay apart and together are all descriptors |
| Virtqueue.Virtq.Complete | src/driver/virtio_blk.c:42-58 | the chain goes back to the front of the free list, and all other chains stay; the loop ends |
| Virtqueue.SubmitShares | src/driver/virtio_blk.c:80-106 | the partition of the descriptors after a request |
| Virtqueue.CompleteShares | src/driver/virtio_blk.c:123-127 | and after its completion |
| PipeRing.Pipe.Counters | src/fs/pipe.c:113 | after the 32-bit counters have wrapped around, too, their difference is the number of bytes in flight, equal counters mean empty, and only a distance of PIPE_SIZE means full |
| PipeRing.Pipe.WriteTurn | src/fs/pipe.c:107-122 | a turn under the lock stores the next bytes in order, as many as fit; it ends broken exactly if there is something to write and nobody can read or the writer was killed, and full exactly otherwise with bytes left and PIPE_SIZE bytes in flight |
| PipeRing.Pipe.ReadTurn | src/fs/pipe.c:153-155 | delivers the next bytes in order: what is in flight, up to the number asked for |
| PipeRing.Pipe.ReadCheck | src/fs/pipe.c:138-151 | a reader goes on exactly if something is in flight or the other end is closed; otherwise it returns if it was killed, and waits if not |

## Findings

Each is a property the source asks for and does not have. A lemma gives a run in which it fails, and another says
exactly when it holds.

- **A checkpoint is not all or nothing on the disks mkfs makes.** The log area there has 63 blocks, header included
  (`src/user/mkfs/main.c:35-44`, `src/fs/defines.h:44`), and the header has room for 63 entries (`src/fs/defines.h:12`).
  A header that is full makes `do_checkpoint` write its last entry over the first inode block
  (`src/fs/cache.c:326`). Input: `JournalShortLog.ShortLogBreaks`, `MkfsLayoutIsShort`. Exact condition:
  `header.num_blocks` below the number of log blocks when the last operation ends (`AtomicExactly`).
- **A sync outside an operation can commit half of one.** `inode_get` loads an inode with `inode_sync(NULL, ...)`
  (`src/fs/inode.c:276`), which syncs the inode block whether it wrote to it or not (`src/fs/inode.c:230`), and such a
  sync goes straight to the device (`src/fs/cache.c:270-273`). Input: `JournalRuns.DirectSyncLeaks`. Exact condition,
  in every running state: the home writes are under way, or the block is not logged, or it reads as it is stable
  (`JournalProofs.DirectSyncKeeps`).
- **A write outside an operation can be undone.** `munmap` writes back changed pages with `inodes.write(NULL, ...)`
  (`src/kernel/sysfile.c:256`), so changed blocks go straight to the device as well (`src/fs/inode.c:566-574`). Where
  the checkpoint under way has a copy of the block in the log, a crash brings the copy back. Input:
  `JournalDurable.MappedWriteIsLost`. Exact condition for the write to last: it changes nothing, or no such copy is in
  the log (`LastsExactly`). Exact condition for the write to be a step of the store, and to leave the log as it
  should be: that, and the block reads as it is stable (`JournalRuns.DirectExactly`). The results about runs
  hold for runs with any writes in them that meet this condition; the blocks so written are no part of the all or
  nothing of a checkpoint.
- **`end_op` does not wait for its checkpoint unless it is the last.** `src/fs/cache.h:147-148` promises it,
  `src/fs/cache.c:386-399` returns at once. Input: `JournalDurable.EarlyEndIsLost`. Exact condition: it is the last
  operation under way, or no logged block differs from the disk (`DurableExactly`).
- **A held block can be evicted.** `acquired` is a flag set before the lock is asked for (`src/fs/cache.c:174-183`), and
  a release clears it (`src/fs/cache.c:239`) although another process may already be in line or on its way to the lock;
  `evict_block` looks only at the flag. Inputs: `HolderFlag.WaiterLosesIt`, `LatecomerLosesIt`. Exact condition: no
  release finds anybody asleep on the lock, or between flag and lock (`ProtectedExactly`). Hence `Acquire` below.
- **`kalloc` of more than 4080 bytes returns a block that is too small.** A new page is handed out whatever the size
  (`src/kernel/mem.c:191-198`). Exact condition: the size is at most 4080 (last clause of `Heap.Kalloc`).

## Left out

Weaker than the source, or with a condition of the model:

- BlockCache.Cache.Acquire: at most one process has or wants a block at a time (see the fifth finding), so nobody waits.
- BlockCache.Cache.DoCheckpoint: no logged block and no block of the log is held when it starts, so it need not wait; other blocks may be.
- BlockCache.Cache.EndOp: for the last operation, as above, and the log has room for the entries (see the first finding).
- BlockCache.Cache.InitBcache: the header on disk is well formed and fits the log, as every run leaves it; a header of unknown origin is not modelled.
- BlockCache.Cache.SyncDirect: what it keeps is stated where it is safe; the other cases are the second and third finding.
- BlockCache.Cache.Sync: the change of a held block and its sync are one step, so a block changed and never synced is not modelled.
- BlockCache.Cache.TryBegin: one round of the waiting loop; whether op_sem wakes every waiter is not modelled.
- HolderFlag.ProtectedExactly: the lock is always got; a wait for it that an alert interrupts is not modelled.
- JournalRuns.CrashAtomicity: a device write is atomic, and a crash falls between two of them.
- CtorOrder.Linker.QueueCtors: whether a constructor can be torn before start-up is over, when the freed list is returned, is not modelled.
- CtorOrder.Linker.ExtendBfsDeps: whether an object has been done before (bfs_built) is not modelled.
- InodeLayer.InodeOp.Write: regular files only, not the console, and for an operation: the write-back of munmap, which has none and allocates nothing, is modelled block by block in the journal. The blocks in front of the data region are marked used, as mkfs leaves them. Methods of InodeOp have the disk to themselves from start to end; in the source operations on other inodes come between two block locks, and share the bitmap and inode blocks.
- InodeLayer.InodeOp.FileWrite: the file is not written by others between two of its operations.
- InodeLayer.InodeOp.Clear: has the disk to itself, as above. The zeroing of the indirect block that is never synced stays in the cached copy, and by FreeContents does not matter once the block is free.
- FsCrash.FileSystemSurvives: one operation at a time is part way through its syncs; others may be open, before their first sync or behind their last. A write outside an operation changes nothing here.
- FsCrash.ClearJournaled: for disks with up to nine bitmap blocks; on others the budget of an operation may not suffice, as Clear says exactly.
- SymbolHash.GnuLookup: for tables laid out as the link editor promises; tables that are not are outside the model.
- KernelHeap.Heap.Kalloc: one CPU's list, and a page is there when asked for; the fallback of kalloc_page is not modelled.
- KernelHeap.Heap.Kfree: on the CPU that allocated; the source takes the lock of the CPU it runs on.
- PageTable.PageDir.Vmmap: flags do not overlap the address; only the references of mapped pages are counted.
- PageTable.PageDir.GetPte: pages handed out are not in use as tables.
- Scheduler.Variables.Schedule: the timer and the switch of the stack are not modelled.
- Semaphores.UnalertableSucceeds: not for a process that was killed before it slept, which sched does not put to sleep.
- Virtqueue.Virtq.Submit: the descriptors only; device registers and the rings of used and available chains are not modelled.
- Virtqueue.Virtq.Complete: a request whose wait was interrupted counts as still in flight, as its descriptors do in the source.
- PipeRing.Pipe.WriteTurn: a turn under the lock; waiting, waking and the copy from user memory are not modelled.
- PipeRing.Pipe.ReadTurn: a turn under the lock, as above.
- RedBlackTree.RbRoot.Insert: the node is not in the tree yet.

Not in the model:

- Allocation failure of a cache block, the byte loops of copies (they are assignments of blocks), and the locks themselves: steps are as large as the source holds a lock.
- `inode_alloc`, which leaves its change unsynced; directories (`inode_lookup`, `inode_insert`, `inode_remove`), paths, the file table.
- `sysv_lookup`, `find_sym2`, library loading and relocation.
- `fork`, `exit`, `wait`, `exec`, system calls, console, timers, interrupts, assembly and register access.
- That a waiting operation or process is ever scheduled: liveness is not stated, except that loops and the steps above end.

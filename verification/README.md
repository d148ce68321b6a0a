# Verification of a small ARMv8 kernel

This Dafny project models seven parts of the kernel and proves properties of the model. Everything is checked with
`dafny verify dfyconfig.toml`.

* **Write-ahead log, block cache, bitmap** (`src/fs/cache.c`). `Bytes`, `Wal` and `LogRuns` treat the device as a
  sequence of blocks of bytes and every device write as one atomic step; a crash may come between any two of them, also
  during recovery, and any number of times. `BlockCache`, `LruOrder`, `Bitmap` and `CacheOps` are the routines on the
  state they change in place; `LogCache` drives them and shows that every run of calls is a run of the machine.
* **Inodes and files** (`src/fs/inode.c`, `src/fs/file.c`) on top of that cache. `InodeModel` says what an on-disk inode
  means as a byte sequence, `InodeSteps`, `InodeGrowth`, `InodeData` and `InodeClear` what each step does to this file and
  to the others, `InodeRoom` how many free blocks a write takes and which blocks it has to log, `LogBudget` and
  `InodeBill` how many at most, `InodeFiles` and `InodeRuns` what holds of all files together; `Inodes` and `FileOps` are
  the routines, and `InodeLimits` runs them on concrete disks where the limits of an operation are reached. `DiskLayout`
  says where header, bitmap, inodes and addresses are, byte by byte.
* **Red-black tree** (`src/common/rbtree.c`). A heap of cells with a ghost algebraic tree and a ghost zipper from the
  current node to the root (`RbModel`, `RbRotate`, `RbInsert`, `RbErase`, `RbUnlink`, `RbOrder`), the routines (`RbTree`)
  and runs of them (`RbRuns`). The mirrored halves share their lemmas through a side parameter.
* **Slab allocator and pages** (`src/kernel/mem.c`): `Pages`, `SlabModel`, `SlabSteps`, `SlabAllocator`.
* **Page tables** (`src/kernel/pt.c`): `PageTableModel`, `PageTables`, `UserMemory`. Entries are numbers with the fields
  of the VMSAv8-64 translation table format (Arm DDI 0487, section D5.3, 4 KB granule); a walk over them is the meaning.
* **Scheduler and semaphores** (`src/kernel/sched.c`, `src/common/sem.c`) with the rings under them (`src/common/list.c`):
  `SchedModel`, `SchedRuns` and `Scheduler` for any number of CPUs, `Semaphores` and `SemRuns` for the lock hand-off between
  posters and processes going to sleep, `SemUnits` for what a semaphore hands out over whole runs, `Rings`.
* **Virtqueue descriptors** (`src/driver/virtio_blk.c`): `Virtqueue`, after VIRTIO 1.1, sections 2.6.5 and 2.6.6.

`Sequences` holds what several of these share.

Conventions. A panic or a failed assertion of the program is a result of the method (`Status`, `panics`, `ok`), and the
contract says exactly when it comes. Locked regions are one step each, except in `SemRuns`, where the two locks are the
point. A linked list that is only a list is a sequence; `Rings` proves the pointer operations.

## What the proofs showed about the code

* `memset(header.block_no, 0, LOG_MAX_SIZE)` (src/fs/cache.c:248 and 374) clears 63 bytes, not 63 entries. The count is 0,
  so nothing that is read later differs (`Wal.ClearedBytes`).
* `inode_map` without a context returns with the indirect block still acquired when the word is 0
  (src/fs/inode.c:323, `Inodes.Inodes.Peek`; `InodeLimits.PeekHolds` is such a call). Reading within the size of a file
  never gets there.
* `inode_clear` of a file can need more bitmap blocks than one operation may log: on no disk with at most nine bitmap
  blocks (`InodeLimits.ClearFits`), but on one with ten (`InodeLimits.ClearTooBig`, `InodeLimits.ClearStops`).
  `Inodes.Inodes.Clear` gives the exact condition.
* An unalertable wait returns false, which its caller asserts against, exactly if the process was found killed when it was
  to sleep and no post released it before it got the semaphore's lock back (`SemRuns.DeepWaitFails`); both outcomes happen
  to killed processes (`SemRuns.KilledDeepWait`, `SemRuns.KilledButPosted`).
* The offset test that guards carving (src/kernel/mem.c:185) alone would accept a block at the start of the next page, in
  the classes of 8 and of 56 bytes and in no other (`SlabSteps.OffsetAlone`); the count test beside it is what makes it
  right (`SlabSteps.LastBlock`).
* `copyout` tests the end of the range in 64-bit arithmetic (src/kernel/pt.c:131), so a range that wraps around passes;
  `UserMemory.CopyOut` says what it then writes.

## Model

| member | source | states |
|---|---|---|
| `RbTree.Root.Insert` | src/common/rbtree.c:260-285 | terminates; refuses exactly when a tied key is present and then leaves the tree alone; otherwise the cells again form a red-black tree with consistent parent links whose in-order sequence is the sorted insertion of the node; no cell outside the tree is written |
| `RbTree.Root.InsertFix` | src/common/rbtree.c:48-118 | from a tree whose only fault is a red node under a red parent (anywhere, reached by any number of recolourings) to a red-black tree with the same in-order sequence |
| `RbInsert.GrandOf` | src/common/rbtree.c:56-65 | a red parent has a parent of its own, which the loop dereferences: the cells of parent, grandparent and uncle are there, as the tree says |
| `RbInsert.RecolourColours` | src/common/rbtree.c:62-69 | recolouring moves the only fault two levels up and keeps all black heights |
| `RbInsert.RotateColours` | src/common/rbtree.c:81-87 | the final rotation removes the fault and keeps all black heights |
| `RbTree.Root.Erase` | src/common/rbtree.c:286-292 | terminates for every member node; the cells form a red-black tree whose in-order sequence is the old one without that node |
| `RbTree.Root.UnlinkHalf` | src/common/rbtree.c:123-137 | node with at most one child: what hangs there afterwards, its colours, and whether a black level is missing |
| `RbTree.Root.UnlinkBoth` | src/common/rbtree.c:138-168 | node with two children: the in-order successor takes its place and colour, however deep it lay |
| `RbTree.Root.EraseFix` | src/common/rbtree.c:171-259 | from a tree in which exactly the paths through one place are a black node short to a red-black tree with the same in-order sequence |
| `RbErase.ShortOf` | src/common/rbtree.c:174-190 | the short side has a parent and a sibling, and a red sibling has black children, the near one of them there: no null pointer is dereferenced |
| `RbErase.RepaintedColours` | src/common/rbtree.c:188-198 | painting the sibling red moves the missing level up to the parent, or ends if the parent was red |
| `RbErase.RaiseColours` | src/common/rbtree.c:209-215 | the final rotation gives the short side its black node back |
| `RbTree.Root.RotateSetParents` | src/common/rbtree.c:29-39 | of all cells only the two that turn and their parent change; the lower one takes over parent and colour, and the parent or the root points to it |
| `RbTree.Root.Lookup` | src/common/rbtree.c:293-306 | finds a node tied with the key if and only if there is one; the number v of nodes visited satisfies 2^v <= (n+1)^2 |
| `RbTree.Root.First` | src/common/rbtree.c:307-316 | the head of the in-order sequence, or null for the empty tree |
| `RbOrder.RedBlackHeight` | src/common/rbtree.c:297-304 | a red-black tree of n nodes has height at most 2*log2(n+1) |
| `RbRuns.RunLists` | src/common/rbtree.c:260-292 | over any run of insertions and erasures the sequence stays sorted and lists exactly the members of the abstract set |
| `RbRuns.Serve` | src/common/rbtree.c:260-316 | drives the tree through any run of calls: it then lists exactly that set in order, a lookup finds a tied node if and only if the set has one, and the first node is the least of the set |
| `RbRuns.FirstIsLeast` | src/common/rbtree.c:307-316 | after any run the first node is the least member |
| `LogRuns.CrashAtomic` | src/fs/cache.c:225-252 | for every interleaving of begin, sync and end, with power failures between any two device writes of commits and of recoveries: recovery leaves each home block as after a whole number of commit groups, and between commits the header on the device counts no block |
| `LogRuns.StepKeeps` | src/fs/cache.c:269-380 | every step keeps the invariant: reserved room, distinct header entries, pinned blocks equal to header entries, and the device equal to a prefix of the commit or recovery writes |
| `LogRuns.NoPanic` | src/fs/cache.c:315-337 | the "log full" and "ending while committing" panics are unreachable for operations within their budget |
| `LogRuns.CommitFreezes` | src/fs/cache.c:347-378 | while a commit runs no operation is outstanding and the group does not change |
| `LogRuns.CommitEnds` | src/fs/cache.c:361-376 | when a commit ends, every block logged by the group has its last logged contents at home |
| `LogRuns.GroupsStay` | src/fs/cache.c:330-380 | later steps and crashes only add groups to the history |
| `Wal.CommitPrefix` | src/fs/cache.c:347-376 | every prefix of the device writes of a commit recovers to the old home blocks up to the header write, to the new ones from it on |
| `Wal.RecoveryPrefix` | src/fs/cache.c:233-249 | a crash after any prefix of the recovery writes recovers to the same home blocks |
| `Wal.ReadWritten` | src/fs/cache.c:108-116 | the header read back is the header written, as bytes of the block |
| `Wal.ClearedBytes` | src/fs/cache.c:373-374 | clearing the header zeroes its first 71 bytes, the count and 63 more, and no other byte of the block; the count read back is 0 |
| `DiskLayout.HeaderLayout` | src/fs/defines.h:72-75 | the header block holds the count in its first eight bytes and then 63 block numbers of eight bytes |
| `DiskLayout.CommitInOrder` | src/fs/cache.c:350-375 | the device writes of a commit one by one: the listed blocks to the slots behind the header in the order of the list, the header, the same blocks home, the cleared header |
| `DiskLayout.RecoveryInOrder` | src/fs/cache.c:235-249 | the device writes of a recovery one by one |
| `LogCache.Serve` | src/fs/cache.c:269-380 | any sequence of calls on the cache, by any number of operations, is a run of the log machine with the same device, header and pinned contents; it panics only where the machine panics |
| `LogCache.PowerOn` | src/fs/cache.c:225-252 | initialising the cache is the machine booting and recovering, write by write |
| `LogCache.EndMatchesCall` | src/fs/cache.c:330-380 | the end of an operation is the machine's, and the last one commits with the same device writes |
| `CacheOps.Bcache.Acquire` | src/fs/cache.c:142-212 | the block comes first in the list with its latest contents; nobody's contents change; the list stays coherent with the device; a hit drops no block |
| `CacheOps.Bcache.Release` | src/fs/cache.c:215-222 | only the holder changes; requires what callers do, that an unlogged block equals the device |
| `CacheOps.Bcache.SyncLogged` | src/fs/cache.c:304-325 | panics exactly when the block is new to the log and the operation has no budget left or the log is full; a listed block costs nothing |
| `CacheOps.Bcache.TryBeginOp` | src/fs/cache.c:269-295 | admits exactly when no commit runs and there is room for one more whole operation |
| `CacheOps.Bcache.EndOp` | src/fs/cache.c:330-380 | the last operation writes log copies, header, home blocks and cleared header, in this order and nothing else, and leaves no block pinned; contents outside the log stay |
| `CacheOps.Bcache.InitLog` | src/fs/cache.c:225-252 | the device writes are those of recovery, and the cache then shows the device |
| `BlockCache.AcquireKeeps` | src/fs/cache.c:142-212 | acquiring keeps one copy per block, pins, and agreement with the device, and gives the latest contents |
| `BlockCache.EvictKeeps` | src/fs/cache.c:175-190 | dropping a block that is neither acquired nor pinned changes nobody's contents |
| `LruOrder.VictimIsOldest` | src/fs/cache.c:175-190 | a block is evicted exactly if the cache is full and some block is neither acquired nor pinned, and it is the one of these used longest ago |
| `LruOrder.AcquireDrops` | src/fs/cache.c:142-212 | what acquiring does to the set of cached blocks: a hit drops none; a miss adds the block and drops the victim, exactly if the cache is full and there is one |
| `LruOrder.RunInOrder` | src/fs/cache.c:158-190 | over any run the list is in the order of last use |
| `CacheOps.Bcache.Alloc` | src/fs/cache.c:383-413 | returns the least free number, marks exactly its bit and yields a block of zero bytes, no other block but the bitmap block changes; reports a full disk exactly if all are marked; stops only over budget |
| `CacheOps.Bcache.Free` | src/fs/cache.c:417-431 | clears exactly one bit, no other block changes; stops exactly over budget |
| `CacheOps.AllocRefines` | src/fs/cache.c:395-405 | allocation adds exactly the returned number to the set of allocated blocks, across any number of bitmap blocks |
| `CacheOps.FreeRefines` | src/fs/cache.c:421-429 | freeing removes exactly the block from that set |
| `Bitmap.Scan` | src/fs/cache.c:390-408 | the nested loops find the first clear bit below the limit, or there is none |
| `Bitmap.MarkChanges` | src/fs/cache.c:396-427 | changing one bit of one byte changes the state of exactly one block |
| `DiskLayout.MarkLayout` | src/fs/cache.c:390-395 | block n is allocated exactly if bit n % 8 of byte n % 4096 / 8 of bitmap block n / 4096 is set |
| `Inodes.Inodes.Read` | src/fs/inode.c:335-363 | returns exactly the clipped slice of the file; refused exactly if the offset is past the end or the end position overflows 64 bits |
| `Inodes.Inodes.Write` | src/fs/inode.c:366-407 | the file becomes the old bytes with the new ones written over; refused exactly past the end or past the greatest size; no holes, disjoint ownership and the other files kept; the blocks logged are bounded from above and from below; runs out of space only if fewer blocks are free than slots of the range are empty, and takes exactly as many otherwise |
| `Inodes.Inodes.Map` | src/fs/inode.c:285-332 | with a context: the block of the slot, allocated if empty; no other data slot and no byte changes; what is logged |
| `Inodes.Inodes.Peek` | src/fs/inode.c:285-332 | without a context: the slot's block or 0, nothing allocated; on an empty indirect word the indirect block stays acquired |
| `Inodes.Inodes.Sync` | src/fs/inode.c:142-170 | loads the inode on first use, writes it back otherwise: it is then on disk as in memory, the other inodes and all other blocks are as they were |
| `Inodes.Inodes.Clear` | src/fs/inode.c:206-234 | frees exactly the blocks of the file, each once; size, addresses and indirect block are 0, in memory and on disk, and type, links and device numbers stay; the other inodes are as they were; panics exactly if the operation cannot log their bitmap blocks and the inode block |
| `Inodes.Inodes.Put` | src/fs/inode.c:244-261 | clears the inode and marks it free, on disk too, if and only if the last reference goes and there are no links |
| `Inodes.Inodes.AllocInode` | src/fs/inode.c:85-123 | the first free inode from 1 on has the type asked for on disk and is 0 otherwise; every other inode and every other block is as before; panics exactly if there is none |
| `InodeModel.EntryPut` | src/fs/inode.c:53-55 | writing one inode back leaves the other seven of its block as they were; reading it gives it back |
| `InodeModel.ReadWrittenEntry` | src/fs/defines.h:50-59 | the 64 on-disk bytes of an inode decode to what was encoded |
| `DiskLayout.InodeLayout` | src/fs/defines.h:50-59 | which bytes of which block are the type, device numbers, links, size, addresses and indirect block of an inode, lowest byte first |
| `DiskLayout.SlotLayout` | src/fs/inode.c:285-332 | the blocks of a file are the twelve addresses and then the 128 four-byte words of the indirect block |
| `InodeData.WriteTurn` | src/fs/inode.c:388-401 | one turn of the write loop: map, then overwrite part of one block |
| `InodeData.WriteMeans` | src/fs/inode.c:366-407 | blocks and bytes together: the file has no hole and holds the overwritten sequence |
| `InodeData.ReadPiece` | src/fs/inode.c:349-361 | one turn of the read loop appends exactly the next bytes; the mapped block is never 0 |
| `InodeSteps.OthersSafe` | src/fs/inode.c:366-407 | a disjoint file keeps its blocks and bytes whatever this file does |
| `InodeGrowth.WordAdded` | src/fs/inode.c:321-328 | an indirect word filled while the indirect block is held adds one block to the file |
| `InodeClear.ClearedOthers` | src/fs/inode.c:206-234 | clearing a file leaves every disjoint file as it was |
| `InodeFiles.FilesKept` | src/fs/inode.c:206-407 | after a write or a clear the allocated blocks are exactly metadata plus the disjoint union of all files' blocks, and every other file has its bytes |
| `InodeRuns.RunKeeps` | src/fs/inode.c:85-407 | that stays so over any run of writes, clears, puts, allocations, write-backs and commits; every inode on disk is as loaded, and free inodes own nothing |
| `InodeRuns.UntouchedFile` | src/fs/inode.c:85-407 | a file that no operation of the run is about keeps its inode and its bytes |
| `InodeBill.ChunkBill` | src/fs/file.c:147-163 | the bound that inode_write keeps on the blocks it logs is at most 10 for every chunk, offset and size |
| `InodeLimits.TenBlocks` | src/fs/file.c:147-163 | on some disk, whatever order blocks are allocated in, a chunk logs ten distinct blocks: inode, four data blocks, indirect block, four bitmap blocks |
| `InodeLimits.AppendChunk` | src/fs/file.c:151-159 | and that write goes through: the budget of ten is used up exactly |
| `InodeLimits.ClearFits` | src/fs/inode.c:206-234 | one operation can log the clearing of every file if the disk has at most nine bitmap blocks |
| `InodeLimits.ClearTooBig` | src/fs/inode.c:206-234 | with ten bitmap blocks there is a file in order whose clearing takes more than an operation may log |
| `InodeLimits.ClearStops` | src/fs/inode.c:206-234 | clearing that file panics |
| `InodeLimits.PeekHolds` | src/fs/inode.c:321-328 | mapping an empty indirect word without a context leaves the indirect block acquired |
| `InodeBill.MidwayTurn` | src/fs/inode.c:388-401 | one turn of the write loop: what it adds to the bytes, to the slots filled, to the free blocks taken and to the blocks logged |
| `FileOps.File.WriteChunk` | src/fs/file.c:151-159 | a chunk never exceeds the operation's budget or the log, runs out of space exactly if fewer blocks are free than the chunk needs, and is on the device when its operation ends |
| `FileOps.File.WriteFile` | src/fs/file.c:138-164 | all bytes are written at the file position, which advances by as many, chunk by chunk, for every alignment; stops for space exactly if the chunks below the greatest size need more blocks than are free, and is refused exactly past the end or past the greatest size otherwise |
| `SlabAllocator.Allocators.Kalloc` | src/kernel/mem.c:142-235 | the block belongs to a page of the least class that is large enough, was not live and becomes live: the second of the list, or the only one, after which its successor is listed exactly if the page is not used up, or the first of a new page; null exactly if the list is empty and there is no free page; lists of other classes, and pages unless one is taken, stay |
| `SlabAllocator.Allocators.Kfree` | src/kernel/mem.c:238-310 | the block goes behind the head of the list of its class and is no longer live; its page goes back, and its blocks leave the list, exactly if no block of it is live; other lists stay |
| `SlabAllocator.Allocators.IndexFor` | src/kernel/mem.c:58-71 | the least class that is large enough |
| `SlabModel.LiveSafe` | src/kernel/mem.c:142-235 | live blocks are 8-aligned, behind the header of one page, large enough, and do not overlap |
| `SlabModel.OneOpenPage` | src/kernel/mem.c:176-197 | at most one page of a class has uncarved blocks, and its last carved block heads the list |
| `SlabModel.CountIs` | src/kernel/mem.c:220-221 | the header counts the listed and the uncarved blocks of the page |
| `SlabModel.TotalFits` | src/kernel/mem.c:221 | the header of a new page counts as many blocks as fit behind it and no more |
| `SlabSteps.LastBlock` | src/kernel/mem.c:185-192 | the count guard is right: with one block listed, uncarved blocks exist exactly if the header counts more than one |
| `SlabSteps.OffsetAlone` | src/kernel/mem.c:185 | the offset test alone would carve a block of the next page, exactly in the classes 8 and 56; a state in order in which that matters is given for every page |
| `SlabSteps.CarveKeeps` | src/kernel/mem.c:185-192 | carving the next block keeps the allocator in order |
| `SlabSteps.OpenKeeps` | src/kernel/mem.c:219-231 | so does a new page |
| `SlabSteps.ReleasedKeeps` | src/kernel/mem.c:274-307 | so does giving back a page without live blocks, also the one with uncarved blocks |
| `SlabModel.SecondBlockFits` | src/kernel/mem.c:223-230 | the second block of a new page fits exactly in the classes up to 2040 |
| `Pages.PagePool.Take` | src/kernel/mem.c:103-125 | takes the head of the list, or counts and returns null |
| `PageTables.Memory.GetPte` | src/kernel/pt.c:8-51 | the slot of the page number; with allocation exactly the missing tables are taken and no translation changes; without it nothing changes, and null exactly if a table is missing |
| `PageTableModel.SlotSet` | src/kernel/pt.c:49-50 | writing the returned slot changes the translation of exactly that 48-bit page number |
| `PageTableModel.PartsAreThePage` | src/aarch64/mmu.h:68-71 | two addresses have the same indices exactly if they have the same page number |
| `PageTableModel.PartsOfVa` | src/kernel/pt.c:198 | the address built from four indices has these indices |
| `PageTableModel.EntryFields` | src/aarch64/mmu.h:63-64 | for every page address and all flags outside the address bits, also the high ones: the address and each of the flag bits come back from the entry |
| `PageTableModel.UserData` | src/aarch64/mmu.h:18-38 | the flags of a user page in an entry are exactly 0x647: valid page, normal memory, user access, writable, outer shareable, accessed |
| `PageTableModel.PartsInOrder` | src/aarch64/mmu.h:68-71 | the index sequences are ordered as the addresses are, the top-level index counting most |
| `PageTables.Memory.VmMap` | src/kernel/pt.c:110-118 | maps one page number, to the address and with exactly the flags given, and leaves all other translations |
| `PageTables.Memory.UvmCopy` | src/kernel/pt.c:168-220 | maps exactly the same page numbers, each to its own fresh page with equal contents and the flags 0x647; the source is untouched |
| `PageTables.Memory.FreePgdir` | src/kernel/pt.c:63-94 | returns every table of the directory to the pool exactly once, and no data page |
| `PageTables.BuildAndFree` | src/kernel/pt.c:8-118 | mapping any sequence of addresses in a new directory and freeing it restores the free pages, their number and the counter of pages, and leaves all other tables and all data alone |
| `UserMemory.CopyOut` | src/kernel/pt.c:125-161 | every address holds what was last written to its place, also where pages are mapped twice or addresses wrap around, and what it held before if nothing was; only pages of the range change; what was mapped keeps its entry, and every new entry has the flags 0x647; -1 exactly if the range fails the test or no page is left |
| `UserMemory.WroteSingle` | src/kernel/pt.c:125-161 | if no page is mapped twice, exactly the bytes of the range have changed, and still no page is mapped twice |
| `SchedRuns.Reachable` | src/kernel/sched.c:86-197 | in every reachable state each CPU runs one process, which runs nowhere else, and the queue holds exactly the RUNNABLE and RUNNING processes that are not idle |
| `SchedRuns.SchedKeeps` | src/kernel/sched.c:176-197 | both assertions hold and the state stays in order |
| `SchedRuns.IdleMustYield` | src/kernel/sched.c:190 | the second assertion fails exactly if an idle process does not yield and nobody is RUNNABLE |
| `SchedRuns.Fair` | src/kernel/sched.c:141-162 | a RUNNABLE process that has waited is passed over by at most as many picks as other RUNNABLE processes have waited at least as long |
| `SchedRuns.LeavesByPick` | src/kernel/sched.c:176-197 | a RUNNABLE process stops being RUNNABLE only by being picked |
| `SchedRuns.SleepsOn` | src/kernel/sched.c:86-133 | over any run a process that is not RUNNABLE or RUNNING stays in its state until an activation that may wake it, or until it is reaped |
| `SchedRuns.NewWaits` | src/kernel/proc.c:101-146 | a new process stays UNUSED over any run before it is activated |
| `SchedRuns.KilledForGood` | src/kernel/sched.c:182-186 | whatever happens after a RUNNING process was killed, it is RUNNING or has exited, until it is reaped |
| `Scheduler.Scheduler.PickNext` | src/kernel/sched.c:141-162 | the first process of the queue that has waited longest, or the idle process; exactly the RUNNABLE ones in the queue have aged, by one |
| `Scheduler.Scheduler.Sched` | src/kernel/sched.c:176-197 | a killed process that does not exit stays, and nothing changes; otherwise this CPU and no other passes to the first of the queue that has waited longest, or to the idle process if nobody there is RUNNABLE, which is RUNNING then; the old process has the state it asked for; all other states and every killed flag are as before, the waiting have waited one more pick, and a process that goes on heads the queue |
| `Scheduler.Scheduler.Activate` | src/kernel/sched.c:86-116 | activates exactly SLEEPING, UNUSED and, without alert, DEEPSLEEPING processes: RUNNABLE, at the head of the queue, nobody else touched; otherwise changes nothing |
| `Scheduler.Scheduler.UpdateThisState` | src/kernel/sched.c:118-133 | the current process has the state it asked for; it leaves the queue or heads it, everybody else keeps his place, state, waiting time and killed flag |
| `SemRuns.Reachable` | src/common/sem.c:62-96 | in every reachable state there are max(0, -val) sleepers, no assertion of the next step fails, and no released process is asleep while the lock is free |
| `SemRuns.StepKeeps` | src/common/sem.c:62-96 | the invariant over the lock hand-off: a released process that is not awake is about to be activated by a poster who holds the lock |
| `SemRuns.OldestFirst` | src/common/sem.c:89-94 | a post releases the process that queued up first |
| `SemRuns.DeepWaitFails` | src/common/sem.c:62-85 | over every run: an unalertable wait comes back without a post exactly if the process was found killed when it was to sleep and no post released it before it was back in the semaphore |
| `SemRuns.KilledDeepWait` | src/common/sem.h:29-30 | that happens, against the assertion around the call |
| `SemRuns.KilledButPosted` | src/common/sem.c:87-96 | a killed process that is posted in time comes back released |
| `SemRuns.WaitFails` | src/common/sem.c:62-85 | over every run: a wait comes back without a post exactly if the process was alerted or found killed and no post released it before it was back in the semaphore |
| `SemUnits.Conserved` | src/common/sem.c:62-96 | over every run the value is the first value, plus the posts, plus the waits given up, minus the waits |
| `SemUnits.Accounted` | src/common/sem.c:62-96 | over every run each wait came through, was given up, or goes on |
| `SemUnits.NeverTooMany` | src/common/sem.c:62-96 | over every run at most as many waits came through as there were units at first and posts since |
| `SemUnits.Exclusion` | src/common/sem.h:42-46 | mutual exclusion of a sleep lock over every run: whenever a wait comes through, there were at least as many posts as waits that came through before |
| `SemUnits.Serve` | src/common/sem.c:62-96 | any run, carried out by the routines on a semaphore, gives the same value, the same queue and as many waits that come through |
| `Semaphores.Semaphore.PostAll` | src/common/sem.c:51-60 | terminates, releases exactly the present waiters, oldest first, returns their number and leaves max(val, 0) |
| `Semaphores.Semaphore.Post` | src/common/sem.c:87-96 | the last of the list is released; there is one whenever the value was negative |
| `Semaphores.Semaphore.Enter` | src/common/sem.c:64-71 | takes a unit or queues up at the head |
| `Semaphores.Semaphore.Leave` | src/common/sem.c:75-84 | a waiter that was not released takes exactly itself off the list |
| `Semaphores.Semaphore.GetAll` | src/common/sem.c:39-49 | takes all units |
| `Rings.Nodes.Merge` | src/common/list.c:9-34 | two rings become one, joined from the first node to the second; no other link changes; a null argument yields the other |
| `Rings.Nodes.Detach` | src/common/list.c:36-47 | the node becomes a ring of its own and the rest closes up; returns the predecessor, or null if it was alone |
| `Rings.Nodes.Insert` | src/common/list.h:16-17 | the new node follows the head |
| `Rings.Nodes.Walk` | src/common/list.h:22-25 | the walk shows every other node in order and then the head itself |
| `Rings.SameLinks` | src/common/list.c:9-47 | the order of a ring determines its links |
| `Virtqueue.Virtq.Request` | src/driver/virtio_blk.c:83-112 | panics exactly with fewer than three free descriptors; otherwise the three descriptors as written, lengths 16, 512 and 1, chained, readable before writable parts, all others as they were, and one entry in the available ring |
| `Virtqueue.Virtq.FreeDesc` | src/driver/virtio_blk.c:42-58 | the walk ends with the chain, which goes back in front of the free list; no descriptor but its last one is written |
| `Virtqueue.Virtq.AllThere` | src/driver/virtio_blk.c:27-58 | nfree + 3 * in flight = 16, and every descriptor is in the free list or in one request, once |
| `Virtqueue.Virtq.AllocDesc` | src/driver/virtio_blk.c:27-40 | takes the head of the list; panics exactly if it is empty |

## Left out

- Red-black tree: parent pointer and colour share one word in the program; the model has two fields.
- CPU timers on the tree: a timer can be cancelled after it was already erased, which breaks what erasing requires.
- CacheOps.Bcache.TryBeginOp: one attempt to begin an operation; the wait between attempts and its liveness are not modelled.
- CacheOps.Bcache.EndOp: the post and the wait of an operation that is not the last to end, so its return says nothing about durability.
- CacheOps.Bcache.Acquire: dropping the list lock around the device read; acquisition is one step on a block nobody waits for, and callers never acquire a block twice.
- Cache blocks in the inode layer: one process at a time inside it, so between its calls no block is held. Concurrent operations are covered by the log machine only.
- CacheOps.Bcache.constructor: the device is given as a value; reading and writing it cannot fail.
- Log size: the log area is assumed to have room for the header and 63 blocks, and logged blocks to lie outside it.
- FileOps.File.WriteChunk: its operation runs with nobody else in the log, so it commits at its end.
- FileOps.File.WriteFile: the same for each of its chunks; pipes are not modelled.
- Device inodes: the console branches of reading and writing.
- `inode_get`, the in-memory inode list, directories and path names: lists and scans over what is proved here.
- Slab: requests above 2040 bytes, where the second block does not fit; free lists are sequences, not chained through the blocks; the header count is a number, not 16 bits.
- `kalloc_page` on an empty list returns null while keeping its lock; the model returns 0 and has no locks. Page reference counts are not modelled.
- Page tables: kernel and physical addresses differ by a constant, so tables are named by physical address; `memset` of a null page is the result `ok == false`.
- `uvmunmap`, `uvmalloc`, page faults and exec.
- Scheduler: the context switch, page-table switch and timers; the sentinel of the queue is taken to be never RUNNABLE; wait times do not overflow.
- SemRuns: one semaphore; what a process does between two waits is not modelled.
- Virtqueue: device registers, the used ring, buffers and interrupts; descriptors of a request are freed once.
- Spin locks, memory ordering, interrupts, drivers, string routines, pipes, reference counts, fork, exit and kill.

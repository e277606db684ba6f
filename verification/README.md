# A verified model of the xv6 kernel's core

Dafny models of the parts of xv6 (RISC-V) where state, branching and
concurrency meet, with proofs of what they are for. `dafny verify dfyconfig.toml`
checks everything.

Two forms are used side by side. Code that updates memory step by step is a
class whose methods keep the loops, branches and error paths of the C code and
are proved against functions of the old state. Protocols between processes, CPUs,
the disk or a device are state machines: one step per atomic action, one theorem
per property, over every state of every run.

| files | what they model |
|---|---|
| `Blocks`, `LogDisk`, `LogMachine`, `LogCode`, `LogSteps` | the redo log of kernel/log.c: the disk writes of commit and recovery and crashes between any two of them; group commit by concurrent operations; the code itself; each call of the code as steps of the machine |
| `BufferRing`, `BufferCache` | the buffer cache of kernel/bio.c: the linked LRU ring; transparency of the cache for any number of users and the log |
| `Bitmap`, `FsLayout`, `FsEffects`, `FsCode`, `FileCode` | blocks, inodes and file contents of kernel/fs.c, and the chunked writes of kernel/file.c |
| `FsCost`, `WorstDisk`, `ChunkCost` | which blocks a write must log, a disk on which it logs most, and the chunk size measured on it |
| `FsCrash` | the file system on top of the log: what a crash leaves is a consistent file system |
| `Directory`, `Paths` | directories as maps from names to inode numbers, and path lookup |
| `InodeTable` | the in-memory inode table of kernel/fs.c under concurrency |
| `PageTable`, `VmState`, `VmEffects`, `VmTeardown`, `VmCode`, `VmLife` | the three-level page tables of kernel/vm.c and the page allocator of kernel/kalloc.c; the memory of processes over their whole lives |
| `Processes`, `ProcessSafety`, `SleepLock`, `SpinLock` | the process life cycle and scheduler of kernel/proc.c, sleep-locks, interrupt nesting |
| `VirtioRing`, `VirtioDisk` | descriptors and rings of kernel/virtio_disk.c with a device that completes in any order |
| `FreeList`, `Umalloc` | the user-level allocator of user/umalloc.c |
| `Pipe` | the byte pipe of kernel/pipe.c |
| `Sets`, `Counters` | shared facts on sizes of sets and on wrapped counters |

The invariants that carry the results, in the system's own terms:

- Log (`LogDisk.GoodLog`, `LogMachine.Inv`): the blocks in the log are distinct and
  outside the log area, and the disk always recovers to the committed prefix of
  the history of writes.
- Files (`FsCode.FileSys.Consistent`): a bit of the bitmap is set exactly if the block
  is metadata or belongs to exactly one slot of one inode, and no file has a hole
  below its size. The bytes of the inode area stand for the inodes, and the meaning
  of an inode is one byte sequence, `FileBytes`.
- Memory (`VmState.Sound`): every page is in exactly one of the free list, one node of
  one page table, one user mapping or the kernel's hands, and each tree of tables
  stands for a flat map from page numbers to entries.
- Processes (`ProcessSafety.Inv`): who holds which lock, which CPU runs what, and which
  sleepers have a reason to sleep.

Where a property that the code suggests does not hold, the exact condition is
proved instead: a write absorbed by the log still panics if the log is full
(`LogMachine.AbsorbedWriteCanPanic`, `LogMachine.ReservationSuffices`), and the
allocator's size computation survives the conversion to the argument of sbrk() only
up to a bound (`Umalloc.AskFitsInt`, `Umalloc.AskFails`). The comment in kernel/file.c
speaks of 2 blocks of slop for unaligned writes; the chunk size leaves none:
`FileCode.ChunkFits` proves that a chunk logs at most MAXOPBLOCKS blocks, and
`ChunkCost.ChunkIsTight` gives a consistent disk on which the code logs all of them.

## Model

| member | source | states |
|---|---|---|
| `LogDisk.HeaderRoundTrip` | kernel/log.c:87-115 | reading the log header back from the bytes that write_head() stored gives the same count and the same block numbers, in order, for every list of at most LOGBLOCKS numbers |
| `LogDisk.RedoRecovers` | kernel/log.c:66-84 | installing a committed log gives each logged home block its logged contents and leaves every other home block alone |
| `LogDisk.InstallPrefix` | kernel/log.c:66-84 | after any number of the installing writes the log still recovers to the same file system; after all of them the home blocks already are that file system |
| `LogDisk.RecoveryPrefix` | kernel/log.c:117-124 | a crash at any point of recovery, the clearing of the header included, leaves a disk that recovers to the same file system |
| `LogDisk.BootRecovers` | kernel/log.c:117-124 | any number of boots that crash anywhere inside recovery, then one that finishes: the home blocks are the recovered file system and the log is empty |
| `LogDisk.CommitPoint` | kernel/log.c:194-204 | the single write of the header is the point where the disk changes from recovering to the old file system to recovering to the new one |
| `LogDisk.CommitTail` | kernel/log.c:194-204 | what commit() writes after the header is what recovery would write, so both finish the same transaction |
| `LogDisk.CommitPrefix` | kernel/log.c:179-204 | for every prefix of the writes of a commit, which of the two file systems the disk recovers to; after the last write the home blocks are the new one and the log is empty |
| `LogDisk.CrashAtomicity` | kernel/log.c:179-204 | for every transaction, every crash point between two block writes of its commit and every sequence of further crashes in recovery, the home blocks end up all old if the header was not written and all new if it was; nothing in between |
| `LogMachine.RunInv` | kernel/log.c:127-236 | an invariant of every run of begin_op, log_write, end_op, the single writes of the committer and crashes, for any number of concurrent operations: disk, log, cache, counters and the history of writes agree |
| `LogMachine.RunCrashAtomicity` | kernel/log.c:127-236 | in every reachable state a crash recovers to a prefix of the history of writes; no operation has writes on both sides of the cut and no operation that is still running is inside it |
| `LogMachine.DurableForever` | kernel/log.c:147-204 | what is committed in one state of a run is a prefix of what is committed in every later state, crashes included |
| `LogMachine.EndOpNeverPanics` | kernel/log.c:147-176 | while an operation is running nobody is committing, so end_op() does not panic; while somebody commits no operation is outstanding |
| `LogMachine.QuiescentLog` | kernel/log.c:127-143 | whenever no operation is running and no commit is under way, the log is empty, everything is on its home block, and begin_op() admits an operation at once |
| `LogMachine.ReservationSuffices` | kernel/log.c:127-236 | the log never holds more than LOGBLOCKS blocks; an operation below its MAXOPBLOCKS new blocks always finds room for another; a write to a block that is in the log already panics exactly if the log is full |
| `LogMachine.AbsorbedWriteCanPanic` | kernel/log.c:215-236 | a concrete run in which operations stay within their reservations and yet a log_write() that needs no new slot panics, because the size is tested before the absorption; ReservationSuffices gives the exact condition |
| `LogCode.Log.BeginOp` | kernel/log.c:127-143 | admits exactly if nobody commits and the log has room for MAXOPBLOCKS blocks of each outstanding operation and this one |
| `LogCode.Log.LogWrite` | kernel/log.c:215-236 | panics exactly on a full log or outside an operation; otherwise the block is in the list once, a repeated write is absorbed, and the cached contents are the new ones |
| `LogCode.Log.WriteLog` | kernel/log.c:179-192 | the loop makes exactly the log-copy writes of the specification, in order |
| `LogCode.Log.WriteHead` | kernel/log.c:103-115 | one write, of the header that lists the logged blocks |
| `LogCode.Log.ReadHead` | kernel/log.c:87-98 | the loop reads the list of blocks the header stands for |
| `LogCode.Log.InstallTrans` | kernel/log.c:66-84 | the loop makes exactly the installing writes, in order, reading each block from the log area; when not recovering it unpins what it installed |
| `LogCode.Log.InstallAndClear` | kernel/log.c:66-124 | installing and clearing the header makes exactly the writes of recovery and ends with the home blocks the log recovers to and an empty log |
| `LogCode.Log.RecoverFromLog` | kernel/log.c:117-124 | on any disk a crash can leave, boot ends with the recovered file system, an empty log and an empty cache, by exactly the writes the crash theorems speak about |
| `LogCode.Log.Commit` | kernel/log.c:194-204 | makes exactly the writes of the crash theorems, in order, and ends with the home blocks overlaid by the cached ones and an empty log |
| `LogCode.Log.EndOp` | kernel/log.c:147-176 | panics exactly if somebody is committing; the last operation commits everything, any other leaves disk, log and cache alone |
| `LogSteps.BeginOp` | kernel/log.c:127-143 | a call of the code that is admitted is the begin step of the machine, and it is admitted exactly if the machine has such a step |
| `LogSteps.LogWrite` | kernel/log.c:215-236 | a call of the code panics exactly where the machine says so and otherwise is its write step, with the block and contents of the call |
| `LogSteps.CommitPath` | kernel/log.c:194-204 | the writes of commit(), one machine step each, lead from the start of a commit to the state with an empty log |
| `LogSteps.EndOp` | kernel/log.c:147-204 | a call of the code panics exactly where the machine says so and otherwise ends in the state reached by a path of machine steps, the commit included |
| `LogSteps.RecoveryPath` | kernel/log.c:117-124 | the writes of recovery, one machine step each, lead from a crashed state to a running one |
| `LogSteps.Recover` | kernel/log.c:117-124 | the code of recovery ends in the state reached by a path of machine steps |
| `FsCrash.CallsGive` | kernel/fs.c:528-562 | if an operation changes only blocks it logs, and the last log_write() of each of them has its final contents, then applying its calls to the view it started from gives the view it ended with |
| `FsCrash.OperationExtends` | kernel/fs.c:448-562 | an operation of the file system that logs what it changes and ends consistent appends to the history of the log one more operation that leads from a healthy file system to a healthy one |
| `FsCrash.BetweenOps` | kernel/log.c:127-204 | a prefix of the history that splits no operation ends where one operation ends and the next begins |
| `FsCrash.HealthyAfter` | kernel/log.c:127-204 | any number of operations that have all ended leave a healthy file system |
| `FsCrash.FileSystemSurvives` | kernel/log.c:117-204 | in every state of every run of the log, a crash there, any number of crashes in recovery and a recovery that finishes leave home blocks that are a healthy file system: an inode area, exact ownership and bitmap, and no holes below a size |
| `BufferRing.BufferPool.constructor` | kernel/bio.c:36-53 | the initial list is one doubly linked ring through the head and all buffers, none of them referenced |
| `BufferRing.UnlinkRing` | kernel/bio.c:128-129 | taking a buffer out by its two neighbour pointers leaves a ring of the others in the same order |
| `BufferRing.PushRing` | kernel/bio.c:130-133 | linking a buffer in behind the head gives the ring with that buffer first and the rest unchanged |
| `BufferRing.MoveFirst` | kernel/bio.c:125-134 | moving the buffer just released to the front keeps the list ordered by time of latest release |
| `BufferRing.BufferPool.FindCached` | kernel/bio.c:65-73 | finds the buffer of a block if there is one, and only then |
| `BufferRing.BufferPool.FindUnused` | kernel/bio.c:75-88 | walks the ring backwards to the least recently released of all unreferenced buffers; fails exactly if all are referenced |
| `BufferRing.BufferPool.Bget` | kernel/bio.c:58-89 | a hit adds one reference and changes nothing else; a miss recycles the least recently released unreferenced buffer and marks it invalid; it fails exactly if the block is not cached and every buffer is referenced; ring, order and one buffer per block are kept |
| `BufferRing.BufferPool.Brelse` | kernel/bio.c:116-137 | drops one reference; at zero the buffer becomes the most recently released of all, and the list stays one ring in that order |
| `BufferCache.RunInv` | kernel/bio.c:58-151 | an invariant of every run of any number of users that get, read, change, log, write and release buffers while the log installs them |
| `BufferCache.FillGetsLatest` | kernel/bio.c:92-103 | a buffer that is about to be read in has the latest contents of its block waiting on the disk |
| `BufferCache.BreadReturnsLatest` | kernel/bio.c:92-103 | in every reachable state the holder of a filled buffer sees the latest contents logged or written for its block, or the initial contents if there are none |
| `BufferCache.RecyclingLosesNothing` | kernel/bio.c:75-88 | an unreferenced valid buffer equals its block on disk, which holds the latest contents, so recycling it loses no update |
| `BufferCache.CountsAreExact` | kernel/bio.c:116-151 | in every reachable state a reference count is the number of users of the buffer, plus one if its block is in the current log |
| `Bitmap.PutBlockBit` | kernel/fs.c:76-103 | setting or clearing a bit by its byte and mask changes that bit of the bitmap block and no other |
| `FsLayout.InodeRoundTrip` | kernel/fs.c:226-242 | the size and block addresses stored in slot k of an inode block read back, and every other slot of the block reads as before |
| `FsLayout.AreaUpdated` | kernel/fs.c:226-242 | storing one inode in the bytes of its block makes the inode area stand for the inodes with that one changed and no other |
| `FsCode.FileSys.FindClear` | kernel/fs.c:66-89 | the two nested loops find the lowest clear bit of the whole bitmap, or there is none below the size of the disk |
| `FsCode.FileSys.Balloc` | kernel/fs.c:66-89 | returns the lowest free block, zeroed, owned by nobody, with its bit set and no other data block touched; logs exactly its bitmap block and itself; 0 exactly if every block is in use |
| `FsCode.FileSys.Bfree` | kernel/fs.c:92-106 | panics exactly if the block is free; otherwise exactly that bit is cleared |
| `FsCode.FileSys.AllocDirect` | kernel/fs.c:411-419 | fills an empty direct slot; every other block of the file keeps its place and ownership stays exact |
| `FsCode.FileSys.AllocIndirect` | kernel/fs.c:422-429 | allocates the indirect block without changing the place of any block of the file |
| `FsCode.FileSys.AllocEntry` | kernel/fs.c:430-440 | fills an empty entry of the indirect block; every other block of the file keeps its place |
| `FsCode.FileSys.EntryBlock` | kernel/fs.c:430-440 | the indirect entry, allocated if it was empty; changes nothing if it was there |
| `FsCode.FileSys.BmapIndirect` | kernel/fs.c:420-441 | the indirect branch: block NDIRECT + j of the file, allocated with the indirect block if need be |
| `FsCode.FileSys.Bmap` | kernel/fs.c:405-444 | returns block bn of the file; a mapped block changes nothing; otherwise only block bn changes, a new block is zeroed, ownership and bitmap stay exact, other files are untouched, and 0 means that the disk is full; bounds the blocks logged |
| `FsCode.FileSys.MapPiece` | kernel/fs.c:538-542 | mapping the block of the next piece keeps what is written so far; it fails only at a block boundary at the end of the file on a full disk |
| `FsCode.FileSys.StorePiece` | kernel/fs.c:543-549 | storing a piece extends the written bytes by exactly that piece |
| `FsCode.FileSys.WritePiece` | kernel/fs.c:538-551 | one piece is written whole or not at all, with at most the stated blocks logged |
| `FsCode.FileSys.WritePass` | kernel/fs.c:538-551 | one pass of the loop keeps its invariant: bytes written, ownership, holes and the logged blocks |
| `FsCode.FileSys.WriteLoop` | kernel/fs.c:538-551 | the whole loop: it ends early only at a failed user copy, fewer than the pieces of the write being good, or on a full disk, with exactly the bytes of the passes before written |
| `FsCode.FileSys.UpdateSize` | kernel/fs.c:553-559 | after the size is raised to cover what was written the file system is consistent again and the file is the splice |
| `FsCode.FileSys.WriteBytes` | kernel/fs.c:538-561 | the writing part: file bytes become the splice of the bytes written, with a bound on the blocks logged |
| `FsCode.FileSys.Writei` | kernel/fs.c:528-562 | -1 exactly if the offset is past the end or the file would get too big, and then nothing changes; otherwise the bytes of the file become the splice of the first r bytes of the source at the offset, every other file keeps its bytes, no hole appears below a size, ownership and the inode area stay exact, every changed block is logged, with enough good copies r is short only at a block boundary at the end of the file on a full disk, and at most WriteCost blocks are logged, with a lower bound on which they are |
| `FsCode.FileSys.FetchPiece` | kernel/fs.c:505-516 | the bytes of one block of the file, with nothing allocated |
| `FsCode.FileSys.ReadBytes` | kernel/fs.c:505-516 | the loop copies exactly the slice of the file; it stops only at a failed user copy, fewer than the pieces of the read being good |
| `FsCode.FileSys.Readi` | kernel/fs.c:494-519 | returns exactly the slice of the file from the offset, cut at the end of the file, 0 past the end or when offset plus length wraps around; changes nothing |
| `FsCode.FileSys.FreeNext` | kernel/fs.c:455-460 | freeing the next block of an inode never hits a free block, and exactly that block leaves the bitmap |
| `FsCode.FileSys.FreeDirect` | kernel/fs.c:455-460 | frees exactly the direct blocks |
| `FsCode.FileSys.FreeIndirect` | kernel/fs.c:462-472 | frees exactly the entries of the indirect block and the block itself |
| `FsCode.FileSys.ClearInode` | kernel/fs.c:474-475 | with the blocks freed, zeroing the inode restores consistency |
| `FsCode.FileSys.Itrunc` | kernel/fs.c:448-476 | never panics; afterwards the file is empty, exactly its blocks are free, every other file keeps its bytes and its blocks, and every changed block is logged |
| `FsEffects.TruncatedFiles` | kernel/fs.c:448-476 | dropping one inode with all its blocks keeps ownership exact and every other file as it was |
| `FsEffects.FinishWrite` | kernel/fs.c:538-559 | bytes written block by block through the map, then the size, are one splice of the byte sequence of the file |
| `FsEffects.WroteMore` | kernel/file.c:153-172 | consecutive chunk writes are one splice of the concatenated chunks |
| `FsEffects.HoleIsAligned` | kernel/fs.c:405-444 | with no holes below the size, a missing block can only be met at a block boundary at the end of the file |
| `FsEffects.CostBound` | kernel/fs.c:528-562 | the blocks logged by a write are within WriteCost: data, bitmap, one indirect and one inode block |
| `FsCost.LowTaken` | kernel/fs.c:66-89 | since balloc() takes the lowest free block, the blocks taken by a write include every set of free blocks that lies below all others and is no larger |
| `FsCost.CompleteNews` | kernel/fs.c:405-444 | a write from the last block of a file past the direct blocks takes exactly one new block per block of the file after the first, and the indirect block |
| `FsCost.CostAttained` | kernel/fs.c:528-562 | a complete unaligned write that starts in the last block of a file, reaches the indirect block and finds the lowest free blocks each under a bitmap block of its own logs no fewer than WriteCost blocks |
| `FsCost.EnoughBlocks` | kernel/fs.c:528-562 | with as many free blocks as pieces, a write cannot end at a full disk |
| `FileCode.ChunkFits` | kernel/file.c:149-158 | a chunk at any offset, on a disk with any number of bitmap blocks, logs at most MAXOPBLOCKS blocks |
| `ChunkCost.WorstWrite` | kernel/fs.c:528-562 | every write of the costly kind, on any consistent disk, is complete and logs exactly WriteCost blocks |
| `ChunkCost.WorstIsConsistent` | kernel/fs.c:66-106 | a concrete disk, given byte by byte, meets the whole invariant of the file system |
| `ChunkCost.ChunkIsTight` | kernel/file.c:149-158 | the code, writing one chunk on that disk, logs exactly MAXOPBLOCKS blocks, so the reservation has no slack |
| `ChunkCost.LargerOverruns` | kernel/file.c:149-158 | with a chunk one block larger it logs MAXOPBLOCKS + 2 blocks, so no larger chunk of whole blocks would do |
| `FileCode.File.WriteChunk` | kernel/file.c:160-165 | one transaction: at most MAXOPBLOCKS distinct blocks logged, every changed block among them, the offset moves by exactly the bytes written, and a short write means fewer good copies than pieces, a limit or a full disk |
| `FileCode.File.WritePass` | kernel/file.c:155-172 | one pass of the loop extends the written prefix of the source by what its transaction wrote |
| `FileCode.File.Filewrite` | kernel/file.c:134-179 | the file becomes the splice of the first `written` bytes at the old offset, over all transactions; the result is n exactly if all bytes were written, else -1; within the limits and with good copies that means a full disk; every transaction stays within its reservation |
| `Directory.StrncmpIsEquality` | kernel/string.c:60-69 | comparing at most n bytes is equality of the names cut at n bytes or the first NUL |
| `Directory.StoredName` | kernel/string.c:70-81 | a name stored in a DIRSIZ field reads back as the name cut to DIRSIZ |
| `Directory.DirentReads` | kernel/fs.c:622-626 | a written directory entry reads back as its inode number and its name cut to DIRSIZ |
| `Directory.InsertUnique` | kernel/fs.c:602-629 | writing an entry for an absent name, over an empty slot or at the end, keeps names unique |
| `Directory.RemoveUnique` | kernel/sysfile.c:211-224 | zeroing an entry keeps names unique |
| `Directory.ShortEntry` | kernel/fs.c:622-627 | a short write of a 16-byte entry wrote nothing, because an entry never straddles a block |
| `Directory.DirMapKeys` | kernel/fs.c:574-598 | a name is in the map of a directory exactly if some used entry carries it |
| `Directory.Dirlookup` | kernel/fs.c:574-598 | finds the inode number and the place of a name exactly if the directory, seen as a map, has it |
| `Directory.FindUnused` | kernel/fs.c:615-621 | the first unused entry, or the end of the directory |
| `Directory.WriteEntry` | kernel/fs.c:622-627 | replaces or appends one entry, or leaves all entries as they were on a full disk or at the size limit; no other file changes |
| `Directory.Dirlink` | kernel/fs.c:602-629 | insert if absent on the map of the directory; on failure the entries are unchanged and the reason is a present name, the size limit or a full disk; no other file changes |
| `Directory.RemoveName` | kernel/sysfile.c:211-224 | removes exactly that name from the map, never panics, and changes no other file |
| `Paths.Skipelem` | kernel/fs.c:645-668 | splits off the first element: leading slashes skipped, the name cut to DIRSIZ, and the elements of the rest are the remaining elements of the path |
| `Paths.Lookup` | kernel/fs.c:574-598 | one step of a path is lookup in the map of the directory |
| `Paths.TargetIsWalk` | kernel/fs.c:674-707 | the loop of namex, with its early stop for the parent, is a fold of lookups over all elements, or all but the last |
| `Paths.Namex` | kernel/fs.c:674-707 | returns what the loop over the elements reaches, 0 at a missing name or a non-directory; for the parent also the last element |
| `Paths.Namei` | kernel/fs.c:709-714 | equals folding directory lookups over the elements of the path |
| `Paths.Nameiparent` | kernel/fs.c:716-720 | the directory reached by all elements but the last, together with the last; nothing for an empty path |
| `InodeTable.RunInv` | kernel/fs.c:199-363 | an invariant of every run of iget, idup, ilock, changes, iunlock, iput and ialloc by any number of users |
| `InodeTable.OneEntryPerInode` | kernel/fs.c:247-278 | in every reachable state two referenced entries of one inode are the same entry |
| `InodeTable.UnlockedIsOnDisk` | kernel/fs.c:293-363 | a referenced, valid, unlocked entry equals its disk inode and is not free, also while ialloc reuses inodes that iput is freeing |
| `InodeTable.LockedIsOnDisk` | kernel/fs.c:293-318 | the holder of an inode lock that has not changed the inode sees what is on disk |
| `InodeTable.IputNeverBlocks` | kernel/fs.c:337-363 | when iput finds the last reference to an unlinked inode, its sleep-lock is free |
| `InodeTable.FindFree` | kernel/fs.c:199-220 | ialloc takes the lowest free inode from 1, or there is none |
| `InodeTable.Table.Search` | kernel/fs.c:247-278 | one pass finds the referenced entry, or else the first empty one |
| `InodeTable.Table.Iget` | kernel/fs.c:247-278 | the code takes exactly one of the two steps of the machine, and fails exactly if every entry is referenced |
| `PageTable.PteRoundTrip` | kernel/riscv.h:358-369 | page number and flags packed into an entry come back |
| `PageTable.PxOfPage` | kernel/riscv.h:371-376 | the three indexes are the digits of the page number in base 512 |
| `PageTable.PxInjective` | kernel/riscv.h:371-380 | distinct page-aligned addresses below MAXVA differ in an index, so they reach distinct entries |
| `PageTable.SetLeaf` | kernel/vm.c:145-174 | one store to a level-0 entry is one update of the flat map from page numbers to entries, and no other mapping changes |
| `PageTable.AddMid` | kernel/vm.c:97-115 | linking a zeroed table into the root changes no mapping |
| `PageTable.AddLow` | kernel/vm.c:97-115 | linking a zeroed table into a middle table changes no mapping |
| `VmState.TakeSound` | kernel/kalloc.c:68-82 | taking the head of the free list keeps every page in exactly one place: free list, table node, leaf or kernel |
| `VmState.GiveSound` | kernel/kalloc.c:46-63 | giving a held page back keeps every page in exactly one place |
| `VmState.MapUserSound` | kernel/vm.c:145-174 | mapping a held page at a vacant address keeps every page in exactly one place |
| `VmState.UnmapUserSound` | kernel/vm.c:192-212 | a mapped user page belongs to that mapping only; clearing the entry hands it to the kernel |
| `VmEffects.WalkEntry` | kernel/vm.c:97-115 | the entry at each level is valid exactly if the next table exists, and points to it |
| `VmEffects.LeafEntry` | kernel/vm.c:97-115 | the level-0 entry is valid exactly if the flat map has the page, and is its value |
| `VmEffects.RolledBack` | kernel/vm.c:216-240 | undoing a partial allocation leaves no user page behind: at most page-table pages were added |
| `VmEffects.OthersSeeTheSame` | kernel/vm.c:216-324 | a change to one address space leaves the view of every other one, flags and contents, as it was |
| `VmEffects.CopySeesTheSame` | kernel/vm.c:296-324 | an address space filled page by page from another has the same view |
| `VmTeardown.IntactBelow` | kernel/vm.c:262-278 | with no mappings left, every valid entry of the tree is a link to a table, so the panic in freewalk is out of reach |
| `VmTeardown.FreedAll` | kernel/vm.c:282-288 | unmapping everything and freeing the tree returns every page of the address space |
| `VmTeardown.OpenedGone` | kernel/proc.c:176-206 | creating an address space and freeing it loses no page and changes no other address space |
| `VmCode.VM.constructor` | kernel/kalloc.c:26-31 | before the allocator is initialised the invariant holds, with every page held by the kernel |
| `VmCode.VM.FreeRange` | kernel/kalloc.c:33-40 | exactly the pages of the range become free |
| `VmCode.VM.Kalloc` | kernel/kalloc.c:68-82 | 0 exactly if the free list is empty; otherwise its head, taken out |
| `VmCode.VM.Kfree` | kernel/kalloc.c:46-63 | the page becomes the head of the free list, filled with junk but for the link |
| `VmCode.VM.KfreeAt` | kernel/kalloc.c:46-63 | panics, changing nothing, exactly for an address that is not page-aligned or not in the managed memory; otherwise its page is given back |
| `VmCode.VM.AddTable` | kernel/vm.c:104-112 | the allocating branch links a zeroed page in; no mapping changes; it fails only without memory |
| `VmCode.VM.WalkStep` | kernel/vm.c:102-113 | one level down: the next table, allocated if allowed |
| `VmCode.VM.Walk` | kernel/vm.c:97-115 | returns the level-0 table of the page; allocating changes no mapping, not allocating changes nothing; with allocation it fails only when fewer than two pages are free |
| `VmCode.VM.WalkAt` | kernel/vm.c:97-115 | for any address: panics, changing nothing, exactly at or above MAXVA; otherwise the level-0 table of its page, no mapping changed, and 0 only if it does not exist and may not or cannot be allocated |
| `VmCode.VM.MapPage` | kernel/vm.c:145-174 | inserts one page into the flat map and nothing else; panics exactly on a remap; otherwise fails only when fewer than two pages are free |
| `VmCode.VM.MapPages` | kernel/vm.c:145-174 | for any range: panics, changing nothing, on an unaligned address or size or an empty range; otherwise the pages up to a certain one are added to the flat map and nothing else changes, and that one is the end of the range exactly if the result is 0, was mapped already exactly if it panics, and else memory was short |
| `VmCode.VM.UnmapPage` | kernel/vm.c:201-211 | deletes one page from the flat map and frees its memory if told to, or nothing if it is not mapped |
| `VmCode.VM.UvmUnmap` | kernel/vm.c:192-212 | deletes exactly the range from the flat map and frees exactly its pages; missing pages are skipped |
| `VmCode.VM.AddPage` | kernel/vm.c:226-238 | a page is allocated, filled and mapped, or none of it; it fails only when fewer than three pages are free |
| `VmCode.VM.GrowTo` | kernel/vm.c:216-240 | all pages of the range are there, zeroed and with the flags, or none of them; it fails only with fewer than three free pages per page |
| `VmCode.VM.UvmAlloc` | kernel/vm.c:216-240 | grows to the new size with zeroed pages and the flags asked for, or restores every mapping; a smaller new size changes nothing; it fails only for want of memory; every other address space is as before |
| `VmCode.VM.UvmDealloc` | kernel/vm.c:246-258 | unmaps and frees exactly the pages between the two rounded sizes |
| `VmCode.VM.Pte` | kernel/vm.c:475-486 | the entry of a page, valid exactly if it is mapped |
| `VmCode.VM.WalkAddr` | kernel/vm.c:120-138 | the page of a mapped user address, 0 for every other address |
| `VmCode.VM.CopyPage` | kernel/vm.c:303-319 | one pass copies one page if it is mapped, and skips it otherwise |
| `VmCode.VM.UvmCopy` | kernel/vm.c:296-324 | the child sees the same pages, flags and contents as the parent, which is unchanged; on failure, only for want of memory, the child has no user page |
| `VmCode.VM.VmFault` | kernel/vm.c:452-473 | for a process with trampoline and trapframe mapped: maps a zeroed page exactly when the address is below the size, not mapped and there is memory; nothing appears above the size and the two top pages stay |
| `VmCode.VM.GrowBranch` | kernel/proc.c:236-255 | growing a process: the new size with all its pages, or the old size and no mapping changed, at the limit or for want of memory |
| `VmCode.VM.ShrinkBranch` | kernel/proc.c:236-255 | shrinking a process: exactly the pages above the new size go; a target that is not smaller changes nothing |
| `VmCode.VM.Growproc` | kernel/proc.c:236-255 | for a process with trampoline and trapframe mapped and any 32-bit n: the size after growing or shrinking, the pages that come and go, and failure only at the limit or for want of memory; a shrink below zero changes nothing, as the unsigned comparison has it; nothing is mapped between the size and the two top pages, which stay |
| `VmCode.VM.Sbrk` | kernel/sysproc.c:39-64 | for any 32-bit n, eager or lazy, as growproc or, lazily, the new size with no memory changed, refused exactly above the trapframe; the result is the old size or -1; nothing is mapped between the size and the two top pages |
| `VmCode.VM.FreeEntry` | kernel/vm.c:265-276 | one entry of freewalk: the subtree is freed and the link cleared; the panic is out of reach |
| `VmCode.VM.FreeWalk` | kernel/vm.c:262-278 | frees exactly the tables below a node and the node |
| `VmCode.VM.FreeTables` | kernel/vm.c:262-278 | frees exactly the tables of an address space without mappings |
| `VmCode.VM.UvmFree` | kernel/vm.c:282-288 | returns every page of the address space, tables included, and changes no other one |
| `VmCode.VM.UvmCreate` | kernel/vm.c:178-187 | an address space without mappings, 0 exactly without memory |
| `VmCode.VM.MapSpecial` | kernel/proc.c:186-203 | maps the trampoline or the trapframe, or changes no mapping |
| `VmCode.VM.MapTrapframe` | kernel/proc.c:193-203 | if the second mapping fails, the first is undone |
| `VmCode.VM.MapTwo` | kernel/proc.c:184-203 | both mappings or none |
| `VmCode.VM.MapOrFree` | kernel/proc.c:184-203 | both mappings, or the address space is freed again |
| `VmCode.VM.ProcPagetable` | kernel/proc.c:176-206 | an address space with exactly the two mappings, or nothing at all and no page lost; it fails only when fewer than five pages are free |
| `VmCode.VM.ProcFreePagetable` | kernel/proc.c:210-216 | for a process of any size: returns every page it has, tables included, without reaching the panic of freewalk, and changes no other address space |
| `VmCode.VM.ForkMemory` | kernel/proc.c:259-275 | the child is a process of the same size with the two top pages and the same user view, the parent is unchanged; otherwise nothing is lost and memory was short |
| `VmLife.SpawnedUses` | kernel/proc.c:176-206 | creating or copying an address space takes only free pages, each of them into the new space |
| `VmLife.ResizedUses` | kernel/proc.c:236-255 | resizing an address space or faulting in it only exchanges pages between that space and the free list |
| `VmLife.FamilySpawned` | kernel/proc.c:259-275 | with one more process, every page is still where it was or in one of the spaces made since |
| `VmLife.FamilyResized` | kernel/sysproc.c:39-64 | a resized process keeps every page where it was or in one of the spaces made since |
| `VmLife.FamilyGone` | kernel/proc.c:210-216 | a process that is freed gives back exactly what it had taken |
| `VmLife.DoAll` | kernel/proc.c:176-275 | after any sequence of creating, resizing, faulting, forking and exiting, each running without assumptions on memory or arguments, every process still has its size and mappings and no page is lost or shared |
| `VmLife.Lives` | kernel/proc.c:176-275 | after any such sequence and the exit of all processes left, the memory of the kernel is as before: the same free pages, the same address spaces, the same contents of pages in use |
| `ProcessSafety.RunInv` | kernel/proc.c:259-587 | an invariant of every interleaving of fork, exit, wait, sleep, wakeup, yield and the schedulers of any number of CPUs, with lock ownership explicit |
| `ProcessSafety.SchedulingSafety` | kernel/proc.c:424-501 | whenever a process lock is free, its process is RUNNING exactly if it is current on some CPU, then on exactly one, and no CPU is still switching away from it |
| `ProcessSafety.ReapedIsOff` | kernel/proc.c:370-415 | kwait frees a process only when no CPU runs it or is switching away from it |
| `ProcessSafety.NoLostWakeup` | kernel/proc.c:310-415 | whenever wait_lock is free, no process sleeps in kwait while it has a ZOMBIE child, reparented ones included |
| `ProcessSafety.ParentsAreAlive` | kernel/proc.c:310-321 | in every reachable state every started process other than init has a parent, and the parent of any process is a live process |
| `ProcessSafety.GuardsHold` | kernel/proc.c:259-306 | what the code takes for granted holds in every reachable state: a RUNNABLE process with a free lock is off every CPU, no process is its own parent, and the child being made is another process in state USED |
| `ProcessSafety.Woken` | kernel/proc.c:573-587 | the pass of wakeup() over a process that sleeps on the channel makes it RUNNABLE; in particular a parent dozing in kwait is RUNNABLE afterwards |
| `ProcessSafety.ParentAwake` | kernel/proc.c:327-366 | in every run, when the exiting process has finished waking its parent, that parent is not asleep in kwait |
| `SleepLock.MutualExclusion` | kernel/sleeplock.c:21-41 | in every run one process at most has the lock, exactly the one recorded |
| `SleepLock.NobodySleepsOnFreeLock` | kernel/sleeplock.c:21-41 | whenever the lock is free and its spinlock too, nobody is left asleep on it |
| `SpinLock.MatchedCalls` | kernel/spinlock.c:88-113 | for every matched nesting of push_off and pop_off interrupts are off inside and as they were before at the end |
| `SpinLock.PanicIffUnmatched` | kernel/spinlock.c:88-113 | pop_off panics exactly if it has no push_off |
| `VirtioRing.SlotsDiffer` | kernel/virtio_disk.c:271-277 | entries fewer than NUM apart sit in different slots, also across the wrap of the 16-bit index |
| `VirtioRing.QueuePush` | kernel/virtio_disk.c:271-277 | adding at the producer index appends to the queue and overwrites no unread entry |
| `VirtioRing.QueuePop` | kernel/virtio_disk.c:312-323 | the slot at the consumer index holds the oldest entry; moving the index removes it |
| `VirtioRing.QueueEmpty` | kernel/virtio_disk.c:312-323 | the two indexes are equal exactly if the queue is empty |
| `VirtioRing.RoomForOne` | kernel/virtio_disk.c:271-277 | distinct chain heads, one of them not in the ring, leave a free slot |
| `VirtioDisk.ChainsDisjoint` | kernel/virtio_disk.c:199-213 | two chains in flight share no descriptor |
| `VirtioDisk.SubmitSound` | kernel/virtio_disk.c:215-281 | submitting a request keeps the invariant of descriptors, chains and rings |
| `VirtioDisk.FetchSound` | kernel/virtio.h:62-81 | what the device takes is the oldest request submitted |
| `VirtioDisk.CompleteSound` | kernel/virtio.h:62-81 | completing any request the device has, in any order, keeps the invariant |
| `VirtioDisk.NoteSound` | kernel/virtio_disk.c:312-324 | the interrupt handler sees a finished request with its own buffer and operation and status 0, so it does not panic |
| `VirtioDisk.FinishSound` | kernel/virtio_disk.c:283-292 | freeing the chain of a finished request keeps the invariant |
| `VirtioDisk.Disk.constructor` | kernel/virtio_disk.c:102-153 | the initial state: all descriptors free, both rings empty |
| `VirtioDisk.Disk.AllocDesc` | kernel/virtio_disk.c:155-166 | the lowest free descriptor, or there is none |
| `VirtioDisk.Disk.Alloc3` | kernel/virtio_disk.c:199-213 | three different free descriptors, or none taken because fewer than three were free |
| `VirtioDisk.Disk.Enqueue` | kernel/virtio_disk.c:228-277 | the stores to descriptors, request header, info and ring are exactly one submission |
| `VirtioDisk.Disk.Start` | kernel/virtio_disk.c:215-281 | a request with the buffer, block number and direction asked for joins the queue as a new chain and the buffer is marked busy; otherwise nothing changed and fewer than three descriptors are free |
| `VirtioDisk.Disk.DeviceTake` | kernel/virtio.h:62-81 | the device finds through the descriptors the buffer, the direction, and a header whose type and sector are those of the block asked for |
| `VirtioDisk.Disk.DeviceComplete` | kernel/virtio.h:62-81 | a completion joins the used ring and overwrites no unread one |
| `VirtioDisk.Disk.IntrOne` | kernel/virtio_disk.c:312-324 | one pass notes exactly the oldest completion |
| `VirtioDisk.Disk.Intr` | kernel/virtio_disk.c:294-327 | all completions are noted, and the buffers that stop being busy are exactly those whose requests finished |
| `VirtioDisk.Disk.FreeChain` | kernel/virtio_disk.c:184-197 | following the links frees exactly the three descriptors of the chain |
| `VirtioDisk.Disk.End` | kernel/virtio_disk.c:283-292 | a request whose buffer is not busy has finished; its chain is freed and no other one changes |
| `FreeList.BetweenIsPlace` | user/umalloc.c:30-32 | the exit test of the search loop in free() holds at exactly one node of the ring: where the block belongs by address |
| `FreeList.JoinNextSound` | user/umalloc.c:33-42 | joining two adjacent free blocks keeps the ring ordered and the units conserved, and takes away one adjacent pair |
| `FreeList.HalfSound` | user/umalloc.c:33-37 | inserting and joining upwards leaves at most one adjacent pair |
| `FreeList.WholeSound` | user/umalloc.c:38-42 | joining downwards as well leaves no two free blocks adjacent |
| `FreeList.UnlinkSound` | user/umalloc.c:76-77 | giving out a whole block removes exactly it from the ring |
| `FreeList.CarveSound` | user/umalloc.c:78-82 | giving out the tail of a block leaves the rest on the ring; live blocks stay disjoint |
| `FreeList.ExtendSound` | user/umalloc.c:46-61 | fresh memory from sbrk is one more live block |
| `Umalloc.AskFitsInt` | user/umalloc.c:46-56 | the argument that sbrk() receives is the size computed, exactly for requests of up to 0x7fffffe0 bytes; above, it is at least 4 GB less |
| `Umalloc.AskFails` | user/umalloc.c:46-56 | two sizes beyond the bound: one passes the most negative int to sbrk(), the other asks for 16 bytes to satisfy 0x10000001 units |
| `Umalloc.Units` | user/umalloc.c:69 | the fewest units that hold the bytes and a header |
| `Umalloc.Allocator.constructor` | user/umalloc.c:21-22 | an allocator nobody has used has no live block |
| `Umalloc.Allocator.FindPlace` | user/umalloc.c:30-32 | the search terminates at the place of the block in the ring |
| `Umalloc.Allocator.LinkUp` | user/umalloc.c:33-37 | the stores are the upward half of the insertion |
| `Umalloc.Allocator.LinkDown` | user/umalloc.c:38-43 | the stores are the downward half of the insertion |
| `Umalloc.Allocator.Free` | user/umalloc.c:24-44 | exactly that block stops being live; the list stays one ring ordered by address with no two adjacent blocks; units are conserved |
| `Umalloc.Allocator.Morecore` | user/umalloc.c:46-61 | the new region is on the ring, merged or alone; live blocks unchanged; units grow by exactly what sbrk gave |
| `Umalloc.Allocator.Search` | user/umalloc.c:74-89 | the walk from freep ends, at a block that is large enough or, once around, with none on the ring large enough |
| `Umalloc.Allocator.Take` | user/umalloc.c:75-85 | the block or its tail becomes live, everything else stays |
| `Umalloc.Allocator.Init` | user/umalloc.c:70-73 | the first call sets up a ring of the base alone |
| `Umalloc.Allocator.Find` | user/umalloc.c:74-89 | sbrk is asked only if no block fits; afterwards one does, or there is no memory, or its argument was truncated |
| `Umalloc.Allocator.Malloc` | user/umalloc.c:63-90 | for every 32-bit size: a new live block of the right units, disjoint from the others, units conserved against sbrk; 0 only if sbrk failed and no block fits; if the argument of sbrk is truncated, which takes more than 0x7fffffe0 bytes, that is reported and nothing has changed |
| `Pipe.SlotsDiffer` | kernel/pipe.c:88-95 | bytes fewer than PIPESIZE apart sit in different slots |
| `Pipe.FullTest` | kernel/pipe.c:88-95 | the tests for full and empty on wrapped 32-bit counters are exact |
| `Pipe.HoldsMore` | kernel/pipe.c:95 | storing a byte in a pipe that is not full overwrites no unread byte |
| `Pipe.PipeBuffer.constructor` | kernel/pipe.c:22-36 | a new pipe is empty and open at both ends |
| `Pipe.PipeBuffer.Put` | kernel/pipe.c:95 | the byte is the last accepted one |
| `Pipe.PipeBuffer.Write` | kernel/pipe.c:76-103 | accepts exactly the bytes up to where it stops, in order; it stops at the end, at a closed reader or a kill, at a fault, or sleeps exactly on a full pipe |
| `Pipe.PipeBuffer.MustWait` | kernel/pipe.c:113-119 | a reader waits exactly while everything is delivered and the write end is open |
| `Pipe.PipeBuffer.Get` | kernel/pipe.c:124-126 | delivers the oldest byte that is not delivered |
| `Pipe.PipeBuffer.Read` | kernel/pipe.c:105-134 | delivers the next accepted bytes in order; 0 for a positive length only if the pipe is drained and the write end is closed; short only if drained or at a fault |
| `Pipe.PipeBuffer.Close` | kernel/pipe.c:58-74 | closes one end; the pipe is freed exactly if both are closed |

## Left out

- Assembly, boot, traps, interrupts' controllers, UART and virtio register setup; swtch, the atomic swap and one synchronous block write are single steps.
- Liveness, fairness and weak memory: only safety is stated, over sequentially consistent steps.
- exec, the shell, the console, printf, mkfs, system-call argument decoding, the files under features/.
- Link counts over whole runs: an unlinked directory still in use accepts new entries, so counts are not exact in every reachable state.
- copyin, copyout, copyinstr, uvmclear and the kernel's own page table: loops over walkaddr and direct maps that add no new invariant. Copies between kernel and user memory succeed or fail as a whole; how many bytes succeed is a parameter of the operations that copy.
- Type, device numbers and link count of an inode on disk: those words of its slot stay as they are; size and block addresses are bytes, like bitmap, indirect blocks, log header and directory entries.
- The in-memory copy of an inode between iupdate calls: `FsCode` keeps one map of inodes, which the inode area agrees with whenever an operation has ended; the two copies under concurrency are in `InodeTable`.
- The file system inside the buffer cache: `FsCode` sees each block as its latest contents, which `BufferCache.BreadReturnsLatest` justifies, and keeps the set of blocks it logs.
- FsCrash.FileSystemSurvives: the log_write() calls of one file system operation are taken to follow one another in the history; the log itself allows any interleaving, in `LogMachine`, but operations on different inodes that interleave at single calls have no joint view in between.
- Locks and reference counts inside namex and dirlookup, and the check that a file is a directory: which inodes are directories is a parameter.
- Pipe and device branches of filewrite, and several writers sharing one file offset.
- Addresses within pages: page tables and the allocator work with page numbers; the junk that kfree and kalloc write is one word repeated.
- Trampoline and trapframe mappings do not own their pages; allocating the trapframe page and freeing it with the process are not modelled.
- Open files and the working directory of a process; being killed is a choice in every step that looks at it.
- Sleeping on channels other than wait, exit and sleep-locks: one step that may be woken at any time.
- What the disk device does with the data: the device is the two rings, the descriptors, the request header and the status byte. The sector number is not cut to 64 bits.
- Waiting for descriptors in virtio_disk_rw: the start of a request reports that fewer than three are free.
- BufferRing.BufferPool.Bget: returns the number of buffers where the code panics; that a buffer is always found is not claimed, since NBUF equals LOGBLOCKS and pinned blocks may take all of them.
- LogCode.Log.BeginOp: the sleep of the code is the answer "not admitted"; retrying is a step of `LogMachine`.
- VmCode.VM.UvmAlloc: requires the new size to be at most TRAPFRAME, which growproc checks before the call; the failure answer 0 and a new size of 0 are the same value.
- VmCode.VM.UvmUnmap: takes ranges either below TRAPFRAME with freeing or from TRAPFRAME up without, the two ways in which the kernel calls it.
- VmCode.VM.Walk: takes a page number below MAXVA; `WalkAt` takes every address and has the panic.
- VmCode.VM.Kfree: takes a page of the managed memory; `KfreeAt` takes every address and has the panics.
- VmCode.VM.MapPages: user pages that the kernel holds; the kernel's own direct map is left out.
- VirtioDisk.Disk.Alloc3: the loop of three is written out.
- Umalloc.Allocator.Malloc: nothing is said after sbrk() was called with a truncated argument; the search that goes on after morecore is written as a second search, which starts at the same block.
- Pipe.PipeBuffer.Write: where the writer is killed or the copy from user memory faults are parameters; sleeping returns to the caller, who goes on at the same position.

# xv6 in Dafny

A Dafny model of the hard parts of xv6 for RISC-V (with the page-table lab), and proofs about it. The
modules follow the layers of the system:

- Storage. `RedoLog` says what the writes of `commit()` and `recover_from_log()` mean for a disk that can
  crash between any two of them; `BufferCache` is the LRU ring of buffers over a disk; `Log` is the log on
  top of the cache and performs exactly the writes `RedoLog` reasons about; `GroupCommit` interleaves many
  operations, and `LogRefinement` ties the log's methods to its steps; `BlockMap`, `Truncate` and
  `FileSystem` are the free map, inodes and file contents, and the bound on the blocks that one transaction
  of `filewrite()` logs; `Recovery` puts them on top of the log and says which files a crash leaves.
- Memory. `Sv39` and `PageTable` are three-level tables and the flat map they stand for, and `FrameCount`
  says how many frames they take; `TearDown` and `VirtualMemory` are the page allocator and the operations
  of `vm.c`; `UserCopy` and `PageAccess` are the copies to and from user memory and `pgaccess()`;
  `AddressSpace`, `ProcMemory`, `Process` and `Exec` are processes and the frames they own, through fork,
  exec, sbrk, exit and wait.
- Protocols. `ExitWait` is exit and wait under all interleavings, and `ProcRefinement` ties the methods of
  `Process` to its steps; `Virtio` is the disk driver against a device that completes requests in any order;
  `Pipe` is the pipe's ring buffer.
- User programs. `Umalloc` is malloc and free; `ShellGrammar`, `ShellLex` and `Shell` are the shell's
  parser; `Grep` is the regular expression matcher.

State that the source changes in place is held in classes whose methods change it; what it means is said by
functions and lemmas on values. A physical page is a frame number, and a ghost table `use` gives every frame
one use, so that no frame has two owners. Locks are not modelled as data, except in `ExitWait`: what runs
under a spinlock is one step. The verifier is given all files together (`dafny verify dfyconfig.toml`).

## What the proofs show about the code

- `log_write()` compares with `log.size - 1` while `begin_op()` reserves against `LOGSIZE`. With more than
  `LOGSIZE` log blocks, an operation that has added fewer than `MAXOPBLOCKS` blocks never meets the panic
  "too big a transaction" (`GroupCommit.NeverTooBig`), and `filewrite()` never does
  (`LogRefinement.FileWriteFits`). With `nlog = LOGSIZE`, as mkfs sets it, an operation can meet it
  (`GroupCommit.TooBigHappens`).
- `NBUF` equals `LOGSIZE`, so a large transaction can leave `commit()` no buffer for its first log block, and
  `bget()` panics. Readers count too: `fileread()` holds a buffer without a `begin_op()`. `commit()` can meet
  the panic while others use h buffers if and only if the largest transaction that the log can hold and h come
  to `NBUF` or more (`GroupCommit.StuckIff`, `Log.LogLayer.CommitRoom`). With the log that mkfs makes, one
  buffer held by a reader is enough; with one block more in the log, none is needed.
- A transaction of `filewrite()` logs at most `MAXOPBLOCKS` blocks, for any size of the free map; the sum of
  data, free map, indirect and inode blocks reaches that bound with nothing to spare.
- In `log_write()` the check for a full log comes before the search for the block, so writing a block that
  is already in a full log panics too, even for an operation within its budget (`GroupCommit.RelogTooBig`).
- After a crash at any write of `commit()` or of recovery the disk decodes to inodes, a free map and files in
  which no block of a file is free or shared, and the files are all as they were before, or all as they were
  after, the transaction that the crash met (`Recovery.FilesSurvive`).
- `walkaddr()` does not look at `PTE_W`, so `copyout()` can write to the USYSCALL page, which user code can
  only read. The page holds the process's pid exactly as long as no such write puts other bytes over it
  (`ProcMemory.PidAfterWrite`, `ProcMemory.PidOverwritten`). `wait()` is such a write: it keeps every pid if
  and only if the address for the status is below the page, or what falls on the pid is the pid
  (`Process.ProcTable.Wait`). So is `pgaccess()`, with the mask (`Process.ProcTable.Pgaccess`).
- The two failure branches of `proc_pagetable()` for the trapframe and the USYSCALL page are never taken:
  the three fixed pages share their tables, so only the first can lack a frame (`AddressSpace.FixedNeed`).
- A process that `wait()` reports has exited and has not been reported before, and it is exactly that process's
  memory that becomes free (`ProcRefinement.WaitCall`).
- `fork()` and `exec()` fail for want of memory at exactly computable numbers of free frames: n pages of
  user memory take n frames for the pages, one for each 512 pages, and one for each 512 of those
  (`FrameCount.TreeFrames`).
- Accessed and dirty bits, which the hardware sets at any time and `pgaccess()` clears, matter to no address
  space: every result about processes holds with any such bits set (`ProcMemory.MarksKeep`).
- `pgaccess()` tests `*pte && PTE_V`, which is true of every nonzero entry; that entries are zero or valid
  makes it the right test (`PageAccess.PgAccess`).
- `growproc()` has no upper bound on the size; there are fewer pages of memory than pages below USYSCALL, so
  memory runs out first (`VirtualMemory.PagesFit`).

## Model

| member | source | states |
|---|---|---|
| `RedoLog.HeaderRoundTrip` | kernel/log.c:85-114 | the header block that write_head() builds is read back by read_head() as the same count and block numbers |
| `RedoLog.PartialInstall` | kernel/log.c:68-83 | installing any prefix of the log, in any state of the home blocks, changes neither the header nor what the disk means |
| `RedoLog.EraseHeader` | kernel/log.c:102-123 | clearing the header of a fully installed log keeps what the disk means and leaves an empty log |
| `RedoLog.CrashDuringRecovery` | kernel/log.c:116-123 | after any number of recovery's writes the disk means what it meant before; after all of them the log is empty |
| `RedoLog.RebootSettles` | kernel/log.c:116-123 | recovery interrupted any number of times and then completed puts on each home block exactly what the disk meant |
| `RedoLog.CommitPrefixMeaning` | kernel/log.c:178-203 | after k of commit()'s writes the disk means the old state before the header write and the new state from it on |
| `RedoLog.CrashAtomicity` | kernel/log.c:68-203 | crash after any write of commit(), crash in recovery as often as wanted, then recover: the home blocks are exactly the state before, or exactly the state after, the latter just if the header got out |
| `RedoLog.LifeIsAtomic` | kernel/log.c:54-203 | over any sequence of commits and crashes the home blocks hold the transactions whose header reached the disk, in order, none lost and none in part |
| `BufferCache.Cache.constructor` | kernel/bio.c:36-53 | binit() links all buffers into one ring in which nothing is cached |
| `BufferCache.Cache.Lookup` | kernel/bio.c:65-73 | finds the buffer of the block if one is cached, and otherwise says that none is |
| `BufferCache.Cache.FindUnused` | kernel/bio.c:75-87 | the least recently used buffer without references: all behind it in the ring are referenced |
| `BufferCache.Cache.BGet` | kernel/bio.c:58-89 | the cached buffer with one more reference, or the LRU unused one taken over; null, for the panic, just if all are in use; the ring and uniqueness are kept |
| `BufferCache.Cache.BRead` | kernel/bio.c:91-103 | the buffer is locked and valid and holds what clients should see: the disk overlaid with logged writes; null, for the panic, just if the block is not cached and all buffers are in use |
| `BufferCache.Cache.BWrite` | kernel/bio.c:105-112 | the disk's block becomes the buffer's data, as one write in the trace |
| `BufferCache.Cache.BRelse` | kernel/bio.c:116-137 | the reference is dropped; an unreferenced buffer moves to the front of the ring and the order of the others is kept |
| `BufferCache.Cache.BPin` | kernel/bio.c:139-144 | one more reference that is a pin |
| `BufferCache.Cache.BUnpin` | kernel/bio.c:146-151 | the pin is dropped, by a client that has put the block on disk |
| `BufferCache.Cache.CopyToLog` | kernel/log.c:184-189 | a turn of write_log() while others use buffers: one disk write, of the cached block's last data to its log slot; or the panic, with nothing written, just if there is no buffer for the log block |
| `BufferCache.Cache.Install` | kernel/log.c:74-81 | a turn of install_trans() while others use buffers: one disk write, of the log block to its home, and the pin is dropped unless recovering |
| `BufferCache.Cache.RoomForBlock` | kernel/bio.c:75-88 | while fewer than NBUF buffers are in use bget() does not panic |
| `BufferCache.Cache.Transparent` | kernel/bio.c:58-151 | each block has at most one buffer, an unreferenced valid buffer equals the disk, an unlocked valid one equals what clients should see, and blocks differ from disk only while pinned |
| `Log.LogLayer.WriteLog` | kernel/log.c:177-191 | the trace grows by the copies of all logged blocks, with their last data; or bget() panics, with nothing written, just if the transaction and others use NBUF buffers |
| `Log.LogLayer.WriteHead` | kernel/log.c:99-114 | the trace grows by one write of the header block with the in-memory count and block numbers |
| `Log.LogLayer.InstallTrans` | kernel/log.c:67-83 | the trace grows by the installs of all logged blocks, and without recovering all pins are gone |
| `Log.LogLayer.ReadHead` | kernel/log.c:85-97 | the in-memory header is the one on disk |
| `Log.LogLayer.RecoverFromLog` | kernel/log.c:116-123 | its disk writes are exactly the ones that the crash proofs reason about |
| `Log.LogLayer.Commit` | kernel/log.c:193-203 | its disk writes are exactly the ones that the crash proofs reason about, afterwards nothing is logged or pinned, and clients see the same; or bget() panics, with nothing written, just if the transaction and others use NBUF buffers |
| `Log.LogLayer.CommitRoom` | kernel/param.h:10-11 | commit() finds a buffer for its first log block if and only if that block is cached or the logged blocks and the other referenced buffers are fewer than NBUF |
| `Log.LogLayer.LogWrite` | kernel/log.c:205-235 | the block is logged and pinned once, repeated writes are absorbed, clients see the new data; false exactly for the panics |
| `Log.LogLayer.EndOp` | kernel/log.c:144-175 | the last operation out commits everything logged, and false exactly for the panics, before anything is written: a commit under way, or NBUF buffers used by the transaction and others |
| `GroupCommit.ReachableInv` | kernel/log.c:126-235 | in every interleaving the logged blocks plus the unused budgets of the operations inside never exceed LOGSIZE, and the log holds the last data of each block |
| `GroupCommit.CommitAlone` | kernel/log.c:146-175 | while a commit is going on no operation is inside, so end_op()'s panic is unreachable; and commit() has a next step just if the pinned buffers and those that others hold are fewer than NBUF |
| `GroupCommit.NeverTooBig` | kernel/log.c:214-223 | with more than LOGSIZE log blocks, an operation that has added fewer than MAXOPBLOCKS blocks never meets the panic |
| `GroupCommit.TooBigHappens` | mkfs/mkfs.c:25 | with at most LOGSIZE log blocks there is an interleaving in which an operation within its budget does |
| `GroupCommit.RelogTooBig` | kernel/log.c:214-223 | an interleaving in which an operation that has logged MAXOPBLOCKS blocks meets the panic by writing one of its own again, with any log that can hold so many |
| `GroupCommit.FewBlocksFit` | kernel/log.c:214-235 | with more than LOGSIZE log blocks, an operation whose log_write()s went to fewer than MAXOPBLOCKS blocks can issue its next one, for a buffer that it holds |
| `GroupCommit.CommitMoves` | kernel/log.c:177-203 | in every state of every interleaving, while others use fewer buffers than the largest transaction leaves, commit() has a next step |
| `GroupCommit.CommitStuck` | kernel/log.c:177-203 | for every larger number of buffers that others use, an interleaving in which commit() has none for its first log block |
| `GroupCommit.StuckIff` | kernel/param.h:10-11 | commit() can be without a buffer while others use h of them if and only if the largest transaction and h come to NBUF or more |
| `GroupCommit.CrashAnywhere` | kernel/log.c:126-235 | after a crash in any reachable state and recovery the home blocks are the replay of the log_write()s of the committed transactions |
| `GroupCommit.OperationsSurviveWhole` | kernel/log.c:126-235 | of an operation's log_write()s a crash keeps all or none, and none if the operation has not ended |
| `GroupCommit.ViewIsLatest` | kernel/log.c:214-235 | the cache shows every log_write() issued so far |
| `LogRefinement.Booted` | kernel/log.c:54-65 | after initlog() the layer is in the protocol's initial state |
| `LogRefinement.Begin` | kernel/log.c:126-142 | begin_op() admits an operation exactly when the protocol does, and takes its step |
| `LogRefinement.Write` | kernel/log.c:205-235 | log_write() of a buffer that an operation within its budget holds takes the protocol's step, or panics exactly when that is too big |
| `LogRefinement.Get` | kernel/bio.c:91-103 | bread() by an operation or a reader takes the protocol's step of holding one buffer more, just if nobody used it before; it panics only if no buffer is free |
| `LogRefinement.Put` | kernel/bio.c:116-137 | brelse() takes the step of holding one less, just if nobody uses the buffer afterwards |
| `LogRefinement.End` | kernel/log.c:144-203 | end_op() with its commit(), while others hold buffers, is a run of the protocol, one step for each block written; it panics just if the protocol has no buffer for commit(), and then the protocol is stuck |
| `LogRefinement.FileWriteFits` | kernel/file.c:148-175 | a transaction of filewrite(), at any moment of any run with more than LOGSIZE log blocks, can issue its next log_write() |
| `BlockMap.AllocateKeeps` | kernel/fs.c:66-88 | the block balloc() chooses is nobody's, and taking it keeps all addresses distinct, in the data region and marked |
| `BlockMap.SetKeeps` | kernel/fs.c:382-421 | putting a fresh block into an empty slot, of the inode or of its indirect block, keeps block ownership |
| `BlockMap.UnmarkKeeps` | kernel/fs.c:91-105 | freeing a block that nobody owns keeps block ownership |
| `BlockMap.MapKeepsBytes` | kernel/fs.c:382-421 | bmap() changes no byte of any file |
| `BlockMap.StoreBytes` | kernel/fs.c:516-528 | storing into a file's block changes that block of that file and no byte of any other file |
| `Truncate.ClearKeeps` | kernel/fs.c:432-449 | clearing a slot, and with the indirect one all its entries, keeps block ownership and leaves what stood there to nobody |
| `Truncate.TruncBits` | kernel/fs.c:425-453 | the bits cleared by the two loops are exactly those of the file's blocks |
| `FileSystem.InodeRoundTrip` | kernel/fs.c:225-240 | an inode stored by iupdate() is read back, and the other inodes of its block are unchanged |
| `FileSystem.FileSys.Balloc` | kernel/fs.c:63-88 | the lowest-numbered free block, marked and zeroed, or 0 just if all are in use |
| `FileSystem.FileSys.Bfree` | kernel/fs.c:90-105 | the block's bit and no other is cleared; false exactly for the panic |
| `FileSystem.FileSys.Bmap` | kernel/fs.c:379-421 | the block's address, unchanged if mapped, otherwise fresh; 0 just if the disk is full; ownership, all files' bytes and a bound on what is logged |
| `FileSystem.FileSys.Iupdate` | kernel/fs.c:221-240 | the disk's inode is the in-memory one |
| `FileSystem.FileSys.Writei` | kernel/fs.c:498-539 | the file is its old contents with the first r bytes of the source over them at off, short only on a full disk; other files are unchanged, files stay hole-free, and the logged blocks are bounded |
| `FileSystem.FileSys.Readi` | kernel/fs.c:467-496 | exactly the bytes of the file in the range, as far as it has them, and no block is allocated |
| `FileSystem.FileSys.WriteThenRead` | kernel/fs.c:467-539 | reading any range of any file after a write: the written range gives what was written, and every other range and file what it gave before |
| `FileSystem.FileSys.WriteTransaction` | kernel/file.c:148-175 | one transaction of filewrite() logs at most MAXOPBLOCKS blocks, for any size of the free map, and fewer before its last log_write(); it changes no block but those, and the inodes on disk stay in step with those in memory |
| `FileSystem.WholeCost` | kernel/fs.c:516-528 | the blocks that one writei() logs before the inode's: data, free map and indirect blocks, where the first block of an unaligned write is already mapped |
| `FileSystem.FileSys.FileWrite` | kernel/file.c:148-175 | splitting into transactions writes the same bytes as one write; the offset moves by the bytes that arrived; n or -1 |
| `FileSystem.FileSys.Itrunc` | kernel/fs.c:423-453 | exactly the file's blocks become free, bfree() never panics, other files keep their contents, only logged blocks change, and the inodes on disk stay in step |
| `Recovery.FilesAtHome` | kernel/log.c:54-65 | a disk that holds a file system holds the same files whatever stands in its log region |
| `Recovery.FilesSurvive` | kernel/log.c:54-203 | over any sequence of transactions, with a crash after any write of any commit() and in recovery as often as wanted, the disk decodes to a file system in order, with exactly the files of the last transaction whose header reached it |
| `Recovery.FilesAfterAnyRun` | kernel/log.c:126-235 | after a crash in any state of any interleaving the files are those of the replay of the surviving log_write()s, if that is a file system in order |
| `Recovery.WriteFile` | kernel/file.c:148-175 | what a transaction of filewrite() has logged can be committed and takes a file system in order to one in order, in which the one file has the bytes written over it and all others are the same |
| `Recovery.TruncateFile` | kernel/fs.c:423-453 | what itrunc() has logged takes a file system in order to one in order, in which the one file is empty and all others are the same |
| `Sv39.EntryRoundTrip` | kernel/riscv.h:341-354 | an entry's 64-bit word determines its frame and flags |
| `Sv39.EntryFields` | kernel/riscv.h:349-354 | PTE2PA of the word is the frame's address and PTE_FLAGS its flags |
| `Sv39.PxInjective` | kernel/riscv.h:356-365 | distinct pages below MAXVA differ in one of the three indices |
| `PageTable.SetLeaf` | kernel/vm.c:85-103 | storing an entry through walk() changes the flat map at that page of that address space and nowhere else |
| `PageTable.AddTable` | kernel/vm.c:91-101 | linking in a zeroed table keeps all trees well formed and changes no address space |
| `FrameCount.WalkMade` | kernel/vm.c:85-103 | walk() with alloc makes exactly the tables of its page that were missing |
| `FrameCount.TreeFrames` | kernel/vm.c:85-103 | growing a tree that was built from nothing from n to m pages takes m - n frames for pages, and tables by a closed form |
| `TearDown.EmptyIsBare` | kernel/vm.c:271-287 | a tree whose flat map is empty has no leaf entries, so freewalk() does not panic on it |
| `TearDown.TornWf` | kernel/vm.c:271-297 | freeing one address space's tables leaves all others well formed and unchanged |
| `VirtualMemory.Memory.FreeRange` | kernel/kalloc.c:33-40 | exactly the pages of the range become free, each once in the free list |
| `VirtualMemory.Memory.Kalloc` | kernel/kalloc.c:65-82 | the first free page, filled with 5, or none just if there is none |
| `VirtualMemory.Memory.Kfree` | kernel/kalloc.c:42-63 | the page becomes the first of the free list, filled with 1 |
| `VirtualMemory.Memory.Walk` | kernel/vm.c:85-103 | the lowest table for the page; no address space changes; with alloc exactly the missing tables are made, and it fails just if there are fewer free frames than these |
| `VirtualMemory.Memory.MapPages` | kernel/vm.c:142-165 | exactly the pages of the range map to consecutive frames with the flags; or, just if there are fewer free frames than tables to make, a prefix of them |
| `VirtualMemory.Memory.UvmUnmap` | kernel/vm.c:167-192 | exactly the pages become unmapped, and with do_free exactly their frames become free |
| `VirtualMemory.Memory.FreeWalk` | kernel/vm.c:269-287 | exactly the tables of the subtree become free, and the panic is unreachable |
| `VirtualMemory.Memory.UvmFree` | kernel/vm.c:289-297 | exactly the frames of the address space become free and no other address space changes |
| `VirtualMemory.Memory.UvmCreate` | kernel/vm.c:194-205 | an empty address space, or none just if memory is out |
| `VirtualMemory.Memory.UvmAlloc` | kernel/vm.c:223-249 | user memory is [0, PGROUNDUP(newsz)) with zeroed new pages in frames of their own; or the old memory again, just if there are fewer free frames than new pages and missing tables |
| `VirtualMemory.Memory.UvmDealloc` | kernel/vm.c:251-267 | user memory is [0, PGROUNDUP(newsz)) and exactly the other pages' frames are free |
| `VirtualMemory.Memory.UvmCopy` | kernel/vm.c:299-333 | the child's pages have the parent's bytes and flags in frames of their own; or the child has none, just if there are fewer free frames than pages and missing tables |
| `VirtualMemory.Memory.UvmClear` | kernel/vm.c:335-346 | the page loses PTE_U and nothing else changes |
| `VirtualMemory.PagesFit` | kernel/vm.c:226-249 | an address space has no more own pages than there are frames |
| `UserCopy.CopyOut` | kernel/vm.c:348-371 | succeeds just if the whole range is open to the user; the bytes are there and no other byte or frame changed; on failure the pages before the first closed one are written |
| `UserCopy.CopyIn` | kernel/vm.c:373-396 | succeeds just if the whole range is open to the user, and yields its bytes |
| `UserCopy.CopyInStr` | kernel/vm.c:398-439 | succeeds just if a NUL comes within max bytes before any closed page, and yields the string with it |
| `UserCopy.WriteThenRead` | kernel/vm.c:351-396 | copyin of a range after copyout to it gives what was copied out |
| `PageAccess.PgAccess` | kernel/proc.c:719-733 | bit i of the mask is set just if page i is mapped and accessed; exactly these accessed bits are cleared |
| `PageAccess.RepeatIsZero` | kernel/proc.c:719-733 | asking again before new accesses gives 0 |
| `AddressSpace.ProcPagetable` | kernel/proc.c:191-234 | an address space with the three fixed pages and no user memory, from three frames; or, just if there are fewer than three, every frame has its use of before |
| `AddressSpace.FixedNeed` | kernel/proc.c:205-231 | the three fixed pages share their tables, so mapping all of them takes no more than mapping one |
| `AddressSpace.ProcFreePagetable` | kernel/proc.c:236-249 | exactly the frames of the address space become free, and uvmunmap() and freewalk() do not panic |
| `AddressSpace.FreedIsBefore` | kernel/proc.c:199-234 | freeing what was built since brings back every frame's use of before |
| `ProcMemory.InvStep` | kernel/proc.c:109-249 | a change of one process's frames and slot keeps the whole table in order if that slot is right afterwards |
| `ProcMemory.MarksKeep` | kernel/riscv.h:341-354 | changing the accessed, dirty and unused bits of any valid entries keeps the whole table in order, every address space's own pages, and where each user address leads |
| `ProcMemory.OneOwner` | kernel/proc.c:109-249 | every frame is free, the kernel's, or owned by exactly one process in the table |
| `ProcMemory.SpaceUserOk` | kernel/proc.c:191-234 | in a process's address space the pages open to the user are its own memory and the USYSCALL page, in frames of memory that no two of them share |
| `ProcMemory.PidAfterWrite` | kernel/vm.c:348-371 | after a copyout the USYSCALL page still holds the pid just if each byte put over the pid is that byte of it |
| `ProcMemory.PidOverwritten` | kernel/vm.c:108-126 | the USYSCALL page is open to copyout, and four other bytes written there replace the pid |
| `ProcMemory.IntReach` | kernel/vm.c:348-371 | four bytes copied out reach the pid just from addresses on the USYSCALL page, because the page below is never mapped |
| `Process.ProcTable.constructor` | kernel/proc.c:45-58 | an empty table in which no frame is part of an address space |
| `Process.ProcTable.AllocProc` | kernel/proc.c:105-157 | the first unused slot with the next pid, its own frames, an address space without user memory and the pid in the USYSCALL page; or, just if there is no slot or fewer than five free frames, nothing has changed but the next pid |
| `Process.ProcTable.FreeProc` | kernel/proc.c:159-189 | exactly the frames of the process become free, also of a half-built one, and the slot is blank |
| `Process.ProcTable.UserInit` | kernel/proc.c:264-288 | the first process has one page with the program and starts at its beginning, as a process that can fork and exec |
| `Process.ProcTable.GrowProc` | kernel/proc.c:290-308 | the size and user memory change by n with old pages kept and new ones zero; or stay as they were, just if there are fewer free frames than new pages and missing tables |
| `Process.ProcTable.Fork` | kernel/proc.c:310-359 | the child has the parent's memory in its own frames, its registers but a0, and a fresh pid, and the parent is unchanged; or no frame and no slot has changed, just if there is no slot or fewer free frames than a closed form of the parent's size |
| `Process.ProcTable.Exit` | kernel/proc.c:361-419 | the children go to init and the process becomes a zombie that keeps its memory |
| `Process.ProcTable.StoreInt` | kernel/proc.c:444-445 | the number is copied out and no other byte changes; other processes' pids are kept, and this one's just if the address is below the USYSCALL page or the bytes agree |
| `Process.ProcTable.Access` | kernel/riscv.h:341-347 | the hardware sets an accessed or dirty bit: the table stays in order and no other page is touched |
| `Process.ProcTable.Pgaccess` | kernel/proc.c:719-733 | the mask of accessed pages, whose bits are cleared, is copied out; the table stays in order, no other byte changes, and of the pids only the caller's own can be lost, just to a mask stored over it |
| `Process.ProcTable.Wait` | kernel/proc.c:421-463 | the first zombie child is reaped after its status is stored, and exactly its frames become free; otherwise nothing is reaped. Nothing else changes of the caller's memory or of other processes, and only the caller's pid can be lost, just to a status stored over it |
| `Exec.LoadSeg` | kernel/exec.c:145-168 | the segment's bytes are at its pages; fails just if the file is too short; its panic is unreachable |
| `Exec.LoadOne` | kernel/exec.c:53-70 | after the header the image holds what the segments so far say; it fails just if the segment is not acceptable or there are too few free frames for it |
| `Exec.LoadProgram` | kernel/exec.c:52-70 | all of memory below the size holds the last segment's byte at each address, and zero elsewhere; it fails just if a segment is not acceptable or there are too few free frames for all |
| `Exec.MakeStack` | kernel/exec.c:78-88 | a guard page closed to the user and an open stack page above the image; it fails just if there are too few free frames |
| `Exec.PushArgs` | kernel/exec.c:90-110 | the arguments are on the stack, apart from each other, and at sp is the array of their addresses; sp is aligned and inside the stack page; it fails just if strings and array do not fit |
| `Exec.WordsAt` | kernel/exec.c:104-110 | each element of the stored array is its address |
| `Exec.Run` | kernel/exec.c:22-143 | the process has the new image, stack and registers, the old memory is free and nothing of other processes has changed; or no frame and no slot has changed, just if the header is bad, a segment is not acceptable, the arguments do not fit, or there are fewer free frames than a closed form of the image's size |
| `ExitWait.StepInv` | kernel/proc.c:310-613 | every step of fork, also a failing one, exit, wait, sleep, wakeup, kill and the scheduler keeps the protocol's invariant |
| `ExitWait.ParentAwake` | kernel/proc.c:406-414 | when a process becomes a zombie its parent is not asleep in wait() |
| `ExitWait.NoLostWakeup` | kernel/proc.c:363-468 | in every run, when wait_lock is free no process asleep in wait() has a zombie child |
| `ExitWait.ParentsAlive` | kernel/proc.c:363-419 | in every run each recorded parent is a live process and no zombie |
| `ExitWait.ReapedOnce` | kernel/proc.c:423-468 | in every run no exit is reported twice and each is reported or still a zombie |
| `ExitWait.GiveUpDeserved` | kernel/proc.c:459-463 | in every run wait() fails only without children or when killed |
| `ExitWait.SleepHappens` | kernel/proc.c:423-468 | a run in which init forks a child and sleeps in wait(), so that the statements above are about states that occur |
| `ProcRefinement.Boot` | kernel/proc.c:264-288 | after userinit() on an empty table the table is where the protocol's runs start |
| `ProcRefinement.ForkCall` | kernel/proc.c:310-359 | fork() is a run of the protocol that makes one child, or, when it fails, one that uses up a pid at most |
| `ProcRefinement.ExitCall` | kernel/proc.c:361-419 | exit() is a run of the protocol, through reparent() and the calls of wakeup(), that ends a process that had not exited before |
| `ProcRefinement.WaitCall` | kernel/proc.c:421-468 | a pass of wait() is a run of the protocol: what it reaps has exited and was never reaped before, and exactly its frames become free; otherwise the process gives up, or sleeps as the protocol's process does |
| `ProcRefinement.SchedulingAgrees` | kernel/proc.c:470-613 | scheduling, sleeping elsewhere, waking and killing, between such calls, keep table and protocol in agreement |
| `Virtio.AtMostTwo` | kernel/virtio_disk.c:199-213 | the used descriptors are at most two chains of three |
| `Virtio.Descriptors.AllocDesc` | kernel/virtio_disk.c:155-166 | the lowest free descriptor, or -1 just if none is free |
| `Virtio.Descriptors.FreeChain` | kernel/virtio_disk.c:168-197 | exactly the three descriptors of the chain become free, and free_desc() does not panic |
| `Virtio.Descriptors.Alloc3Desc` | kernel/virtio_disk.c:199-213 | three distinct free descriptors, just if there are three; otherwise nothing has changed |
| `Virtio.RingPush` | kernel/virtio_disk.c:271-277 | the next entry of a ring overwrites no entry that is still in it |
| `Virtio.Close` | kernel/virtio_disk.c:312-324 | equal 16-bit indices mean equal counts, across wrap-around |
| `Virtio.Driver.Submit` | kernel/virtio_disk.c:215-281 | the request is described by its own chain and posted once, or it waits with nothing changed |
| `Virtio.Driver.DeviceTake` | kernel/virtio_disk.c:271-281 | the device takes a request that was posted and not yet taken |
| `Virtio.Driver.DeviceComplete` | kernel/virtio_disk.c:235-265 | following the chain, the device transfers between the request's block and its buffer, and posts the head in the used ring |
| `Virtio.Driver.IntrTurn` | kernel/virtio_disk.c:312-324 | the request in the used ring is done, its status is 0, and its buffer and no other is no longer busy |
| `Virtio.Driver.Intr` | kernel/virtio_disk.c:294-327 | all completed requests are reported |
| `Virtio.Driver.Finish` | kernel/virtio_disk.c:283-292 | when the buffer is not busy its own transfer has taken place since the request, with the data it holds; exactly its chain becomes free |
| `Umalloc.Allocator.Free` | user/umalloc.c:24-44 | the block joins the address-ordered ring merged with touching neighbours; other live blocks and the memory obtained are unchanged |
| `Umalloc.Allocator.FindPlace` | user/umalloc.c:30-32 | the search ends, at the ring's predecessor of the block |
| `Umalloc.Allocator.MoreCore` | user/umalloc.c:46-61 | the new units join the ring, and the block at freep or after it has room |
| `Umalloc.Allocator.Malloc` | user/umalloc.c:63-90 | a block of the right size that was not live; other live blocks are unchanged; memory is asked for at most once and only if no free block is large enough, and it fails just if there is then none |
| `Umalloc.RingAfterFree` | user/umalloc.c:33-42 | with either, both or no merge the list is one ring in order of address |
| `Umalloc.CoalescedAfter` | user/umalloc.c:33-42 | no two free blocks touch afterwards |
| `Umalloc.Conserved` | user/umalloc.c:24-90 | free units plus live units are the units obtained from sbrk |
| `Pipe.PipeBuffer.constructor` | kernel/pipe.c:31-36 | an empty pipe with both ends open |
| `Pipe.PipeBuffer.Write` | kernel/pipe.c:76-103 | the bytes copied in are appended in order; it sleeps just if the ring is full, fails at the byte at which the reader is gone or a kill has arrived, also after others went through, and stops at a byte it cannot copy |
| `Pipe.PipeBuffer.Read` | kernel/pipe.c:105-130 | the next bytes of the pipe in order; a failed copy loses exactly one byte more; it sleeps just if the pipe is empty with a writer |
| `Pipe.CountersTell` | kernel/pipe.c:88-121 | comparing 32-bit counters tells an empty and a full ring across wrap-around |
| `Grep.Match` | user/grep.c:72-82 | true exactly when some part of the text is denoted by the pattern, with ^ and $ |
| `Grep.MatchHere` | user/grep.c:84-96 | true exactly when a prefix of the text, or with a final $ all of it, is denoted |
| `Grep.MatchStar` | user/grep.c:98-106 | true exactly when some number of fitting characters is followed by a match of the rest |
| `ShellGrammar.ReadLine` | user/sh.c:345-447 | parsing the tokens of any tree with at most nine arguments per command gives the tree |
| `ShellGrammar.MapLine` | user/sh.c:345-447 | parsing does not depend on what the words are |
| `ShellLex.RoundTrip` | user/sh.c:328-447 | every tree over legal words, written as text with parentheses where needed, is parsed back to the same tree with nothing left over |
| `Shell.GetToken` | user/sh.c:266-309 | the next token of the line and the position after it |
| `Shell.Peek` | user/sh.c:311-321 | whether the next token begins with one of the characters; no token is used up |
| `Shell.ParseRedirs` | user/sh.c:375-398 | what the grammar says, on every input |
| `Shell.ParseExec` | user/sh.c:416-447 | what the grammar says, on every input, including the limit on arguments |
| `Shell.ParseBlock` | user/sh.c:400-414 | what the grammar says, on every input after the parenthesis |
| `Shell.ParsePipe` | user/sh.c:362-373 | what the grammar says, on every input |
| `Shell.ParseLine` | user/sh.c:345-360 | what the grammar says, on every input |
| `Shell.NulTerminate` | user/sh.c:449-494 | a NUL at the end of each word of the tree and no other change of the buffer |
| `Shell.WordsRead` | user/sh.c:449-494 | each argument and file name then reads as exactly its token |
| `Shell.ParseCmd` | user/sh.c:328-343 | the grammar's tree with its words as strings, or a panic just if the line is not one command line |

## Left out

- Assembly, traps, the scheduler's context switch, interrupts, UART, console, PLIC and printf: hardware and formatting.
- Spinlocks and sleep-locks as data structures, and memory fences: code under a lock is one step.
- Directories, path names, file descriptors, inode reference counts and link counts, and system calls other than those named above: outside the scope of this model.
- mkfs, beyond the layout it promises: its image is an assumed initial state, with hole-free files.
- A copy from user memory that fails in the middle of writei(), and one that fails in readi(): these paths are excluded.
- The kernel's own page table: only the memory that kalloc() hands out is modelled.
- The file descriptors and working directory in fork(), exit() and exec(), process names, and the contents of the old trapframe in exec().
- Liveness: that a sleeping process is woken again in the end is not stated for pipes, the log or the disk.
- grep's line buffer and the shell's runcmd().
- BufferCache.Cache.BRead: all blocks are of one device, because virtio_disk_rw() ignores the device number; the wait for a buffer that another process has locked is not modelled.
- BufferCache.Cache.BRelse: the client has logged or written what it changed, which is what the callers do.
- BufferCache.Cache.CopyToLog: other processes may use buffers meanwhile, but not those of the two blocks, for which bread() would wait.
- BufferCache.Cache.Install: other processes may use buffers meanwhile, but not those of the two blocks.
- Log.LogLayer.WriteLog: other processes may use buffers meanwhile, but the same ones throughout, and none of a block of the log or the transaction, for which it would wait. That the others change from step to step is in GroupCommit.
- Log.LogLayer.WriteHead: other processes may use buffers meanwhile, but the same ones throughout, and none of a block of the log or the transaction, for which it would wait; it follows write_log() or comes first after a boot, so there is a buffer.
- Log.LogLayer.InstallTrans: other processes may use buffers meanwhile, but the same ones throughout, and none of a block of the log or the transaction, for which it would wait; without recovering it follows write_log(), which has found a buffer.
- Log.LogLayer.Commit: other processes may use buffers meanwhile, but the same ones throughout, and none of a block of the log or the transaction, for which it would wait.
- Log.LogLayer.EndOp: other processes may use buffers meanwhile, but the same ones throughout, and none of a block of the log or the transaction, for which it would wait, while the last operation commits.
- LogRefinement.End: other processes may use buffers meanwhile, but the same ones throughout, and none of a block of the log or the transaction, for which it would wait, while the last operation commits.
- LogRefinement.Get: the wait for a buffer that another process has locked is not modelled, and no commit is under way.
- Log.LogLayer.BeginOp: its contract follows its few lines; what it achieves is stated by LogRefinement.Begin and GroupCommit.ReachableInv.
- Virtio.Descriptors.FreeDesc: its contract follows its few lines; what it achieves is stated by Virtio.Descriptors.FreeChain and Virtio.Descriptors.Alloc3Desc.
- Pipe.PipeBuffer.Close: its contract follows its few lines; what a closed end means is stated by Pipe.PipeBuffer.Write and Pipe.PipeBuffer.Read.
- FileSystem.FileSys.Writei: the source can be read, and all files are hole-free beforehand.
- Recovery.FilesAfterAnyRun: that the replay is a file system in order is shown for transactions of one operation, by Recovery.WriteFile and Recovery.TruncateFile; operations that share a transaction and interleave would need the inode locks.
- Recovery.TruncateFile: the number of blocks that itrunc() logs is not bounded by MAXOPBLOCKS, because it depends on the size of the free map.
- FileSystem.FileSys.Readi: the destination can be written.
- FileSystem.FileSys.FileWrite: begin_op() and end_op() are the start and end of a set of logged blocks; file types other than inodes are not modelled.
- VirtualMemory.Memory.UvmAlloc: there are fewer frames than pages below USYSCALL, as there are with 128 megabytes of memory.
- VirtualMemory.Memory.UvmUnmap: the pages are mapped, when frames are freed they are the address space's own, and otherwise the pages are among the fixed ones; all of this holds in all calls.
- UserCopy.CopyOut: the pages open to the user lie in memory and share no frames, as in every process's address space.
- UserCopy.CopyIn: the pages open to the user lie in memory and share no frames, as in every process's address space.
- UserCopy.CopyInStr: the pages open to the user lie in memory and share no frames, as in every process's address space.
- PageAccess.PgAccess: for at most 32 pages in a range below MAXVA; beyond 32 the mask has no bits. The copyout of the mask is in Process.ProcTable.Pgaccess.
- Process.ProcTable.Pgaccess: for at most 32 pages in a range below MAXVA.
- Process.ProcTable.UserInit: eight free frames and an unused slot are there, which the source takes for granted; the name and working directory are not modelled.
- Process.ProcTable.Fork: pids are unbounded numbers, of which the USYSCALL page holds 32 bits.
- Process.ProcTable.Wait: one pass over the table; sleeping and waking are in ExitWait and ProcRefinement.WaitCall.
- ProcRefinement.ForkCall: a call that finds the processes' locks and wait_lock free. Calls that interleave are steps of ExitWait only; this goes for ProcRefinement.ExitCall and ProcRefinement.WaitCall too.
- Exec.Run: the file's headers and contents are given as the values that readi() returns; at most 31 arguments of less than a page, as sys_exec() passes them. The registers are stored after the old address space is freed, which no one can observe.
- ExitWait.StepInv: a process outside these calls may do anything that does not touch the protocol's fields.
- Virtio.Driver.Submit: no other request uses the buffer, because the caller holds its sleep-lock.
- Virtio.Driver.DeviceComplete: the device succeeds; a failing one makes the driver panic.
- Umalloc.Allocator.Malloc: requests that sbrk()'s argument, a positive int, can express, and sbrk() returns memory above all it returned before, aligned to a header.
- Umalloc.Allocator.Free: the argument is a live block.
- Shell.ParseExec: the execcmd node that the source fills while redirections already point to it is rebuilt as a value.
- Virtio.Descriptors.Alloc3Desc: the arrays of struct disk are sequences that the methods reassign, as are page tables and the process table.

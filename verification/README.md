# Verified models of xv6 and its lab programs

This project models the parts of an xv6 course repository whose correctness is hardest
to see from the code, and proves what they are for. Each component has a specification
over plain values, theorems about every run or every input of that specification, and,
where the source updates state in place, a class whose methods are proved to compute
exactly what the specification says.

| files | component |
|---|---|
| `Basics`, `Blocks`, `Options` | sizes of sets and lists; disk blocks as bytes, words and bits; values that may be missing |
| `Log`, `LogAdmission`, `LogManager` | the redo log: crash atomicity, admission control, the code |
| `BufferCache`, `BufferHolders`, `BufferPins`, `BufferRing` | the block cache: transparency and recycling, who uses the buffers, running out of them, the linked ring |
| `FsLayout`, `FsTree`, `FsWrite`, `FsNeed`, `FsTrunc`, `Fs`, `FsCrash`, `FsHistory` | free map, inodes, `readi`, `writei`, `itrunc`, `filewrite`; the file system on the log across a crash, and over whole histories |
| `Ide` | the interrupt-driven disk driver and the synchronous disk it refines |
| `PageTables`, `VmSpec`, `VmCost`, `Vm` | frame allocator, two-level page tables, user address spaces |
| `FreeList`, `Umalloc` | the K&R allocator |
| `Processes`, `ProcessTable` | fork, exit, wait, sleep, wakeup, kill |
| `Pipe` | pipes (module `Pipes`) |
| `Shell`, `ShellGrammar`, `ShellParser` | the shell's parser: round trip, the grammar it decides, the code |
| `Regex` | grep's matcher |
| `Paging`, `PagingSim` | the FIFO/LRU paging simulator |
| `Uthread` | round-robin user threads |

`dafny verify dfyconfig.toml` verifies all of it. Some reading notes.

- A panic is an outcome of the model, not an assumption about callers. Where a panic is
  unreachable this is proved; where it is reachable the exact condition is given.
- A critical section is one atomic step, a held sleep lock is exclusive use of a buffer or
  inode. Concurrency is any interleaving of such steps.
- A disk writes single blocks atomically; a crash may come between any two block writes.
- Disk blocks, bitmaps, log headers and inodes are modelled down to their bytes. Page
  tables are modelled as entries (frame, writable, user) and addresses in pages.
- Machine integers are unbounded except where the width matters: the pipe's 32-bit
  counters, `malloc`'s rounding and byte counts, `growproc`'s signed amounts, and the
  overflow guards of `readi` and `writei`.

Properties one might expect that are not true of the code, with what is true instead:

- The log made by `mkfs` has `LOGSIZE` blocks including its header, so the documented
  budget of `MAXOPBLOCKS` blocks per call can drive `log_write` into its panic; the exact
  bound is `LogAdmission.ExactAdmission`. `log_write` makes its test before it takes the
  lock, so two calls can pass it with one place left and the list outgrow the log; it never
  does exactly within the bound of `LogAdmission.FitsExactly`.
- A killed writer can fill a pipe and return without waking a sleeping reader. The
  sleepers' invariant is kept by exactly the other steps (`Pipes.StepKeeps`).
- A failed `growproc` leaves the address space as it was, unless it was asked to give up
  the whole process: it then reports failure with the pages gone and the size unchanged
  (`Vm.Machine.Growproc`, and a run that does so in `Vm.FailsAndShrinks`).
- `malloc` of a size within seven bytes of 2^32 wraps and returns too small a block, and
  one of 2^31-15 bytes or more that fits no free block asks `sbrk` for nothing or less and
  returns a block with no memory behind it, or null with all memory gone. The exact condition is in `Umalloc.Heap.Malloc`,
  failing sizes in `Umalloc.FailingRequests`.
- A new process can start killed: `kill(0)`, or a kill of a failed fork's pid, marks a slot
  no process uses, and nothing clears the mark when the slot is taken
  (`Processes.StepMarks`, `Processes.KillZero`).
- The LRU simulator can evict a page other than the least recently used. Once memory is
  full its evictions are right for good exactly if the stamps then rank the frames by last
  access (`Paging.LruFullExact`); they do after every run in which no free frame is loaded
  after two hits or more since the load before, and a run with such a load can go on to a
  wrong eviction (`Paging.LruExact`, `Paging.LruRun`, `Paging.LruRunWrong`).
- Threads other than the current one can be marked as running: main is, from its first
  call of `thread_schedule` on (`Uthread.MainStaysMarked`). What is kept is
  `Uthread.StepKeepsMarks`.
- A user thread that is alone in yielding hands over to main and is not found again; the
  comment in `thread_init` that main never runs again no longer holds
  (`Uthread.SoleYielder`, `Uthread.Starves`).
- A command does not come back from the shell's parser if it appends: `>>` opens its file as
  `>` does. `Shell.RoundTrip` is the exact statement.

## Model

| member | source | states |
|---|---|---|
| Blocks.WordRoundTrip | xv6/log.c:86-113 | a 32-bit word stored into a block reads back, and every other word of the block is unchanged |
| Blocks.BitRoundTrip | xv6/fs.c:57-95 | setting or clearing one bit of a bitmap block changes that bit and no other |
| Log.HeadRoundTrip | xv6/log.c:86-113 | the log header read from disk is the one written, whatever the block held before |
| Log.CrashBeforeHead | xv6/log.c:178-190 | a crash during write_log leaves all home blocks and the old header |
| Log.CrashInInstall | xv6/log.c:70-82 | a crash during install_trans leaves the transaction committed and partly installed: each of its blocks has its old or its new contents, all others are as they were |
| Log.CommitPoint | xv6/log.c:193-202 | after the first write_head the transaction is committed and the rest of commit is exactly what recovery would write |
| Log.CrashInRecovery | xv6/log.c:116-122 | a crash inside recovery leaves the transaction committed, or recovery complete |
| Log.RecoverCommitted | xv6/log.c:116-122 | recovery of a committed transaction through any number of crashes installs all of it and empties the header |
| Log.RecoverIdle | xv6/log.c:116-122 | recovery with an empty header, through any number of crashes, changes no home block |
| Log.CommitCrashStates | xv6/log.c:193-202 | the state after any number of commit's writes: untouched, committed and partly installed, or done |
| Log.CommitComplete | xv6/log.c:193-202 | a complete commit puts each logged block home, changes no other home block and empties the header |
| Log.CrashAtomicity | xv6/log.c:69-202 | for every crash point of commit and any crashes during recovery, the home blocks end up exactly before or exactly after the transaction, and after it exactly when the header write reached disk |
| Log.EpochIsAtomic | xv6/log.c:69-202 | one commit-crash-recover epoch keeps or loses its transaction whole |
| Log.HistoryIsSerial | xv6/log.c:69-202 | any history of commits, crashes and recoveries equals running the surviving transactions whole and in order |
| Log.WritesPastLog | xv6/log.c:178-190 | a list as long as the log makes write_log write a block outside the log |
| LogAdmission.StepKeepsInv | xv6/log.c:126-233 | each step of begin_op, log_write's unlocked test, its locked append, end_op and commit keeps: committing implies no call outstanding, logged blocks distinct, log plus unspent reservations within LOGSIZE; only the test can panic, and only as too big |
| LogAdmission.RunKeepsInv | xv6/log.c:126-233 | over every interleaving, with calls between another's test and append, the invariant holds, the list is within LOGSIZE and within 10+2m, the committing and outside-of-trans panics are unreachable, and too-big needs 10+2m at or above the guard |
| LogAdmission.PanicRun | xv6/log.c:213-233 | whenever the bound fails there is an interleaving of allowed calls that reaches the panic |
| LogAdmission.ExactAdmission | xv6/log.c:126-233 | calls logging at most m blocks never reach the panic if and only if MAXOPBLOCKS+2m is below both LOGSIZE and log.size-1 |
| LogAdmission.OverRun | xv6/log.c:213-233 | a run in which two calls pass the test with one place left and both append: the list is as long as the whole log |
| LogAdmission.FitsExactly | xv6/log.c:126-233 | in every run the list fits the log behind its header if and only if MAXOPBLOCKS+2m is at most log.size-1, or the log is a header alone |
| LogAdmission.ShippedLog | xv6/mkfs.c:25 | with the log mkfs makes, ten blocks per call can panic and can outgrow the log, nine can do neither |
| LogManager.Manager.WriteLog | xv6/log.c:178-190 | issues exactly the log-body writes of the specification, in order |
| LogManager.Manager.WriteHead | xv6/log.c:102-113 | one write: the encoded header |
| LogManager.Manager.InstallTrans | xv6/log.c:70-82 | issues exactly the install writes of what the log body holds, and unpins the blocks |
| LogManager.Manager.ReadHead | xv6/log.c:86-96 | the in-memory header becomes the decoded one |
| LogManager.Manager.RecoverFromLog | xv6/log.c:116-122 | issues exactly the specified recovery writes, so leaves the disk the crash theorems speak of |
| LogManager.Manager.CommitPhases | xv6/log.c:193-202 | the four phases issue exactly the specified commit writes |
| LogManager.Manager.Commit | xv6/log.c:193-202 | commit issues exactly the specified writes, keeps the invariant, and no reader of the cache sees a difference |
| LogManager.Manager.LogTest | xv6/log.c:214-221 | panics exactly for a full log or outside a transaction, as the admission model's test does |
| LogManager.Manager.LogAppend | xv6/log.c:223-232 | the admission model's append, absorbing repeats and pinning the block; the log stays valid exactly if the block was listed or there is still room under the lock |
| LogManager.Manager.LogWrite | xv6/log.c:214-233 | the two with no other call between them: panics exactly for a full log or outside a transaction, otherwise takes both steps and keeps the log valid |
| LogManager.Manager.BeginOp | xv6/log.c:126-141 | one turn of the loop is the admission model's step; the call is admitted exactly when it need not wait |
| LogManager.Manager.EndOp | xv6/log.c:146-163 | the admission model's step; a commit is due exactly when committing was set |
| LogManager.Manager.FinishCommit | xv6/log.c:165-173 | commits, lets waiting calls in, and changes what no block reads as |
| BufferCache.InitInv | xv6/bio.c:39-56 | the cache as binit leaves it satisfies the invariant |
| BufferCache.StepRefines | xv6/bio.c:61-141 | each step keeps one buffer per block and refines a plain table of blocks; a read delivers the table's block; only a write-back changes the disk, to that block; bget fails only when every buffer is in use |
| BufferCache.RecycleKeepsInv | xv6/bio.c:79-92 | recycling an unused buffer keeps the invariant and what every block reads as |
| BufferCache.ReleaseKeepsInv | xv6/bio.c:121-141 | brelse keeps the invariant and what every block reads as |
| BufferCache.RunRefines | xv6/bio.c:61-141 | every run refines the plain table's run |
| BufferCache.CacheTransparent | xv6/bio.c:61-141 | whatever the interleaving and recycling, a block of a real device reads as the last value stored into it |
| BufferCache.RecyclesLeastRecent | xv6/bio.c:79-92 | the buffer recycled was released longest ago among those neither referenced nor pinned |
| BufferCache.EnoughBuffers | xv6/bio.c:79-92 | bget finds no buffer exactly when all of them are busy |
| BufferHolders.CallKeepsTied | xv6/bio.c:60-141 | every call a process may make by what it did before, not by the cache's flags, keeps the flags right: refcnt the gets not released, the lock, validity for the lock holder, B_DIRTY what the log has, the stamp of the last user's release |
| BufferHolders.OnlyGetsFail | xv6/bio.c:60-141 | in every run of such calls from binit nobody finds its buffer gone or its reference lost: the run stops only at a get for which no buffer is unused |
| BufferHolders.RefcntCounts | xv6/bio.c:60-141 | over every such run a block's refcnt is its gets less its releases, and a block with a get outstanding is in its buffer and not the one to be recycled |
| BufferHolders.LoggedIsPinned | xv6/log.c:214-233 | B_DIRTY is set exactly from a log_write of the block to its next bwrite, and keeps the block from being recycled |
| BufferHolders.HoldersSee | xv6/bio.c:96-106 | a process that has locked and read a block has in its buffer what was last stored into the block by whatever process |
| BufferHolders.RecyclesLongestIdle | xv6/bio.c:79-92 | the buffer recycled was never used, or is the one whose last user let go of it longest ago among those nobody uses and the log does not have |
| BufferPins.NoBuffers | xv6/bio.c:60-95 | with NBUF buffers, pinned ones only for blocks of the log's list: the panic comes exactly for an uncached block when pinned and referenced buffers make up the cache, and then at least NBUF less the log's entries, so at least one, are referenced without being pinned |
| BufferPins.PinsFewer | xv6/log.c:214-233 | there are never more pinned buffers than entries in the log |
| BufferPins.NoBuffersReached | xv6/bio.c:60-95 | for every number of pinned buffers there is a run of allowed steps to the panic with the rest of the cache in use |
| BufferRing.Unlink | xv6/bio.c:132-133 | unlinking in place leaves the ring without that node, all others in order |
| BufferRing.InsertFront | xv6/bio.c:134-137 | linking in place puts the node right behind the head |
| BufferRing.Relink | xv6/bio.c:130-138 | the node moves to the front and the others keep their order |
| BufferRing.Bcache.constructor | xv6/bio.c:39-56 | binit builds the ring of blank buffers the specification starts from |
| BufferRing.Bcache.FindCached | xv6/bio.c:67-75 | the forward walk finds the block's buffer if it is cached |
| BufferRing.Bcache.FindUnused | xv6/bio.c:79-91 | the backward walk finds the specification's victim |
| BufferRing.Bcache.Bget | xv6/bio.c:62-93 | takes the specification's step, failing exactly when it does |
| BufferRing.Bcache.Fill | xv6/bio.c:97-106 | bread's disk read, only for a buffer that is not valid |
| BufferRing.Bcache.Bwrite | xv6/bio.c:110-116 | panics exactly if the lock is not held; otherwise the contents are on disk |
| BufferRing.Bcache.Brelse | xv6/bio.c:121-141 | panics exactly if the lock is not held; otherwise the release step, for which BufferHolders.RefcntCounts counts references |
| FsLayout.MarkBits | xv6/fs.c:57-95 | marking a block changes that block's bit and no other, across bitmap blocks |
| FsLayout.AllocatedBits | xv6/fs.c:57-78 | allocation sets exactly the block's own bit |
| FsTree.InodeRoundTrip | xv6/fs.c:220-236 | iupdate followed by ilock gives the inode back and leaves the inodes beside it alone |
| FsTree.NoSharing | xv6/fs.c:372-400 | no block number occurs in two slots of one or two inodes |
| FsTree.AllocKeepsTree | xv6/fs.c:372-400 | storing a freshly allocated block number keeps: bits set are exactly metadata plus owned blocks, each owned by one slot |
| FsTree.DataWriteKeepsTree | xv6/fs.c:482-511 | storing file data changes no block number, bit or inode |
| FsTree.UpdateKeepsTree | xv6/fs.c:220-236 | iupdate makes the disk copy current and changes no other inode |
| FsWrite.WriteStep | xv6/fs.c:498-504 | one turn of writei's loop extends what has been written by its bytes, whatever the alignment |
| FsWrite.WrittenIsSplice | xv6/fs.c:482-511 | a finished write makes the file the old contents with the source spliced in |
| FsWrite.OthersKeepContent | xv6/fs.c:482-511 | every other file reads the same |
| FsWrite.FinishWrite | xv6/fs.c:506-510 | the conditional iupdate leaves every inode on disk equal to the one in memory |
| FsWrite.MapCost | xv6/fs.c:372-400 | a block of a write costs at most two log entries beyond the indirect block's share |
| FsWrite.ChunkFits | xv6/file.c:127-145 | a chunk dirties at most MAXOPBLOCKS blocks, whatever its alignment |
| FsWrite.TenAreReached | xv6/file.c:127-145 | the count behind it: four new blocks under four bitmap blocks, the block the write starts in and the inode make ten |
| FsWrite.TrackStep | xv6/fs.c:498-504 | each turn of writei's loop adds to the log exactly its data block, what bmap allocated, the bitmap blocks of that, and the indirect block if it gained an entry |
| FsWrite.SpliceSplice | xv6/file.c:134-152 | two adjacent writes are one longer write |
| FsNeed.TookAll | xv6/fs.c:373-400 | a write that goes through has taken exactly one block for each block of its span that was missing, and one for a missing indirect block |
| FsNeed.TookShort | xv6/fs.c:57-78 | one that gives up on a full disk needed more than were free |
| FsNeed.TookLowest | xv6/fs.c:57-78 | what it takes is always the lowest-numbered free blocks |
| FsNeed.CrossingTen | xv6/file.c:127-145 | a chunk from inside the last direct block of a file without indirect block, when the four lowest free blocks are under four bitmap blocks, logs exactly ten |
| FsTrunc.TruncStep | xv6/fs.c:414-431 | each block itrunc frees is still marked in use, so the freeing-free-block panic is not reached |
| FsTrunc.TruncEnd | xv6/fs.c:408-435 | afterwards the inode owns nothing and every other file is untouched |
| FsTrunc.TruncBits | xv6/fs.c:408-435 | exactly the inode's own blocks have become free |
| Fs.FileSystem.Balloc | xv6/fs.c:57-78 | returns the lowest free block, never a metadata block, zeroed and marked; fails exactly when none is free |
| Fs.FileSystem.Bfree | xv6/fs.c:82-95 | panics exactly if the block is free; otherwise clears its bit alone |
| Fs.FileSystem.AllocSlot | xv6/fs.c:372-400 | the lowest free block goes to that slot alone; other files unchanged; exactly which blocks are logged |
| Fs.FileSystem.IndirectBlock | xv6/fs.c:385-389 | the indirect block is there afterwards, allocated only if missing |
| Fs.FileSystem.IndirectEntry | xv6/fs.c:389-396 | an entry of the indirect block, allocated only if missing |
| Fs.FileSystem.BmapDirect | xv6/fs.c:378-382 | a direct entry, allocated only if missing |
| Fs.FileSystem.Bmap | xv6/fs.c:373-400 | returns the slot's block; changes nothing if it was there; panics exactly out of range or when fewer blocks are free than it needs, one or two |
| Fs.FileSystem.Iupdate | xv6/fs.c:221-236 | writes the encoded inode to its place |
| Fs.FileSystem.Readi | xv6/fs.c:453-476 | returns exactly that slice of the file, and allocates and logs nothing; which arguments fail |
| Fs.FileSystem.WriteTurn | xv6/fs.c:498-504 | one turn of the loop, with its cost in log entries |
| Fs.FileSystem.WriteFile | xv6/fs.c:498-511 | the loop and the final iupdate: the file is spliced, the invariant holds, the cost is bounded; when it panics |
| Fs.FileSystem.Writei | xv6/fs.c:482-511 | succeeds exactly for a file that is no device, an offset within it, an end within the largest file, and no more new blocks needed than free; then splices the source into the file and nothing else; fails exactly for the other arguments and panics exactly for want of blocks; takes exactly the blocks needed, the lowest; exactly which blocks it logs, and that these are at most WriteCost; nothing it has not logged differs from what the transaction found |
| Fs.FileSystem.FreeDirect | xv6/fs.c:414-419 | the loop over the direct blocks |
| Fs.FileSystem.FreeIndirect | xv6/fs.c:421-431 | the loop over the indirect block, and that block |
| Fs.FileSystem.Itrunc | xv6/fs.c:408-435 | frees exactly the inode's data and indirect blocks, keeps the invariant and all other files |
| Fs.FileSystem.Filewrite | xv6/file.c:118-156 | what is written is always a prefix of the source, n is returned exactly when it is all of it, which only an offset behind the end or an end past the largest file prevents; no transaction dirties more than MAXOPBLOCKS blocks, and a panic comes at a chunk that needs more new blocks than are free by then |
| Fs.TenAreLogged | xv6/file.c:127-145 | writei from such a state succeeds and its transaction has MAXOPBLOCKS blocks, so the bound is tight |
| FsCrash.HomeKeeps | xv6/log.c:69-82 | disks that agree outside the log are equally sound and their files read the same |
| FsCrash.WriteInHome | xv6/fs.c:482-511 | a write logs only inode, bitmap and data blocks |
| FsCrash.ChunkCrash | xv6/log.c:69-202 | a chunk is kept whole if the log header reached the disk, and lost whole if not |
| FsCrash.CommitChunk | xv6/file.c:118-156 | filewrite's chunk as a transaction: for every order of its logged blocks, every block write of the commit that was the last one, and any crashes in recovery, the disk comes back satisfying the file system's invariant, with the bytes before the chunk or all of them spliced into the file and every other file as it was |
| FsHistory.WriteAllConcat | xv6/fs.c:482-511 | on files that cannot crash, two lists of writes after each other are one list |
| FsHistory.AppendsConcat | xv6/fs.c:482-511 | appends to a file, empty or not, that stay within the largest file all go through: the file is then its old contents with their concatenation, and no other file has changed |
| FsHistory.CallEffect | xv6/fs.c:482-511 | a successful writei is one write on such files, and adds only inode, bitmap and data blocks to the log |
| FsHistory.ChunksCost | xv6/file.c:118-156 | a group of filewrite's chunks logs at most MAXOPBLOCKS blocks for each |
| FsHistory.WriteGroup | xv6/fs.c:482-511 | any calls of writei in one transaction, those it turns down included: the files become what the list of writes makes of them, all changed blocks are logged, and their number is within the calls' costs; the alternative is the full-disk panic |
| FsHistory.EpisodeIsAtomic | xv6/log.c:69-202 | a group of calls committed together, to the end or cut off after any block write and recovered through any crashes, is in the files whole or not at all, and whole exactly if the header reached the disk |
| FsHistory.FilesAreSerial | xv6/log.c:69-202 | any history of groups, commits, crashes and recoveries leaves a sound file system whose files are what the surviving calls, in order, make of files that cannot crash |
| Ide.StepKeepsInv | xv6/ide.c:104-168 | each step, a kill's wakeup included, keeps: no buffer is queued twice; a sleeper's buffer is queued; a queued buffer is not done and its process has not left; a process awake with its buffer off the queue finds it done; the disk works on the first request |
| Ide.StepRefines | xv6/ide.c:104-168 | a request is the synchronous disk's call at the moment it is made; every other driver step is invisible |
| Ide.RunRefines | xv6/ide.c:104-168 | every run means what the synchronous disk's run means |
| Ide.DriverRefinesMemide | xv6/memide.c:39-60 | after any interleaving every buffer off the queue, so every one outside the driver, is what the synchronous disk, called in request order, would have made of it, and so is an idle disk |
| Ide.NoLostWakeup | xv6/ide.c:161-164 | in every run with kills: a sleeper's buffer is queued, not done, and the disk is at work; a process awake leaves the driver exactly if its buffer has left the queue |
| Ide.PanicsExactly | xv6/ide.c:74-131 | a run goes through, leaving nothing off the disk queued, exactly if each request had something to do, was for a present disk and was on it when the synchronous disk would have served it |
| Ide.DriverReplacesMemide | xv6/memide.c:39-60 | a run on which the synchronous disk does not panic does not panic the driver, in whatever order disk and processes run, and the two agree |
| Ide.DiskHolds | xv6/memide.c:52-57 | the synchronous disk holds in every block of every drive the data of the last dirty buffer asked for with that dev%2 and blockno, or what was there at the start |
| Ide.SyncReads | xv6/memide.c:39-60 | read after write: a request leaves its buffer clean and valid, a written one with its own data and a read one with the data last written to the same dev%2 and blockno |
| Ide.MemReads | xv6/memide.c:39-60 | the same for memide with its panics |
| Ide.DriverReads | xv6/ide.c:74-168 | the same for the driver, in whatever order disk, interrupts and processes run, for a buffer that has left the queue |
| Ide.Fifo | xv6/ide.c:104-168 | requests complete in the order they were made |
| Ide.MemDisk.Iderw | xv6/memide.c:39-60 | panics for a buffer not held, valid and clean, of another disk or out of range; otherwise the synchronous request, whose effect Ide.SyncReads states |
| Ide.Driver.Append | xv6/ide.c:151-155 | walking to the end and linking there appends to the queue |
| Ide.Driver.Iderw | xv6/ide.c:138-164 | panics for a buffer not held; otherwise takes the machine's submit step, panicking exactly when it does; what the request comes to is Ide.DriverReads |
| Ide.Driver.Resume | xv6/ide.c:161-164 | once round the wait loop: goes back to sleep exactly while the buffer is queued |
| Ide.Driver.Ideintr | xv6/ide.c:104-131 | takes the machine's interrupt step, panicking exactly when it does |
| PageTables.LinkLooks | xv6/vm.c:36-55 | a new empty table changes what no directory maps |
| PageTables.SetLooks | xv6/vm.c:61-80 | storing one entry changes that page of that directory and nothing else: two levels behave as a partial map |
| PageTables.LinkKeeps | xv6/vm.c:36-55 | linking a table keeps every frame with one owner |
| PageTables.MapKeeps | xv6/vm.c:61-80 | mapping a page gives its frame to that page alone |
| PageTables.UnmapKeeps | xv6/vm.c:269-276 | freeing a page's frame and clearing its entry removes exactly that page |
| PageTables.NewDir | xv6/vm.c:119-127 | a zeroed frame becomes a directory that maps nothing |
| PageTables.DisownKeeps | xv6/vm.c:284-298 | giving up a directory leaves all others owned as before |
| VmSpec.SkipTable | xv6/vm.c:265-268 | a missing table stands for a whole stretch of unmapped pages, so skipping it misses none |
| VmSpec.FailedAllocRestores | xv6/vm.c:222-249 | a failed allocuvm restores every map and keeps every page's frame if and only if nothing was mapped where it meant to grow; new tables may stay |
| VmSpec.FailedRestores | xv6/proc.c:158-175 | so it always restores for a process with nothing mapped above its size |
| VmSpec.RegionFits | xv6/vm.c:110-115 | the kernel's regions lie above user memory and do not overlap |
| VmSpec.KernelLayout | xv6/vm.c:110-144 | every page from KERNBASE to PHYSTOP maps to its own physical page, writable exactly outside the kernel's text; device pages map to themselves; none is the user's, and nothing else is mapped |
| VmSpec.GrownReads | xv6/vm.c:222-249 | a process that has grown can write every new byte and finds it zero |
| VmSpec.ShrunkReads | xv6/vm.c:251-282 | a process that has shrunk finds nothing in the pages it gave up, and below its new size every byte as before |
| VmSpec.CopiedReads | xv6/vm.c:315-350 | at every address below the size a child finds the byte its parent found, with the parent's permissions, in a frame of its own |
| VmSpec.PagesApart | xv6/vm.c:60-81 | no frame is in two places of user memory, of one process or of two |
| VmSpec.PgcntGrows | xv6/sysproc.c:116-148 | growing a process by k pages makes pgcnt grow by k |
| VmSpec.PgcntCopied | xv6/sysproc.c:116-148 | a child's pgcnt is its parent's counted below the copied size |
| VmCost.FreeCount | xv6/kalloc.c:83-95 | free frames and frames in use add up to all frames |
| VmCost.GrowExact | xv6/vm.c:222-249 | growing takes one frame a page and one for each directory index in the span that had no table |
| VmCost.GrowShort | xv6/vm.c:232-245 | wherever it gives up, it has taken less than that |
| VmCost.KernelExact | xv6/vm.c:119-136 | a kernel address space takes one directory and 64 tables |
| VmCost.KernelShort | xv6/vm.c:130-134 | wherever it gives up, it has taken less than that |
| VmCost.CopyExact | xv6/vm.c:316-345 | a copy of n pages takes 65 frames, n, and one for each 1024 of them begun |
| VmCost.CopyTooShort | xv6/vm.c:332-343 | wherever it gives up, it has taken less than that |
| Vm.Machine.Kfree | xv6/kalloc.c:60-77 | panics exactly for a frame outside the allocator's range; otherwise the frame is first on the list and has no contents, and the list is still one of distinct frames exactly if the frame was not on it |
| Vm.Machine.Kalloc | xv6/kalloc.c:83-95 | hands out the first frame of the list, to nobody else; fails exactly when there is none |
| Vm.Machine.Freerange | xv6/kalloc.c:47-53 | exactly the whole pages between the addresses become free, each once exactly if none was free before |
| Vm.Machine.Walkpgdir | xv6/vm.c:36-55 | finds the page's table, or makes an empty one that changes no mapping; fails exactly without one, or without memory |
| Vm.Machine.Mappages | xv6/vm.c:61-80 | maps a prefix of the pages to consecutive frames: all of it on success, up to an already mapped page on panic, up to a table that could not be had on failure |
| Vm.Machine.DropPage | xv6/vm.c:269-276 | the page's frame goes back to the allocator and its entry is cleared; the panics are not reached |
| Vm.Machine.Deallocuvm | xv6/vm.c:256-279 | exactly the mapped pages between the sizes are unmapped and their frames freed; nothing else changes; that a process's pages are exactly those below its size is kept |
| Vm.Machine.Freevm | xv6/vm.c:284-298 | returns exactly the frames that belong to the directory: pages, tables and itself; panics exactly for a null directory |
| Vm.Machine.Setupkvm | xv6/vm.c:119-136 | a new directory with exactly the kernel's mappings, for 65 frames; it fails, with no change in who owns what, if and only if fewer are free |
| Vm.Machine.Allocuvm | xv6/vm.c:222-249 | on success the new pages are zeroed, writable, user pages in frames of their own and the free list is shorter by exactly those pages and the tables that were missing; it runs out of memory only with fewer frames than that, and then the range is unmapped and its frames returned; panics only if something was mapped there |
| Vm.Machine.Growproc | xv6/proc.c:158-175 | exactly when it succeeds, from the size, the signed amount and the free list; the size afterwards; it never panics, since nothing is mapped above a process's size, which is kept; a failure restores every map, use and page if and only if it was not asked to give up the whole process |
| Vm.FailsAndShrinks | xv6/proc.c:158-175 | on a new machine: a process of one page asked to give it up gets a failure and keeps its size, and the page is gone |
| Vm.Machine.Copyuvm | xv6/vm.c:316-345 | on success a new space whose pages are copies with the same permissions, the parent untouched, and its pages exactly those below the size; it runs out of memory only with fewer frames than it takes, and then every frame is back; panics only for a missing page |
| Vm.Machine.Pgcnt | xv6/sysproc.c:116-148 | counts exactly the pages that are present and open to the user |
| FreeList.InsertCorrect | xv6/umalloc.c:25-44 | freeing a block keeps the list sorted with no touching blocks and adds exactly its units |
| FreeList.TakeCorrect | xv6/umalloc.c:74-84 | taking units keeps the list and removes exactly those units |
| FreeList.CoverDetermines | xv6/umalloc.c:25-44 | there is only one coalesced list for a set of free units, so merging is complete |
| Umalloc.FreeAccounts | xv6/umalloc.c:25-44 | free moves the block's units from live to free; every unit still belongs to exactly one block |
| Umalloc.BlocksApart | xv6/umalloc.c:25-90 | a block a program has overlaps no other it has and no free one, and lies in memory it asked for |
| Umalloc.CoreAccounts | xv6/umalloc.c:47-61 | units from sbrk enter the accounts |
| Umalloc.TakeAccounts | xv6/umalloc.c:74-84 | malloc moves the units from free to live; every unit still belongs to exactly one block |
| Umalloc.EnoughRoom | xv6/umalloc.c:69 | the units asked for have room for the request if and only if the rounding did not wrap, and with one fewer would not |
| Umalloc.SignOfRequest | xv6/umalloc.c:47-57 | the signed 32-bit byte count passed to sbrk is the true one while the units stay below 2^31 bytes, and is never positive from there on |
| Umalloc.NullKeeps | xv6/proc.c:158-175 | a null answer leaves the process its memory if and only if the units are below 2^31 bytes or it had none |
| Umalloc.FailingRequests | xv6/umalloc.c:47-57 | requests that cannot be good when nothing fits: one that wraps to one unit, one that asks sbrk for nothing, one for -2^31 bytes, one that gives memory back, and one that is refused after giving up all memory |
| Umalloc.Backing | xv6/proc.c:158-175 | with sbrk doing what growproc does for each sign: the block handed out lies in memory the process has and has room if and only if the rounding did not wrap and a free block fitted or the units stay below 2^31 bytes |
| Umalloc.SearchStep | xv6/umalloc.c:30-32 | free's search stops exactly at the block's place and otherwise comes nearer, so it ends |
| Umalloc.FreeLinks | xv6/umalloc.c:33-43 | free's stores leave a ring that spells out the merged list |
| Umalloc.UnlinkLinks | xv6/umalloc.c:76-77 | an exact fit leaves the ring without the block |
| Umalloc.SplitLinks | xv6/umalloc.c:78-82 | a split leaves the ring with the block shortened |
| Umalloc.RunInOneBlock | xv6/umalloc.c:63-90 | free units in a row always lie in one free block |
| Umalloc.Heap.Search | xv6/umalloc.c:30-32 | ends at the free block below the one being freed |
| Umalloc.Heap.Free | xv6/umalloc.c:25-44 | exactly that block's units become free; no other live block changes |
| Umalloc.Heap.Morecore | xv6/umalloc.c:47-61 | asks sbrk for the signed 32-bit byte count; fails exactly when sbrk does, changing no block; otherwise the units it believes new are free and the request fits |
| Umalloc.Heap.Carve | xv6/umalloc.c:75-84 | hands out n units of the block found, live and disjoint from all others |
| Umalloc.Heap.FirstFit | xv6/umalloc.c:74-89 | the loop ends; sbrk is asked exactly if nothing fits, and once at most |
| Umalloc.Heap.Malloc | xv6/umalloc.c:64-90 | a block of exactly the units asked for, new and disjoint from every live block; null exactly when nothing fits and sbrk fails; the heap stays within real memory exactly if a block fitted or the units are below 2^31 bytes (after a null also if it had no memory), and a block handed out is then usable exactly if the rounding did not wrap |
| Processes.StepKeepsInv | xv6/proc.c:73-497 | each critical section keeps: nobody waits without a child or with a zombie child, parents are alive, pids are accounted for |
| Processes.RunKeepsInv | xv6/proc.c:73-497 | the same over every run |
| Processes.WaitExactly | xv6/proc.c:273-312 | from the table alone: wait reaps exactly if there is a zombie child, the lowest one, with its pid, leaving its slot unused; it gives up exactly with no zombie child and no child or a killed caller; it sleeps exactly otherwise, on its own address; nothing else changes |
| Processes.ExitExactly | xv6/proc.c:228-268 | from the table alone: the state, parent, pid, channel and mark of every slot after exit |
| Processes.WakeupExactly | xv6/proc.c:457-476 | after a wakeup nobody sleeps on the channel, those who did are runnable, and nothing else has changed |
| Processes.SleepsUntil | xv6/proc.c:417-476 | a process asleep elsewhere than in wait is made runnable exactly by a wakeup of its channel or a kill of its pid, and else sleeps on |
| Processes.ForkMakesChild | xv6/proc.c:181-222 | whatever happens while a process forks, it ends with the lowest slot unused when it began as its runnable child, with the pid that was next |
| Processes.KilledStays | xv6/proc.c:480-497 | a killed process stays killed until it has exited and been reaped |
| Processes.ExitKeepsInv | xv6/proc.c:228-268 | exit, with its wakeups and the handing over of children, keeps the invariant |
| Processes.ReapKeepsInv | xv6/proc.c:273-312 | wait's reaping of a zombie keeps the invariant |
| Processes.ForkKeepsInv | xv6/proc.c:181-222 | fork's later steps and its failure keep the invariant |
| Processes.ForkAllocKeepsInv | xv6/proc.c:74-116 | allocproc keeps the invariant |
| Processes.NoLostExit | xv6/proc.c:228-312 | in every reachable state a process asleep in wait has a child and no zombie child |
| Processes.LiveParents | xv6/proc.c:181-312 | in every reachable state every process past EMBRYO except init has a parent that is alive |
| Processes.GetppidDefined | xv6/sysproc.c:109-113 | a running process has a live parent with a pid exactly if it is not init |
| Processes.PidsConserved | xv6/proc.c:73-312 | every pid ever issued is exactly one of live, reaped once, given up by a failed fork |
| Processes.KillHits | xv6/proc.c:480-497 | in every reachable state a kill of a live process's pid marks that process, wakes it if it sleeps, and touches no other slot |
| Processes.StepMarks | xv6/proc.c:74-116 | which steps leave an unused slot marked killed: exactly a kill whose pid an unused slot carries, and a failed fork of a killed embryo |
| Processes.MarkStays | xv6/proc.c:84-91 | such a mark stays until the slot is taken, and the process that takes it starts killed |
| Processes.StartsUnkilled | xv6/proc.c:74-116 | in every run without such a step every new process starts unkilled |
| Processes.KillZero | xv6/proc.c:480-497 | kill(0) is such a step: the next fork's child starts killed |
| ProcessTable.PTable.Wakeup1 | xv6/proc.c:457-465 | one pass is the specified wakeup, so by Processes.WakeupExactly wakes exactly the sleepers on the channel |
| ProcessTable.PTable.Allocproc | xv6/proc.c:74-116 | takes the first unused slot with a new pid, or none; without memory for a stack the slot is unused again and the pid used up |
| ProcessTable.PTable.Exit | xv6/proc.c:228-268 | the specified exit; panics exactly for init |
| ProcessTable.PTable.WaitOnce | xv6/proc.c:273-312 | one scan of wait is the specified step, so by Processes.WaitExactly reaps, gives up or sleeps exactly when it should |
| ProcessTable.PTable.Kill | xv6/proc.c:480-497 | marks the first process with that pid and wakes it if asleep |
| Pipes.Tests | xv6/pipe.c:79-121 | the full and empty tests and the ring indices are right however often the counters have wrapped |
| Pipes.PushAllWrites | xv6/pipe.c:79-98 | a stretch of writing takes the bytes there is room for, in order |
| Pipes.PopUpToReads | xv6/pipe.c:101-121 | a stretch of reading takes the oldest bytes, as many as asked for and there |
| Pipes.StepKeeps | xv6/pipe.c:60-121 | a step keeps the sleepers' invariant if and only if it is not a killed writer leaving behind a sleeping reader |
| Pipes.RunKeepsRing | xv6/pipe.c:60-121 | the ring invariant holds over every run |
| Pipes.FifoBytes | xv6/pipe.c:60-121 | in every interleaving the bytes read are a prefix of those written, at most PIPESIZE apart |
| Pipes.NoMissedWakeup | xv6/pipe.c:60-121 | without stranding writes a sleeping reader means empty and open for writing, a sleeping writer full and open for reading, never both |
| Pipes.StrandedReader | xv6/pipe.c:86-89 | the run in which a killed writer fills the pipe under a sleeping reader |
| Pipes.PipeObject.PipewriteStretch | xv6/pipe.c:79-98 | up to its return or next sleep it is the specified write step: it takes exactly the bytes there is room for; returns n exactly if that is all, -1 exactly if bytes are left and the read end is closed or the caller killed, and sleeps exactly otherwise |
| Pipes.PipeObject.PipereadStretch | xv6/pipe.c:101-121 | up to its return or next sleep it is the specified read step: it sleeps exactly on an empty pipe open for writing, returns -1 exactly if killed there, and else returns the oldest bytes, as many as asked for and there; so 0 for a positive n comes only with the write end closed |
| Pipes.PipeObject.Pipeclose | xv6/pipe.c:60-75 | closes that end and not the other, leaves nobody asleep at the other, and frees the pipe exactly when both ends are closed |
| Shell.ParsedTokens | xv6/sh.c:311-429 | every word of every parsed command is a whole token of the input |
| Shell.RoundTrip | xv6/sh.c:249-429 | for all trees with at most nine legal words per exec node: parsing the tree's printing, with only the parentheses the grammar needs or any more, an append as `>>`, gives the tree with its appends turned into writes, so gives it back if and only if it appends nowhere |
| Shell.RoundPut | xv6/sh.c:328-429 | the same inside any input, at any place of the grammar, up to an operator that ends it |
| Shell.TenAreTooMany | xv6/sh.c:414-425 | ten or more words are always refused |
| ShellGrammar.LineSound | xv6/sh.c:328-429 | what the parser reads from a point on is a line of the grammar with that tree |
| ShellGrammar.LineComplete | xv6/sh.c:328-429 | a line of the grammar up to a closing parenthesis or the end is read with its tree |
| ShellGrammar.ParsesExactly | xv6/sh.c:311-429 | an input is accepted with a tree if and only if the grammar, a relation between stretches of text and trees with white space anywhere, gives it that tree; so nothing is left over and no input has two trees |
| ShellGrammar.AcceptsExactly | xv6/sh.c:311-325 | an input is accepted if and only if the grammar has it |
| ShellParser.Parser.Gettoken | xv6/sh.c:249-291 | computes the specified token and leaves the cursor behind it |
| ShellParser.Parser.Peek | xv6/sh.c:294-303 | skips white space and looks at the next character |
| ShellParser.Parser.Parseredirs | xv6/sh.c:358-380 | the loop reads the specified redirections |
| ShellParser.Parser.Parsewords | xv6/sh.c:409-428 | the loop reads the specified words and redirections |
| ShellParser.Parser.Parseblock | xv6/sh.c:383-396 | reads the specified block |
| ShellParser.Parser.Parseexec | xv6/sh.c:399-429 | reads the specified command |
| ShellParser.Parser.Parsepipe | xv6/sh.c:345-355 | reads the specified pipe |
| ShellParser.Parser.Parseline | xv6/sh.c:328-342 | reads the specified line; the mutual recursion ends |
| ShellParser.Parser.Parsecmd | xv6/sh.c:311-325 | the specified result, and every string of the tree in the cut-up buffer equals its scanned token |
| ShellParser.Nulterminate | xv6/sh.c:433-476 | writes a NUL at the ends of the tree's words and nowhere else |
| ShellParser.StringsAreTokens | xv6/sh.c:433-476 | after that the C string of each word is the word |
| Regex.HereMeans | xv6/grep.c:85-106 | the matcher's recursion succeeds if and only if the text can be cut into pieces, one for each item of the pattern, to the end after $ |
| Regex.AnywhereIsDotStar | xv6/grep.c:73-82 | matching somewhere is matching at the start behind `.*` |
| Regex.LiteralMeans | xv6/grep.c:85-96 | a pattern without special characters matches exactly the texts that start with it, and followed by $ exactly itself |
| Regex.StarMeans | xv6/grep.c:99-106 | a starred character matches any number of it, none included, before the rest |
| Regex.Matchhere | xv6/grep.c:85-96 | decides that meaning; the mutual recursion ends |
| Regex.Matchstar | xv6/grep.c:99-106 | the loop decides a starred item followed by the rest |
| Regex.Match | xv6/grep.c:73-82 | true if and only if the pattern matches somewhere, or at the start after ^ |
| Paging.ServeKeepsPlaces | lab-07/sim.c:91-408 | each request of either policy keeps every page seen in exactly one place and table entries right |
| Paging.StopsWhenFull | lab-07/sim.c:155-160 | the simulator stops if and only if a new page comes and every frame and slot is taken |
| Paging.EveryPageOnce | lab-07/sim.c:91-408 | after any requests exactly the pages asked for are in exactly one frame or slot, and a page in memory is where its table says |
| Paging.UsedIsLast | lab-07/sim.c:91-408 | over any run, the time a frame was used is the last request for the page in it |
| Paging.BornIsLoad | lab-07/sim.c:91-408 | and the time it was loaded is the request before which the page was not in memory and since which it has been in that frame |
| Paging.FifoKeepsOrder | lab-07/sim.c:142-206 | frames come up for replacement in the order they were loaded |
| Paging.FifoRun | lab-07/sim.c:91-208 | over any run the next FIFO victim is the page loaded longest ago |
| Paging.LruVictim | lab-07/sim.c:304-311 | while the search (least stamp, first frame on ties) ranks the frames by last access, the victim is the page least recently accessed |
| Paging.LruStepExact | lab-07/sim.c:261-406 | a request keeps the ranking, except that a load into a free frame keeps it if and only if no stamp has passed the load counter |
| Paging.UnrankedGoesWrong | lab-07/sim.c:214-408 | wherever the ranking is wrong, some continuation of the run evicts a page that was used later than another |
| Paging.LruFullExact | lab-07/sim.c:214-408 | with memory full, every eviction of every continuation takes the page least recently accessed if and only if the search ranks the frames by last access now |
| Paging.LruFilledExact | lab-07/sim.c:214-408 | the same for every run from the start that has filled the memory |
| Paging.LruExact | lab-07/sim.c:214-408 | from the start the ranking holds after every request if and only if no free frame is loaded after two hits or more since the load before |
| Paging.LruRun | lab-07/sim.c:214-408 | over any run without such a load every eviction takes the page least recently accessed |
| Paging.LruRunWrong | lab-07/sim.c:214-408 | a run with such a load can go on from it to a wrong eviction |
| Paging.LruEvictsWrongPage | lab-07/sim.c:268-290 | a run after which LRU evicts a page that was used later than another |
| PagingSim.Simulator.Search | lab-07/sim.c:114-135 | the search loops find the first match |
| PagingSim.Simulator.Greatest | lab-07/sim.c:314-319 | the greatest stamp |
| PagingSim.Simulator.Least | lab-07/sim.c:304-311 | the first least stamp |
| PagingSim.Simulator.Freshen | lab-07/sim.c:333-344 | one frame made most recent, then all aged by one |
| PagingSim.Simulator.ServeFifo | lab-07/sim.c:91-208 | one turn of the FIFO loop is the specified step |
| PagingSim.Simulator.ServeLru | lab-07/sim.c:214-408 | one turn of the LRU loop is the specified step |
| Uthread.ScanComplete | xv6/uthreadlib.c:63-73 | a scan finds a thread if and only if some thread other than the current one and the one chosen last is runnable |
| Uthread.ChoiceIsNearest | xv6/uthreadlib.c:63-73 | it finds the nearest one behind the thread chosen last |
| Uthread.BoundedBypass | xv6/uthreadlib.c:42-127 | while scans find threads, a runnable thread is passed over by fewer choices than its distance, so by at most seven |
| Uthread.BypassFromInit | xv6/uthread.c:33-41 | the same from thread_init on, main's direct call of thread_schedule included: fewer than eight choices |
| Uthread.MissesRunnable | xv6/uthreadlib.c:63-90 | a scan misses a runnable thread if and only if the only one is the one chosen last |
| Uthread.SoleYielder | xv6/uthreadlib.c:75-98 | a thread alone in yielding gives way to main |
| Uthread.Starves | xv6/uthreadlib.c:75-127 | after which it is never chosen while main only yields or calls thread_schedule |
| Uthread.StepKeepsMarks | xv6/uthreadlib.c:42-127 | only the current thread and main are marked running, and the current one, unless main, is: kept by every operation except a thread other than main calling thread_schedule without giving up its mark, which breaks it |
| Uthread.LeavesExactly | xv6/uthreadlib.c:116-127 | a yield leaves its caller runnable, an exit leaves it free; both let go of the processor unless the caller is main and the scan reaches no runnable thread; whoever is chosen is marked running and no other slot changes |
| Uthread.StaysGone | xv6/uthreadlib.c:42-127 | an exited thread other than main is not chosen and stays free until thread_create takes its slot |
| Uthread.MarksFromInit | xv6/uthreadlib.c:30-40 | it holds in every run from thread_init in which only main calls thread_schedule directly |
| Uthread.MainStaysMarked | xv6/uthread.c:33-41 | main's own first call leaves main marked running while another thread is current |
| Uthread.Threads.ThreadSchedule | xv6/uthreadlib.c:43-98 | the scan loop and the switch are the specified step; the marks stay right exactly if main called |
| Uthread.Threads.ThreadYield | xv6/uthreadlib.c:116-120 | the specified yield, which keeps the marks right |
| Uthread.Threads.ThreadExit | xv6/uthreadlib.c:123-127 | the specified exit, which keeps the marks right |
| Uthread.Threads.ThreadCreate | xv6/uthreadlib.c:101-113 | the first free slot becomes runnable |

## Left out

- Fs.FileSystem.Filewrite: its own contract is for a file no other process writes between two chunks, when the inode is unlocked; chunks of any writers, in any order, are the calls of FsHistory.FilesAreSerial. Device files and pipes are a separate outcome with no further effect, and their drivers are not part of this model.
- FsCrash.CommitChunk: the transaction is the chunk's alone, as when no other call is active; a group of calls committed together is FsHistory.EpisodeIsAtomic.
- FsHistory.WriteGroup: the calls of a group run one after the other; two writei on different inodes do not interleave block by block.
- LogManager.Manager.Commit: the list fits the log (LogAdmission.FitsExactly says when); a list as long as the log is written past its end (Log.WritesPastLog), and what that commit leaves is not modelled.
- Fs.FileSystem.Writei: after a full-disk panic only the shape of the disk is stated, since the kernel has stopped.
- Umalloc.Heap.Malloc: says nothing about a heap that has already handed out memory it does not have; sbrk's answers lie above the heap (another caller of sbrk may only grow it).
- Vm.Machine.Deallocuvm: sizes are at most KERNBASE, as in every call of the kernel; beyond it the address arithmetic of the skip wraps around.
- Vm.Machine.Copyuvm: sizes are at most KERNBASE, as for every process.
- Vm.Machine.Growproc: the size handed to it is below KERNBASE and nothing is mapped above it, which it keeps; switchuvm is not modelled.
- Vm.Machine.Mappages: page ranges do not wrap around the address space.
- Uthread.Threads.ThreadCreate: a ninth thread is not modelled; the code then writes behind its table. Stacks and register switching are not modelled.
- Ide.DriverRefinesMemide: the disk makes no errors and interrupts only when it has finished a command; the driver's error branch reads nothing and is not modelled.
- PagingSim.Simulator.ServeFifo: process and page numbers are inside the program's tables; reading the input and printing the result are not modelled.
- Directories, path names, link counts, inode allocation and the inode cache: they would add lookups over the file contents already proved.
- copyout, loaduvm, inituvm and exec: clients of the page tables.
- The scheduler's choice of process, spin locks, sleep locks and memory ordering.
- The shell's runcmd, whose pipe, list and background cases are stubs.
- grep's line buffering, which splits long lines.
- Interrupt controllers, console, serial port, boot code and all assembly.
- The other lab programs: semaphore and thread demonstrations and smaller copies of the shell.

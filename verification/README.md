# Verified models of xv6-riscv

This project models the parts of the xv6 kernel and user programs that carry the
most state and the most interaction, and proves what they promise for every
input, every reachable state or every run.

* **Log and crash recovery** (`Bytes`, `RedoLog`, `Log`): the commit and recovery
  code as methods that append block writes to a device trace, and crash atomicity
  over every prefix of those writes.
* **Cache, log and disk together** (`Storage`, `CommitBuffers`): a transition system
  over the steps that locks make atomic, crashes included, shown to implement one
  logical disk; and when the cache has a buffer left for a commit.
* **Group commit** (`GroupCommit`): `begin_op`, `log_write` and `end_op` as
  concurrent steps with reservations.
* **Buffer cache** (`Bcache`): the circular doubly linked list of `bio.c` on its
  pointer arrays.
* **Files** (`Bitmap`, `Dinode`, `FsModel`, `Space`, `Fs`, `FileWrite`, `TenBlocks`):
  block allocation, the on-disk inode, `bmap`, `readi`, `writei`, `itrunc`, `ialloc`,
  `iput` and the chunking of `filewrite`, as operations on byte sequences with exclusive
  block ownership; how far a write gets, counted from the state before it; and a disk
  image on which a write logs as much as it ever may.
* **Operations against crashes** (`Operation`, `Transaction`): what the inode layer
  passes to `log_write` goes through the log, and a recovery finds every inode and the
  contents of every file as they were before the operation or as they were after it;
  so for a whole `filewrite`, chunk by chunk, for operations that share one commit,
  and up to the file system that the next boot mounts.
* **Storage allocator** (`Malloc`): the Kernighan and Ritchie free list.
* **Page tables and pages** (`VmModel`, `VmTables`, `Vm`): three-level tables as one
  finite map, with the physical page allocator under them, and how many pages a growing
  address space needs.
* **Pipes** (`PipeModel`, `Pipe`): the ring buffer against an unbounded byte history,
  and its sleepers.
* **Processes** (`ProcModel`, `Proc`): `fork`, `exit`, `wait` and `kill` in their
  lock-protected steps.
* **Virtqueue** (`Virtio`): descriptors, rings and requests of the disk driver.
* **Scheduler** (`Sched`): the table scan with its locks, hand-over between CPUs, and
  first come first served on one CPU.
* **Shell** (`ShellSyntax`, `ShellGrammar`, `Shell`, `ShellLanguage`): the parser
  against the grammar of its language. **grep** (`Grep`) and **calendar** (`Calendar`).

Where the source works by changing state step by step, the model is a class or a
method with loops, proved against a specification function; where a property is
about interleavings, the same specification functions are the steps of a transition
system with an inductive invariant.

Six promises turned out not to hold of the code as written, and are stated with
the exact condition under which they do:

* `log_write` tests for a full log before it looks for the block in the log, and the
  log region that mkfs lays out has LOGSIZE blocks, one of them the header.
  `GroupCommit.PanicsExactlyWhenLogTooSmall` shows that an operation within its
  budget can then meet "too big a transaction", and that it cannot if the region is
  one block larger; `GroupCommit.AbsorbedPanicHappens` shows that re-logging a block
  can panic on a full log even then.
* A commit reads log blocks through the cache, whose buffers the transaction pins and
  readers of files use without being in an operation. `CommitBuffers.FindsExactly` shows
  that it finds a buffer exactly if one is neither pinned nor in use, and
  `CommitBuffers.CommitPanicsExactly` how many buffers processes may use beside the
  pinned ones so that it always does: with mkfs's log none at all, and with one block
  more not even that helps (`CommitBuffers.MkfsLog`).
* A writer on a pipe that is killed after it has stored some bytes returns without
  waking readers. `PipeModel.LostExactlyWhenForgotten` shows that this is the only
  way a reader stays asleep beside unread bytes.
* `piperead` removes a byte that it does not report exactly when a byte waits that it
  cannot copy out (`PipeModel.ByteLost`); `PipeModel.ByteLostHappens` is such a run.
* `writei` leaves a buffer changed and not logged exactly when it gets to a byte that it
  cannot copy from user memory in the middle of a step (`Fs.Fs.Writei`, and for all of
  `filewrite` `FileWrite.File.Write`); the file then shows bytes that were not reported
  (`Fs.UnloggedBytes`, `TenBlocks.UnreportedByte`). A crash takes them back, unless their
  block is in the log because it is new or was logged before; in a transaction of its
  own they then lie past the end of the file (`Fs.CommitsHolds`).
* The date of a time is right exactly as long as its day number fits an int
  (`Calendar.Convert`). The function meets other times only from a caller other than
  `sys_datetime`, whose times fit (xv6-riscv/kernel/sysutil.c:42-47).

Conventions: block, page and descriptor numbers and sizes are unbounded integers
unless a width matters, and then the wrap-around is written out (log header words,
file offsets, pipe counters, ring indices). Acquiring and releasing a lock, and going
to sleep while a lock is handed back, are atomic steps. A panic of the source is a
result value, an unreachable branch or a precondition that every caller in the model
is proved to meet. Copying between kernel and user memory, the supply of memory by
`sbrk`, the clock and the device are parameters or steps of the environment.

## Model

| member | source | states |
|---|---|---|
| `RedoLog.CommitsOnce` | xv6-riscv/kernel/log.c:194-203 | Of the writes of a commit, cut anywhere, the one after the copies commits the transaction, and no other does |
| `RedoLog.CommitCountOfConcat` | xv6-riscv/kernel/log.c:194-203 | The commits of two sequences of writes, cut anywhere, add up |
| `RedoLog.CrashAtomicity` | xv6-riscv/kernel/log.c:67-203 | A commit cut after any of its disk writes, then any number of recoveries each cut anywhere, then one complete recovery: every home block is old or every one is new, new exactly when the nonzero header reached the disk, and the log is left empty |
| `RedoLog.CommitIsLogThenRecover` | xv6-riscv/kernel/log.c:178-203 | The writes of commit are the log copies, the header, and then exactly the writes a recovery of that disk would make |
| `RedoLog.RecoverIsRedo` | xv6-riscv/kernel/log.c:116-123 | A complete recovery gives every home block what the on-disk header and log prescribe for it, and leaves an empty log |
| `RedoLog.CutKeepsRedo` | xv6-riscv/kernel/log.c:67-83 | A recovery cut after any write leaves a disk that a later recovery brings to the same contents |
| `RedoLog.InstallKeepsRedo` | xv6-riscv/kernel/log.c:67-83 | Installing any prefix of the log does not change what redoing the whole log yields; installing all of it yields it |
| `RedoLog.HeaderCommits` | xv6-riscv/kernel/log.c:102-114 | Once the header is written, redoing the log yields the committed contents of every home block |
| `RedoLog.CrashBeforeHeader` | xv6-riscv/kernel/log.c:178-191 | Before the header is written no home block and no header has changed |
| `RedoLog.Formatted` | xv6-riscv/kernel/log.c:54-65 | Writing an empty header gives any disk with room for it a valid empty log |
| `RedoLog.EncodeHead` | xv6-riscv/kernel/log.c:102-114 | A written header reads back as the list of blocks it was written from (read_head inverts write_head), and words past the list keep their old contents |
| `Bytes.PutWord` | xv6-riscv/kernel/log.c:102-114 | Storing a little-endian 32-bit word reads back as stored and changes no other word of the block |
| `Log.Log.Commit` | xv6-riscv/kernel/log.c:193-203 | Issues exactly the write sequence that crash atomicity is proved for, installs the transaction in every home block, unpins everything and leaves an empty valid log |
| `Log.Log.WriteLog` | xv6-riscv/kernel/log.c:178-191 | Appends to the device trace exactly the copies of the cached blocks, in log order, without touching the header |
| `Log.Log.WriteHead` | xv6-riscv/kernel/log.c:102-114 | One device write, of a header that reads back as the in-memory list |
| `Log.Log.InstallTrans` | xv6-riscv/kernel/log.c:68-83 | Appends exactly the home-block writes taken from the on-disk log, and unpins unless recovering |
| `Log.Log.constructor` | xv6-riscv/kernel/log.c:54-65 | initlog on any disk whose log is well formed: the disk becomes what a complete recovery makes of it, by exactly the writes of one, and the log is empty, idle and valid |
| `Log.Log.RecoverFromLog` | xv6-riscv/kernel/log.c:116-123 | Every home block ends with what the crashed disk's log prescribes, the disk is that of a complete recovery, and the log is empty |
| `Log.Log.Rewrite` | xv6-riscv/kernel/log.c:178-191 | A buffer that changes after log_write is the one that the commit copies: of the pinned blocks the changed ones, and no others, get the new contents |
| `Log.Log.ReadHead` | xv6-riscv/kernel/log.c:86-97 | The in-memory list is the one the header block encodes |
| `Log.Log.TryBeginOp` | xv6-riscv/kernel/log.c:126-142 | Admission exactly when no commit is running and the reservation of one more operation still fits LOGSIZE |
| `Log.Log.EndOp` | xv6-riscv/kernel/log.c:146-175 | Commits exactly when the last operation ends, and what bread returns for any home block is unchanged by the whole call; the "log.committing" panic occurs only if a commit was running |
| `Log.Log.LogWrite` | xv6-riscv/kernel/log.c:214-235 | A block is listed once however often it is logged, its buffer is pinned with the latest contents, and each panic occurs exactly under its guard (tested before absorption, as in the code) |
| `Log.CommitResult` | xv6-riscv/kernel/log.c:193-203 | The disk after log, header and recovery holds the committed contents of every home block |
| `Storage.ReachableStates` | xv6-riscv/kernel/bio.c:58-151 | Over every run of cache, log and disk steps, crashes included: a held unmodified buffer holds the last logged contents, a crash followed by interrupted and one complete recovery restores the last commit point, and no operation is open during a commit |
| `Storage.VisibleStep` | xv6-riscv/kernel/bio.c:58-137 | What bread returns changes only by log_write, for that block and to the logged data, or by a crash, back to what was durable; recycling a buffer never shows |
| `Storage.CommitProgress` | xv6-riscv/kernel/log.c:146-203 | The end of the last operation starts a commit of 2 n + 2 steps for n logged blocks; each step is the committer's and takes it one step further, and no other action but a crash does anything to it |
| `Storage.CommitEnds` | xv6-riscv/kernel/log.c:194-203 | When a commit ends the log is empty, and what a crash would leave is what bread returns, which the commit has not changed |
| `Storage.DurableStep` | xv6-riscv/kernel/log.c:68-203 | What a crash would leave changes only at the header write, where all that is visible becomes durable |
| `Storage.StepKeepsInv` | xv6-riscv/kernel/bio.c:58-151 | Every step keeps the invariant that a buffer that differs from the disk is listed in the log and pinned until install_trans has written it |
| `Storage.VisibleIsLogical` | xv6-riscv/kernel/bio.c:92-103 | In every invariant state bread returns the last logged contents of a block that nobody is changing |
| `Storage.RedoIsCommitted` | xv6-riscv/kernel/log.c:116-123 | In every invariant state the disk redoes to the last commit point |
| `Storage.RunKeepsInv` | xv6-riscv/kernel/log.c:126-235 | The invariant holds at the end of every run |
| `CommitBuffers.PinnedCount` | xv6-riscv/kernel/bio.c:140-151 | In every invariant state there is one pinned buffer for every block that is logged and not yet installed, and no other |
| `CommitBuffers.FindsExactly` | xv6-riscv/kernel/bio.c:58-89 | In every reachable state, bget finds a buffer for a block if and only if one holds the block or some buffer is neither in use nor pinned |
| `CommitBuffers.CommitFinds` | xv6-riscv/kernel/log.c:178-191 | That is, if and only if one holds the block or the blocks logged and not yet installed, with the buffers in use beside theirs, are fewer than the buffers |
| `CommitBuffers.EnoughBuffers` | xv6-riscv/kernel/bio.c:58-89 | In every run: if a full transaction and r buffers more leave one over, bget finds a buffer in every state in which processes use at most r beside the pinned ones |
| `CommitBuffers.CommitPanicsExactly` | xv6-riscv/kernel/log.c:178-203 | No run meets "bget: no buffers" where a commit reads its log, as long as processes use at most r buffers beside the pinned ones, if and only if the most blocks that the log can take and r are together fewer than the buffers |
| `CommitBuffers.MkfsLog` | xv6-riscv/kernel/log.c:178-203 | With the log that mkfs makes, a commit that nobody disturbs always finds a buffer, and one beside a single reader need not; with a larger log not even the first |
| `CommitBuffers.NoBufferLeft` | xv6-riscv/kernel/file.c:106-125 | The run that shows it, for every size of transaction: three operations log blocks, readers that are in no operation hold the other buffers, and the commit finds none for its first log block |
| `GroupCommit.GroupCommitSafe` | xv6-riscv/kernel/log.c:126-175 | Over every interleaving: an operation's log_writes all land in one commit, which has been made once no operation is open and no commit runs; no operation is open while a commit runs (so the "log.committing" panic is unreachable), lh.n plus unused budgets stays within LOGSIZE, and nobody sleeps in begin_op whom it would admit |
| `GroupCommit.Outcomes` | xv6-riscv/kernel/log.c:126-175 | begin_op opens an operation or puts its caller to sleep by the admission test; log_write leaves the block in the log and counts it against its operation only if it is new there; the last end_op, and no other, starts a commit; a commit empties the log |
| `GroupCommit.BudgetNeverPanics` | xv6-riscv/kernel/log.c:214-235 | With a log region of more than LOGSIZE blocks, a new block within its operation's budget never meets "too big a transaction" |
| `GroupCommit.PanicsExactlyWhenLogTooSmall` | xv6-riscv/kernel/log.c:214-235 | Some in-budget run meets that panic if and only if the log region has at most LOGSIZE blocks, which is what mkfs makes |
| `GroupCommit.AbsorbedPanic` | xv6-riscv/kernel/log.c:214-235 | With a large enough region, a log_write inside an operation panics exactly when the log is full, and then every open operation has spent its whole budget |
| `GroupCommit.AbsorbedPanicHappens` | xv6-riscv/kernel/log.c:214-235 | A run in which re-logging a block that is already in the log panics, because the guard comes before absorption |
| `GroupCommit.UnusedSplit` | xv6-riscv/kernel/log.c:126-142 | The total of unused reservations is the sum over operations, independent of order |
| `Bcache.Bcache.constructor` | xv6-riscv/kernel/bio.c:36-53 | After binit the ring holds all NBUF buffers, newest first, prev and next inverse |
| `Bcache.Bcache.Lookup` | xv6-riscv/kernel/bio.c:58-89 | Finds the buffer of a block if and only if it is cached |
| `Bcache.Bcache.Victim` | xv6-riscv/kernel/bio.c:58-89 | Picks the unreferenced buffer least recently moved to the front, or reports that all are referenced |
| `Bcache.Bcache.Bget` | xv6-riscv/kernel/bio.c:58-89 | Cached, recycled or "no buffers" exactly when each applies; no block is ever cached twice; only the returned buffer changes |
| `Bcache.Bcache.Brelse` | xv6-riscv/kernel/bio.c:116-137 | The last reference moves the buffer, and no other, to the front; the ring stays a permutation of all buffers |
| `Bcache.Bcache.ToFront` | xv6-riscv/kernel/bio.c:116-137 | The six pointer assignments remove one element and put it in front of the others in their old order |
| `Bcache.Bcache.Bpin` | xv6-riscv/kernel/bio.c:139-144 | Only the reference count of one buffer changes |
| `Bcache.Bcache.Bunpin` | xv6-riscv/kernel/bio.c:146-151 | Drops the pin without reordering the list |
| `Bcache.Unlink` | xv6-riscv/kernel/bio.c:116-137 | Taking an element out keeps prev and next inverse around the remaining ring |
| `Bcache.InsertFront` | xv6-riscv/kernel/bio.c:36-53 | Inserting behind the head keeps prev and next inverse |
| `Bcache.MoveFrontRecency` | xv6-riscv/kernel/bio.c:116-137 | List order stays the order of last move to the front |
| `Bcache.Oldest` | xv6-riscv/kernel/bio.c:58-89 | The last unreferenced element of the list is the unreferenced one moved longest ago |
| `FsModel.AddressesDistinct` | xv6-riscv/kernel/fs.c:382-421 | No two block addresses of any inodes, direct or through indirect blocks, are equal, and each named block is marked used |
| `FsModel.UsedCount` | xv6-riscv/kernel/fs.c:65-105 | The number of used bits is the metadata blocks plus the owned blocks |
| `Bitmap.PutTest` | xv6-riscv/kernel/fs.c:65-105 | Setting or clearing one bit of a byte changes that bit alone |
| `Bitmap.TestIs` | xv6-riscv/kernel/fs.c:64-86 | The bit that balloc tests is the binary digit of the byte |
| `Bitmap.PutBitLaw` | xv6-riscv/kernel/fs.c:65-105 | Setting or clearing one bit of a bitmap block changes that bit alone |
| `Fs.Fs.Balloc` | xv6-riscv/kernel/fs.c:65-88 | Returns the lowest free block, zeroed and marked, or 0 exactly when all are used |
| `Fs.Fs.Bfree` | xv6-riscv/kernel/fs.c:91-105 | Clears the mark of a used block; the "freeing free block" panic occurs exactly for an unmarked one |
| `Fs.Fs.Bmap` | xv6-riscv/kernel/fs.c:382-421 | Returns the block of a file position, allocating missing blocks and the indirect block; every other slot of every inode, every byte of every file and every owner is kept, 0 comes back only when the disk is full, and a block that was missing is logged |
| `Fs.Fs.BmapIndirect` | xv6-riscv/kernel/fs.c:395-418 | The same through the indirect block |
| `Fs.Fs.Writei` | xv6-riscv/kernel/fs.c:505-539 | Replaces exactly the bytes off..off+r of the file, sets its size to the maximum, leaves every other file's bytes and inode and every block's owner alone. -1 comes back exactly for a bad offset or length; otherwise r is the number that the state before the call determines (`GetsIn`): up to the step with the byte that cannot be copied in, if the file's own blocks and the free ones reach that far, else all, else up to the first step for which no block is left. A buffer differs from what was logged if and only if the write gets to the failing byte in the middle of a step, and it is in the log all the same if and only if its block is new or was logged before. The disk changes by logged writes only, at most MAXOPBLOCKS blocks for a chunk of filewrite |
| `Fs.Outcome` | xv6-riscv/kernel/fs.c:505-539 | How the loop of writei ended determines how far the state before the call let it get, and conversely when a buffer is left changed and not logged |
| `Fs.WriteInside` | xv6-riscv/kernel/fs.c:505-539 | A write to bytes that the file has already gets all of them in, or stops in the step with the failing byte, whatever is free |
| `Fs.CommitsHolds` | xv6-riscv/kernel/log.c:178-191 | A commit copies the buffers of logged blocks, with what a failed copy left in them; after one writei those bytes lie past the end of the file, and the committed disk holds every inode and the contents of every file as writei left them |
| `Fs.CommitsSound` | xv6-riscv/kernel/log.c:178-191 | In a transaction of several operations the same commit leaves a consistent file system, wherever those bytes lie |
| `Fs.DirtyTurn` | xv6-riscv/kernel/fs.c:518-528 | A failed copy into a block that the file had changes a buffer that this writei has not logged |
| `Space.RoomLeft` | xv6-riscv/kernel/fs.c:65-88 | The number of blocks that balloc can still hand out is the data blocks less the owned ones, and it is zero exactly when the disk is full |
| `Space.GrowthCount` | xv6-riscv/kernel/fs.c:382-421 | A file that grew has cost one block for each needed slot that is no longer empty, indirect block included |
| `Space.WasReached` | xv6-riscv/kernel/fs.c:516-520 | If the blocks of the bytes up to p are there after a write, the free blocks sufficed for those that were missing before it |
| `Space.NotReached` | xv6-riscv/kernel/fs.c:516-520 | If the disk is full after it and the block of byte p is not there, they did not |
| `Space.ReachesInside` | xv6-riscv/kernel/fs.c:516-520 | Inside a file every byte is reached, whatever is free |
| `Space.GetsInOnce` | xv6-riscv/kernel/fs.c:505-539 | The number of bytes that a write gets in is determined |
| `Fs.Fs.Readi` | xv6-riscv/kernel/fs.c:471-496 | Delivers exactly the requested slice of the file's bytes, cut at its size, or returns -1 exactly when a byte of it cannot be copied out, with exactly the bytes before that one delivered; nothing is allocated or logged |
| `Fs.UnloggedBytes` | xv6-riscv/kernel/fs.c:522-525 | After a copy that failed part of the way the file reads as if the bytes before the failing one had been written, though they were not reported; every other byte of every file reads as it was logged |
| `TenBlocks.UnreportedByte` | xv6-riscv/kernel/fs.c:522-525 | A write on a written-out image that reports nothing and keeps the old byte on the logged disk, while a reader sees the new one |
| `Fs.Fs.Itrunc` | xv6-riscv/kernel/fs.c:425-453 | The file is empty, exactly its blocks have lost their owner and their mark, no other file changed, no free block is freed, and the disk, inode block included, changed by logged writes only |
| `Fs.Fs.TruncDirect` | xv6-riscv/kernel/fs.c:431-436 | The direct blocks are released and only they |
| `Fs.Fs.TruncIndirect` | xv6-riscv/kernel/fs.c:438-449 | The indirect block and everything it names is released and only that |
| `Fs.Fs.Ialloc` | xv6-riscv/kernel/fs.c:198-219 | Claims the lowest inode that is free on the disk, empty, or 0 exactly when none is; its block is logged and no other file changes |
| `Fs.Fs.Iput` | xv6-riscv/kernel/fs.c:336-362 | The last reference to an unlinked inode frees it and all its blocks; otherwise nothing but the count changes |
| `Fs.Fs.Iupdate` | xv6-riscv/kernel/fs.c:225-241 | The inode block on the disk holds the in-memory inode, one block is logged, and no file's bytes and no ownership change by it |
| `Fs.FinishWrite` | xv6-riscv/kernel/fs.c:531-538 | After the size update the file's bytes are the old ones overwritten at the offset, and the file system is valid again |
| `Fs.LoggedBound` | xv6-riscv/kernel/file.c:148-175 | Data blocks, bitmap blocks, indirect block and inode of a chunk of at most three blocks add up to at most MAXOPBLOCKS, using that an unaligned first block is already mapped |
| `Fs.TenBlocksLogged` | xv6-riscv/kernel/file.c:148-175 | A write that logs a block the file had, its inode block and four new blocks marked in four different bitmap blocks has logged ten blocks |
| `TenBlocks.WriteTen` | xv6-riscv/kernel/file.c:148-175 | The bound is reached: on a written-out consistent image with one free block under each of four bitmap blocks, appending three blocks to a file that ends inside its twelfth block logs exactly MAXOPBLOCKS blocks |
| `TenBlocks.ImageSound` | xv6-riscv/kernel/fs.c:65-105 | That image is consistent: every block has one owner or is free as its bit says, inode blocks hold the inodes, files have no holes |
| `TenBlocks.LongFile` | xv6-riscv/kernel/fs.c:382-421 | On it, a file grown by three blocks owns all four blocks that were free |
| `Fs.Fs.BeginOp` | xv6-riscv/kernel/log.c:126-142 | A new transaction starts with nothing logged and remembers the file system, from which its logged writes must lead to the disk |
| `Fs.Fs.FreeBlock` | xv6-riscv/kernel/fs.c:425-453 | Freeing a block that no inode names any more never meets "freeing free block", keeps ownership, and logs its bitmap block |
| `FsModel.RecordWrite` | xv6-riscv/kernel/log.c:205-235 | Changing a block and logging it keeps the disk equal to what the logged writes, in order, make of the disk the operation began on |
| `FsModel.JournalInode` | xv6-riscv/kernel/fs.c:225-241 | Storing an inode in its block and logging the block keeps that, and replaces exactly one inode on the disk |
| `FsModel.StoredInode` | xv6-riscv/kernel/fs.c:225-241 | After the write of one inode the inode blocks hold that inode and all the others as before |
| `FsModel.InodeWriteKeeps` | xv6-riscv/kernel/fs.c:225-241 | Writing an inode block changes no ownership and no byte of any file |
| `FsModel.SameFileSystem` | xv6-riscv/kernel/fs.c:36-47 | A disk that agrees from the inode blocks on holds the same file system: the same inodes, the same owners and the same contents of every file, and is consistent again |
| `FsModel.StoredInodes` | xv6-riscv/kernel/fs.c:303-316 | The inodes of a mounted file system are exactly those that the inode blocks hold |
| `Dinode.PutInode` | xv6-riscv/kernel/fs.h:32-45 | An inode stored in the on-disk form reads back field by field, and the other fifteen inodes of the block read as before |
| `Dinode.Layout` | xv6-riscv/kernel/fs.h:32-45 | Every field of an inode is read from the bytes of the block where struct dinode has it: inode s from byte 64 s on, type, device numbers and link count two bytes each, size and addresses four, little-endian |
| `Dinode.ZeroInode` | xv6-riscv/kernel/fs.h:32-45 | A zeroed block holds sixteen free inodes |
| `FsModel.EmptyFileSystem` | xv6-riscv/kernel/fs.c:65-105 | A disk that marks exactly its metadata and whose inode blocks are zero is a consistent file system |
| `FsModel.InodePlace` | xv6-riscv/kernel/fs.h:41-45 | Inodes lie one after the other, 64 bytes each, from block inodestart on |
| `FsModel.UsedBit` | xv6-riscv/kernel/fs.h:47-51 | The bit of a block is bit b mod 8 of byte b / 8 of the bitmap blocks |
| `FsModel.WhichByte` | xv6-riscv/kernel/fs.c:382-421 | Byte p of a file is byte p mod 1024 of the block its inode names for it, directly for the first twelve blocks and by a little-endian word of the indirect block for the others |
| `FsModel.SpliceBytes` | xv6-riscv/kernel/fs.c:505-539 | Writing into one block of a file changes exactly the addressed bytes of that file |
| `FsModel.OtherFileBytes` | xv6-riscv/kernel/fs.c:505-539 | and no byte of any other file |
| `FsModel.ProgressDone` | xv6-riscv/kernel/fs.c:505-539 | A finished run of the write loop means the file's contents are overwritten by the bytes written |
| `FsModel.Attach` | xv6-riscv/kernel/fs.c:382-421 | Giving a block in transit to an empty slot keeps exclusive ownership |
| `FsModel.DetachIndirect` | xv6-riscv/kernel/fs.c:438-449 | Dropping an indirect block releases it and all blocks it names, and keeps exclusive ownership of the rest |
| `Operation.OperationAtomic` | xv6-riscv/kernel/log.c:126-235 | End to end: the commit of what an operation logged is cut after any write, recoveries are cut anywhere and one completes; the disk is then a consistent file system in which every inode and the contents of every file are as the operation left them, or every one is as it found them, according to whether the header got out |
| `Operation.EndOperation` | xv6-riscv/kernel/log.c:146-175 | The log_write calls of an operation reach the log without a panic, end_op commits, the disk holds what the operation made, and the device writes issued on the way are all or nothing in that sense at every point |
| `Operation.FinalBlocks` | xv6-riscv/kernel/log.c:178-191 | What the commit makes of every block: for a logged one its buffer as it is then, for any other what was there |
| `Operation.DurableChunk` | xv6-riscv/kernel/file.c:158-174 | begin_op, writei and end_op of one chunk of filewrite on the log: the file is overwritten as writei says, and at every crash point in between the recovered disk has the old or the new contents of every file |
| `Operation.DurableWrite` | xv6-riscv/kernel/file.c:148-175 | All of filewrite on the log, with the outcome of `FileWrite.File.Write`: wherever the device writes of all its commits are cut, and however often recoveries are cut, the file has in the end exactly as many chunks of the data at the offset as headers that commit are among the writes that got out, the last one as far as the write got, and every other file is as it was |
| `Operation.LandedNext` | xv6-riscv/kernel/file.c:148-175 | How many bytes that is, when the writes of whole chunks and of one more are cut anywhere |
| `Operation.CutNext` | xv6-riscv/kernel/file.c:148-175 | If that holds of the writes so far, it holds of those of one more chunk appended to them |
| `Operation.Mount` | xv6-riscv/kernel/fs.c:41-47 | fsinit on any disk with a well-formed log that recovers to a consistent file system: the mounted one has its inodes, read from the recovered inode blocks, its ownership and the contents of each of its files, on an idle log from which operations can start |
| `Operation.Reboot` | xv6-riscv/kernel/log.c:54-65 | After a commit cut anywhere and recoveries cut anywhere, fsinit mounts the file system as the operation left it or as it found it, according to whether the header got out |
| `Operation.LogFrom` | xv6-riscv/kernel/log.c:214-235 | A sequence of log_write calls from any point on leaves exactly the listed blocks with their last contents, and it panics if and only if the log is full before one of the calls |
| `Operation.RoomForAll` | xv6-riscv/kernel/log.c:214-235 | Calls that name fewer blocks in all than the log holds never find it full |
| `Operation.BuffersAreFinal` | xv6-riscv/kernel/log.c:205-235 | Committing the listed buffers makes of the disk exactly what all the logged writes, in order, make of it |
| `Operation.ListedBlocks` | xv6-riscv/kernel/log.c:225-233 | Each block that was logged is listed, once |
| `FileWrite.File.Write` | xv6-riscv/kernel/file.c:148-175 | The bytes that reach the file are a prefix of the data at the file offset, which advances over exactly them; their number is the one that the state before the call determines (`FileGetsIn`, over all chunks: the checks of writei for each, the blocks the file has and the disk has free, and the byte that cannot be copied in); n is returned exactly if all were written; a buffer is left changed and not logged if and only if the write gets to the failing byte in the middle of a step; and every operation on the way logged at most MAXOPBLOCKS blocks |
| `FileWrite.Turn` | xv6-riscv/kernel/file.c:156-174 | One chunk more: either all bytes up to its end are in and only blocks they need were taken, or the write ends here with exactly that outcome |
| `FileWrite.FileGetsInOnce` | xv6-riscv/kernel/file.c:148-175 | The number of bytes that filewrite gets in is determined |
| `FileWrite.File.WriteChunk` | xv6-riscv/kernel/file.c:158-166 | One chunk is one operation within the log's reservation: refused, with nothing changed, exactly when the checks of writei fail, otherwise with the exact outcome of writei; and what its commit puts on the disk holds every file as the chunk left it |
| `FileWrite.OverwriteTwice` | xv6-riscv/kernel/file.c:148-175 | Two consecutive chunks overwrite like their concatenation |
| `Transaction.Join` | xv6-riscv/kernel/log.c:126-142 | An operation joins the open transaction exactly if the log has room for it beside those outstanding; what it writes goes to the log after theirs, nothing goes to the disk, and one of its log_write calls panics exactly if the log is full before it |
| `Transaction.Leave` | xv6-riscv/kernel/log.c:146-175 | end_op of any but the last operation changes nothing on the disk; that of the last commits for all: wherever the commit and recoveries are cut, the recovered file system is as the first operation found it or as the last left it |
| `Transaction.TwoWriters` | xv6-riscv/kernel/log.c:126-175 | Two overlapping writes are both admitted, panic nowhere, write their bytes one after the other, and are committed together: a crash leaves both or neither |
| `Malloc.Heap.Malloc` | xv6-riscv/user/umalloc.c:63-90 | A block that has room for the bytes asked for after its header, and less than a unit to spare, leaves the free units and nothing else changes hands; memory is requested from sbrk exactly when no free block fits, at most once, and null is returned exactly when that fails; live blocks keep their size |
| `Malloc.Heap.Free` | xv6-riscv/user/umalloc.c:24-44 | Exactly the block's units become free; the ring stays address-sorted with one wrap and no two adjacent free blocks; no other live block is touched |
| `Malloc.Heap.Morecore` | xv6-riscv/user/umalloc.c:46-61 | At least the requested units (and at least 4096) become free, all inside one block |
| `Malloc.Heap.FindPlace` | xv6-riscv/user/umalloc.c:29-32 | The search for the insertion place ends, wherever it starts, at the predecessor in address order |
| `Malloc.Heap.Search` | xv6-riscv/user/umalloc.c:74-89 | One walk around the ring from freep ends and finds the first block that fits, if there is one |
| `Malloc.Heap.Take` | xv6-riscv/user/umalloc.c:76-84 | An exact fit leaves the ring, a larger block gives up its tail |
| `Malloc.Heap.LinkUpper` | xv6-riscv/user/umalloc.c:33-37 | Joining with or linking to the following block keeps all units accounted for |
| `Malloc.Heap.SwallowedByLower` | xv6-riscv/user/umalloc.c:38-40 | A block that starts where the preceding free block ends becomes part of it |
| `Malloc.Heap.LinkedFromLower` | xv6-riscv/user/umalloc.c:41-43 | Otherwise it is linked between its neighbours in address order |
| `Malloc.UnitsConserved` | xv6-riscv/user/umalloc.c:24-90 | Every unit obtained from sbrk is free or in use, never both, and the counts add up |
| `Malloc.RingInsert` | xv6-riscv/user/umalloc.c:24-44 | Inserting after the predecessor keeps the ring sorted with one wrap |
| `Malloc.RingRemove` | xv6-riscv/user/umalloc.c:63-90 | Unlinking the successor keeps the ring sorted with one wrap |
| `Malloc.TilesJoin` | xv6-riscv/user/umalloc.c:33-40 | Joining neighbours keeps the blocks an exact tiling of memory |
| `Malloc.TilesSplit` | xv6-riscv/user/umalloc.c:76-84 | Cutting a tail off keeps the blocks an exact tiling of memory |
| `VmModel.BottomIs` | xv6-riscv/kernel/vm.c:89-107 | A walk from a root arrives at a bottom-level table exactly when that table stands in the position the page number names |
| `VmModel.SetLeaf` | xv6-riscv/kernel/vm.c:147-176 | Writing one bottom-level entry changes the finite map the tables stand for at exactly one page of one address space |
| `VmModel.AddTable` | xv6-riscv/kernel/vm.c:89-107 | Hanging a zeroed table under an empty entry changes no translation |
| `VmModel.RemoveTable` | xv6-riscv/kernel/vm.c:282-298 | Removing an empty table and the entry that led to it changes no translation |
| `VmModel.IndexDigits` | xv6-riscv/kernel/riscv.h:374-376 | The indices of the three levels are the digits of the page number to the base 512, the highest first |
| `VmModel.OnePlace` | xv6-riscv/kernel/vm.c:89-107 | The table pages form disjoint trees: no two stand in the same position |
| `Vm.Memory.constructor` | xv6-riscv/kernel/kalloc.c:26-40 | kinit puts every page of the range on the free list once, last page first, and establishes the invariant |
| `Vm.Memory.Kalloc` | xv6-riscv/kernel/kalloc.c:68-82 | Hands out the head of the free list, a page held by nobody, or fails exactly when the list is empty |
| `Vm.Memory.Kfree` | xv6-riscv/kernel/kalloc.c:46-63 | The page goes to the head of the free list, which never holds a page twice |
| `Vm.Memory.Walk` | xv6-riscv/kernel/vm.c:89-107 | Arrives at the table for the page; without allocation, or when the table is there, it changes nothing and equals the lookup; with allocation it translates nothing new; the tables added are exactly those on the way that were missing, or, when memory has run out, some of them and not the last |
| `Vm.Memory.MapPages` | xv6-riscv/kernel/vm.c:147-176 | Maps consecutive pages to consecutive physical pages, and only those; it stops exactly at the first page that is mapped already, the remap panic, or at one whose tables it cannot get because memory has run out; the tables added are exactly those that the mapped pages need and that were missing; no pages at all is a panic |
| `Vm.Memory.Unmap` | xv6-riscv/kernel/vm.c:181-203 | Exactly the given pages lose their translation and, if asked, exactly their physical pages return to the allocator |
| `Vm.Memory.Create` | xv6-riscv/kernel/vm.c:207-216 | A new address space translates nothing and leaves the others alone |
| `Vm.Memory.Alloc` | xv6-riscv/kernel/vm.c:236-260 | On success exactly the pages that begin at or after the old size and before the new one are mapped in addition, to zeroed pages nobody held, with the right permissions; on failure every translation, every page's contents and every owner is as before, and at most as many pages are free as were asked for; it succeeds if and only if at least as many pages were free as the pages asked for and the table pages missing on their range |
| `Vm.Memory.Dealloc` | xv6-riscv/kernel/vm.c:266-278 | Exactly the pages that begin at or after the new size and before the old one are unmapped and freed |
| `Vm.Memory.Copy` | xv6-riscv/kernel/vm.c:316-344 | On success the child maps exactly the pages that begin below the size, on pages nobody held before, with equal contents and flags, and the parent is untouched; on failure everything is as before; it succeeds if and only if the free pages suffice, in the same sense |
| `Vm.Resized` | xv6-riscv/kernel/vm.c:236-278 | Growing and shrinking take an address space that maps exactly the pages of its bytes from one size to the other |
| `Vm.CoversBytes` | xv6-riscv/kernel/vm.c:236-278 | In such an address space every byte below the size is mapped, and none that is a page or more above |
| `Vm.Memory.Freewalk` | xv6-riscv/kernel/vm.c:282-298 | Exactly the table pages of the address space are freed; the "freewalk: leaf" panic is unreachable |
| `Vm.Memory.Free` | xv6-riscv/kernel/vm.c:302-308 | The free list gains exactly the address space's table pages and data pages, each once; other address spaces are untouched |
| `Vm.PagesConserved` | xv6-riscv/kernel/kalloc.c:46-82 | Free, table and data pages always add up to the allocator's memory |
| `VmTables.Verdict` | xv6-riscv/kernel/vm.c:236-260 | From the pages that are free before and after, and where tables have been added, it follows whether the free pages were enough for the new pages and the tables missing |
| `VmTables.MissingIs` | xv6-riscv/kernel/vm.c:89-107 | A table page is missing in a position if and only if the walk for a page below it does not get to that level |
| `VmTables.ThreeEach` | xv6-riscv/kernel/vm.c:89-107 | Three free pages for each page asked for are always enough |
| `VmTables.GrewNext` | xv6-riscv/kernel/vm.c:147-176 | The tables for some pages and then those for the next one are the tables for all of them |
| `Vm.PagesCounted` | xv6-riscv/kernel/kalloc.c:46-82 | There are as many table pages as positions in which tables stand, and with the free and the data pages they make up the allocator's memory |
| `Vm.Isolation` | xv6-riscv/kernel/vm.c:147-176 | Two translations never share an allocator page, and a mapped page is neither free nor a page table |
| `Vm.FreshStep` | xv6-riscv/kernel/vm.c:236-260 | Adding one page keeps the property that removing the added pages restores the previous map, contents and owners |
| `PipeModel.PipeRun` | xv6-riscv/kernel/pipe.c:58-130 | Over every interleaving of writers, readers, closes and kills: bytes taken are a prefix of bytes stored, at most PIPESIZE wait, a sleeping writer has a full readable pipe, a sleeping reader a pipe that can still be written; and without a forgetful write no reader sleeps beside unread bytes |
| `PipeModel.LostExactlyWhenForgotten` | xv6-riscv/kernel/pipe.c:76-103 | A step leaves a reader asleep beside unread bytes if and only if it is a write that is killed after storing some bytes and before its end while a reader sleeps |
| `PipeModel.WakeupLost` | xv6-riscv/kernel/pipe.c:83-87 | Two steps from a new pipe that lose a wakeup that way |
| `PipeModel.FreedPipeHasNoSleepers` | xv6-riscv/kernel/pipe.c:58-74 | When both ends are closed nobody is asleep on the pipe |
| `PipeModel.EarlyReturn` | xv6-riscv/kernel/pipe.c:83-87 | pipewrite returns -1 exactly when the read end is closed or the kill comes before the loop ends by itself, and only then wakes nobody |
| `PipeModel.WriteEffect` | xv6-riscv/kernel/pipe.c:76-103 | The stored bytes grow by exactly the written slice, whose length is reported |
| `PipeModel.WriteOutcome` | xv6-riscv/kernel/pipe.c:76-103 | From the state before: the writer goes to sleep if and only if the pipe can be read, fills up before the bytes are in, and neither a kill nor an unreadable byte comes first; it then has filled the pipe; and a return other than -1 is the whole length or the index of the unreadable byte |
| `PipeModel.ReadOutcome` | xv6-riscv/kernel/pipe.c:105-130 | From the state before: the reader goes to sleep if and only if the pipe is empty, may still be written and the reader is not killed, returns -1 if and only if it is then killed, and otherwise gets what waits, up to the number wanted or the byte it cannot copy out |
| `PipeModel.ReadEffect` | xv6-riscv/kernel/pipe.c:105-130 | The read loop reports as many bytes as are wanted, present and can be copied out, and takes them in order; it takes one more than it reports if and only if a byte waits that it cannot copy out |
| `PipeModel.ByteLost` | xv6-riscv/kernel/pipe.c:105-130 | piperead as a whole removes more bytes than it reports if and only if a byte waits at the position that cannot be copied out |
| `PipeModel.ByteLostHappens` | xv6-riscv/kernel/pipe.c:120-126 | Two steps from a new pipe after which a byte is gone that no read reported |
| `Pipe.Ring.Write` | xv6-riscv/kernel/pipe.c:76-103 | The ring with its wrapping counters does exactly what the unbounded history does, and sleeps, fails or returns as that says from the state before |
| `Pipe.Ring.Read` | xv6-riscv/kernel/pipe.c:105-130 | The same for reading; the bytes delivered are the next bytes of the history |
| `Pipe.Ring.Close` | xv6-riscv/kernel/pipe.c:58-74 | Closes one end, wakes the other side, and reports when the pipe is to be freed |
| `Pipe.Counters` | xv6-riscv/kernel/pipe.c:90-97 | 32-bit wrap-around of the counters is invisible to the full and empty tests and to the ring index |
| `ProcModel.ProcessRun` | xv6-riscv/kernel/proc.c:352-605 | In every state of every interleaving of fork, exit, wait, kill and scheduling steps: parents are live and have smaller pids, pids are distinct, nobody asleep in wait has a zombie child, and each exit status is held by its zombie or was collected once |
| `ProcModel.StepKeepsInv` | xv6-riscv/kernel/proc.c:352-605 | Each step keeps that invariant |
| `ProcModel.DescendsFromInit` | xv6-riscv/kernel/proc.c:456-467 | Following parent links from any live process or zombie ends at init |
| `ProcModel.StatusCollectedOnce` | xv6-riscv/kernel/proc.c:560-605 | A status is handed out at most once, is the one the process exited with, and until then its zombie keeps it |
| `ProcModel.ReparentTable` | xv6-riscv/kernel/proc.c:456-467 | Passing children to init keeps the tree and leaves the exiting process childless |
| `ProcModel.ReparentWaiters` | xv6-riscv/kernel/proc.c:456-467 | The two wakeups leave neither init nor the parent asleep beside a zombie child |
| `ProcModel.ExitEndStep` | xv6-riscv/kernel/proc.c:545-549 | Turning into a zombie under wait_lock keeps the invariant |
| `ProcModel.CollectStep` | xv6-riscv/kernel/proc.c:571-590 | Freeing a collected child keeps the invariant |
| `Proc.Table.Wakeup` | xv6-riscv/kernel/proc.c:783-797 | Exactly the sleepers on the channel, the caller aside, become runnable |
| `Proc.Table.ExitBegin` | xv6-riscv/kernel/proc.c:542-543 | The loops of reparent and wakeup make exactly the table change of the exit step, so the call is that step of the transition system |
| `Proc.Table.Reparent` | xv6-riscv/kernel/proc.c:456-467 | Every child of p passes to init, which is woken exactly if there was one |
| `Proc.Table.Allocproc` | xv6-riscv/kernel/proc.c:162-206 | The first unused slot gets the next pid, or the table is full; the call is the allocation step of the transition system |
| `Proc.Table.Wait` | xv6-riscv/kernel/proc.c:560-605 | Frees the first zombie child and returns its pid and status; otherwise reports a failed copy, no children or a kill, or sleeps, exactly when each applies; each outcome is a step of the transition system or changes nothing |
| `Proc.Table.Kill` | xv6-riscv/kernel/proc.c:802-821 | The first slot with the pid is marked and woken from sleep; nothing else changes; the call is the kill step of the transition system |
| `Virtio.VirtqueueRun` | xv6-riscv/kernel/virtio_disk.c:156-327 | In every state of every run, under any completion order: every descriptor is free or in exactly one three-element chain, at most two requests are in flight, and neither ring loses an unread entry |
| `Virtio.AtMostTwo` | xv6-riscv/kernel/virtio_disk.c:201-213 | At most two requests are in flight |
| `Virtio.RingRoom` | xv6-riscv/kernel/virtio_disk.c:215-327 | At most two entries of either ring are unread, so none is overwritten however often the 16-bit indices wrap |
| `Virtio.Disk.Post` | xv6-riscv/kernel/virtio_disk.c:215-281 | Posts a request in three free descriptors, or sleeps with nothing taken exactly when two requests are in flight |
| `Virtio.Disk.Alloc3` | xv6-riscv/kernel/virtio_disk.c:201-213 | Three different free descriptors, or none taken because fewer than three are free |
| `Virtio.Disk.DeviceFetch` | xv6-riscv/kernel/virtio_disk.c:267-275 | The entry the device reads is the one that was posted, and its chain still describes the request |
| `Virtio.DeviceSees` | xv6-riscv/kernel/virtio_disk.c:237-264 | Read by the rules of the standard, a chain is a header, the buffer, device-writable exactly for a read request, and the status byte |
| `Virtio.Disk.DeviceReport` | xv6-riscv/kernel/virtio_disk.c:215-292 | Any fetched request may be reported next, with any status; the used ring keeps unseen entries in place |
| `Virtio.Disk.Interrupt` | xv6-riscv/kernel/virtio_disk.c:294-327 | Sees every reported request and clears exactly their buffers; it panics exactly at the first one whose status is not zero |
| `Virtio.Disk.Finish` | xv6-riscv/kernel/virtio_disk.c:287-291 | Frees exactly the three descriptors of a finished request and wakes the waiters |
| `Virtio.Disk.FreeChain` | xv6-riscv/kernel/virtio_disk.c:185-197 | Following next frees the three descriptors of the chain once each; both panics of free_desc are unreachable |
| `Virtio.PostingOk` | xv6-riscv/kernel/virtio_disk.c:215-281 | Posting keeps every descriptor free or in exactly one chain, every buffer in at most one request, and both rings intact |
| `Virtio.SeeingOk` | xv6-riscv/kernel/virtio_disk.c:294-327 | The next used entry names a posted request and its buffer; handling it, if its status is zero, keeps every chain and both rings intact and releases that buffer alone |
| `Virtio.ReportingOk` | xv6-riscv/kernel/virtio_disk.c:215-292 | A completion in any order keeps both rings intact |
| `Virtio.FreeingOk` | xv6-riscv/kernel/virtio_disk.c:185-197 | Taking a finished chain apart keeps the other chains |
| `Virtio.MoreToSee` | xv6-riscv/kernel/virtio_disk.c:307-324 | The 16-bit index comparison is true exactly while a report is unseen |
| `Shell.ParseCmd` | xv6-riscv/user/sh.c:328-343 | A line is parsed exactly when it is well formed, into the command that the grammar derives; then every token is accounted for once, words keep their order, argument lists fit argv, and after NUL termination each stored pointer reads back its word |
| `ShellGrammar.OneCommand` | xv6-riscv/user/sh.c:345-447 | The grammar is unambiguous: no stretch of a line stands for two commands, whatever way its words, redirections, bars, ampersands, semicolons and parentheses could be put together |
| `ShellGrammar.LineAgree` | xv6-riscv/user/sh.c:345-360 | Of two lines derived from the same place, both are the same or one goes on where the other ends, with a character that cannot follow a line |
| `ShellGrammar.PartsAgree` | xv6-riscv/user/sh.c:416-447 | The same for words and redirections |
| `ShellLanguage.Accepted` | xv6-riscv/user/sh.c:328-343 | Every line for which the grammar derives a command is well formed |
| `ShellLanguage.ParsedExactly` | xv6-riscv/user/sh.c:328-343 | So the parser gives a command for a line if and only if the grammar derives that command |
| `Shell.ParseLine` | xv6-riscv/user/sh.c:345-360 | A line of the grammar, pipelines joined by ampersands and semicolons, agreeing with the left-to-right reading of its tokens |
| `Shell.ParsePipe` | xv6-riscv/user/sh.c:362-373 | A pipeline of the grammar: the first command, and what follows the bar as its right side |
| `Shell.ParseSimple` | xv6-riscv/user/sh.c:416-447 | A simple command of the grammar, words and redirections up to a separator, fewer than MAXARGS words, or a panic exactly where no reading of the line succeeds |
| `Shell.ParseBlock` | xv6-riscv/user/sh.c:400-414 | A block of the grammar, a parenthesized line and the redirections around it; a missing parenthesis panics exactly where no reading succeeds |
| `Shell.ParseRedirs` | xv6-riscv/user/sh.c:375-398 | Each redirection keeps the operator that its characters spell and its file, the last one outermost; a missing file panics |
| `Shell.GetToken` | xv6-riscv/user/sh.c:266-309 | The loops deliver the token and the position the lexical definition gives |
| `Shell.Peek` | xv6-riscv/user/sh.c:311-321 | Skips white space and tests the next character |
| `Shell.Nulterminate` | xv6-riscv/user/sh.c:450-494 | A NUL is written after every stored string and nowhere else |
| `Shell.StringsAreItems` | xv6-riscv/user/sh.c:450-494 | Those strings are the words and the files of redirections that the command accounts for |
| `Shell.EndsOutside` | xv6-riscv/user/sh.c:450-494 | The end of one word is never inside another |
| `Shell.StringsAreSpans` | xv6-riscv/user/sh.c:416-447 | Every string a parsed command points to is a whole word of the line |
| `Grep.Match` | xv6-riscv/user/grep.c:72-82 | Returns 1 exactly when the text matches the language of the pattern |
| `Grep.MatchHere` | xv6-riscv/user/grep.c:85-96 | True exactly when a prefix of the text (all of it under a final $) is in the language of the parsed pattern |
| `Grep.MatchStar` | xv6-riscv/user/grep.c:99-106 | True exactly when some run of fitting characters is followed by a match of the rest |
| `Grep.ParsePrinted` | xv6-riscv/user/grep.c:85-96 | A pattern string is read as items and an end mark that are written as that string, with every star taken to the character before it and a final $ to the end mark |
| `Grep.OneReading` | xv6-riscv/user/grep.c:85-96 | There is no other such reading |
| `Grep.OneItem` | xv6-riscv/user/grep.c:85-106 | A dot stands for any character, every other character for itself, and starred for any number of them |
| `Grep.SomewhereIsSubstring` | xv6-riscv/user/grep.c:72-82 | An unanchored match means a substring, a suffix under a final $, in the language |
| `Grep.HereStar` | xv6-riscv/user/grep.c:99-106 | A starred character takes any number of characters it fits |
| `Grep.HereOne` | xv6-riscv/user/grep.c:85-96 | A single item takes one fitting character |
| `Calendar.Convert` | xv6-riscv/kernel/sysutil.c:58-104 | For every 64-bit time both loops end, and the fields are a valid date whose Seconds Since the Epoch, by the POSIX formula, is the given time, if and only if the number of days fits an int |
| `Calendar.TakeYears` | xv6-riscv/kernel/sysutil.c:66-76 | The day number splits into a year and a day within it; from a negative one nothing is taken |
| `Calendar.TakeMonths` | xv6-riscv/kernel/sysutil.c:83-89 | The day splits into a month below 12 and a day within it; from a negative one nothing is taken |
| `Calendar.NextYear` | xv6-riscv/kernel/sysutil.c:66-76 | The POSIX leap-day terms grow by one day exactly after a leap year |
| `Calendar.DaysBefore` | xv6-riscv/kernel/sysutil.c:60-63 | The table of month lengths gives the days before each month of the usual closed form |
| `Calendar.OrderOfDates` | xv6-riscv/kernel/sysutil.c:58-104 | An earlier date is an earlier time |
| `Calendar.Inverse` | xv6-riscv/kernel/sysutil.c:58-104 | The conversion is injective and strictly monotone: times and valid dates correspond one to one and in order |
| `Sched.Cpu.ScanBest` | xv6-riscv/kernel/proc.c:643-672 | FCFS picks the lowest ctime, priority mode the greatest priority, and of equal ones the lowest slot, among the processes seen RUNNABLE; locks are taken in ascending order and exactly the chosen one is held at the end, with noff 1 |
| `Sched.Cpu.ScanFirst` | xv6-riscv/kernel/proc.c:630-640 | Round robin picks the first RUNNABLE slot and ends holding only its lock |
| `Sched.Cpu.Acquire` | xv6-riscv/kernel/spinlock.c:21-43 | Nests interrupt disabling: noff counts the locks held and interrupts are off while any is |
| `Sched.Cpu.Release` | xv6-riscv/kernel/spinlock.c:46-72 | Interrupts come back exactly when the last lock is released and they were on before the first |
| `Sched.Cpu.PushOff` | xv6-riscv/kernel/spinlock.c:88-97 | Remembers the interrupt state only at the outermost level |
| `Sched.Cpu.PopOff` | xv6-riscv/kernel/spinlock.c:99-110 | Restores it only at the outermost level; its panics are unreachable from Release |
| `Sched.OneCpuEach` | xv6-riscv/kernel/proc.c:674-723 | In every state of every run from boot no process is on two CPUs, even while it is giving one up, though slots are freed and used again |
| `Sched.StepKeepsInv` | xv6-riscv/kernel/proc.c:618-723 | Each step of scanning, choosing, switching, waking, creating and freeing keeps that, because the state changes only under the process lock |
| `Sched.YieldReturns` | xv6-riscv/kernel/proc.c:640-723 | In every FCFS run on one CPU, when the running process has only yielded, the next choice is the same process if and only if the scan sees no process with an earlier (ctime, slot) that became runnable since the scheduler last looked at it |
| `Sched.NewlyMeans` | xv6-riscv/kernel/proc.c:640-655 | Became runnable since the scheduler last looked, said of the events: some wakeup or fork made it runnable, and no scan passed it and no choice was made over it since |
| `Sched.RunKeepsInv` | xv6-riscv/kernel/proc.c:618-723 | The invariant holds in every state of every run from boot |

## Left out

- Directories, path lookup, link counts and the system calls above `readi` and `writei`; they would dwarf the rest and reuse its results.
- The super block's own decoding and its magic number: its fields are a record, and the log region lies below the inode blocks, as mkfs lays it out.
- Concurrency inside one inode: `Fs` runs under the inode's lock, one operation at a time; `Storage` and `GroupCommit` carry the concurrency below it.
- Interleaving inside a transaction: the operations of `Transaction` overlap, but each makes its changes at one go; finer interleavings are in `Storage` and `GroupCommit`, on blocks.
- Storage.StepKeepsInv: a process logs what it has changed before it releases the buffer, as all callers of `bread` do but `writei` after a failed copy; that case is in `Fs`, `Operation` and `Transaction`.
- Device and inode caches of `fs.c` (`iget`, `ilock`): reference counts are a parameter of `Iput`.
- Kernel page table, `copyin` and `copyout`, trap entry, context switch, interrupt controller and serial line: hardware.
- `wait_stat_internal` and the scheduling benchmark counters of `proc.c`.
- Round-robin fairness: the scan restarts at slot 0, so there is none to state.
- Memory-ordering fences.
- Process ids and creation times do not wrap.
- `runcmd`, `getcmd`, the open modes and descriptors of redirections, and the command nodes' memory in `sh.c`; the parser's commands are values, and words that `parseexec` adds to a node already wrapped in redirections are collected before the node is built.
- The reading loop of `grep` itself.
- Fs.Fs.Writei: the stated bound on logged blocks is for the chunks of at most three blocks that filewrite makes; once a failed copy has left a buffer changed and not logged, nothing is said of later operations on that file system.
- Transaction.Join: as for `Fs.Fs.Writei`, an operation joins a file system in which no failed copy has left a buffer changed and not logged.
- Malloc.Heap.Morecore: new memory lies above all earlier memory and the list's base header below the heap; the byte count handed to `sbrk` does not overflow.
- Malloc.Heap.Search: the single loop of malloc appears as a search, a call for more memory and a second search.
- Vm.Memory.Freewalk: the page of a child table is freed after its parent's entry is cleared, where the source frees it just before.
- Vm.Memory.Alloc: the failure path unmaps the added pages directly, where the source calls `uvmdealloc` for the same pages.
- Vm.Memory.MapPages: addresses and sizes are counted in pages, so that the alignment panics do not arise, and permissions grant something, as those of every caller in the source do.
- Sched.Cpu.ScanBest: a scan sees each entry while it holds its lock; entries may change after their lock is released.
- Sched.YieldReturns: on one CPU, from the moment the scan keeps a process locked to its choice, interrupts are off and the table stands still; the rest of the scan is one step.

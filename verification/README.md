# A verified model of an xv6 fork with loop mounts and PID namespaces

Dafny models of the kernel's write-ahead log and its nested loop log, the buffer cache, the
block and inode layer, path resolution over mounts, page tables, sleep and wakeup, pipes and
PID namespaces, and of the user-level allocator, shell parser and mkfs.  `dafny verify
dfyconfig.toml` checks all of them.

| file | what it models |
|---|---|
| `Disk.dfy`, `RedoLog.dfy`, `LogRuns.dfy`, `WrittenRuns.dfy` | disk images, single block writes as crash points, the redo log on disk, runs of commits with the count erased and as written |
| `Log.dfy`, `LoopLog.dfy`, `LoopRuns.dfy` | the host log and the log of a mounted image as objects that write those blocks, and the image over runs of host commits |
| `LogOps.dfy` | begin_op, end_op and log_write by many processes at once |
| `Lists.dfy`, `Ring.dfy`, `Bio.dfy`, `LogCache.dfy` | lists of indices, the buffer cache and its list, and the log's view of it |
| `Volume.dfy`, `FileSys.dfy`, `FileWrite.dfy`, `TightWrite.dfy`, `Mkfs.dfy` | bitmap, block maps, file contents, what a write logs, a volume where it logs the most, the first image |
| `FreeList.dfy`, `Umalloc.dfy` | the free list of the user-level allocator, and malloc and free over it |
| `PageTable.dfy`, `Vm.dfy` | two-level page tables, kalloc, address spaces |
| `Mounts.dfy`, `Paths.dfy` | the mount table, inode references, namex |
| `Sleeping.dfy`, `SleepLock.dfy`, `Pipe.dfy` | sleep and wakeup step by step, and two users of it |
| `SleepProgress.dfy`, `PipeProgress.dfy` | that no run of either gets stuck |
| `Shell.dfy`, `ShellTree.dfy` | tokens, the grammar and the recursive-descent parser, termination of words, and what a tree says about its line |
| `Namespaces.dfy` | nsproxy and PID-namespace counts under fork, exit, wait and unshare |

A disk is a sequence of blocks and a block write is atomic; a crash loses all memory.  Hardware,
clocks and the scheduler are replaced by parameters or by the choice of the next step.  A kernel
panic that can happen is an outcome of the method; one that cannot is an assertion in its body.

## Findings

* `commit` writes the header a second time before it resets the count, so the log on disk is not
  erased, although the comment there says so.  With the count erased, every crash of every run of
  commits recovers to a prefix of the transactions (`LogRuns.RunAtomic`).  As written this is
  false (`LogRuns.WrittenOrderCounterexample`); `LogRuns.WrittenOrderExact` and
  `LogRuns.WrittenOrderLayout` say exactly when one commit is still atomic, and
  `WrittenRuns.KeptRunExact` when a whole run recovers to its committed transactions.  A mounted
  image inherits both: `LoopRuns.LoopRunAtomic`, `LoopRuns.LoopRunWritten`, and
  `LoopRuns.LoopCommitsMix` for two loop commits whose image recovers to neither state.
* `log_write` looks at the header's length before it takes the lock.  mkfs counts the header among
  the LOGSIZE log blocks, so the log has room for 29; `log_write` panics when it finds 29 blocks or
  more, which three admitted operations of ten blocks can reach (`LogOps.WriteGuardExact`,
  `LogOps.AdmittedOperationsPanic`), and two of them that pass at 28 can make the header in memory
  30 long (`LogOps.AdmittedOperationsOverflow`).  Such a header never reaches the disk: it pins all
  NBUF = 30 buffers, and the first `bread` of `write_log` finds none (`LogCache.HeaderLeavesNone`),
  so whatever `write_log` gets past fits the log (`LogCache.WriteLogThrough`).  A run keeps its headers below log.size if and
  only if every log_write that passes has room beside the header and the other writes past the
  guard (`LogOps.HeaderBelowFromBoot`).
* `begin_op` tests the loop log's reservations only while a loop is mounted.  After an unmount with
  loop blocks pending it can admit operations that together may log 31 of them
  (`LogOps.OverbookedReachable`); `LogOps.LoopBoundExact` says exactly when that happens.
* `commit` panics on 14 loop blocks, which begin_op admits, even with nothing else pending
  (`LoopLog.FourteenLoopBlocksPanic`).
* A writer killed while the pipe is full returns without waking readers, which can strand one
  (`Pipe.KilledWriterStrandsReader`).  Readers are safe, whoever is killed, exactly when no write
  is larger than the pipe (`Pipe.LargestWriteExact`).
* A PID-namespace slot that is still some namespace's ancestor can be reused.  A run of nine calls
  makes two namespaces each other's parent and ends in a panic (`Namespaces.ReuseCanPanic`).
  Reuse keeps the depths right if and only if no namespace in use has the slot as an ancestor or
  the new depth is the old one (`Namespaces.ReuseExact`); while they are, `set_up_pids` never
  panics.

## Model

| member | source | states |
|---|---|---|
| `RedoLog.HeaderRoundTrip` | log.c:98-145 | the entries read back from a header block are those written into it, and the block stays a sane header |
| `RedoLog.RecoverAt` | log.c:62-76 | block by block what recovery leaves: the log copy in a block the header names, the cleared header, every other block untouched |
| `RedoLog.RecoverDetermined` | log.c:164-172 | images with the same log area that differ at most in blocks the header names recover to the same image |
| `RedoLog.RecoveryIdempotent` | log.c:164-172 | recovery cut short after any write, any number of times, and restarted ends in the same image as one recovery |
| `RedoLog.CommitAtomic` | log.c:266-290 | from a cleared header, a crash after any write of a commit followed by recoveries that crash anywhere leaves the home blocks exactly as before up to the header write and exactly as after from it on |
| `LogRuns.RunAtomic` | log.c:266-290 | with the count erased at the end of each commit, a crash anywhere in any run of commits recovers to the state after exactly the transactions whose header had been written |
| `LogRuns.CrashPoints` | log.c:280-285 | over a log whose header still names an installed transaction, a crash during write_log recovers to the old image with the new log blocks patched into the old homes, and one from the header write on to the new image |
| `LogRuns.WrittenOrderExact` | log.c:280-288 | such a commit is atomic at every crash point if and only if no new log block overwrites data the old header would reinstall, or the one that does makes exactly the transaction's only change |
| `LogRuns.WrittenOrderLayout` | log.c:280-288 | for given blocks this holds for all data if and only if the header on disk is clear or the commit is of the single block the header names first |
| `LogRuns.WrittenOrderNoPrefix` | log.c:280-288 | committing one block and crashing after the first log block of the next commit recovers to no prefix of the two transactions, for any two different blocks and new data |
| `LogRuns.WrittenOrderCounterexample` | log.c:266-290 | the same on a 1000-block disk as mkfs lays it out |
| `WrittenRuns.QuietRunLands` | log.c:266-290 | a run of commits as written, each with at most a harmless overlap with the header before it, recovers from every crash, with any crashes during recovery, to the transactions whose header was written or to one more; with no overlap, exactly to them |
| `WrittenRuns.LoudRunMisses` | log.c:266-290 | a run with a commit that overlaps otherwise has a crash point that recovers to neither |
| `WrittenRuns.KeptRunExact` | log.c:266-290 | so the condition on the run is exact, in both forms |
| `Log.FsLog.LogWrite` | log.c:301-320 | panics exactly when the header has 30 blocks or more, or as many as the log has after its header, or no operation is outstanding; otherwise the header keeps distinct blocks outside the log and the buffer is pinned with the new data |
| `Log.FsLog.WriteLog` | log.c:233-246 | the writes it makes are exactly the copies of the pending transaction to the log blocks |
| `Log.FsLog.WriteHead` | log.c:133-145 | one write, of a header that names exactly the blocks in memory |
| `Log.FsLog.InstallTrans` | log.c:62-76 | the writes are exactly the log blocks copied to the homes the header names |
| `Log.FsLog.CopyAndCommit` | log.c:281-282 | the disk reached is the commit point: log copies in place and the header naming them, homes untouched |
| `Log.FsLog.InstallAndWriteHead` | log.c:283-284 | from the commit point the homes get the transaction and the header is written again with its count |
| `Log.FsLog.Commit` | log.c:280-288 | the writes are exactly the commit sequence of the pending transaction with the count kept in the last header; afterwards the homes hold the transaction and nothing is pending |
| `Log.FsLog.RecoverFromLog` | log.c:164-172 | from any formatted disk the result is the recovered image with a cleared header |
| `LoopLog.Loop.LoopdevWrite` | loopdev.c:84-101 | a loop block write becomes a host log_write of its backing block: the image seen through the cache changes in that block only, and the host disk not at all |
| `LoopLog.Loop.WriteLogLoop` | log.c:249-264 | applied to the image as seen, the writes are the copies of the loop transaction to the image's log |
| `LoopLog.Loop.WriteHeadLoop` | log.c:147-162 | applied to the image as seen, one header write |
| `LoopLog.Loop.InstallTransLoop` | log.c:78-95 | applied to the image as seen, the image's log copied to its homes |
| `LoopLog.Loop.CopyAndCommitLoop` | log.c:270-271 | the image as seen reaches its commit point |
| `LoopLog.Loop.InstallAndWriteHeadLoop` | log.c:272-273 | from there the image as seen gets the transaction and its header again |
| `LoopLog.Loop.CommitLoop` | log.c:269-274 | the image as seen becomes the committed one, in the host transaction only; it panics exactly when the host header with all blocks touched would reach its capacity |
| `LoopLog.Loop.Commit` | log.c:266-290 | loop commit, then host commit, on one host transaction that lists the image's log blocks, header and homes in order; the object is valid again if the loop is mounted or had nothing pending, and with the loop unmounted its pending blocks are forgotten |
| `LoopLog.TouchedCount` | log.c:249-274 | committing n loop blocks logs exactly 2n + 1 distinct host blocks |
| `LoopLog.LoopCommitFits` | log.c:307-340 | after the loop commit of n blocks over h pending host blocks the host header holds at most h + 2n + 1 blocks, and exactly that many when the h are different ones |
| `LoopLog.AbsorbTargets` | log.c:249-274 | with nothing else pending, the host header lists the image's log blocks, its header and its homes in that order |
| `LoopLog.FourteenLoopBlocksPanic` | log.c:183-190 | 14 loop blocks with an empty host header, within what begin_op admits, panic in commit on the log mkfs makes |
| `LoopRuns.ImageRunAtomic` | log.c:266-290 | with the count erased, a crash anywhere in a run of host commits, recovered with any crashes, leaves the image that exactly the committed host transactions make |
| `LoopRuns.LoopRunAtomic` | log.c:249-285 | so a loop commit that one of them carries is all there or not at all |
| `LoopRuns.ImageRunWritten` | log.c:266-290 | as written, the image is that of the committed host transactions or of one more when every host commit overlaps harmlessly, and exactly that of the committed ones when none overlaps |
| `LoopRuns.LoopRunWritten` | log.c:249-285 | so a loop commit is all or nothing there too |
| `LoopRuns.HostTxnCarries` | log.c:249-274 | the host transaction of a loop commit makes exactly the committed image |
| `LoopRuns.LoopCommitsMix` | log.c:266-290 | otherwise not: for any image and layouts, after a loop commit of one block, a crash after three log blocks of the next leaves homes that hold neither the first transaction alone nor both |
| `LoopRuns.LoopCommitsMixSomewhere` | log.c:266-290 | the same on a 1000-block host disk with a 100-block image |
| `LogOps.StepKeeps` | log.c:175-341 | every step of every process, with log_write's unlocked test and its locked insertion as two steps, keeps the counting invariant, and only the full-header panic is reachable |
| `LogOps.RunKeeps` | log.c:175-341 | so does every interleaving from boot |
| `LogOps.ReservationsHold` | log.c:175-341 | in every reachable state the outstanding counts agree, committing means no operation is in progress, the header plus unused reservations fits LOGSIZE outside commit (for the loop log, unless the transaction has an operation that the loop test begin_op skips while unmounted would have kept waiting), and end_op's and loopdev_write's panics have not happened |
| `LogOps.BeginExact` | log.c:180-190 | in every reachable state begin_op goes on if and only if no commit is on and, with ten blocks for each operation in progress and ten more, the host header fits 30 and, while a loop is mounted, the loop header too |
| `LogOps.BeginsWhileMounted` | log.c:175-193 | with a loop mounted two operations in progress let a third begin, and three keep a fourth waiting |
| `LogOps.LoopBoundExact` | log.c:175-193 | a run keeps the loop header plus unused reservations within LOGSIZE throughout if and only if each operation that began left room for its own |
| `LogOps.TestLeavesRoom` | log.c:183 | begin_op's loop test, or an empty loop header, leaves that room |
| `LogOps.TestIsRoom` | log.c:183 | and the test is exactly that condition while the operations in progress have logged no loop block |
| `LogOps.OverbookedReachable` | log.c:175-193 | without it the bound is broken: unmounting with a loop block pending, two begins and a mount reach 31 blocks that may be logged |
| `LogOps.WriteGuardExact` | log.c:307-310 | with the log mkfs makes, log_write within a reservation panics if and only if it finds 29 or 30 blocks in the header |
| `LogOps.GuardExact` | log.c:307-330 | for either log and any log size the guard panics if and only if it finds 30 blocks or log.size - 1, and for no other reason |
| `LogOps.LoopdevLogExact` | log.c:307-310 | the same for the log_write a commit makes through loopdev_write, which otherwise adds exactly its block |
| `LogOps.AdmittedOperationsPanic` | log.c:183-190 | such a panic is reachable by operations that begin_op admits and that keep to their reservations |
| `LogOps.AdmittedOperationsOverflow` | log.c:307-318 | operations that begin_op admits and that keep to their reservations can all end with 30 blocks in the header in memory, one more than the log has |
| `LogOps.OverflowExact` | log.c:307-318 | letting the writes past their guard finish overflows a header if and only if its blocks and theirs together reach log.size |
| `LogOps.HeaderBelowExact` | log.c:307-340 | a run keeps both headers below log.size, wherever it is cut and its pending writes finished, if and only if every log_write that passes its guard has room beside the header and the other writes past theirs |
| `LogOps.HeaderBelowFromBoot` | log.c:307-340 | so for every run from boot; and it holds of runs in which no log_write starts while another is between its test and its insertion |
| `Ring.Unlinked` | bio.c:140-141 | two link assignments take exactly one node out of the ring |
| `Ring.Pushed` | bio.c:50-54 | four link assignments put exactly one node at the front |
| `Bio.Cache.constructor` | bio.c:38-56 | the ring holds every buffer once, and readers see the device |
| `Bio.Cache.PushFront` | bio.c:50-54 | the ring gains the buffer at its front and nothing else |
| `Bio.Cache.Cached` | bio.c:68-76 | finds the buffer of a block, or shows that no buffer has it |
| `Bio.Cache.Spare` | bio.c:78-92 | finds the least recently used buffer that may be recycled, or shows that none may |
| `Bio.Recycled` | bio.c:82-86 | a buffer at rest and clean can be given to another block without changing what any reader sees |
| `Bio.Cache.Find` | bio.c:61-93 | gives the block's only buffer, or recycles the least recently used one that is neither referenced nor dirty; what readers see of any block is unchanged; panics exactly when the block has none and no buffer may be recycled |
| `Bio.Cache.Fill` | bio.c:97-110 | a buffer read in holds what readers of its block must see |
| `Bio.Cache.Bread` | bio.c:97-110 | returns the block's current data; every other buffer is untouched and the dirty ones stay the same with the same data; panics exactly when bget does |
| `Bio.Cache.Store` | log.c:297-301 | a holder's change of data changes what readers see of that block only |
| `Bio.Cache.MarkDirty` | log.c:320 | a logged buffer stays out of reach of recycling |
| `Bio.Cache.Bwrite` | bio.c:113-124 | the device gets the buffer's data, the buffer is clean, readers see no change |
| `Bio.Cache.Unlock` | bio.c:131-134 | a buffer at rest that is not dirty equals its device block |
| `Bio.Cache.Release` | bio.c:136-149 | the last reference moves the buffer to the front and the ring stays a permutation of all buffers |
| `Bio.Cache.MoveToFront` | bio.c:140-145 | the buffer moves to the front and all others keep their order |
| `LogCache.BreadRefines` | bio.c:97-110 | with the log's map of pinned blocks standing for the dirty buffers, reading a block that is logged or at rest gives what the log's own bread gives |
| `LogCache.LogWriteRefines` | log.c:313-321 | log_write on a buffer is one more block in that map |
| `LogCache.BwriteRefines` | bio.c:113-124 | bwrite is a write of the log's disk and one block less in the map |
| `LogCache.OthersRefine` | bio.c:61-93 | every other step leaves the map as it is, since bget recycles no dirty buffer |
| `LogCache.WriteLogReads` | log.c:233-246 | so write_log's bread of a block in the header gives the transaction's data |
| `LogCache.HeaderTakesAll` | param.h:10-12 | as many logged blocks as there are buffers make every buffer dirty |
| `LogCache.HeaderLeavesNone` | bio.c:78-92 | and leave bget none for a block that is not logged, such as a log block, whoever holds what |
| `LogCache.BreadForLog` | bio.c:61-110 | bread of a block of the log's device gives what the log sees of it, and panics exactly when the block is not cached and every buffer is referenced or dirty |
| `LogCache.CopyToLog` | log.c:238-245 | one turn of write_log through the cache writes the logged block's data to the log block and leaves the pinned blocks as they are |
| `LogCache.WriteLogThrough` | log.c:233-246 | write_log through the cache panics exactly when it has a block to copy and every buffer is dirty, so always with NBUF blocks in the header; otherwise the transaction fits the log and the device gets exactly its copies |
| `Volume.OwnedIsExact` | fs.c:57-96 | with an owner map, a data block's bit is set if and only if some slot names it, and no two slots name the same block |
| `Volume.GrowDirect` | fs.c:389-393 | a free block in the next direct slot keeps bitmap exactness, the absence of holes and every byte of every file |
| `Volume.GrowInd` | fs.c:397-399 | the same for a new indirect block |
| `Volume.GrowEntry` | fs.c:400-407 | the same for a new entry of the indirect block |
| `FileSys.FileSystem.Balloc` | fs.c:57-79 | takes the lowest free block, sets only its bit and zeroes only it; panics exactly when no block is free |
| `FileSys.FileSystem.Bmap` | fs.c:383-411 | gives the block of a mapped file block without any change, or maps the next one and keeps all file bytes; panics exactly when it has to map and fewer blocks are free than that takes |
| `FileSys.FileSystem.TakeDirect` | fs.c:389-393 | maps the next block of a short file and logs its bitmap block and itself |
| `FileSys.FileSystem.TakeInd` | fs.c:397-399 | adds the indirect block, changing no file byte |
| `FileSys.FileSystem.TakeEntry` | fs.c:400-407 | maps the next block of a long file and logs the indirect block too |
| `FileSys.FileSystem.WriteBlock` | fs.c:509-515 | one turn of writei adds exactly its bytes to what has been written |
| `FileSys.FileSystem.WriteAll` | fs.c:509-515 | after the loop all bytes are written, and the inode changed in memory only if the file needed more blocks; panics exactly when fewer blocks are free than the file needs more |
| `FileSys.FileSystem.Writei` | fs.c:492-522 | fails exactly for an offset past the end, a 32-bit overflow or a file over the limit, and otherwise panics exactly when fewer blocks are free than the file needs more; else the file is spliced with exactly the bytes, no other file changes, no holes appear, the disk inode equals the cached one, and what is logged is accounted for block by block |
| `FileSys.FileSystem.Readi` | fs.c:463-487 | returns exactly the bytes of the file in the range, cut at its end, and never allocates or logs |
| `FileSys.FileSystem.Bfree` | fs.c:82-96 | panics exactly when the bit is already clear; otherwise only that bit is cleared and its bitmap block logged |
| `FileSys.FileSystem.FreeDirect` | fs.c:425-430 | the bits cleared are exactly those of the direct blocks, what is logged is exactly their bitmap blocks, and bfree's panic cannot happen |
| `FileSys.FileSystem.FreeEntries` | fs.c:433-440 | the bits cleared are exactly those of the indirect block's entries and of the indirect block, what is logged is exactly their bitmap blocks, and bfree's panic cannot happen |
| `FileSys.FileSystem.Itrunc` | fs.c:418-446 | the file becomes empty, a bit is cleared exactly when its block was in one of the file's slots, what is logged is exactly the inode's block and the bitmap blocks of those bits, every other file keeps its bytes, and bfree's panic cannot happen |
| `FileWrite.WriteCost` | fs.c:492-522 | what a write logs is at most its data blocks, the bitmap blocks of what it allocates, the indirect block and the inode block |
| `FileWrite.ChunkCost` | file.c:127-138 | for a chunk of at most 1536 bytes at any offset inside the file that is at most MAXOPBLOCKS |
| `FileWrite.ChunkCostTight` | file.c:127-138 | a chunk of 1536 bytes written at byte 1 of the last block of a 12-block file logs exactly 10 distinct blocks when its four new blocks lie in four bitmap blocks |
| `TightWrite.FilledWereFree` | fs.c:383-411 | the blocks a write fills into slots were free before it and are all different |
| `TightWrite.FullOwned` | fs.c:57-96 | a 16384-block volume, full but for four blocks under four bitmap blocks, has an exact bitmap |
| `TightWrite.FullTidy` | fs.c:383-411 | and files without holes that have exactly the blocks they need |
| `TightWrite.TightChunk` | file.c:127-150 | on that volume a chunk is written and logs exactly MAXOPBLOCKS blocks |
| `FileWrite.WriteChunk` | file.c:136-150 | one chunk as an operation splices its bytes and logs at most MAXOPBLOCKS blocks; it panics exactly when too few blocks are free |
| `FileWrite.Filewrite` | file.c:117-156 | writes all the bytes if they fit, or else as many whole chunks as the largest file holds, or none from past the end; returns the count exactly when all are written, with the file spliced; panics exactly when fewer blocks are free than those bytes need; no operation logs more than MAXOPBLOCKS blocks |
| `Mkfs.Builder.constructor` | mkfs.c:98-115 | the blank image has exactly its metadata in use and empty files |
| `Mkfs.Builder.PickBlock` | mkfs.c:273-290 | gives the block of a file block, handing out the next free one if it has none, and one for the indirect block if that is missing, and keeps all file bytes; it fails exactly when those would lie past the end of the image |
| `Mkfs.Builder.AppendBlock` | mkfs.c:272-298 | one turn adds exactly its bytes to what has been appended, and takes exactly the blocks the file lacks; it fails exactly when those would lie past the end of the image |
| `Mkfs.Builder.Iappend` | mkfs.c:259-301 | the file grows by exactly the bytes, no other file changes, and blocks in use are those below freeblock, each owned once; it fails if and only if the file would pass the limit or the blocks it needs more the end of the image, and otherwise takes exactly those |
| `Mkfs.Builder.Balloc` | mkfs.c:241-255 | the bitmap block marks exactly the blocks handed out; refused exactly when they exceed one bitmap block |
| `Mkfs.ImageIsExact` | mkfs.c:241-255 | the finished image starts the kernel's invariant: each bit set if and only if the block is metadata or owned by exactly one slot, and files without holes |
| `FreeList.SearchStops` | umalloc.c:30-32 | free's search condition stops at exactly one place of the ring, the one where the block belongs in address order |
| `FreeList.FreeKeepsAscending` | umalloc.c:33-43 | after linking and joining the list is again ascending, disjoint and without touching neighbours |
| `FreeList.FreeKeepsChain` | umalloc.c:33-43 | the links form one ring through base over the new list |
| `FreeList.FreeKeepsUnits` | umalloc.c:33-43 | free units grow by exactly the block's size |
| `FreeList.TakeTailLive` | umalloc.c:78-82 | a block cut from the tail of a free one overlaps no live or free block |
| `FreeList.FreeKeepsLive` | umalloc.c:33-43 | the other live blocks stay apart from each other and from the new list |
| `FreeList.TakeWholeLive` | umalloc.c:76-77 | so does a free block taken whole |
| `Umalloc.Allocator.FindPlace` | umalloc.c:30-32 | the search halts, at the block's place |
| `Umalloc.Allocator.LinkIn` | umalloc.c:33-43 | the header fields become those of the coalesced list |
| `Umalloc.Allocator.Free` | umalloc.c:24-44 | the ring stays ordered and coalesced, the block leaves the live set, all other live blocks stay, and free plus live units equal what sbrk gave |
| `Umalloc.Allocator.Morecore` | umalloc.c:46-61 | on success the units asked for, at least 4096, are added to the list and a block large enough is at freep or after it; on failure nothing changes |
| `Umalloc.Allocator.Round` | umalloc.c:74-86 | one round finds a block that fits, or shows that none on the ring does |
| `Umalloc.Allocator.Take` | umalloc.c:75-85 | the block taken becomes live with the size asked for, and units are conserved |
| `Umalloc.Allocator.Malloc` | umalloc.c:63-90 | halts after at most one morecore, made only when no block fits; the result is a new live block of the size asked for, disjoint from all others, or null with the heap as it was because sbrk refused |
| `PageTable.AddTableOwned` | vm.c:44-53 | a new empty table changes no mapping and is owned once |
| `PageTable.SetUserOwned` | vm.c:71-73 | a frame mapped in the user half gets exactly one role |
| `PageTable.SetKernelOwned` | vm.c:71-73 | mappings in the kernel half own nothing |
| `PageTable.SetPteLook` | vm.c:71-73 | setting or clearing an entry changes the mapping of exactly its page |
| `PageTable.FreeUser` | vm.c:269-276 | unmapping a user page frees a frame with exactly that role and leaves every other mapping |
| `PageTable.SameSpace` | vm.c:35-55 | an address space whose own frames are untouched maps the same |
| `Vm.Machine.Kfree` | kalloc.c:59-77 | the free list gains exactly the frame and stays a list without repetition |
| `Vm.Machine.FreeRange` | kalloc.c:46-53 | exactly the frames of the range are added |
| `Vm.Machine.Kalloc` | kalloc.c:82-95 | gives the frame freed last, null exactly when none is free |
| `Vm.Machine.Walk` | vm.c:35-55 | no mapping changes; asked to allocate, it gives null exactly when the table is missing and no frame is free, and otherwise takes one frame for a missing table and none for one that is there; free plus owned frames stay the same |
| `Vm.Machine.MapOne` | vm.c:68-78 | exactly one page is mapped, or none; panics exactly when the page is mapped already, and otherwise fails exactly when its table is missing and no frame is free; takes exactly the frame of a missing table |
| `Vm.Machine.MapPages` | vm.c:60-80 | exactly the pages of the range are mapped, to consecutive frames; succeeds exactly when none of them is mapped and as many frames are free as tables are missing for them, and takes exactly those; panics exactly when the first page mapped already is reached |
| `Vm.Machine.MapKernel` | vm.c:128-134 | the rows of kmap are mapped, without a panic, exactly when 64 frames are free, and take 64 |
| `Vm.Machine.Setupkvm` | vm.c:118-136 | exactly the kernel's mappings and no user page; gives null, with every frame back, exactly when fewer than 65 frames are free |
| `Vm.KernelMaps` | vm.c:105-115 | page by page the kernel's half: memory below PHYSTOP at 0x80000, devices at themselves, no frame twice, nothing for the user, and exactly the text read-only |
| `Vm.Machine.GrowOne` | vm.c:234-246 | adds one zeroed page on a frame that was free, or changes no mapping; panics exactly when it has a frame and the page is mapped already, and otherwise succeeds exactly when a frame is free for the page and one for its table if that is missing; when it fails none is free |
| `Vm.Machine.Allocuvm` | vm.c:221-249 | adds exactly the pages up to the new size, zeroed and on frames that were free; succeeds if and only if the size is below the kernel, none of those pages is mapped and as many frames are free as there are pages and missing tables, and takes exactly that many; panics if and only if one of the pages is mapped and a frame is left when its turn comes; on failure exactly those pages are unmapped; free plus owned frames stay the same either way |
| `Vm.Machine.FreePage` | vm.c:269-276 | unmaps one page and gives its frame back |
| `Vm.Machine.Deallocuvm` | vm.c:255-279 | unmaps exactly the pages between the sizes, so the 4MB step passes over no mapped page, and gives each frame back once |
| `Vm.Machine.Freevm` | vm.c:283-298 | free frames become the free ones and all owned ones, each once; nothing outside is touched |
| `Vm.Machine.CopyOne` | vm.c:330-338 | gives the child one page with the parent's contents and flags on a frame of its own, exactly when frames are free for the page and for its table if that is missing; otherwise its frames are as they were |
| `Vm.Machine.Copyuvm` | vm.c:315-345 | equal contents and flags on the child's own frames; null, with every frame given back, if and only if fewer frames are free than the kernel half, the pages and their tables take, and exactly those are taken otherwise; panics if and only if a page below the size is not mapped and there were frames for all before it; the parent's mapping and pages are untouched |
| `Mounts.MountTable.constructor` | sysmount.c:13-23 | the list holds the root entry alone |
| `Mounts.MountTable.MntAlloc` | sysmount.c:25-40 | the first entry without references; panics exactly when all have some |
| `Mounts.MountTable.MntDup` | sysmount.c:42-48 | one more reference on an active entry |
| `Mounts.MountTable.MntPut` | sysmount.c:50-55 | one reference less; the list still holds exactly the entries with references if and only if its own was not the last |
| `Mounts.MountTable.Mount` | sysmount.c:101-112 | the list gains exactly one entry at its front and still holds exactly the entries with references |
| `Mounts.MountTable.Find` | sysmount.c:159-169 | the first matching entry; the panic for an active entry without references cannot happen |
| `Mounts.MountTable.FindPre` | sysmount.c:185-198 | finds the entry's predecessor; the panic for an entry missing from the list cannot happen |
| `Mounts.MountTable.Unlink` | sysmount.c:185-208 | exactly the chosen entry leaves the list, which stays finite, acyclic and ended by the root entry |
| `Mounts.MountTable.Umount` | sysmount.c:159-209 | removes the first entry of the device if the list holds its only reference; fails, changing nothing, exactly when the device has no entry or that one has other references |
| `Mounts.MountTable.MntLookup` | sysmount.c:222-241 | the newest entry over the inode, with one more reference, or null exactly when there is none |
| `Mounts.MountTable.GetMntPnt` | sysmount.c:245-260 | the mount point of the newest entry of the device |
| `Paths.SkipElem` | fs.c:606-629 | the next path element, clipped to DIRSIZ, and the position from which the other elements follow |
| `Paths.ElemsAre` | fs.c:606-629 | the elements of a path are all its longest stretches without a slash, in order, each cut at 14 characters |
| `Paths.FindEntryIs` | fs.c:535-559 | a number other than 0 is the answer if and only if it is that of the first entry in use with the name, and 0 if and only if there is none |
| `Paths.OverIs` | sysmount.c:222-241 | comparing inode pointers finds the newest mount over the same device and inode number, because cached inodes in use are unique |
| `Paths.StepStands` | fs.c:666-697 | from a place that is not covered and, in an image, mounted, one element leads to such a place again |
| `Paths.DownAndUp` | fs.c:666-697 | a name and then ".." lead back to the directory, also when the way down crosses into a mounted image and the way up out of it |
| `Paths.Vfs.Iget` | fs.c:242-273 | one more reference on the unique entry of the inode, or on the first free entry, which becomes it; panics exactly when every entry is in use and none is it |
| `Paths.Vfs.Iput` | fs.c:332-363 | one reference less, by a caller that does not hold the inode's lock |
| `Paths.Vfs.Ilock` | fs.c:288-313 | taken on an inode in use by a walk that holds no other |
| `Paths.Vfs.DirLookup` | fs.c:535-559 | the inode of the first entry in use with the name, with one more reference, or null exactly when no entry in use has it; panics exactly when that inode is not cached and no entry is free |
| `Paths.Vfs.CrossUp` | fs.c:667-676 | the reference moves from the image's root to the directory it covers |
| `Paths.Vfs.CrossDown` | fs.c:685-694 | a covered directory is exchanged for the root of the image over it; mount references end as they began; panics exactly when that root is not cached and has no room |
| `Paths.Vfs.Enter` | fs.c:678-697 | looks the name up and goes on into a mounted image, moving the one reference; the lock given back is never one it waits for |
| `Paths.Vfs.WalkOne` | fs.c:666-697 | one element is one step in the mount-composed tree, with one reference held throughout |
| `Paths.Vfs.Namex` | fs.c:635-708 | the result is the fold of those steps over the path's elements; one reference more on the inode returned and none elsewhere, mount references unchanged and no lock held on every exit; the walk never waits for its own lock; panics if and only if an inode of the walk is not cached and has no room, or a mount point crossed upwards is not a directory |
| `Paths.Vfs.Mount` | sysmount.c:84-113 | the composed tree gains exactly that mount and the mount point one reference; refused exactly over a root, and panics exactly when the table is full |
| `Paths.Vfs.Umount` | sysmount.c:159-209 | the composed tree loses exactly the newest mount of the device; fails exactly when there is none or it has references besides the list's |
| `Sleeping.StepKeeps` | proc.c:551-608 | every step of sleep, wakeup and the scheduler keeps the lock discipline and the pending-wakeup invariant |
| `Sleeping.NoLostWakeup` | proc.c:551-608 | in every interleaving, whoever is SLEEPING on a channel whose condition is true has a wakeup of it still to come from a process that is not asleep |
| `SleepLock.OneHolder` | sleeplock.c:22-42 | in every run at most one process holds the sleep-lock |
| `SleepLock.SleeperWaitsForHolder` | sleeplock.c:22-42 | with the spinlock free, a process asleep in acquiresleep waits for one that holds the lock |
| `SleepLock.MoveDisciplined` | sleeplock.c:22-32 | the code sleeps only after seeing the lock taken, with no wakeup owed |
| `SleepProgress.ScanToEnd` | proc.c:591-598 | a wakeup under way can go through the whole process table and give ptable.lock back |
| `SleepProgress.AlwaysObtainable` | sleeplock.c:22-42 | wherever a run has come to, every process waiting in acquiresleep can still get the sleep-lock: some continuation of the run ends with it as the owner |
| `Pipe.FillTests` | pipe.c:84-108 | with counters modulo 2^32 the code's tests are true exactly for an empty and a full ring |
| `Pipe.PutKeeps` | pipe.c:93 | a byte written into a ring that is not full is the next of the stream and overwrites none under way |
| `Pipe.GetKeeps` | pipe.c:116 | the byte read is the oldest not yet delivered |
| `Pipe.MoveDisciplined` | pipe.c:84-111 | the code calls sleep only after seeing its condition false under the lock, with no wakeup owed |
| `Pipe.StreamIsPrefix` | pipe.c:78-121 | in every interleaving the bytes delivered are a prefix of those accepted, with 0 to 512 under way |
| `Pipe.ReadReturns` | pipe.c:100-121 | a read returns the next bytes of the stream in one piece; it is short only if it emptied the pipe, and empty-handed only at the end of the stream |
| `Pipe.WriteReturns` | pipe.c:78-98 | a write that returns its count had all its bytes accepted in order |
| `Pipe.ReadGivesUp` | pipe.c:106-110 | a killed read returns -1 only when every byte accepted has been delivered and the write end is open, and takes none |
| `Pipe.WriteGivesUp` | pipe.c:85-89 | a write returns -1 only with bytes left to write and 512 under way, when it is killed or the read end is closed; the bytes it has written are in the stream in order |
| `Pipe.ReaderSleepsOnEmpty` | pipe.c:100-111 | unless a write of more than 512 bytes was killed on a full pipe, a reader asleep with the lock free has an empty pipe that can still be written, whoever else is killed |
| `Pipe.CutExact` | pipe.c:86-89 | the exception is exact: it applies to a run if and only if one of its moves is a write of more than 512 bytes that gives up on a full pipe because it is killed |
| `Pipe.WriterSleepsOnFull` | pipe.c:78-92 | a writer asleep with the lock free has a full pipe that can still be read |
| `Pipe.CloseShuts` | pipe.c:59-69 | a close shuts the end it was called for and only that |
| `Pipe.ShutForGood` | pipe.c:59-69 | an end that is shut stays shut in every run |
| `Pipe.ClosedEndStrandsNobody` | pipe.c:59-111 | after a close of the write end has released the lock the end is shut ever after, and with the lock free no reader sleeps, unless a write of more than 512 bytes was killed on a full pipe; after a close of the read end no writer sleeps |
| `PipeProgress.NoCallIsStuck` | pipe.c:59-121 | wherever a run has come to, it can be continued with nobody killed so that both locks are free and a given process has returned from its call or waits where it must, a read at an empty pipe open for writing or a write at a full one open for reading, unless a write of more than 512 bytes was killed on a full pipe |
| `Pipe.KilledWriterStrandsReader` | pipe.c:84-92 | for any write of more than 512 bytes there is a run in which its killed writer leaves a reader asleep beside a full pipe |
| `Pipe.LargestWriteExact` | pipe.c:78-98 | runs whose writes have at most n bytes never leave a reader asleep beside bytes or at the end of the stream, whoever is killed, if and only if n is at most 512 |
| `Shell.GetToken` | sh.c:265-308 | gives the next token of the line and a position from which the remaining tokens follow |
| `Shell.OneToken` | sh.c:276-300 | the token at a position, and where it ends |
| `Shell.Peek` | sh.c:310-320 | tells whether the next token starts with one of the characters, consuming only blanks |
| `Shell.ParseRedirs` | sh.c:374-397 | wraps one redirection around the command per pair of tokens consumed; it fails exactly where the parser on token lists does |
| `Shell.ParseArgs` | sh.c:424-445 | the tokens consumed are words and redirections, the command is the one they make, with fewer than MAXARGS arguments; it fails exactly where the parser on token lists does |
| `Shell.ParseExec` | sh.c:415-446 | the tokens consumed form a simple command or a block with that tree; it fails exactly where the parser on token lists does |
| `Shell.ParseBlock` | sh.c:399-413 | the tokens consumed are a parenthesised line and redirections with that tree; it fails exactly where the parser on token lists does |
| `Shell.ParsePipe` | sh.c:361-372 | the tokens consumed form a pipeline with that tree; it fails exactly where the parser on token lists does |
| `Shell.ParseLine` | sh.c:344-359 | the tokens consumed form a line of the grammar with that tree; it ends on every input; it fails exactly where the parser on token lists does |
| `Shell.SimpleRead` | sh.c:424-445 | in the middle of a simple command the parser on token lists is where the tokens behind it put it |
| `Shell.LineComplete` | sh.c:344-359 | the parser on token lists reads every line of the grammar whose commands fit MAXARGS, to exactly its tree, and stops where it ends |
| `Shell.Unambiguous` | sh.c:344-446 | so a line has at most one tree |
| `Shell.NulTerminate` | sh.c:449-493 | exactly the positions after the tree's words become NUL |
| `Shell.WordsReadBack` | sh.c:449-493 | no terminator lands inside a word, so each word read as a C string is its original slice |
| `Shell.ParseCmd` | sh.c:327-342 | a line is accepted if and only if it has a parse in which every command fits MAXARGS; the tree is then its only one, its words are disjoint slices and each reads back as it was; otherwise the line is untouched |
| `ShellTree.LexIs` | sh.c:265-308 | the tokens of a line are in order and leave out only blanks; each is a symbol, ">>", or a longest stretch of other characters |
| `ShellTree.TreeOfLine` | sh.c:344-446 | the tree of a line holds each of its words once; each argument is a word with no redirection symbol before it, in the order of the line; each file is the word after its symbol, with mode 0 as descriptor 0 for "<" and mode 0x201 as descriptor 1 for ">" and ">>"; each bar, semicolon and ampersand stands between the words it separates |
| `Namespaces.Tables.constructor` | namespace.c:12-16 | counts are right with the first process in a root namespace |
| `Namespaces.Tables.CreateNewPidNamespace` | pid_namespace.c:74-101 | the first unused slot, one deeper than its parent; panics exactly when none is unused |
| `Namespaces.Tables.CreateNsproxy` | namespace.c:22-47 | the first unused proxy, with one more holder of its namespace or, given none, a new root namespace; panics exactly when no proxy or, in that case, no namespace is unused |
| `Namespaces.Tables.RemoveFromPidNamespace` | pid_namespace.c:59-72 | one holder less; panics exactly when there is none |
| `Namespaces.CountsFollow` | namespace.c:22-69 | counts that follow the change of one process and one proxy are again the numbers of holders |
| `Namespaces.Tables.PutNsproxy` | namespace.c:55-63 | the last user gives the namespace back once; the panic for a namespace never used cannot happen |
| `Namespaces.Tables.Exit` | proc.c:317-399 | the tables change exactly as one process less does, and each proxy count equals the live processes using it and each namespace count its holders, as before |
| `Namespaces.Tables.Reap` | proc.c:418-433 | no count changes |
| `Namespaces.Tables.OwnProxy` | namespace.c:77-86 | a proxy of its own on the same namespace, the old one given back, counts right; panics exactly when no proxy is unused |
| `Namespaces.Tables.Unshare` | namespace.c:76-104 | the counts stay right, the process gets a proxy of its own on its namespace and, if asked, a child namespace one deeper; panics exactly without an unused proxy or, if asked, with a child namespace already, at the depth limit or without an unused slot; depths stay right if and only if the slot taken is harmless |
| `Namespaces.Tables.SetUpPids` | proc.c:228-245 | panics exactly when no root is met within four ancestors; otherwise the namespace and each ancestor gave its next PID once |
| `Namespaces.Tables.ChildProxy` | proc.c:210-226 | the proxy of the prepared namespace, or one more user of the parent's; panics exactly when a new proxy is needed and none is unused |
| `Namespaces.Tables.Fork` | proc.c:210-301 | the counts stay right; panics exactly when a new proxy is needed and none is unused or no root is met within four ancestors, and the latter never while depths are right |
| `Namespaces.ReuseExact` | pid_namespace.c:74-101 | giving an unused slot to a namespace keeps every depth right if and only if no namespace in use has it as an ancestor or its new depth is its old one |
| `Namespaces.CycleHasNoRoot` | proc.c:228-245 | two namespaces that are each other's parent have no root within any number of steps |
| `Namespaces.ReuseCanPanic` | pid_namespace.c:74-101 | nine calls of fork, unshare and exit from the first process end in a panic of fork: the slot of an ancestor is reused for a child |

## Left out

- Hardware drivers, boot code, interrupts, the scheduler's choice, trap entry and system-call argument fetching.
- console.c, printf.c, exec's ELF loading, user tools and test programs.
- LogRuns.RunAtomic: the order that the comment in commit describes; for the order as written see WrittenRuns.KeptRunExact.
- LoopRuns.ImageRunAtomic: the same order; as written, LoopRuns.ImageRunWritten.
- LoopRuns.LoopRunAtomic: the same order; as written, LoopRuns.LoopRunWritten.
- LogCache.WriteLogThrough: other processes that hold buffers meanwhile; for each bread BreadForLog has the condition with them.
- Bio.Cache.Unlock: asks the holder to have logged or written what it changed, which bio.c does not check.
- Bio.Cache.Bread: waiting for a buffer that another process holds; Find, Lock and Fill are its steps then.
- Bio.Cache.Find: device number 0, which no caller uses and whose initial buffers are not unique.
- Log.FsLog.LogWrite: a host block number outside the disk or inside the log area, which callers do not pass; it is one process's call, and other processes between its test and its insertion are in LogOps.
- LoopLog.Loop.LoopdevWrite: an image with unmapped blocks, for which writei would allocate host blocks.
- Loop-log recovery at boot, which is commented out in log.c, and a second image mounted on the same device number while blocks of the first are still cached.
- FileSys.FileSystem.Writei: device inodes, user copying and the sharing of one bitmap by several devices.
- Mkfs.Builder.Iappend: works on the inode in place, where the program works on a copy that it writes back, and does not read the directory entries it stores; it fails at the end of the image, which the program does not test and writes past.
- Umalloc.Allocator.Malloc: address arithmetic that overflows 32 bits.
- Vm.Machine.MapPages: ranges in the user half, which callers map one page at a time.
- Vm.Machine.Kfree: a frame freed twice, which kalloc.c does not detect.
- inituvm, loaduvm, clearpteu, uva2ka and copyout, which are single lookups in the same table.
- Mounts.MountTable.Mount: two mounts or unmounts at once; sys_mount links its entry without the lock.
- Paths.Vfs.Namex: directories that change during the walk, other processes' inode locks, and the freeing of an unlinked inode on its last iput; the current directory is taken to be neither covered nor in an unmounted image, no covered directory to be its own parent, and an image holding a mount point to be mounted itself.
- Paths.Vfs.Iput: freeing an unlinked inode on its last reference.
- Paths.Vfs.Ilock: reading the inode from disk, and waiting for another process.
- Paths.Vfs.Mount: the test of the device's type and the order of the inode locks.
- Paths.Vfs.Umount: the reference on the mount point, which sys_umount never releases, and devput.
- Mounts.MountTable.Umount: devput, the mounted flag and the inode references, which are not in the table.
- SleepLock.OneHolder: holdingsleep, which compares namespace-relative PIDs.
- Pipe.StreamIsPrefix: pipealloc's failure paths and the freeing of the pipe's page; fileclose is taken to close an end with its last reference, so nobody is inside a read or write of it, and a process killed in pipewrite reads no more.
- PipeProgress.NoCallIsStuck: that the scheduler takes such a continuation; fairness is not modelled.
- SleepProgress.AlwaysObtainable: the same.
- Shell.ParseCmd: runcmd and malloc failure.
- Namespaces.Tables.Exit: the search for the process with PID 1, killing and reparenting; each system call is one step, so the moment between put_nsproxy and the ZOMBIE state is not seen by others.

# A Dafny model of xv6

This project models the parts of the xv6 teaching kernel (and of its shell and user
library) that hold state or structure hard enough to get wrong, and proves what each of
them promises.

* **Storage.** `BufferCache` is the block cache of bio.c over the memory disk, `LogSpec`
  and `Log` the redo log of log.c on that cache, one block write at a time, and
  `GroupCommit` all interleavings of operations, commits, crashes and recoveries.
  `FsLayout`, `FsSpec`, `FsBytes` and `FileSystem` are the bit map, the inodes and the block
  mapping of fs.c; `FileWrite` is the cutting of a write into transactions in file.c.
  `LoggedWrites` performs those transactions on cache and log, `CrashSafety` puts log, file
  system and file.c together, a crash anywhere in a write, and `GroupWrites` performs them as
  steps of `GroupCommit`.
* **Memory.** `Heap` is the allocator of umalloc.c. `PageOwners`, `PageTables` and
  `AddressSpaces` are the page allocator of kalloc.c and the two-level page tables of vm.c.
* **Processes.** `ProcTable` is the process table of proc.c, `SleepWakeup` the sleep and
  wakeup protocol for any processes and channels, `SleepLockRun` the sleep lock on it,
  `SleepLock` and `Pipe` two of its clients.
* **Text.** `ShellSpec`, `ShellPrint`, `ShellTokens`, `ShellGrammar` and `Shell` are the parser
  of sh.c with its printer and its grammar, `Grep` the matcher of grep.c, `LineEdit` and
  `Console` the line editor of console.c.

How the C code is read:

* Code that changes things in place is a class or an array with methods and loops; each
  method of a class is one stretch of code under the lock that protects the object, so any
  interleaving of processes is some sequence of calls, and `Valid()` describes every moment
  the lock is free.
* Pointers into a fixed array are indices. A process that must wait leaves the method and
  comes back; a wait is visible in the contract (`asleep`, `Sleep`, `began`).
* A panic stops the machine: the method says so in its result, and whatever it had written
  to the disk is in the trace, so it is one more crash.
* Integers that can wrap in 32 bits are reduced explicitly where the code depends on it
  (malloc's size, offsets of files, pipe counters, growproc).

Things the code does not do, each with the exact condition:

* The log area can be overrun: the guard of log_write is evaluated outside the lock, so two
  processes can pass it together. `GroupCommit.LogAreaHoldsExactlyWhen`: no run overruns it
  if and only if it has LOGSIZE blocks or more, or only its header.
* There are as many buffers as log entries, so a full log pins every buffer and the commit
  panics in its first bread, before it has written anything. Buffers in use by readers have the
  same effect with fewer blocks. `Log.Log.Commit` says exactly when there are buffers enough; with
  none in use, if and only if fewer than NBUF blocks are logged.
  `GroupCommit.PinsEveryBufferExactlyWhen`: three processes can bring a group of NBUF blocks to a
  commit if and only if the log area has LOGSIZE - 1 blocks or more. mkfs gives it LOGSIZE.
* A killed pipe writer returns without a wakeup. `Pipe.Pipe.Write`: sleepers that were
  justified are so afterwards if and only if it was not killed, or no reader slept, or it had
  at most PIPESIZE bytes left; `Pipe.KilledWriterStrandsReader` is such a case. The bytes come
  out in order all the same.
* malloc's rounding wraps: `Heap.PayloadHoldsRequest`.
* A newline, or a Ctrl-D on an empty line, at a full input ring overwrites an unread byte:
  `Console.Console.Turn`; `Console.FullLineLosesByte` is such a case.
* growproc treats a size of 0 as a failure, so a process that shrinks to nothing loses its
  pages and keeps its size: `AddressSpaces.Growproc`.
* kill marks the first entry with the pid even if it is free, and allocproc does not clear the
  mark, so the next child there starts out killed. `ProcTable.ProcTable.Kill`: free entries
  stay unmarked if and only if that entry is in use; `ProcTable.ProcTable.Fork`: and a failed
  fork leaves an unmarked one if and only if the child was not killed meanwhile.
* Undo gives back no deletion: `LineEdit.UndoRestoresExactlyWhen`: some number of Ctrl-Z gives
  back the text before a deleting key if and only if the key had nothing to delete.
* A command of ten words or more is a panic of the shell: `ShellGrammar.DerivedIsParsed`.

## Model

| member | source | states |
|---|---|---|
| `BufferCache.BufferCache.constructor` | bio.c:38-56 | after binit the cache is valid: all NBUF buffers are on one circular list whose two directions agree, and what a reader must see is the disk |
| `BufferCache.BufferCache.FindCached` | bio.c:69-76 | finds the buffer of a block if and only if there is one |
| `BufferCache.BufferCache.FindVictim` | bio.c:81-92 | finds the clean unreferenced buffer whose last drop to refcnt 0 is the oldest, or there is no such buffer |
| `BufferCache.BufferCache.Reference` | bio.c:61-93 | a cached block keeps its buffer and data; otherwise the least recently used eligible buffer is recycled; None only if neither exists; no block is ever in two buffers |
| `BufferCache.BufferCache.Bget` | bio.c:61-93 | the same with the buffer locked by the caller, for a lock that is free; the panic exactly if the block is not cached and no buffer is clean and unreferenced |
| `BufferCache.BufferCache.DiskRead` | memide.c:38-60 | a clean locked buffer gets the block's data from the disk; the panics exactly |
| `BufferCache.BufferCache.DiskWrite` | memide.c:38-60 | one atomic block write: disk, logical disk and trace change in that block only |
| `BufferCache.BufferCache.Bread` | bio.c:96-106 | returns the last data written or logged to the block, whatever was recycled in between; the panics exactly; the pinned blocks stay |
| `BufferCache.BufferCache.Bwrite` | bio.c:109-117 | writes exactly the held block, and fails if the caller does not hold it |
| `BufferCache.BufferCache.MarkDirty` | log.c:231-231 | logged data is what readers see from now on, and its buffer is pinned |
| `BufferCache.BufferCache.ReleaseBuf` | bio.c:123-126 | the lock is given up with the buffer's data already written or logged |
| `BufferCache.BufferCache.Drop` | bio.c:128-140 | one reference less; the last one moves the buffer to the front as the most recently used |
| `BufferCache.BufferCache.Brelse` | bio.c:121-141 | both, and no other buffer changes |
| `BufferCache.BufferCache.MoveToFront` | bio.c:132-137 | the list is the old one with the buffer first; nothing else of any buffer changes |
| `BufferCache.CoherentUpdate` | bio.c:61-141 | changing one buffer with the logical disk keeps every block's content in its one buffer or on the disk |
| `BufferCache.RecencyMoved` | bio.c:130-138 | the list stays in the order of the last drops |
| `BufferCache.PinsCount` | bio.c:78-92 | at most NBUF blocks are pinned, and that many exactly if no buffer is clean |
| `BufferCache.HasBuffer` | bio.c:61-93 | a pinned block always has its buffer; any other one finds none when NBUF blocks are pinned, and finds one when fewer are and no buffer is in use |
| `LogSpec.HeaderRoundTrip` | log.c:86-113 | what write_head stores, read_head reads back |
| `LogSpec.HeaderLayout` | log.c:34-37 | the bytes of the log header: the count in the first four, then four for each block number, little-endian |
| `LogSpec.InstallAt` | log.c:69-82 | block n of the disk after k installs is the log slot of the last entry that names n, or untouched |
| `LogSpec.CopyToLogAt` | log.c:177-190 | the same for the copies into the log |
| `LogSpec.RecoveryRestarts` | log.c:115-122 | a crash after any write of a recovery leaves a disk that recovers to the same home blocks |
| `LogSpec.RecoverySurvivesCrashes` | log.c:115-122 | the same after any number of crashes inside recoveries |
| `LogSpec.CommitIsAtomic` | log.c:192-202 | a crash after write j of a commit recovers to the old home blocks up to the header write and to the new ones from it on |
| `LogSpec.CommitDone` | log.c:192-202 | a finished commit has the transaction in the home blocks and an empty log |
| `LogSpec.CrashAtomicity` | log.c:69-202 | a crash at any write of a commit, then any crashes inside any recoveries: the home blocks recover to exactly the old or exactly the new disk |
| `Log.Log.BreadPair` | log.c:75-76 | two buffers with the logical content of two blocks; it fails only if a block is off the disk or no buffer can be recycled, certainly if every buffer is pinned by other blocks, and not if none is in use and one is clean with the second block pinned, or all are clean |
| `Log.Log.Transfer` | log.c:77-80 | one disk write that copies the logical content of one block to another, which is pinned no longer; both buffers are given up, and every other lock stays |
| `Log.Log.WriteLog` | log.c:177-190 | after any prefix of its writes, the disk is the old one with that many logged blocks copied from the cache, and every intermediate disk is in the trace; it finishes if and only if each slot has a buffer, its own or one to recycle, whoever uses the others |
| `Log.Log.InstallTrans` | log.c:69-82 | the same for installing, on the disk and on what readers see; afterwards nothing is pinned |
| `Log.Log.FillHeader` | log.c:107-110 | the header block that HeaderRoundTrip reads back |
| `Log.Log.WriteHead` | log.c:101-113 | exactly the header block is written, or no buffer is left for it: each exactly when |
| `Log.Log.ParseHeader` | log.c:90-94 | the entries of the header |
| `Log.Log.ReadHead` | log.c:85-96 | the list in memory becomes the one on the disk, or no buffer can be recycled; no write |
| `Log.Log.RecoverFromLog` | log.c:115-122 | the disk is that of a recovery after k writes, all of them unless no buffer could be recycled, which cannot be with none in use; then the cache agrees and the log is empty |
| `Log.Log.LogAndCommit` | log.c:196-197 | the disk after the copies and the header; the conditions of WriteLog |
| `Log.Log.InstallAndClear` | log.c:198-200 | the disk after the installs and the cleared header, and nothing pinned; the same conditions |
| `Log.Log.Commit` | log.c:192-202 | its writes are a prefix of the 2n+2 writes of CommitIsAtomic, all of them unless it panics for want of a buffer; then the disk holds what readers see and the log is empty; it succeeds if and only if nothing is logged or the header and each slot have a buffer, their own or one to recycle, so always if one is clean and unreferenced; with no buffer in use exactly if fewer than NBUF blocks are logged, and with NBUF it writes nothing |
| `Log.CommitTraceIsAtomic` | log.c:192-202 | every disk that a run of commit leaves behind, stopped anywhere, recovers to the old or the new home blocks |
| `Log.RecoveryTraceRestarts` | log.c:115-122 | every disk that a run of recovery leaves behind recovers to the same home blocks |
| `Log.Log.Record` | log.c:223-230 | a block already logged keeps its slot; a new one is added at the end |
| `Log.Log.LogWrite` | log.c:213-233 | fails exactly in its three panics; otherwise the block is recorded once, pinned, and visible to readers, and the disk does not change; the pinned blocks are always the logged ones |
| `Log.Log.UpdateBlock` | fs.c:227-235 | the way fs.c changes a block, whatever other buffers the process holds: what readers see changes in that block only, the disk does not, and the block is in the next commit; fails exactly in the panics of log_write and bread |
| `Log.Log.TryBeginOp` | log.c:125-141 | an operation starts exactly if no commit runs and the log has room for all reservations |
| `Log.Log.EndOp` | log.c:145-174 | the last operation out leaves every change of the group on the disk; otherwise nothing is written; it succeeds if and only if no commit runs and, as the last one, the commit does; a failure leaves a recoverable trace |
| `GroupCommit.RunInv` | log.c:125-233 | the invariant holds in every state of every run |
| `GroupCommit.QuietMoment` | log.c:145-174 | every recorded quiet moment was a state of the run in which the machine was up and no operation open |
| `GroupCommit.CrashesRecoverQuietMoments` | log.c:125-202 | in every run, the disk at any time recovers to the logical disk of an earlier moment at which the machine was up and no operation open |
| `GroupCommit.NothingCommittedIsLost` | log.c:125-202 | from any moment with no operation open and no commit running on, the disk at any later time, crashes and recoveries included, recovers to the logical disk of that moment or of a later quiet one |
| `GroupCommit.EndedOperationsAreDurable` | log.c:145-202 | with no operation open and no commit running, the home blocks are the logical disk |
| `GroupCommit.NoHomeWriteDuringOperations` | log.c:145-202 | no block is written while an operation is open |
| `GroupCommit.NoOperationDuringCommit` | log.c:125-174 | no operation is open during a commit and none starts |
| `GroupCommit.ReservationsHold` | log.c:125-233 | in every run the log plus all unspent reservations stays within LOGSIZE, entries are distinct, and the two panics of paired calls are unreachable |
| `GroupCommit.LogAreaHolds` | log.c:213-221 | with LOGSIZE blocks or more, or only a header, no run overruns the log area |
| `GroupCommit.LogAreaOverruns` | log.c:213-233 | with 2 to LOGSIZE - 1 blocks three processes overrun it, for every such size |
| `GroupCommit.LogAreaHoldsExactlyWhen` | log.c:213-233 | the two together, as an if and only if |
| `GroupCommit.RunsAreShort` | log.c:125-233 | in every run at most two blocks more than the log area has room for are logged or past the guard |
| `GroupCommit.PinsEveryBuffer` | log.c:213-233 | with LOGSIZE - 1 blocks or more three processes bring a group of NBUF blocks, which pins every buffer, to a commit, for every such size |
| `GroupCommit.PinsEveryBufferExactlyWhen` | bio.c:81-92 | the two together: no run brings such a group to a commit if and only if the log area has fewer than LOGSIZE - 1 blocks |
| `FsLayout.PutBitAt` | fs.c:66-68 | setting or clearing a bit changes that bit and no other |
| `FsLayout.PutBlockBitAt` | fs.c:81-95 | the same in a bit map block |
| `FsLayout.BitIs` | fs.c:66-67 | a block is marked by the bit of that number in its byte |
| `FsLayout.InodeRoundTrip` | fs.c:220-236 | an inode stored in its slot is read back, and its neighbours are untouched |
| `FsLayout.InodeLayout` | fs.h:29-36 | the bytes of an inode: type, major, minor and nlink at 0, 2, 4 and 6, size at 8 and the addresses from 12 on, little-endian, 64 bytes a slot |
| `FsLayout.PutInodeElsewhere` | fs.c:225-235 | no byte outside the slot changes |
| `FsSpec.NoSharing` | fs.c:372-400 | no block is in two (inode, slot) places |
| `FsSpec.BitMapExact` | fs.c:56-95 | the set bits are exactly the metadata blocks and the blocks reachable from inodes |
| `FsSpec.FullCount` | fs.c:62-77 | all bits are set if and only if the inodes own as many blocks as there are data blocks |
| `FsSpec.TookThen` | fs.c:372-400 | blocks taken one after the other add up, and there was room for all of them if and only if there is room for the rest after the first |
| `FsSpec.WriteKeepsOwn` | fs.c:498-503 | writing a data block keeps ownership and bit map |
| `FsSpec.AssignAddr` | fs.c:378-388 | a fresh zeroed block in an empty inode address keeps them |
| `FsSpec.AssignEntry` | fs.c:389-395 | and in an empty entry of the indirect block |
| `FsSpec.DropAddr` | fs.c:414-419 | clearing a direct address whose block was freed keeps them |
| `FsSpec.DropIndirect` | fs.c:421-431 | and the indirect address after its entries |
| `FsBytes.StoreWrote` | fs.c:498-503 | storing bytes in the block of an offset changes those bytes of that file and no other byte of any file |
| `FsBytes.WroteContents` | fs.c:498-508 | bytes written and the size they cause are one splice of the file's byte string |
| `FsBytes.WroteOthers` | fs.c:498-508 | no other file changes |
| `FileSystem.FileSystem.FindFree` | fs.c:62-76 | the first block whose bit is clear, or all bits are set |
| `FileSystem.FileSystem.Balloc` | fs.c:56-78 | that block is marked and zeroed and nothing else changes; None exactly if all are in use |
| `FileSystem.FileSystem.Bfree` | fs.c:80-95 | clears one bit, and fails exactly if it was clear |
| `FileSystem.FileSystem.AllocAddr` | fs.c:378-388 | an inode address, with a new block of its own if there was none; None if and only if it needs one and none is left |
| `FileSystem.FileSystem.AllocEntry` | fs.c:389-395 | the same in the indirect block |
| `FileSystem.FileSystem.Bmap` | fs.c:372-400 | the block of a slot; existing slots change nothing, a new one belongs to this slot only and no file's bytes change; None if and only if the slot is out of range, or the blocks it lacks, the indirect one included, are more than are left |
| `FileSystem.FileSystem.WriteChunk` | fs.c:499-503 | one turn of the loop: the bytes of one block; fails exactly as Bmap does |
| `FileSystem.FileSystem.WriteLoop` | fs.c:498-504 | all bytes are written across blocks and the indirect split, with the blocks it logs bounded; fails if and only if the blocks the range lacks are more than are left, and then the disk is full |
| `FileSystem.FileSystem.Iupdate` | fs.c:220-236 | the inode on disk is the one in memory; other inodes and all contents stay |
| `FileSystem.FileSystem.Writei` | fs.c:481-511 | the file's bytes become the splice; rejected exactly on a hole, overflow or size limit and then nothing changes; it panics exactly if the blocks the range lacks are more than are left; every block below the size exists; other files stay; the blocks touched are within the budget |
| `FileSystem.FileSystem.Readi` | fs.c:452-476 | the slice of the file's bytes, cut at the size; nothing changes |
| `FileSystem.FileSystem.FreeOwned` | fs.c:80-95 | freeing an owned block never panics and clears exactly its bit |
| `FileSystem.FileSystem.FreeDirect` | fs.c:414-419 | the direct blocks are free and no others |
| `FileSystem.FileSystem.FreeIndirect` | fs.c:421-431 | the indirect block and its entries are free and no others |
| `FileSystem.FileSystem.Itrunc` | fs.c:407-435 | never panics; every block of the file is freed once, the file is empty on disk, and other files keep their bytes |
| `FileWrite.ChunkFitsTransaction` | file.c:127-133 | a piece of at most that size touches at most MAXOPBLOCKS blocks at any offset |
| `FileWrite.SpliceReadBack` | fs.c:452-511 | the written range reads back, and the rest is as it was |
| `FileWrite.WritePiece` | file.c:139-145 | one transaction: one splice at the file's offset; every block it changes is logged, at most MAXOPBLOCKS of them and none in the log area, and the log_writes in order give the new disk; every other file is kept; -1 and the panic exactly when |
| `FileWrite.WritePieces` | file.c:134-152 | piece k ends at byte k times the piece size, or the last; between the pieces the file system is in order and the file has exactly those written; it stops at the first piece that does not fit; the panic exactly if the blocks that the fitting pieces lack are more than are left |
| `FileWrite.Filewrite` | file.c:117-156 | the bytes of the pieces that fit as one flat write, n if they are all, otherwise -1, or the panic of a full disk; each exactly when, with the offset |
| `CrashSafety.HomeDecides` | mkfs.c:99-103 | the blocks outside the log decide the file system: ownership, bit map, inodes and contents |
| `CrashSafety.ReadyToCommit` | log.c:192-202 | an operation that logs all it changes meets what a commit needs |
| `CrashSafety.OperationIsAtomic` | log.c:69-202 | a crash after any write of its commit, and any crashes inside recoveries, recover to the disk before the operation or the disk after it |
| `CrashSafety.CrashDuringWrite` | file.c:118-156 | a crash at any block write of transaction k of filewrite, and any crashes inside recoveries: a file system in order, on which the file has its old bytes overwritten with exactly the first k pieces, from the header write on k + 1, and every other file its bytes |
| `CrashSafety.TransactionsKeepOrder` | file.c:134-152 | every transaction of filewrite leaves all files in order, on the disk as in memory, if it finds them so |
| `CrashSafety.RecoversToFileSystem` | log.c:125-233 | in any run of any processes with any crashes: if the first disk holds a file system in order, its inodes those on the disk, and every group of operations that one commit makes durable leaves one when it finds one, every disk at every time recovers to one |
| `LoggedWrites.AbsorbedLists` | log.c:223-230 | the header lists exactly the blocks it listed and those logged since, each once |
| `LoggedWrites.Perform` | fs.c:56-503 | the log_writes of an operation on cache and log, whatever is logged already: readers see the disk they describe, the disk stays; it fails only without room in the log or a buffer, and not with no buffer in use and room for its blocks |
| `LoggedWrites.Transact` | file.c:140-145 | one transaction of filewrite, from begin_op to end_op, on a cache that shows its home blocks: every disk it leaves behind recovers to the home blocks before or after it; afterwards the log is idle with the new home blocks on the disk; it succeeds with no buffer in use |
| `LoggedWrites.TransactAll` | file.c:134-152 | all transactions of a filewrite one after the other: every disk recovers to the home blocks between two of them, and later disks to no earlier ones |
| `LoggedWrites.FilewriteOnLog` | file.c:118-156 | a whole filewrite on file system, log and cache: every disk it leaves behind recovers to a file system in order with the old bytes and the first so many pieces, never fewer on a later disk, and every other file as it was; what it returns and that the fitting pieces are on the disk, exactly when |
| `GroupWrites.FlatReplays` | log.c:213-233 | the guards and appends of one operation change what readers see as its log_writes say |
| `GroupWrites.SingleWriteKeeps` | file.c:140-145 | a group of steps that is one transaction of filewrite leaves a file system in order if it finds one |
| `GroupWrites.FilewritesRecover` | log.c:125-233 | in any run with any crashes whose groups are single transactions of filewrite, by any processes, every disk at every time recovers to a file system in order |
| `GroupWrites.TransactionRuns` | file.c:140-145 | from every moment of every run with no operation open, every transaction of filewrite can be performed by any process as such a group |
| `Heap.PayloadHoldsRequest` | umalloc.c:69-69 | the block holds the request if and only if the rounding does not wrap, with less than a unit to spare |
| `Heap.Apart` | umalloc.c:15-22 | blocks of a well-formed heap do not overlap |
| `Heap.UserStores` | umalloc.c:15-22 | what the user stores between the headers does not disturb the allocator |
| `Heap.HeadersOnly` | umalloc.c:24-90 | stores to headers of blocks, old or new, and to memory that sbrk has just given leave every payload as it was |
| `Heap.AbsorbNext` | umalloc.c:33-37 | joining the free block above keeps list and tiling |
| `Heap.MergeDown` | umalloc.c:38-40 | joining the free block below keeps list and tiling |
| `Heap.LinkIn` | umalloc.c:36-42 | linking a block that touches neither neighbour keeps list and tiling |
| `Heap.TakeWhole` | umalloc.c:77-78 | handing out a block keeps list and tiling |
| `Heap.TakeTail` | umalloc.c:79-83 | handing out its tail keeps list and tiling |
| `Heap.AddRegion` | umalloc.c:51-58 | a region from sbrk above base joins the tiling |
| `Heap.SearchStep` | umalloc.c:30-32 | the comparisons of free's search decide exactly whether the place is reached |
| `Heap.Heap.FindPlace` | umalloc.c:30-32 | the search ends at the free block after which the address belongs |
| `Heap.Heap.JoinUp` | umalloc.c:33-37 | the first half of free; only the header of the block changes |
| `Heap.Heap.JoinDown` | umalloc.c:38-43 | the second half of free; only the header of the free block below changes |
| `Heap.Heap.Free` | umalloc.c:24-44 | the list stays circular and ordered with one wrap point and no two adjacent free blocks, free and allocated blocks still tile the memory, and exactly this block is given back, next to freep; only its header and that at freep change, so every payload of a block that stays allocated is as it was |
| `Heap.Heap.Morecore` | umalloc.c:46-61 | the new region becomes free memory large enough for the request at freep or next to it; payloads stay |
| `Heap.Heap.Carve` | umalloc.c:76-84 | the block handed out is exactly Units long and the rest stays free |
| `Heap.Heap.Malloc` | umalloc.c:63-90 | returns a new block of exactly the units asked; 0 if and only if nothing on the list was large enough and sbrk refused; the heap grows, by what sbrk was asked for, if and only if nothing was large enough and sbrk granted it; only headers change, so every allocated payload is as it was |
| `Heap.Heap.Search` | umalloc.c:74-89 | the loop terminates and asks sbrk at most once, and only after it has seen every free block too small |
| `PageOwners.LinkTable` | vm.c:45-55 | a blank page as the table of a directory entry with PTE_W and PTE_U keeps every page with one holder and every directory entry open |
| `PageOwners.LinkLeaf` | vm.c:70-75 | mapping a page below KERNBASE keeps it |
| `PageOwners.UnlinkLeaf` | vm.c:269-276 | unmapping and freeing keeps it |
| `PageOwners.LookupApart` | vm.c:32-57 | steps on one address space leave the lookups of the others |
| `PageOwners.SpendTurn` | vm.c:62-80 | page by page, the pages and tables taken add up, and the next turn fails only if the whole could not be had |
| `PageTables.Memory.constructor` | kalloc.c:30-52 | every whole page of the stretch is free, and on the list once |
| `PageTables.Memory.FreeRange` | kalloc.c:45-52 | exactly the whole pages of the stretch are freed |
| `PageTables.Memory.Kalloc` | kalloc.c:82-95 | one free page is taken; None exactly if there is none |
| `PageTables.Memory.Kfree` | kalloc.c:59-77 | one page goes on the list; fails exactly for a page it may not take |
| `PageTables.Memory.Walk` | vm.c:32-57 | the table of an address; a new one changes no lookup; None if and only if there is no table and none was asked for or no page is free, and then nothing changes |
| `PageTables.Memory.AddTable` | vm.c:41-54 | a free page becomes the blank table of an entry that allows all its pages do, which changes no lookup; None exactly if no page is free |
| `PageTables.Memory.MapPage` | vm.c:70-78 | one entry is set and one lookup changes: what the processor then allows, by directory and table together, is what the flags say; remap exactly if it was present; no memory exactly if a table is missing and no page is free, and then everything is as it was |
| `PageTables.Memory.AddPage` | vm.c:234-245 | a new page with the given contents is mapped exactly if the pages for it and for a missing table are free |
| `PageTables.Memory.FreeLeaf` | vm.c:269-276 | one mapping goes with its page, and no panic can happen |
| `PageTables.Memory.Deallocuvm` | vm.c:255-279 | with its jumps over absent tables it unmaps and frees exactly what a page-by-page walk of the range would, and nothing else |
| `PageTables.Memory.Allocuvm` | vm.c:219-247 | zeroed pages from oldsz to newsz that the user may read and write, by directory and table, and nothing else changed, or 0 and the mapping and contents as before; 0 exactly if newsz is too large or the pages and missing tables are more than are free |
| `PageTables.Memory.Freevm` | vm.c:281-298 | every page of the address space is free again, once, and no other page changes hands or contents |
| `AddressSpaces.MapRange` | vm.c:59-80 | exactly the range is mapped, or the missing tables are more than the free pages |
| `AddressSpaces.KmapIsOk` | vm.c:104-116 | the kernel's mappings are above KERNBASE and disjoint, so setupkvm cannot remap |
| `AddressSpaces.KmapEntries` | vm.c:104-116 | what the kernel maps: physical memory up to PHYSTOP at KERNBASE and the devices at their addresses, nothing for the user, all writable but the text |
| `AddressSpaces.NewDirectory` | vm.c:124-126 | a blank directory out of one free page; None exactly if there is none |
| `AddressSpaces.Setupkvm` | vm.c:118-136 | a directory with exactly the kernel's mappings, or every page where it was, exactly if there are too few for the directory and its tables |
| `AddressSpaces.Copyuvm` | vm.c:314-345 | equal contents and access on pages of its own, with the parent unchanged, or every page where it was, exactly if there are too few for the pages, the tables and the directory |
| `AddressSpaces.CopyPage` | vm.c:326-339 | one turn of its loop: one page copied, exactly if it and a missing table can be had |
| `AddressSpaces.Growproc` | proc.c:158-177 | the process has exactly the pages of its recorded size, if and only if it did not shrink to nothing; -1 exactly if the pages cannot be had or the size becomes or is 0 by shrinking |
| `AddressSpaces.Resize` | vm.c:219-279 | a process of one size becomes one of another, or stays, exactly if the pages cannot be had |
| `AddressSpaces.Lifetime` | vm.c:118-298 | setupkvm, any sequence of sizes, freevm: every page is held by whom it was before |
| `ProcTable.ProcTable.constructor` | proc.c:119-151 | one runnable process, init, satisfies the table's invariant |
| `ProcTable.ProcTable.Wakeup1` | proc.c:457-465 | whoever slept on the channel is runnable and otherwise as it was, nobody sleeps there any more, and no other entry changes |
| `ProcTable.ProcTable.Wakeup` | proc.c:467-474 | the same under the lock, keeping the invariant |
| `ProcTable.ProcTable.Kill` | proc.c:479-497 | the first entry with the pid is marked and woken, and no other changes; fails exactly if there is none; free entries stay unmarked exactly if it is in use |
| `ProcTable.ProcTable.Schedule` | proc.c:334-345 | the first runnable entry from the given one on runs, on this CPU only |
| `ProcTable.ProcTable.Yield` | proc.c:385-392 | the CPU and the process part |
| `ProcTable.ProcTable.Sleep` | proc.c:417-442 | the same, asleep on the channel |
| `ProcTable.ProcTable.AllocProc` | proc.c:73-92 | an unused entry becomes an embryo with a pid never used before, or there is none; no other entry changes; it is not killed if free entries are unmarked |
| `ProcTable.ProcTable.Fork` | proc.c:190-221 | the child is runnable with the caller as its parent, or its entry is unused again, and no third entry changes; its killed mark is the entry's; free entries stay unmarked exactly if it succeeds or the child was not killed |
| `ProcTable.ProcTable.GiveAwayChildren` | proc.c:255-262 | every child goes to init, which is woken exactly if one of them is a zombie |
| `ProcTable.ProcTable.Exit` | proc.c:227-268 | init panics; otherwise the process is a zombie with its parent, its children are init's, whoever waits for its parent is awake, and init if a zombie went to it, and nothing else changes |
| `ProcTable.ProcTable.FindZombie` | proc.c:281-301 | a zombie child if there is one, and whether there are children |
| `ProcTable.ProcTable.Wait` | proc.c:272-312 | reaps a zombie child exactly if there is one, each exit once; -1 only without children or killed; otherwise it sleeps with no zombie child |
| `ProcTable.ForkExitWait` | proc.c:180-312 | after a fork and the exit of the child, wait by the parent reaps, and reaps this child if no other had exited |
| `ProcTable.OneCpuEach` | proc.c:322-392 | whenever the lock is free a process is RUNNING if and only if a CPU runs it, and then only one does |
| `ProcTable.ZombiesAreReapable` | proc.c:227-312 | every zombie has exited and not been reaped, and has a living parent that is not asleep in wait |
| `ProcTable.ExitKeeps` | proc.c:227-268 | exit keeps CPUs, parents, waiters, embryos and pids in order |
| `ProcTable.ReapKeeps` | proc.c:286-299 | so does reaping |
| `ProcTable.ForkKeeps` | proc.c:180-221 | so does fork, whether it fails or not |
| `SleepWakeup.RunInv` | proc.c:415-474 | the protocol's invariant in every state of every run |
| `SleepWakeup.NoLostWakeup` | proc.c:415-474 | for any processes, channels and interleavings: whenever the client's lock is free, a process asleep on a channel has a reason to be |
| `SleepWakeup.MutualExclusion` | proc.c:415-453 | at most one process is past the lock |
| `SleepWakeup.WakeupInTable` | proc.c:457-474 | the wakeup step of the protocol is what wakeup does to the process table |
| `SleepLockRun.RunInv` | sleeplock.c:22-42 | for any processes in any interleaving, acquiresleep and releasesleep keep the rule of sleep and wakeup, and locked says whether there is an owner |
| `SleepLockRun.Excludes` | sleeplock.c:22-42 | no two processes have the sleep lock |
| `SleepLockRun.SleepersHaveHolder` | sleeplock.c:22-42 | whenever the spin lock is free, a process asleep in acquiresleep waits for another that has the sleep lock |
| `SleepLock.SleepLock.Acquire` | sleeplock.c:22-32 | taken exactly if nobody held it; nobody sleeps on a lock that is free |
| `SleepLock.SleepLock.Release` | sleeplock.c:34-42 | free, and everyone who slept on it is awake |
| `SleepLock.SleepLock.Holding` | sleeplock.c:44-53 | true exactly for the holder |
| `Pipe.WrapKeepsSlot` | pipe.c:13-20 | a 32-bit counter that has wrapped indexes the slot the unbounded one would |
| `Pipe.WrapKeepsDistance` | pipe.c:13-20 | and the comparisons for empty and full come out as the unbounded ones would |
| `Pipe.Pipe.Put` | pipe.c:93-93 | one byte more accepted, in order, in a ring that is not full |
| `Pipe.Pipe.Get` | pipe.c:112-117 | the oldest byte not yet delivered |
| `Pipe.Pipe.Write` | pipe.c:78-98 | accepts a prefix in order until the pipe is full, also with stranded readers; the outcome; justified sleepers stay so, with the exact exception of a killed writer |
| `Pipe.Pipe.Read` | pipe.c:100-121 | delivers the oldest bytes, also with stranded readers; sleeps exactly at an empty pipe with a writer; justified sleepers stay so |
| `Pipe.Pipe.Close` | pipe.c:59-75 | nobody sleeps at the other end afterwards; the bytes stay |
| `Pipe.Pipe.Woken` | proc.c:484-497 | kill takes a process out of its sleep, and the others stay justified |
| `Pipe.Pipe.NeverBothAsleep` | pipe.c:78-121 | readers and writers never sleep at the same time |
| `Pipe.KilledWriterStrandsReader` | pipe.c:84-90 | a reader asleep at a pipe that is not empty, after a killed write; another reader still gets the first byte |
| `ShellSpec.GetToken` | sh.c:265-308 | a word token is maximal: word characters only, and ended by a blank, a symbol or the end |
| `ShellSpec.ParseCmd` | sh.c:327-342 | a parsed tree has used all the text, its words are maximal words of the text, and no command has ten of them |
| `ShellPrint.RedirsPrinted` | sh.c:374-397 | printed redirections are read back, and the cursor is behind them |
| `ShellPrint.ArgsPrinted` | sh.c:431-445 | so are arguments with redirections after the last |
| `ShellPrint.BlockPrinted` | sh.c:399-413 | so is a tree in parentheses |
| `ShellPrint.ExecPrinted` | sh.c:415-446 | so is what parseexec reads |
| `ShellPrint.PipePrinted` | sh.c:361-372 | and parsepipe |
| `ShellPrint.LinePrinted` | sh.c:344-359 | and parseline |
| `ShellPrint.ParsePrinted` | sh.c:327-446 | parsing a printed tree gives the tree back, if and only if no command in it has ten arguments or more; then it panics for that |
| `ShellPrint.Reprint` | sh.c:327-446 | printing what any text parsed to, and parsing that, gives the same tree |
| `ShellPrint.Parsable` | sh.c:327-446 | the trees some text parses to are exactly those with legal words and fewer than ten arguments a command |
| `ShellTokens.CmdTaken` | sh.c:265-446 | the parser on a text is a parser on its tokens: the same tree or the same panic |
| `ShellTokens.TokensDecide` | sh.c:265-446 | two texts with the same tokens parse to the same tree or the same panic, whatever the blanks and whether '>' or '>>' is written |
| `ShellTokens.ParseWritten` | sh.c:265-446 | however a legal tree is written, parsing gives it back, or panics exactly if a command in it is too long |
| `ShellGrammar.ItemsDerived` | sh.c:415-446 | the loop of parseexec on words and redirections in any order: the words in their order, the redirections in theirs, or the panic exactly if there are ten words |
| `ShellGrammar.SimpleIsParsed` | sh.c:415-446 | the same for the text: parseexec gives the command of the words with the redirections around it |
| `ShellGrammar.DerivedIsParsed` | sh.c:327-446 | a text that the grammar derives is parsed to its tree, or panics exactly if a command in it has ten words |
| `ShellGrammar.AcceptsGrammar` | sh.c:327-446 | the parser accepts exactly what the grammar derives without such a command, and gives a tree that it derives |
| `Shell.Parser.Gettoken` | sh.c:265-308 | the token, with the cursor behind it and the blanks after it |
| `Shell.Parser.Peek` | sh.c:310-320 | whether the next character is one of the given ones, with the cursor on it |
| `Shell.Parser.Parseredirs` | sh.c:374-397 | the loop computes ParseRedirs |
| `Shell.Parser.Parseargs` | sh.c:431-445 | the loop computes ParseArgs |
| `Shell.Parser.Parseexec` | sh.c:415-446 | computes ParseExec |
| `Shell.Parser.Parseblock` | sh.c:399-413 | computes ParseBlock |
| `Shell.Parser.Parsepipe` | sh.c:361-372 | computes ParsePipe |
| `Shell.Parser.Parseline` | sh.c:344-359 | computes ParseLine, its loop included |
| `Shell.WordsTerminated` | sh.c:448-493 | with a NUL at the end of every word, every word read as a C string is exactly its token |
| `Shell.Nulterminate` | sh.c:448-493 | the buffer changes at the ends of the words and nowhere else |
| `Shell.Parsecmd` | sh.c:327-342 | the tree as runcmd reads it from the buffer is the tree of the text; for a text with the tokens of a legal tree, that tree; for a text of the grammar its tree or the panic, and no other text is accepted |
| `Grep.MatchHere` | grep.c:84-96 | true if and only if the text starts with a match of the pattern's language |
| `Grep.MatchStar` | grep.c:98-106 | true if and only if the text starts with any number of the character and then a match |
| `Grep.Match` | grep.c:72-82 | true if and only if some substring, anchored as the pattern says, is in the language |
| `Grep.OnePrefix` | grep.c:93-94 | the language of a pattern that starts with a plain character |
| `Grep.StarPrefix` | grep.c:89-90 | the language of one that starts with a starred character, which binds before a dollar |
| `LineEdit.PasteIsSplice` | console.c:602-626 | pasting character by character puts as much of the clipboard as fits at the cursor, in order |
| `LineEdit.UndosRestore` | console.c:734-762 | over any keys and reads that only put characters in, by typing or paste, or leave the line: as many undos as characters were put in give back the line and the undo stack, while the stack had room |
| `LineEdit.FewRecords` | console.c:533-823 | over any keys and reads that delete nothing but by undo or with the whole line, the undo stack has no more records than the line has characters |
| `LineEdit.UndoGivesBack` | console.c:533-823 | after such keys from the start, whatever room the ring has, that many times Ctrl-Z gives back the line of any moment after which characters were only put in |
| `LineEdit.UndoRestoresExactlyWhen` | console.c:734-762 | after a deleting key, some number of Ctrl-Z gives back the text before it if and only if there was nothing to delete |
| `LineEdit.DeletionTakesUndos` | console.c:734-762 | each deleted character takes one Ctrl-Z, which drops its record and does nothing else |
| `LineEdit.EditSendsNothing` | console.c:537-778 | the editing keys make nothing readable and take nothing back |
| `LineEdit.WordStartIs` | console.c:633-647 | Ctrl-A goes to the last beginning of a word before the cursor, or to the start of the line |
| `LineEdit.NextWordIs` | console.c:658-671 | Ctrl-D goes to the next beginning of a word, if there is one |
| `LineEdit.EraseUndoesType` | console.c:698-733 | a character typed and erased leaves the line as it was, without the selection it replaced |
| `LineEdit.CopyErasePaste` | console.c:567-631 | copying a selection, erasing it and pasting gives back the text |
| `LineEdit.SelectsBetween` | console.c:537-566 | Ctrl-S at two places selects what is between them |
| `LineEdit.TypedLineIsSent` | console.c:779-827 | a word typed on an empty line and ended with a newline is what becomes readable |
| `Console.ShiftUp` | console.c:616-617 | the loop makes room at one place of the ring |
| `Console.ShiftDown` | console.c:485-486 | the loop closes a gap of the ring |
| `Console.Console.Insert` | console.c:802-817 | the line is edited as InsertKey edits a string; unread bytes stay |
| `Console.Console.Backspace` | console.c:698-733 | the console's state becomes EraseKey of it: the selection or the character before the cursor goes, and is recorded |
| `Console.Console.DeleteSelection` | console.c:440-502 | the selected span goes, and its bytes are recorded while there is room |
| `Console.Console.Undo` | console.c:734-762 | becomes that of Ctrl-Z: the last insertion is taken out, the record of a deletion is dropped |
| `Console.Console.Paste` | console.c:595-631 | becomes PasteKey of it: as much of the clipboard as fits, after the selection has gone |
| `Console.Console.Select` | console.c:537-566 | a selection runs between its two cursor positions, in order |
| `Console.Console.Copy` | console.c:567-593 | the clipboard is the selected part of the line |
| `Console.Console.WordLeft` | console.c:633-647 | the cursor goes to the start of the word before it, and all else stays |
| `Console.Console.EndOfFile` | console.c:648-671 | end of file on an empty line, with the exact condition for unread bytes, or the cursor goes to the next word |
| `Console.Console.KillLine` | console.c:676-697 | the line and its undo stack are empty and unread bytes stay |
| `Console.Console.Commit` | console.c:790-799 | the line becomes readable; unread bytes are intact afterwards if and only if there was a free slot, or one that held that character |
| `Console.Console.Key` | console.c:779-827 | a character is inserted, or the line is committed, at a newline or exactly full ring; the same condition |
| `Console.Console.Turn` | console.c:533-825 | each key does to the state what Press says, and unread bytes survive it if and only if it does not commit a byte at a full ring, or the slot held that byte |
| `Console.Console.Intr` | console.c:524-834 | over any characters but tab, the console's line, cursor, selection, clipboard, undo stack and committed bytes are those of the keys pressed one after the other on strings, and unread bytes survive if no key commits at a full ring |
| `Console.Console.Read` | console.c:836-875 | the oldest committed bytes up to a newline or before an end of file; it sleeps, or gives up if killed, exactly when it has taken all and wants more |
| `Console.FullLineLosesByte` | console.c:790-794 | a full line and a newline: what will be read is not what was typed |

## Left out

- FileSystem.FileSystem.Update: the file system works on the logical disk, one log_write at a time; `LoggedWrites` performs its log_writes on cache and log afterwards, so the two are not one object, and a buffer that bmap holds across a balloc counts only in `Log.Log.UpdateBlock`.
- CrashSafety.CrashDuringWrite: for an operation that is alone in its commit; for commits of several operations `CrashSafety.RecoversToFileSystem` takes it that each group leaves the file system in order, which `GroupWrites.FilewritesRecover` proves for groups of one.
- Log.Log.BreadPair: for a caller that finds the buffers of the two blocks unlocked; waiting for another holder is left to `SleepLock` and `SleepLockRun`.
- Log.Log.Transfer: as BreadPair.
- Log.Log.WriteLog: for a caller that finds the buffers of the log area and of the logged blocks unlocked; as BreadPair.
- Log.Log.InstallTrans: as WriteLog.
- Log.Log.WriteHead: as WriteLog.
- Log.Log.ReadHead: as WriteLog.
- Log.Log.LogAndCommit: as WriteLog.
- Log.Log.InstallAndClear: as WriteLog.
- Log.Log.Commit: as WriteLog.
- Log.Log.EndOp: as WriteLog.
- Log.Log.RecoverFromLog: for the blocks that the header names, as WriteLog.
- Log.Log.UpdateBlock: for a block whose buffer is unlocked; as BreadPair.
- LoggedWrites.FilewriteOnLog: for a log with no other operation and a cache with no buffer locked; a buffer that another process uses without its lock may make it panic.
- Log.Log.LogWrite: the guard and the section under log.lock are one step here; `GroupCommit` has them apart.
- BufferCache.BufferCache.Bget: for a buffer whose sleep lock is free; `Reference` and `AcquireBuf` are its two halves for one that is not.
- BufferCache.BufferCache.Bread: as Bget.
- ProcTable.ProcTable.Fork: the stores fork makes without ptable.lock (proc.c:196, 200) are in the same step as the last one.
- SleepLock.SleepLock.Release: the wakeup is an assignment to the set of sleepers; `SleepLockRun` has its steps.
- Heap.Heap.Malloc: sbrk's answer is a parameter, above base and not handed out before, and block sizes do not overflow an int; which of several large enough blocks is handed out is not stated.
- FileSystem.FileSystem.Writei: the device switch is an outcome, not a call.
- Console.Console.Key: positions are unbounded; the ring's counters do not wrap.
- PageTables.Memory.Allocuvm: sizes and addresses are those below KERNBASE, and pages already mapped in the range, a panic of the code, are excluded.
- AddressSpaces.Copyuvm: the accessed and dirty bits of an entry are not modelled, and a page missing below the size, a panic of the code, is excluded.
- AddressSpaces.Setupkvm: physical memory is what the page allocator got; the frames of kernel mappings are only numbers.
- ProcTable.ProcTable.Sleep: context switches, kernel stacks, files and signals of a process.
- Pipe.Pipe.Write: a process that sleeps returns from the method and calls it again from where it was; the steps inside sleep and wakeup are those of `SleepWakeup`, whose rule a killed writer, and a writer whose readers have gone, do not keep.
- Console.Console.Intr: without tab, whose completion is not modelled.
- Tab completion, screen output, highlighting, and special keys of the console.
- Directories, path names, inode reference counts, ialloc, device files, and the link counts of fs.c: they would add easier members.
- Spin locks, memory barriers and interrupt nesting: a lock is one atomic step.
- runcmd, exec, system call and trap glue, boot code, drivers other than the memory disk, and the small user programs.
- The loop of grep over its input buffer.

# A verified model of xv6

This project models the parts of the x86 xv6 kernel and its user programs that carry the hardest
promises, and proves those promises in Dafny: the crash-safe log over the buffer cache, the block
map and contents of files, the user heap, address spaces, the process and sleep protocols, and the
two small languages of the shell and grep.

Code that updates state in place is modelled by classes, arrays and loops and proved against a
specification.  Protocols between processes are modelled as step machines, and what is proved of
them is proved for every run.  A panic is a halting outcome: a result value after which nothing more
happens.

## How it is laid out

| files | what they model |
|---|---|
| `Bytes`, `Rings` | disk blocks, little-endian words, 32-bit arithmetic; positions on circular lists |
| `Bio` | bio.c: the doubly linked MRU list and the buffer cache, over the disk of memide.c |
| `LogImage`, `LogReservation`, `Log`, `LogRun` | log.c: disk images and crashes; the reservation of log space; the code; whole runs |
| `FsLayout`, `FsMap`, `FsContent`, `FsTrunc`, `Fs`, `File` | fs.c and filewrite of file.c |
| `DiskFormat` | inodes, files, the bitmap and the log header, byte by byte |
| `FsCost`, `FsNeed`, `FsBook` | what a write logs and allocates, to the block |
| `Mkfs` | mkfs.c: the layout of a disk, and an empty file system |
| `FileRun` | runs of filewrite from a disk as it was left |
| `FullDisk` | a disk on which a transaction logs all that it may |
| `FileCrash`, `FileGroup` | files over the log: crashes in the middle of a filewrite, one after another; many filewrites in one log |
| `HeapList`, `Umalloc` | umalloc.c |
| `PageTables`, `Kalloc`, `VmRoom`, `VmSteps`, `Vm`, `Uvm` | kalloc.c, vm.c and growproc of proc.c |
| `UserView` | memory as processes read and write it through those tables |
| `ProcTable`, `ExitWait`, `Scheduler` | proc.c: table scans; fork, exit and wait; scheduling |
| `SleepLock` | sleeplock.c with the sleep and wakeup of proc.c |
| `Pipe`, `PipeRun` | pipe.c: the ring; writers and readers that sleep on it |
| `ShParse`, `ShPrint`, `ShGrammar`, `ShAppend`, `Sh` | the parser of sh.c: as functions, against a printer, against a grammar, and as it runs |
| `Grep` | the matcher of grep.c |

## Main results

* A crash between any two block writes of a commit, and any number of further crashes inside the
  recoveries that follow, leaves home blocks that are exactly those before or exactly those after the
  transaction (`LogImage.CrashAtomicity`).  The code of log.c over the cache of bio.c writes exactly
  the images of that argument (`Log.Log.CommitSome`, `Log.Log.RecoverFromLog`).
* A whole run refines a specification that knows nothing of buffers, log or disk: a boot, and then any
  script of operations that begin, change blocks and end in any order, while other processes look up,
  lock and release buffers at every bread.  A crash at any moment recovers to a state that the
  specification has committed, and later moments never to an older one (`LogRun.Session`).  The code
  panics only when no buffer is left or a transaction is too big; undisturbed, one unused buffer is
  enough for any commit, and recovery after a boot gets through exactly if there are two buffers, or
  one and nothing to install (`Log.Boot`).
* The log that mkfs makes is never overrun exactly if every operation logs fewer than MAXOPBLOCKS
  blocks (`LogReservation.BudgetIsExact`).  With MAXOPBLOCKS each it can be, because the test in
  log_write is made before the lock is taken (`LogReservation.FullBudgetOverruns`).
* Files are byte sequences: writei splices, readi slices, itrunc empties, no other file changes, and
  every block in use has exactly one owner.  writei and filewrite panic exactly if the write is in
  range and needs more blocks than are free (`Fs.Fs.Writei`), filewrite also on a free inode
  (`File.OpenFile.FileWrite`).
* A write takes the first free blocks, as many as it needs, and the number of blocks it logs is known
  exactly (`FsBook.ExactCost`).  A chunk of filewrite logs at most MAXOPBLOCKS blocks, and at most 7
  when the bitmap is one block.  The bound MAXOPBLOCKS is reached by a chunk that starts in the last
  direct block while the first four free blocks have four bitmap blocks
  (`File.OpenFile.FullTransaction`), and there are such disks of every size from 20000 blocks on, plus two for
  each block of the log
  (`FullDisk.TenBlocks`).
* The two together: a crash anywhere in the commit of one transaction of a filewrite, and any crashes
  in the recoveries that follow, leave a whole file system in which the file holds the first m or the
  first m + 1 chunks of what was to be written and every other file is untouched
  (`FileCrash.FileWriteAtomic`).  On a disk with one bitmap block no interleaving of filewrites panics
  in log_write or overruns the log, so every group commit of them is atomic
  (`FileGroup.FileWritesFit`, `FileGroup.FileWritesAtomic`).  From the disk that mkfs makes, through any
  number of group commits and crashes, the file system stays whole (`FileCrash.LivesReady`,
  `Mkfs.Mkfs`).
* malloc and free keep the free list circular, sorted, coalesced and free of overlap, and every byte
  obtained from sbrk is in exactly one block, live or free.  malloc calls morecore exactly if no free
  block fits, and then once.
* Page tables refine a map.  allocuvm, deallocuvm, copyuvm and freevm change it exactly on their
  range, and every frame stays accounted for on success and on failure.  They fail exactly if there
  are fewer free frames than pages and missing tables, and setupkvm exactly if there are fewer than
  65 (`Uvm.SetupKvm`, `Uvm.AllocUvm`, `Uvm.CopyUvm`).  Seen from the processes, through both levels of the
  tables: what one stores changes nothing that another reads (`UserView.Isolation`), new memory reads as zero, and a child
  reads what its parent did (`UserView.GrownReads`, `UserView.ForkReads`).  growproc leaves a size that
  does not tell what is mapped exactly when the process gives up its whole size (`Uvm.GrowProc`).
* Sleep-locks exclude, and lose no wakeup.  wait misses no exit, reaps each process once, and fails
  only for a process that has no child or was killed (`ExitWait.WaitReturns`).  A
  process is RUNNING exactly if it is the current process of exactly one CPU, and no CPU dispatches
  NPROC others before a slot that stays RUNNABLE.
* A pipe is a queue.  A writer leaves with bytes unwritten only if it was killed or nobody can read
  (`PipeRun.WriterLeaves`).  No writer sleeps on a pipe with room.  Readers sleep only on an empty pipe
  exactly in the runs where no writer takes the early return of pipewrite while a reader sleeps
  (`PipeRun.ReadersOkIff`), and that return does strand a reader (`PipeRun.StrandedReader`).  A killed
  process is never asleep in a pipe exactly in the runs where no kill falls between the test of
  p->killed and the sleep (`PipeRun.AwakeIff`).
* The shell accepts a line, with a command, exactly if the line is in the grammar for that command
  (`ShGrammar.ParsesGrammar`).  Parsing the minimally parenthesised text of any command gives the command
  back, and no pair of parentheses in it can be left out (`ShPrint.ParensNeeded`); after
  nulterminate every word of an accepted line is a string of its own.
* grep's matcher agrees with a declarative meaning of patterns, and the reading of a pattern is the only
  one of its kind (`Grep.ItemsIff`).

## Model

| member | source | states |
|---|---|---|
| `MruLists.MruList.constructor` | bio.c:38-56 | the list that binit builds is a ring of all buffers, last one first |
| `MruLists.Unlink` | bio.c:132-133 | taking a buffer out of a doubly linked ring leaves the ring of the others |
| `MruLists.InsertAfterHead` | bio.c:134-137 | linking a buffer in behind the head gives the ring with it in first place |
| `MruLists.MruList.MoveToFront` | bio.c:132-137 | the relinking in brelse moves one buffer to the front and keeps the order of the rest |
| `Bio.Update` | bio.c:96-141 | changing one buffer under its key is seen at its own block only, and keeps one buffer per block |
| `Bio.Recycle` | bio.c:81-91 | giving an unused clean buffer to a block that is not cached changes no block's contents as users see them |
| `Bio.Bcache.constructor` | bio.c:38-56 | at boot the cache shows the disk as it is, nothing pinned or locked, and every buffer is unused |
| `Bio.Bcache.OneBuffer` | bio.c:61-93 | a block of a device other than 0 has at most one buffer |
| `Bio.Bcache.CleanIsOnDisk` | bio.c:16-19 | a block that is neither pinned nor locked reads as it is on disk |
| `Bio.Bcache.FindCached` | bio.c:68-76 | the first scan finds a buffer for the block exactly if one exists |
| `Bio.Bcache.FindUnused` | bio.c:81-92 | the second scan finds the least recently used buffer that is unreferenced and not B_DIRTY, or there is none |
| `Bio.Bcache.Bget` | bio.c:61-93 | panics exactly if no buffer has the block and every buffer is referenced or B_DIRTY; counts the reference of a cached block, and otherwise gives it the least recently used buffer that is neither, with B_VALID off |
| `Bio.Bcache.Iderw` | memide.c:38-60 | the panic cases, and otherwise one block written or read, never both |
| `Bio.Bcache.Bread` | bio.c:96-106 | for a block of the disk, panics exactly if it is not cached and no buffer is unused; otherwise a locked buffer with the block's logical contents; the disk, the pins and every other buffer stay |
| `Bio.Bcache.PinnedIsCached` | log.c:231 | a pinned block keeps its buffer |
| `Bio.Bcache.Pin` | log.c:231 | B_DIRTY pins the block and changes nothing else |
| `Bio.Bcache.Bwrite` | bio.c:109-116 | panics exactly for a caller without the lock; otherwise appends one image, the disk with this block replaced |
| `Bio.Bcache.Brelse` | bio.c:120-141 | panics exactly for a caller without the lock; otherwise unlocks, drops the reference, and moves an unreferenced buffer to the front |
| `LogImage.PutHeader` | log.c:101-113 | the header block lists n and the n block numbers |
| `LogImage.Install` | log.c:69-82 | installing writes home blocks only |
| `LogImage.Recovered` | log.c:115-122 | after recovery the log is empty |
| `LogImage.InstallAgrees` | log.c:69-82 | installing twice from the same log agrees wherever a listed block was written or the images agreed |
| `LogImage.InstallFrame` | log.c:69-82 | installing touches listed blocks only |
| `LogImage.RecoveryRestarts` | log.c:115-122 | recovery restarted after any of its writes ends where the first one was heading |
| `LogImage.RecoveryChain` | log.c:115-122 | any number of interrupted recoveries followed by a complete one end where the first was heading |
| `LogImage.InstallIsApply` | log.c:69-82 | replaying a committed log is the transaction applied block by block |
| `LogImage.EmptyLogRecovers` | log.c:177-190 | while the header on disk says the log is empty, recovery changes no home block |
| `LogImage.CommittedRecovers` | log.c:192-202 | once the header is on disk, recovery yields the transaction |
| `LogImage.CommitAtomic` | log.c:192-202 | a crash after k writes of commit recovers to the old disk exactly up to the header write, to the new one after it |
| `LogImage.CrashAtomicity` | log.c:69-122 | the same with any number of further crashes inside recovery, and an empty log at the end |
| `LogImage.CommitOutcome` | log.c:192-202 | a crash in the commit of what the file system sees recovers to the disk before or to that view |
| `LogImage.ExtendEpochs` | log.c:145-174 | over a whole run each moment recovers to a committed state, and later moments never to an older one |
| `LogReservation.AppendKeeps` | log.c:223-232 | appending or absorbing a block keeps listed blocks plus unused budgets within the bound |
| `LogReservation.BeginKeeps` | log.c:129-140 | admitting an operation reserves its budget |
| `LogReservation.EndKeeps` | log.c:150-173 | leaving releases the rest of the budget, and the last to leave empties the log |
| `LogReservation.Reservation` | log.c:125-174 | in every run at most MAXOPBLOCKS + 2 * budget blocks are listed, commits run with no operation outstanding, and with budget MAXOPBLOCKS - 1 and log.size LOGSIZE at most 28 are listed and nothing panics |
| `LogReservation.FullBudgetOverruns` | log.c:213-233 | with a budget of MAXOPBLOCKS a reachable state lists more blocks than the log has slots |
| `LogReservation.BudgetIsExact` | log.c:213-233 | with the log of mkfs no state panics or overruns exactly if the budget is below MAXOPBLOCKS |
| `LogReservation.BeginIff` | log.c:129-140 | an operation can begin exactly if nothing has panicked, no commit runs, and listed blocks plus MAXOPBLOCKS for each operation, the new one too, are at most LOGSIZE |
| `LogReservation.IdleBegins` | log.c:129-140 | in every run, an operation can begin whenever none is outstanding and no commit runs |
| `LogReservation.PanicIff` | log.c:217-218 | an operation within its budget can panic in log_write exactly if LOGSIZE or log.size - 1 blocks are listed |
| `Log.Log.LookOne` | bio.c:61-93 | a process that looks up a block is counted in its buffer while it waits, so the buffer is not recycled; nothing that the log code holds or waits for changes |
| `Log.Log.TakeOne` | file.c:97-110 | a process that has looked a buffer up and gets its lock changes nothing that the log code holds, waits for or sees |
| `Log.Log.GiveOne` | file.c:97-110 | nor does one that releases a buffer |
| `Log.Log.Get` | bio.c:96-106 | bread while other processes look up, lock and release buffers: the block's buffer with its contents, a panic with no buffer left, or asleep on a buffer that another has |
| `Log.Log.CopyBlock` | log.c:181-188 | one block copied to its place on disk, or nothing written; with two unused buffers, or one and a pinned second block, it gets through |
| `Log.Log.WriteLog` | log.c:177-190 | each write makes the next image of the commit trace; at the end the log holds the new contents and home blocks are untouched; undisturbed it gets through with one unused buffer |
| `Log.Log.FillHeader` | log.c:101-113 | the loop that fills the header block |
| `Log.Log.WriteHead` | log.c:101-113 | one block write: the header; undisturbed it gets through with one unused buffer |
| `Log.Log.InstallTrans` | log.c:69-82 | each write makes the next image of the recovery trace; the installed blocks are unpinned; undisturbed it gets through with two unused buffers, or one if every block is pinned |
| `Log.Log.ReadHead` | log.c:85-96 | the in-memory header lists what the header on disk lists, unless no buffer is left |
| `Log.Log.RecoverFromLog` | log.c:115-122 | recovery writes a prefix of the recovery trace, all of it unless it panics; it takes one buffer, and two if there is something to install |
| `Log.Log.WriteTransaction` | log.c:192-197 | the first half of commit ends at the commit point, with the transaction recoverable |
| `Log.Log.CommitSome` | log.c:192-202 | commit writes a prefix of the commit trace, all of it unless it panics or waits, so no logged block reaches home before the header; readers may hold any blocks outside the log |
| `Log.Log.Recover` | log.c:53-66 | after a boot, recovery ends with the recovered disk and an empty log, wherever it was interrupted before; when it panics; what is locked afterwards is only read |
| `Log.Boot` | log.c:53-66 | on a fresh cache recovery gets through exactly if the cache has two buffers, or one and an empty log; the log is new, and ready for operations |
| `Log.Log.BeginOp` | log.c:125-141 | admits exactly if no commit runs and the listed blocks, MAXOPBLOCKS for each outstanding operation and MAXOPBLOCKS more are at most LOGSIZE; one operation more is outstanding then, and otherwise nothing changes |
| `Log.Log.LogWrite` | log.c:213-233 | panics exactly if LOGSIZE or log.size - 1 blocks are listed or there is no transaction; otherwise lists the block at the end unless it is listed, and pins it |
| `Log.Log.Update` | log.c:204-212 | bread, a change, log_write and brelse: the block is changed as the file system sees it, listed and pinned, and the disk is as it was; never gets through on a full log, and panics only there or for want of buffers |
| `Log.Log.Commit` | log.c:192-202 | afterwards the disk is what the file system sees; a crash anywhere recovers to that or to the state before; panics only with no buffer left; undisturbed, one unused buffer is enough; what is locked afterwards is only read |
| `Log.Log.EndOp` | log.c:145-174 | commits exactly for the last operation, whoever else reads, and adds exactly the state the file system sees to the committed ones; every image of the run recovers to a committed state in order; panics as Commit does; ready for the next operation |
| `LogRun.EpochsAlike` | log.c:115-122 | where a crash recovers to depends on home blocks only |
| `LogRun.DoStep` | log.c:125-233 | a step of any operation does what the specification does, or stops and leaves a disk that recovers as the specification says |
| `LogRun.Session` | log.c:53-233 | after a boot any script refines the specification, with other processes at every bread; every image recovers to one of its committed states, in order; when it does not get through |
| `FsLayout.BitOfSetBit` | fs.c:56-95 | setting or clearing one bit of a byte changes that bit only |
| `FsLayout.BitAtPutBit` | fs.c:56-95 | the same for a bitmap block |
| `FsLayout.InodeRoundTrip` | fs.c:220-236 | what iupdate writes ilock reads back, and the other inodes of the block stay |
| `DiskFormat.InodeBytes` | fs.h:29-36 | iupdate puts the fields of an inode, byte by byte, where struct dinode has them |
| `DiskFormat.FileBytes` | fs.c:373-402 | byte p of a file is byte p % 512 of the block that addrs[p / 512] names, or, from the thirteenth block on, that word p / 512 - 12 of block addrs[12] names |
| `DiskFormat.HeaderBytes` | log.c:34-37 | write_head puts the count and the block numbers where struct logheader has them |
| `DiskFormat.BitmapBits` | fs.c:57-80 | the bit of a block is bit i % 8 of byte i / 8, the lowest first |
| `FsMap.AllocBits` | fs.c:56-78 | marking a free block and zeroing it allocates exactly that block |
| `FsMap.FreeBits` | fs.c:81-95 | clearing the bit frees exactly that block |
| `FsMap.AllocKeeps` | fs.c:56-78 | a block from balloc has no owner and moves no other block |
| `FsMap.LinkKeeps` | fs.c:372-400 | storing an allocated block in an empty slot makes that slot its one owner |
| `FsMap.TruncKeeps` | fs.c:407-435 | forgetting an inode's blocks and clearing their bits leaves every other block with its owner |
| `FsMap.FreeCount` | fs.c:56-95 | the clear bits and the owned blocks make up the data blocks |
| `FsContent.GrownByte` | fs.c:372-400 | mapping new blocks changes no byte that was mapped |
| `FsContent.WrittenContent` | fs.c:481-511 | a complete write turns the contents s into s[..off] + src + what is left of s, without holes |
| `FsContent.OtherContent` | fs.c:481-511 | a write to one inode changes no other file |
| `Fs.Fs.constructor` | fs.c:171-186 | the file system that a disk holds, with no inode in memory |
| `Fs.Fs.FindFree` | fs.c:63-76 | the first clear bit, or every block is in use |
| `Fs.Fs.Balloc` | fs.c:56-78 | the first free block, marked and zeroed; None exactly when all are in use |
| `Fs.Fs.Bfree` | fs.c:81-95 | panics exactly on a free block; otherwise frees that block only |
| `Fs.Fs.BmapDirect` | fs.c:378-382 | the direct case of bmap; None only if it needs a block and none is free |
| `Fs.Fs.BmapIndirect` | fs.c:385-397 | the indirect case, allocating the indirect block and the entry as needed; None only if fewer blocks were free than it takes |
| `Fs.Fs.Bmap` | fs.c:372-400 | the block of a file block, found without change or newly allocated and zero; no other slot, owner or file changes; what it logs; None only beyond MAXFILE or if fewer blocks were free than it takes |
| `Fs.Fs.Ilock` | fs.c:287-312 | panics exactly on a free inode that is not cached; otherwise the cached copy is the one on disk |
| `Fs.Fs.Iupdate` | fs.c:220-236 | the inode on disk is the one in memory, and nothing else changes |
| `Fs.MappedBelowSize` | fs.c:452-476 | without holes every byte below the size is in a mapped block |
| `Fs.Fs.ReadAll` | fs.c:469-474 | the loop of readi returns exactly the bytes asked for |
| `Fs.Fs.Readi` | fs.c:452-476 | fails exactly on the source's two tests; otherwise returns s[off..min(off+n, size)], allocates nothing and never panics |
| `Fs.Fs.WriteChunk` | fs.c:498-504 | one round of writei changes the bytes of its chunk and no other byte of any file, and logs exactly the data block, the bitmap blocks of what is new, and an indirect block that changed; fails only for want of blocks |
| `Fs.Fs.WriteAll` | fs.c:498-504 | after the loop of writei all of src is in place, and only a write behind the end has allocated; it stops only when the disk is full and the write needs more blocks than there were |
| `Fs.Fs.Writei` | fs.c:481-511 | fails exactly on the source's tests and then changes nothing; panics exactly if fewer blocks are free than the write needs; otherwise splices src in, leaves the other files alone, leaves the inode written back, takes the first free blocks and logs exactly what it changes |
| `Fs.Fs.TruncDirect` | fs.c:414-419 | the direct blocks are given back |
| `Fs.Fs.TruncIndirect` | fs.c:421-431 | the indirect blocks and their block are given back |
| `Fs.Fs.Itrunc` | fs.c:407-435 | exactly the inode's blocks become free, "freeing free block" is never hit, the file is empty, other files stay |
| `FsCost.FinalCost` | fs.c:481-511 | data blocks, indirect block, inode block and a bitmap block per allocation are all that a write logs |
| `FsCost.LoggedBound` | fs.c:56-78 | a transaction that starts empty logs no more than these, and one bitmap block if there is only one |
| `FsCost.DrawsTrans` | fs.c:56-78 | blocks taken in two turns are the first free blocks of the start, and so are their bitmap blocks |
| `FsNeed.TallyNext` | fs.c:498-504 | a round adds its own new blocks to the count and leaves the rest of the file's slots as they were |
| `FsNeed.NeedJoin` | file.c:135-152 | two writes, the second starting where the first ends, need together what one write needs |
| `FsBook.BookedNext` | fs.c:498-504 | each round keeps the books: what was logged, taken and still to come |
| `FsBook.DataBlocksCount` | fs.c:372-400 | a range of mapped file blocks has as many different disk blocks |
| `FsBook.ExactCost` | fs.c:481-511 | the exact number of blocks that a transaction of one write logs |
| `File.ChunkCost` | file.c:127-152 | a chunk costs at most MAXOPBLOCKS blocks wherever it starts |
| `File.FullCost` | file.c:127-133 | a chunk that starts in the last direct block logs exactly MAXOPBLOCKS blocks if the first four free blocks have four bitmap blocks |
| `File.OpenFile.FullTransaction` | file.c:127-145 | such a transaction does not panic and does log MAXOPBLOCKS blocks |
| `File.SpreadNext` | file.c:135-152 | chunk by chunk a file gets the blocks of one write |
| `File.Shortage` | file.c:135-152 | blocks run out in a chunk only if the whole write needs more than there were |
| `File.SpliceMore` | file.c:135-152 | writing two chunks one after the other is writing them together |
| `File.AfterMore` | file.c:135-152 | a file with i bytes written, and the next chunk spliced in behind them, has j bytes written |
| `File.OpenFile.WriteOne` | file.c:140-145 | one transaction: writes its chunk or changes nothing, leaves everything on disk, logs every block it changes and at most MAXOPBLOCKS; panics exactly on a free inode that is not cached or for want of blocks |
| `File.OpenFile.FileWrite` | file.c:117-156 | done exactly if the file is writable and everything fits; otherwise a prefix of whole chunks is written; panics exactly on a free inode that is not cached or if fewer blocks are free than the chunks that fit need; each transaction takes the file from one number of chunks to the next; the inode keeps its type |
| `File.MountOk` | fs.c:171-186 | what is whole on disk is a valid state of the file system |
| `File.Mount` | fs.c:171-186 | a file opened on such a disk is new and valid |
| `FileRun.WriteEach` | file.c:117-156 | filewrites one after another put their bytes in the file one after another, up to the first that fails; every transaction is in order |
| `FileRun.Session` | file.c:117-156 | the same from a disk as it was left |
| `FullDisk.InodesLaid` | mkfs.c:183-195 | an inode table written inode by inode reads back |
| `FullDisk.BitsLaid` | mkfs.c:238-251 | a bitmap written bit by bit marks exactly the blocks in use |
| `FullDisk.FilledOk` | fs.c:56-78 | any blocks behind the first twelve can be exactly the free ones of a whole file system |
| `FullDisk.TenBlocks` | file.c:127-145 | on a disk of any size from 20000 blocks on, plus two for each of the log, filled so that four blocks are free under four bitmap blocks, a chunk logs MAXOPBLOCKS blocks |
| `Mkfs.GeometryOk` | mkfs.c:23-27 | the layout that mkfs computes has room for every inode and a bit for every block |
| `Mkfs.BlankOk` | mkfs.c:108-111 | a disk with zero inodes and exactly the metadata marked is a whole file system without files, of any size |
| `Mkfs.Balloc` | mkfs.c:238-251 | marks exactly the first blocks, and fails exactly if they do not fit one bitmap block |
| `Mkfs.Mkfs` | mkfs.c:94-115 | an empty file system behind an empty log, to which the crash theorems apply, unless the metadata does not fit one bitmap block |
| `Mkfs.RootSize` | mkfs.c:158-163 | rounding up the size of the root directory leaves no hole in it exactly if it did not end at a block boundary |
| `FsCost.RecordOne` | log.c:204-212 | a changed block that is passed to log_write keeps the record of changes complete |
| `FileCrash.HomeIsEnough` | fs.c:216-511 | two disks that agree outside the log hold the same well-formed file system with the same files |
| `FileCrash.CanCommitChange` | log.c:192-202 | what filewrite transactions have logged can be committed to an empty log, lies outside it, and covers every change |
| `FileCrash.ChangeAtomic` | log.c:115-202 | a crash at any write of the commit, and any crashes in recovery, leave every file as before or every file as after |
| `FileCrash.GroupAtomic` | log.c:145-174 | of all the transactions in a group commit that fits the log a crash leaves every one or none; FileGroup.FileWritesFit says when it fits |
| `FileCrash.FileWriteAtomic` | file.c:117-156 | such a crash leaves the file with m or m + 1 chunks written and all other files as they were |
| `FileCrash.LivesReady` | log.c:53-202 | through any number of group commits, each cut off anywhere, and their recoveries, the file system stays whole behind an empty log, and each group is in it or not |
| `FileGroup.FileNextKept` | log.c:125-233 | with one filewrite transaction for each operation from begin_op to end_op, a step keeps to a budget of 7 blocks each, and the list is what the operations have logged since the last commit |
| `FileGroup.FileWritesFit` | log.c:125-233 | in no interleaving of filewrites on a disk with one bitmap block does log_write panic, and at most 24 blocks are listed |
| `FileGroup.GroupListed` | log.c:145-174 | when end_op commits, the list holds exactly what the transactions of the group have logged, and fits the log |
| `FileGroup.FileWritesAtomic` | log.c:145-202 | so a group commit of them is atomic: a crash leaves all of them or none |
| `HeapList.InsertOk` | umalloc.c:33-43 | a block linked in behind its predecessor keeps the list circular and sorted, and can touch only its two neighbours |
| `HeapList.MergeOk` | umalloc.c:33-42 | joining two touching neighbours keeps the list, the live blocks and the bytes covered |
| `HeapList.RemoveOk` | umalloc.c:76-77 | an exact fit leaves the list and becomes live |
| `HeapList.SplitOk` | umalloc.c:78-82 | cutting off the tail of a free block makes exactly that tail live, and leaves the list coalesced |
| `HeapList.ObtainOk` | umalloc.c:54-59 | memory from sbrk becomes one more block |
| `Umalloc.UnitsHold` | umalloc.c:69 | the block cut holds the bytes asked for exactly if nbytes is at most 2^32 - 8, and less than one unit more |
| `Umalloc.GrowthFits` | umalloc.c:52-54 | the size passed to sbrk fits its int exactly for these requests |
| `Umalloc.StopIff` | umalloc.c:30-32 | the test that ends free's search holds exactly at the last free header below the block |
| `Umalloc.FreeKeeps` | umalloc.c:24-44 | the four ways of linking a block back keep the list coalesced and free just that block |
| `Umalloc.Partition` | umalloc.c:24-90 | each byte from sbrk is in exactly one block, which is live or free and not both |
| `Umalloc.Heap.FindSpot` | umalloc.c:30-32 | free's search ends, at the predecessor |
| `Umalloc.Heap.Free` | umalloc.c:24-44 | exactly the given block stops being live, and freep is the last free header below it |
| `Umalloc.Heap.Morecore` | umalloc.c:46-61 | fails with nothing changed if sbrk fails; otherwise a block that fits is free |
| `Umalloc.Heap.Malloc` | umalloc.c:63-90 | morecore is called exactly if no free block is big enough, and once, for 4096 units at least; NULL exactly if it then fails; otherwise one new live block of the size asked for, all others kept, cut from the end of the first block behind freep that is big enough |
| `PageTables.Entry` | vm.c:73 | an entry gives back its page number and flags |
| `PageTables.AccessIs` | vm.c:49-52 | a page allows what its table entry says, because no directory entry takes anything away |
| `PageTables.AddTable` | vm.c:44-53 | hanging a blank table into a directory maps nothing and keeps one owner per frame |
| `PageTables.SetLookup` | vm.c:35-55 | writing one entry changes the mapping of one page of one directory |
| `PageTables.MapPage` | vm.c:73 | mapping a page gives its frame that page as its one owner |
| `PageTables.UnmapPage` | vm.c:269-276 | unmapping a page frees exactly its frame |
| `PageTables.DropDir` | vm.c:291-297 | dropping a directory with its tables leaves the others whole |
| `Kalloc.PanicsIff` | kalloc.c:64-65 | kfree panics exactly on what is not the address of a page from end to PHYSTOP |
| `Kalloc.Memory.Kalloc` | kalloc.c:82-95 | fails exactly if no frame is free; otherwise hands out one free frame |
| `Kalloc.Memory.Kfree` | kalloc.c:59-77 | halts exactly unless v is page aligned, not below end and below KERNBASE + PHYSTOP; otherwise exactly the given frame becomes free, and only its contents change |
| `Kalloc.Memory.FreeRange` | kalloc.c:46-53 | exactly the pages that lie whole in the range become free |
| `Vm.WalkPgdir` | vm.c:35-55 | finds the table, or takes one free frame for it, whose entry in the directory has PTE_P, PTE_W and PTE_U; no mapping changes; None exactly if there is none and none can be made |
| `Vm.MapPages` | vm.c:60-80 | maps exactly its pages, in order, up to where it ran out of memory or met a mapped page; takes a frame for each missing table, and runs out exactly when there are fewer |
| `VmRoom.MissingJoin` | vm.c:35-55 | tables made for some pages are not missing for the next |
| `VmRoom.MissingAll` | vm.c:35-55 | a directory without tables is missing one for each 1024 pages begun |
| `Vm.DeallocUvm` | vm.c:255-279 | exactly the pages between the rounded sizes go, exactly their frames become free; skipping a missing table skips no page |
| `Uvm.FreeVm` | vm.c:283-298 | exactly the frames of the directory, its tables and its user pages become free |
| `Uvm.SetupKvm` | vm.c:118-136 | fails exactly if fewer than 65 frames are free, and otherwise takes 65; never meets a mapped page; the new directory maps exactly the kernel's ranges, for the kernel only, and its text read-only; on failure every frame is back where it was |
| `Uvm.KernelCosts` | vm.c:105-115 | the tables that each row of kmap takes |
| `Uvm.KernelMore` | vm.c:105-115 | each row of kmap adds its range to the kernel map |
| `Uvm.OwnFrames` | vm.c:221-249 | distinct user pages, of one or of two processes, are on distinct frames |
| `Uvm.AllocNext` | vm.c:232-247 | a page added on a zeroed frame keeps the pages added before it |
| `Uvm.OnlyTables` | vm.c:234-246 | after a failed growth all that the process can have gained is page tables |
| `Uvm.AllocUvm` | vm.c:221-249 | new pages exactly on the rounded range, zeroed, on frames that were free, and open to user reads and writes at both levels of the tables; fails exactly at KERNBASE or if fewer frames are free than pages and missing tables, and then the user mapping is as before |
| `Uvm.CopyUvm` | vm.c:315-345 | same pages below sz, same bytes, flags and effective access, on frames that were free; the parent stays; fails only if fewer frames are free than the copy takes, and then the free frames are exactly those before; halts only if a page below sz is missing |
| `Uvm.GrowProc` | proc.c:158-175 | after growproc the size tells exactly which pages are mapped, except exactly when the whole size is given up; growth fails exactly at KERNBASE or for want of frames |
| `UserView.WalkIs` | vm.c:35-55 | the walk of the hardware through directory and table, in arithmetic on addresses, is the map that the tables are proved to refine |
| `UserView.Isolation` | vm.c:82-92 | a word that a process stores below KERNBASE is what it then reads there, no other word of any process changes, and the tables stay in order |
| `UserView.GrownReads` | vm.c:221-249 | memory that a process gains reads as zero, and it may write it |
| `UserView.GrownKeeps` | vm.c:221-249 | the memory it had reads as before |
| `UserView.ForkReads` | vm.c:315-345 | a child reads at each address below the size what its parent reads |
| `UserView.ShrunkReads` | vm.c:255-279 | what a process gives up is gone, and the rest of its memory reads as before |
| `UserView.OthersGrow` | vm.c:221-249 | growth leaves what every other process reads |
| `UserView.OthersShrink` | vm.c:255-298 | so do shrinking and exit |
| `UserView.KernelReads` | vm.c:105-115 | in every directory physical address a is at KERNBASE + a |
| `ProcTable.ReparentedAt` | proc.c:255-262 | every child of the process goes to init, which is woken exactly if one of them is dead |
| `ProcTable.ExitedAt` | proc.c:250-265 | what exit leaves in each slot: parent, state, and who is woken |
| `ProcTable.Ptable.Wakeup1` | proc.c:457-465 | exactly the slots asleep on the channel become RUNNABLE; nothing else changes |
| `ProcTable.Ptable.Kill` | proc.c:479-497 | the first slot with the pid has killed set and is RUNNABLE if it slept, and no other slot changes; fails exactly if there is none |
| `ProcTable.Ptable.AllocProc` | proc.c:79-92 | takes the first unused slot, or fails exactly if there is none |
| `ProcTable.Ptable.Exit` | proc.c:250-265 | slot by slot: the process is a zombie, its children are init's, exactly the sleepers on its parent, and on init if a child is dead, are RUNNABLE, and the rest is as before |
| `ProcTable.Ptable.Wait` | proc.c:279-311 | a pass reaps the first dead child and clears its slot exactly if there is a dead child; sleeps on itself exactly if there are children, none is dead and it is not killed; otherwise changes nothing |
| `ExitWait.ExitEvent` | proc.c:227-268 | exit keeps every live or dead process with a live parent and wakes whoever must see it |
| `ExitWait.ParentsLive` | proc.c:180-312 | in every run, with ptable.lock free, every process but init that is live or dead has a live parent |
| `ExitWait.NoMissedExit` | proc.c:227-312 | in every run no process sleeps in wait while one of its children is dead |
| `ExitWait.ReapedOnce` | proc.c:283-301 | no two waits of a run return the same pid |
| `ExitWait.WaitOutcome` | proc.c:279-311 | a step of wait reaps exactly if a child is dead, and otherwise fails or sleeps as children and the killed flag say |
| `ExitWait.WaitReturns` | proc.c:302-310 | in every run wait fails only for a process without children or killed, and puts to sleep only one that is not killed, has a child and no dead one |
| `Scheduler.RunningIsCurrent` | proc.c:322-392 | in every run, with ptable.lock free, a process is RUNNING exactly if it is the current process of a CPU, and of one only |
| `Scheduler.OneCpu` | proc.c:322-392 | at no moment do two CPUs use the stack of one process |
| `Scheduler.BoundedPasses` | proc.c:329-355 | the scan cannot come back to a slot before it has come to q |
| `Scheduler.NoStarvation` | proc.c:329-355 | while a slot stays RUNNABLE a CPU dispatches others fewer than NPROC times |
| `Scheduler.TableEdits` | proc.c:450-497 | what wakeup, kill, exit, wait and allocproc do to the state of another slot is what the step machine lets a running process do |
| `SleepLock.Exclusion` | sleeplock.c:22-42 | in every run at most one process holds the sleep-lock |
| `SleepLock.NoLostWakeup` | sleeplock.c:22-42 | in every run, with the inner lock free, a process asleep on the sleep-lock implies that it is locked and somebody has it |
| `SleepLock.FreeMeansNobodyWaits` | proc.c:417-474 | a free sleep-lock has nobody asleep on it or falling asleep |
| `SleepLock.HoldingIsOwn` | sleeplock.c:45-53 | holdingsleep is true exactly for the process that has the lock |
| `Pipes.CountersAgree` | pipe.c:85-92 | the tests on the wrapping counters mean full and empty, and the cell does not depend on the wrap |
| `Pipes.Pipe.WritePass` | pipe.c:79-98 | appends bytes until all are written or the pipe is full; done exactly if all are written, refused exactly if not and the read end is closed or the process killed, and otherwise asleep |
| `Pipes.Pipe.ReadPass` | pipe.c:101-121 | on an empty pipe with an open write end, stopped exactly if killed and otherwise asleep; else takes the oldest bytes, n of them or all there are |
| `PipeRun.Fifo` | pipe.c:79-121 | in every run the bytes read are a prefix of the bytes written, the rest is in the pipe, and at most PIPESIZE |
| `PipeRun.NoStuckWriter` | pipe.c:84-93 | in every run a sleeping writer means a full pipe with an open read end |
| `PipeRun.WriteOutcome` | pipe.c:79-98 | a pass of a writer puts the next bytes in order, stops early only on a full pipe, and leaves or sleeps exactly as the killed flag, the read end and what is left say |
| `PipeRun.ReadOutcome` | pipe.c:101-121 | a pass of a reader sleeps exactly on an empty open pipe unless killed, and otherwise takes the front of the queue, n bytes or all |
| `PipeRun.WriterProgress` | pipe.c:79-98 | in every run a write that some process asked for has put a prefix of its bytes, over however many passes, and all of them when it is done |
| `PipeRun.WriterLeaves` | pipe.c:85-89 | in every run a writer leaves with bytes unwritten only if it was killed or the read end was closed |
| `PipeRun.ReadersStep` | pipe.c:86-89 | a step lets a reader sleep on data exactly if it is the early return with a reader asleep |
| `PipeRun.ReadersOkIff` | pipe.c:79-121 | throughout a run a sleeping reader means an empty pipe with an open write end, exactly if no such return is taken |
| `PipeRun.StrandedReader` | pipe.c:86-89 | a run in which that return leaves a reader asleep on a full pipe |
| `PipeRun.KilledStep` | proc.c:479-497 | a step puts a killed process to sleep, or kills it asleep, exactly if the kill falls between its test and its sleep |
| `PipeRun.AwakeIff` | pipe.c:84-110 | throughout a run no killed process sleeps in the pipe, exactly if no kill falls there |
| `PipeRun.KilledSleeper` | pipe.c:105-110 | a run in which it does |
| `ShParse.Spaces` | sh.c:262 | exactly five characters are space |
| `ShParse.Symbols` | sh.c:263 | exactly seven are symbols |
| `ShParse.GetToken` | sh.c:266-309 | tokens lie in order in the line, are not empty, and words are whole words |
| `ShParse.ParsedOk` | sh.c:328-447 | every word of an accepted line's command is a whole word of the line, and no command has MAXARGS of them |
| `ShPrint.RedirsRead` | sh.c:375-398 | printed redirections are read back in order |
| `ShPrint.ExecRead` | sh.c:416-447 | a printed command is read back with its words and redirections |
| `ShPrint.BlockRead` | sh.c:400-414 | a parenthesised line with redirections is read back |
| `ShPrint.RoundTrip` | sh.c:345-447 | at each level of the grammar, in any context, the parser reads a printed tree as that tree and stops behind it |
| `ShPrint.ParserInvertsPrinter` | sh.c:328-447 | parsing the minimally parenthesised text of a command gives the command back |
| `ShPrint.ParensNeeded` | sh.c:345-447 | where a command is printed in parentheses, its text without them is not read as that command, whatever follows |
| `ShPrint.ArgLimit` | sh.c:432-443 | a simple command is accepted exactly if it has fewer than MAXARGS words |
| `ShGrammar.LineSound` | sh.c:345-360 | what the parser accepts as a line, from a position on, is a line of the grammar that ends where it stops |
| `ShGrammar.PhraseComplete` | sh.c:345-447 | a phrase of the grammar, followed by what may follow it, is read to its end as the command it spells |
| `ShGrammar.ParsesGrammar` | sh.c:328-343 | a line is accepted with command c exactly if it is a line of the grammar for c; so a missing ), a missing file name, leftovers and MAXARGS words are refused |
| `ShAppend.AppendIsWrite` | sh.c:289-293 | a line with > for one of its >> is accepted or refused alike and gives the same command, word for word |
| `Sh.Parser.GetToken` | sh.c:266-309 | the token starts at the next character that is no space and the cursor ends at the next one after it; `>>` is one token of two characters, every other symbol one of one, and a word goes on to the next space or symbol |
| `Sh.Parser.Peek` | sh.c:311-321 | skips space and tells whether the next character is one of the set |
| `Sh.Parser.ParseRedirs` | sh.c:375-398 | the loop over redirections |
| `Sh.Parser.ParseExec` | sh.c:416-447 | the loop over arguments |
| `Sh.Parser.ParseBlock` | sh.c:400-414 | a block |
| `Sh.Parser.ParsePipe` | sh.c:362-373 | a pipeline |
| `Sh.Parser.ParseLine` | sh.c:345-360 | a line, with its loop over ampersands |
| `Sh.Parser.NulTerminate` | sh.c:450-494 | a NUL is written behind every word of the command and nowhere else |
| `Sh.Parser.ParseCmd` | sh.c:328-343 | afterwards every argument and file name is, in the buffer, a string equal to its token |
| `Grep.SplitFirst` | grep.c:85-96 | a match of a list of items is a first piece followed by a match of the rest |
| `Grep.ItemsIff` | grep.c:85-96 | the items of a pattern are the one list whose text is the pattern, where a $ is the end exactly in last place and no character before a * stands for itself |
| `Grep.OneMatches` | grep.c:93-94 | a character matches itself, and . any one character, then the rest |
| `Grep.StarMatches` | grep.c:99-106 | a star matches nothing, or one such character and again |
| `Grep.EndMatches` | grep.c:91-92 | $ matches exactly at the end |
| `Grep.Match` | grep.c:72-82 | true exactly if the items of the pattern match somewhere; with a leading ^ exactly if the items of the rest match at the start |
| `Grep.MatchHere` | grep.c:85-96 | true exactly if the items of the pattern match at the position |
| `Grep.MatchStar` | grep.c:99-106 | true exactly if some number of repetitions leaves a match of the rest |

## Left out

- FileGroup.FileWritesAtomic: the operations of one commit interleave at begin_op, log_write and end_op, but what they do to the file system is taken to follow one another, not to interleave block by block.
- FileCrash.GroupAtomic: that the group fits the log is given here; FileGroup.GroupListed derives it for a disk with one bitmap block, and operations that log MAXOPBLOCKS blocks each can overrun it, as LogReservation.FullBudgetOverruns shows.
- Fs works on the blocks that Bio shows without calling its code.
- Log.Log.Get: other processes act when the log code calls bread, and only read blocks outside the log; LogRun.Session makes a change of one block one step.
- Sleeping on log.lock and bcache.lock: acquire and release are atomic lock steps, and begin_op is one pass of its loop.
- Spinlock internals, interrupts and the memory model: a critical section is atomic except where a step machine splits it.
- Device inodes, pipes and the console in readi, writei and filewrite: a device inode is an outcome of its own.
- Directories, path names, link counts and iput: only the inode layer below them is modelled.
- Mkfs.Mkfs: without the root directory and the files that mkfs copies; the bytes of the superblock are a parameter.
- Running out of blocks, buffers or log space stops the machine, as it does in the source.
- UserView: loads and stores go through the tables as they are, without a TLB, and only frames that kalloc manages have contents.
- Umalloc.Heap.Malloc: requests whose byte count overflows sbrk's int are excluded, because sbrk then shrinks or moves the heap; GrowthFits says which they are.
- Umalloc.Heap.Free: the argument is a live block; a foreign or already freed pointer is not modelled, and users are taken to stay inside their blocks.
- Uvm.AllocUvm: the pages above the old size are taken to be unmapped, as growproc and exec leave them; on a mapped page mappages panics, which MapPages reports.
- Vm.MapPages: below KERNBASE one page at a time, which is all its callers ask for, and pa is page-aligned.
- Kalloc.Memory.FreeRange: the range lies between end and PHYSTOP, outside which kfree panics.
- SleepLock.Exclusion: releasesleep is called by the holder, as brelse and iunlock check before they call it.
- Kalloc.Memory.Kfree: a page that is already free is not freed again; the source does not check this either.
- Page contents are words, and what user programs store in their pages between calls is arbitrary.
- inituvm, loaduvm, clearpteu, switchuvm, exec and the hardware's use of page tables.
- ExitWait.ReapedOnce: pids do not wrap around.
- Open files and the working directory in fork and exit; the trap frame, and trap.c.
- pipealloc, and the reference counts that decide when pipeclose is called; a pipe may be closed at any moment.
- Sh.Parser.ParseExec: the node is built when its arguments are complete instead of being filled in place, and pending redirections are kept in a list.
- runcmd and the shell's own built-in command; malloc inside the parser does not fail.
- grep's line buffering and output.
- Hardware and boot code, ide.c, system call plumbing, printf, the small user programs and extensions.c.

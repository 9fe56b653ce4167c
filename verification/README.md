# xv6 with encrypted pages: a verified model

This project models the cores of an x86 teaching kernel and of three of its user
programs, and proves what they are for. Each module follows one source file or
one layer.

| modules | what they model |
|---|---|
| `Common` | definitions that several parts share |
| `Blocks` | disk blocks as bytes, 32-bit words and bitmap bits |
| `Log`, `LogOps` | the redo log: commit, crash, recovery; begin_op, log_write and end_op by any number of operations |
| `BufCache` | the buffer cache: its linked list, pinning, coherence with the disk |
| `FsState`, `FileSys` | block bitmap, inodes, bmap, readi, writei, itrunc, iupdate, and filewrite's chunks |
| `FileCrash` | a crash during filewrite, from the file's bytes to the disk's blocks |
| `Umalloc` | the user-level allocator with its circular free list |
| `ProcTable` | fork, exit, wait and the scheduler |
| `Sleep`, `SleepLock` | sleep and wakeup for any clients, one lock operation at a time; sleep-locks as such a client |
| `Pipe`, `PipeSleep` | pipes with wrapping 32-bit counters; pipes as clients of sleep and wakeup |
| `ShellGrammar`, `ShellSyntax`, `Shell` | the shell's parser, a printer, the language by what may be written, and the NULs written over the command line |
| `PageMap`, `AddressSpace`, `Vm` | page frames, two-level page tables, growing, copying and freeing address spaces |
| `Encryption`, `Clock`, `Examples` | page encryption, the queue of the pages a process has in the clear, and inputs on which they fail |
| `Grep` | the regular-expression matcher |
| `CStrings` | NUL-terminated strings |

Code that changes state is a class whose methods have the source's loops; each
method is proved against a function or relation on values, and the theorems are
lemmas about those. Protocols (log operations, processes, sleep and wakeup, pipes)
are machines whose runs interleave any number of participants; a theorem about
runs quantifies over all of them.

The model makes these assumptions. Writing one disk block is atomic and a crash
falls between two such writes. File system operations are bracketed by begin_op
and end_op. A panic ends the run; methods report it in their result, or ask
their caller for the condition where only a caller can know it. Files start
without holes. What sbrk grants lies above the static `base` and is disjoint
from what it granted before. Frames, virtual pages and heap units go by number.

Where the code differs from what its comments or callers expect, the model
follows the code and states exactly when the expectation holds:

- MAXOPBLOCKS is announced as the number of blocks an operation may log. With
  the log size mkfs chooses, an operation must stay below it
  (`LogOps.TooBigExactly`). Because log_write makes that test before it takes
  log.lock, operations at the limit can also fill the header's array, which is one
  block more than the log has room for on disk (`LogOps.OverrunExactly`); the
  array itself runs over only beyond the limit (`LogOps.ArrayOverrunExactly`). A
  chunk of filewrite stays at seven blocks as long as the bitmap is one block,
  which it is for FSSIZE 1000.
- malloc rounds its argument up in 32 bits, so the last seven sizes wrap
  (`Umalloc.EnoughUnless32BitWrap`).
- kill looks at the pid of every slot, used or not: kill(0) marks an unused slot,
  and the next process there is born killed (`ProcTable.BornKilledExactly`).
- A killed writer can return from a pipe it has just filled without waking the
  readers (`Pipe.StepKeepsRest`, `Pipe.ReaderSleepsOn`).
- exec asks mencrypt for many pages at once; one call encrypts one page
  (`Encryption.RangeSealed`, `Examples.SecondStaysPlain`).
- mdecrypt marks a page present before it decides whether to decrypt it, so a
  page whose first plaintext byte is 0xFF stays complemented
  (`Encryption.EncryptThenDecrypt`, `Examples.FirstByteLost`).
- The clock queue gives no second chance (`Clock.SecondChanceExactly`,
  `Examples.AccessedIsEvicted`), and page 0 never counts as queued
  (`Clock.FaultedLoose`, `Examples.PageZeroIsLoose`).
- `>>` opens its file exactly as `>` does; both parse to the same tree.

## Model

| member | source | states |
|---|---|---|
| Log.FilledHeader | log.c:102-113 | The header block that write_head builds reads back, by read_head's layout, as exactly the block list it was built from. |
| Log.CommittedAfterPutHead | log.c:86-113 | read_head after write_head returns the list that was written, for every list that fits. |
| Log.InstallAt | log.c:70-82 | What installing any prefix of a transaction leaves in every block of the disk: log copy at home, everything else untouched. |
| Log.InstallAgain | log.c:70-82 | Installing a whole transaction over a disk on which any prefix of it was already installed gives the same disk. |
| Log.FullyRecovered | log.c:116-122 | A finished recovery leaves an empty log, and recovering again changes nothing. |
| Log.RecoveryIsRestartable | log.c:116-122 | A crash at any block write of recovery leaves a disk from which recovery reaches the disk the first one was heading for. |
| Log.RebootsConverge | log.c:70-122 | Any number of interrupted recoveries in a row end in the same disk as one uninterrupted recovery. |
| Log.CrashBeforeCommitPoint | log.c:178-202 | A crash before the header write leaves every home block as it was. |
| Log.AtCommitPointIsNew | log.c:178-202 | From the header write on, recovery produces every block of the transaction and no other change. |
| Log.CommitIsAtomic | log.c:193-202 | For every transaction, every crash point in commit and every run of interrupted recoveries: all home blocks old if the header was not written, all new if it was. |
| Log.CommitCompletes | log.c:193-202 | Without a crash commit ends with every block home and an empty log. |
| Log.RedoLog.ReadHead | log.c:86-96 | The loop reads exactly the committed block list of the disk. |
| Log.RedoLog.WriteHead | log.c:102-113 | The loop and one block write put exactly the current list into the header. |
| Log.RedoLog.InstallTrans | log.c:70-82 | The loop passes through exactly the install points of the specification, one per block write, and unpins what it installs. |
| Log.RedoLog.RecoverFromLog | log.c:116-122 | Recovery passes through exactly the disks that the restartability theorem quantifies over. |
| Log.RedoLog.WriteLog | log.c:178-190 | The loop passes through exactly the log-writing points. |
| Log.RedoLog.Commit | log.c:193-202 | commit passes through exactly the crash points of the atomicity theorem and ends with the transaction home, the log empty and the blocks unpinned. |
| Log.RedoLog.LogWrite | log.c:214-233 | Absorbs or appends, never duplicates, pins the new contents; fails exactly where the source panics. |
| LogOps.StepKeepsInv | log.c:126-233 | Each step, the unlocked test of log_write included, keeps group commit, no duplicates, operations in one transaction only, and waiters waiting for a reason. |
| LogOps.RunsKeepInv | log.c:126-233 | The same over every run with any number of operations. |
| LogOps.RunsFit | log.c:126-141 | If every operation keeps to MAXOPBLOCKS distinct blocks, lh.n plus all unspent budget never exceeds LOGSIZE, in every run. |
| LogOps.OtherPanicsUnreachable | log.c:146-174 | The panic in end_op and the `outside of trans` panic of log_write cannot happen in bracketed runs. |
| LogOps.NineIsSafe | log.c:214-222 | With nlog = LOGSIZE, operations of fewer than MAXOPBLOCKS blocks never meet the `too big a transaction` panic. |
| LogOps.TenPanics | log.c:214-222 | Three operations of ten distinct blocks each, legal by MAXOPBLOCKS, do meet it: a complete run is built. |
| LogOps.TooBigExactly | mkfs.c:25 | The panic at log.c:218 is reachable if and only if operations may log MAXOPBLOCKS or more distinct blocks. |
| LogOps.TenOverruns | log.c:182-186 | log_write tests lh.n before it takes log.lock: operations of ten blocks that have all passed the test log thirty blocks, one more than the log on disk has room for behind its header block; a complete run is built. |
| LogOps.OverrunExactly | log.c:214-233 | A transaction is too long for the log region on disk in some run if and only if operations may log MAXOPBLOCKS or more distinct blocks. |
| LogOps.ElevenOverrun | log.c:34-37 | Operations of eleven blocks that have passed the test together put a 31st entry into lh.block; a complete run is built. |
| LogOps.ArrayOverrunExactly | log.c:34-37 | lh.block runs over in some run if and only if operations may log more than MAXOPBLOCKS distinct blocks. |
| LogOps.WaitersAreAdmitted | log.c:126-174 | From every reachable state the steps of the operations inside alone, at most one for each pending write and each operation and two more, reach a state with nobody asleep where begin_op does not wait. |
| LogOps.TransactionsAreWhole | log.c:146-202 | In every run every transaction holds all and only the blocks that its operations logged. |
| LogOps.OneTransaction | log.c:126-202 | In every run no operation is part of two transactions. |
| LogOps.RunsAreCommittable | log.c:193-233 | Whenever commit starts in a run whose operations stay below MAXOPBLOCKS, the block list is one the commit theorem accepts. |
| LogOps.OperationsAreAtomic | log.c:146-202 | For every commit in every run of operations below MAXOPBLOCKS, every crash point and every run of interrupted recoveries: all operations of the transaction are kept whole or all are dropped whole. |
| Blocks.WordOfSetWord | fs.h:29-37 | A 32-bit little-endian word written into a block reads back, and no other word changes. |
| Blocks.WordsOfPutWords | fs.h:29-37 | A run of words written into a block reads back, and the words around it are unchanged. |
| Blocks.LowByteFirst | fs.h:29-37 | Words lie in a block with their low byte first. |
| Blocks.FlipBit | fs.c:57-95 | Setting or clearing a bitmap bit by mask changes that bit of the block and no other. |
| FsState.BitmapIsExact | fs.c:57-95 | Under the invariant a bitmap bit is set exactly when the block is metadata or is held by exactly one inode address or indirect entry. |
| FsState.RoomLess | fs.c:57-78 | Owning one more block leaves exactly one free block less. |
| FsState.UsedAfterMark | fs.c:82-95 | Marking one block changes that block's bit and no other block's. |
| FsState.UsedAfterAlloc | fs.c:57-78 | balloc marks its block and no other, although it also zeroes the block. |
| FsState.AddrAssigned | fs.c:373-383 | Storing a freshly allocated block in an empty inode address keeps the bitmap exact and every other slot as it was. |
| FsState.EntryAssigned | fs.c:385-396 | The same for an entry of the indirect block, whose own block is rewritten. |
| FsState.AddrFreed | fs.c:408-419 | Freeing the block of an address and clearing the address keeps the bitmap exact. |
| FsState.GrewByBoth | fs.c:385-396 | Allocating the indirect block and one of its entries is one growth step: no mapped byte of any file changes. |
| FsState.GrewExtent | fs.c:373-400 | Mapping the block after the last one extends a file without holes by that block. |
| FsState.GrewOther | fs.c:373-400 | bmap changes neither the extent nor a byte of any other file. |
| FsState.ChunkWritten | fs.c:498-504 | Copying a chunk into its block splices it into the file's byte sequence at the offset. |
| FsState.StoredOther | fs.c:498-504 | Copying a chunk into its block leaves every other file's bytes alone. |
| FsState.InodeRoundTrip | fs.c:221-236 | An inode written to its slot of an inode block reads back with the same fields, and the other inodes of that block are untouched. |
| FsState.SyncedByIupdate | fs.c:221-236 | After iupdate the disk inode equals the one in memory, and every other inode is as up to date as before. |
| FsState.IupdateInv | fs.c:221-236 | iupdate keeps the bitmap and the block ownership. |
| FsState.EmptiedOwned | fs.c:408-435 | Taking all blocks of one inode away leaves exactly the other inodes' ownership. |
| FsState.FreshFileSystem | fs.h:10-23 | For every layout of the superblock there is a file system without files that meets the invariant and the no-holes condition. |
| FileSys.FileSystem.ScanBitmapBlock | fs.c:65-74 | balloc's inner loop finds the first clear bit of a bitmap block. |
| FileSys.FileSystem.FindFree | fs.c:57-78 | The scan finds the lowest free block, or there is none. |
| FileSys.FileSystem.Balloc | fs.c:57-78 | Marks and zeroes the lowest free data block and logs exactly two blocks; fails if and only if no block is free. |
| FileSys.FileSystem.Bfree | fs.c:82-95 | Clears the block's bit; fails exactly when it was clear already, where the source panics. |
| FileSys.FileSystem.Bmap | fs.c:373-400 | Returns the block of a file block, allocating it (all zeros) and the indirect block if missing, without changing a byte of any file, within a stated set of logged blocks; fails if and only if fewer blocks are free than it needs. |
| FileSys.NeedIs | fs.c:373-400 | What bmap allocates for a chunk is exactly by how many blocks, indirect block included, the longer file exceeds the shorter. |
| FileSys.FileSystem.BmapFreshTable | fs.c:385-396 | bmap when the indirect block is missing too. |
| FileSys.FileSystem.StoreEntry | fs.c:389-395 | An entry of the indirect block, allocated and logged if missing. |
| FileSys.FileSystem.Iupdate | fs.c:221-236 | Writes the inode of the specification and logs its one block. |
| FileSys.FileSystem.Readi | fs.c:453-476 | Returns exactly the slice of the file's byte sequence that exists; fails exactly for an offset past the end or 32-bit wrap-around; changes nothing. |
| FileSys.FileSystem.Writei | fs.c:482-511 | The file's bytes become the old ones with the source spliced in; no other file changes; up-to-date disk inodes stay up to date; -1 cases are exact; balloc's panic is met if and only if fewer blocks are free than the longer file needs; at most twice the blocks of data and four are logged, and with a one-block bitmap the blocks of data and four. |
| FileSys.CountedBound | file.c:127-133 | The counting argument, for any number of bytes: a data block more than they fill, a bitmap block per allocation, the indirect block and the inode block. |
| FileSys.ChunkIsLargest | file.c:127-133 | filewrite's chunk is the largest whole number of blocks for which writei's most logged blocks keep to MAXOPBLOCKS. |
| FileSys.CountedOn | fs.c:498-504 | One round of writei's loop keeps the count of data and bitmap blocks, with no allocation for an unaligned first block. |
| FileSys.FileSystem.Extend | fs.c:506-509 | The new size reaches memory and disk together. |
| FileSys.FileSystem.FreeEntries | fs.c:424-427 | Frees exactly the blocks listed in the indirect block; the panic of bfree cannot happen. |
| FileSys.FileSystem.FreeDirect | fs.c:414-419 | Frees and clears exactly the direct blocks. |
| FileSys.FileSystem.Itrunc | fs.c:408-435 | Frees exactly the inode's blocks, leaves it empty in memory and on disk and every other file's bytes alone; `freeing free block` is unreachable. |
| FileSys.FileSystem.Filewrite | file.c:126-153 | For every byte count, negative ones included. On a file: writes all of the data, or exactly the whole chunks that fit and returns -1; balloc's panic is met if and only if the blocks for that are not free, and blocks are conserved; every transaction keeps to MAXOPBLOCKS, and to seven with a one-block bitmap; after the c-th transaction the file is the old one with c chunks spliced in, and only logged blocks differ from the state before it. On a device: the file system is untouched, and result, offset and the short-write panic follow from what the device's calls return. |
| FileSys.FileSystem.WriteDevice | file.c:134-151 | The loop hands a device chunk after chunk until one is not accepted in full; -1 and the short-write panic are exact. |
| FileSys.WritableStops | file.c:134-153 | How far filewrite gets is where the first chunk does not fit. |
| FileSys.NotEnough | file.c:126-153 | A chunk that finds too few free blocks proves that the whole write needed more than were free. |
| FileCrash.OutsideLog | fs.c:373-511 | File systems that differ only in the blocks of the log hold the same files. |
| FileCrash.ReloadSame | fs.c:288-310 | Inodes and bytes read back from a disk that agrees outside the log are those of the state it was written from, if its inodes were up to date. |
| FileCrash.DiskFollows | log.c:193-202 | After every commit the disk outside the log is the file system's state at that point, and the log is empty. |
| FileCrash.CrashInFilewrite | file.c:126-153 | For a crash at any disk write of any commit of a filewrite and any run of interrupted recoveries: the file system read from the recovered disk is the one before that commit if the header was not written, else the one after it; the file is its old bytes with a whole number of chunks spliced in, and every other file is as it was. |
| FileCrash.JournalExists | log.c:193-202 | Every filewrite can be committed operation by operation as that theorem supposes. |
| FileCrash.FileAmongOthers | file.c:126-153 | While any other operations come in between that do not touch the file, it always is the old one with the chunks written so far spliced in. |
| FileCrash.OthersDoNotTouch | fs.c:408-511 | writei to and itrunc of any other file are such operations. |
| FileCrash.CrashAmongOthers | log.c:126-202 | A filewrite's chunks among other operations, grouped into commits in any way: after a crash in any commit and any run of interrupted recoveries the file system is the one before or after that commit, and the file is its old bytes with a whole number of chunks spliced in. |
| FileCrash.GroupOfRun | log.c:146-233 | The commit that any run of begin_op, log_write and end_op starts is such a group: exactly the operations that ended. |
| Umalloc.Apart | umalloc.c:25-90 | Free and allocated blocks of a sound heap never overlap. |
| Umalloc.LinkKeepsSound | umalloc.c:35-43 | Linking a freed block in address order keeps the list circular and sorted and the units partitioned. |
| Umalloc.MergeKeepsSound | umalloc.c:33-41 | Merging two adjacent list elements keeps both. |
| Umalloc.FreedSound | umalloc.c:25-44 | free keeps the heap sound in all four merging cases. |
| Umalloc.FreedConserves | umalloc.c:25-44 | free loses no unit and touches no other block's header. |
| Umalloc.FreedCoalesced | umalloc.c:33-41 | free leaves no two adjacent free blocks. |
| Umalloc.FreeUpdatesAreFreed | umalloc.c:33-43 | The pointer and size stores at the end of free are exactly linking and merging. |
| Umalloc.UnlinkKeepsSound | umalloc.c:76-77 | Taking an exact fit out of the list keeps the heap sound. |
| Umalloc.SplitKeepsSound | umalloc.c:78-82 | Cutting an allocation off the tail of a block keeps the heap sound. |
| Umalloc.GrownKeepsSound | umalloc.c:47-61 | A region from sbrk, made a block, keeps the heap sound. |
| Umalloc.FreedHoldsBlock | umalloc.c:47-61 | After morecore's free some list element is at least as large as the block it was given. |
| Umalloc.EnoughUnless32BitWrap | umalloc.c:69 | The block is large enough if and only if nbytes + 7 does not wrap around 32 bits. |
| Umalloc.UnitsLeast | umalloc.c:69 | malloc asks for the least number of units whose bytes behind the header are enough; the last seven sizes wrap and get the header only. |
| Umalloc.NothingFitsInBytes | umalloc.c:73-89 | No list element has the units asked for if and only if none holds a header and the bytes asked for. |
| Umalloc.SbrkPositiveExactly | umalloc.c:52-54 | morecore asks sbrk for a positive amount if and only if the request is at most 0x7FFFFFF0 bytes. |
| Umalloc.Allocator.FindPlace | umalloc.c:30-32 | free's search ends, from any starting element, at the one place where the block belongs. |
| Umalloc.Allocator.Free | umalloc.c:25-44 | The method performs the specification's free. |
| Umalloc.Allocator.Morecore | umalloc.c:47-61 | Adds exactly the region sbrk granted, keeps every allocated block, and leaves an element that satisfies the request. |
| Umalloc.Allocator.Search | umalloc.c:73-89 | The search ends: the first block after freep that fits gives its last units, and freep becomes its predecessor; sbrk is asked only if nothing fits, once, and then something does. |
| Umalloc.Allocator.Malloc | umalloc.c:64-90 | First fit as in the search, in the old heap or in the old heap plus what sbrk granted; a new block disjoint from all others that holds the bytes asked for and wastes less than a unit; sbrk is not needed if and only if some free block holds a header and those bytes; units conserved; NULL only when sbrk has no memory. |
| ProcTable.ExitKeeps | proc.c:291-331 | exit keeps every clause of the invariant: children go to init, the parent is not left asleep over the new zombie. |
| ProcTable.ReapKeeps | proc.c:336-375 | wait's reaping keeps it. |
| ProcTable.AllocKeeps | proc.c:77-119 | allocproc keeps it. |
| ProcTable.ScheduleKeeps | proc.c:386-419 | The scheduler keeps it. |
| ProcTable.KillKeeps | proc.c:543-565 | kill keeps it; a process killed in wait is awake. |
| ProcTable.StepKeepsInv | proc.c:229-565 | Every critical section of ptable.lock, kill included, and every write of fork keeps: RUNNING is on exactly one CPU, everyone but init has a live parent, nobody sleeps in wait with a zombie child or when killed, pids accounted for. |
| ProcTable.RunsKeepInv | proc.c:229-565 | The same over every run, with any number of processes and CPUs. |
| ProcTable.ReapedOnce | proc.c:336-375 | Over every run two waits never return the same pid, and a returned pid had exited. |
| ProcTable.HistoryGrows | proc.c:291-375 | Exits and reapings are never forgotten along a run. |
| ProcTable.KilledExactly | proc.c:336-565 | Over every run a slot is marked as killed if and only if a kill has hit it and it has not been reaped since. |
| ProcTable.BornKilled | proc.c:547-555 | kill looks at the pid only: a run in which kill(0) marks an unused slot and the next process to get it is born killed. |
| ProcTable.BornKilledExactly | proc.c:77-97 | Over every run a process is born killed if and only if a kill has hit its slot since the slot was last reaped. |
| ProcTable.SleeperStep | proc.c:291-565 | Whoever sleeps goes on sleeping on the same channel except for a wakeup of that channel, a kill that hits it, or the exit of a child of it or one that leaves init a zombie, and then it is runnable. |
| ProcTable.StateExactly | proc.c:77-565 | Which step takes a slot from which state to which, for every step and slot. |
| ProcTable.FallsAsleep | proc.c:481-515 | sleep, and a wait with living children only, leave the process asleep on its channel and its CPU free. |
| ProcTable.PTable.Wakeup1 | proc.c:521-528 | Every sleeper on the channel is runnable afterwards and every other slot unchanged. |
| ProcTable.PTable.Allocproc | proc.c:77-97 | The scan takes the first unused slot, or there is none. |
| ProcTable.PTable.PassChildren | proc.c:318-325 | The loop passes exactly the children to init and wakes init if and only if one of them is a zombie. |
| ProcTable.PTable.Exit | proc.c:313-328 | The critical section computes the specification's exit. |
| ProcTable.PTable.WaitScan | proc.c:346-371 | The scan finds the first zombie child, or tells whether there are children. |
| ProcTable.PTable.Kill | proc.c:543-565 | The first slot with the pid is marked as killed and woken if it slept, and keeps everything else; every other slot is unchanged; -1 exactly when no slot has the pid. |
| Sleep.ModifyKeeps | proc.c:481-537 | Changing the data under a channel's spinlock keeps the invariant: whoever ends the channel's condition owes it a wakeup before the spinlock is given up. |
| Sleep.StepKeepsInv | proc.c:481-537 | Every single lock operation, test, change, sleep, scan of wakeup and kill, by any process on any channel, keeps lock ownership and that a sleeper's condition holds or a wakeup is owed or under way. |
| Sleep.RunsKeepInv | proc.c:481-537 | The same over every interleaving of any number of processes, spinlocks and channels, whatever the clients' conditions are. |
| Sleep.NoWakeupMissed | proc.c:481-537 | No wakeup of its channel has completed since a sleeping process last tested its condition, in every run. |
| Sleep.NoSleeperLeft | proc.c:481-537 | In every run, while a channel's spinlock is free, whoever sleeps on the channel sleeps rightly: its condition still holds. |
| Sleep.WokenJustified | proc.c:521-537 | The end of a wakeup's scan leaves every process justified in what it does, sleepers on other channels included. |
| Sleep.SleepReturnsLocks | proc.c:481-515 | In every run a process that calls sleep holds the channel's spinlock and no other, and when it next runs it holds that one again and no other. |
| Sleep.WakeupReturns | proc.c:521-537 | In every run wakeup returns with the spinlocks it was called with, and at that moment nobody sleeps on the channel. |
| SleepLock.InsideIs | sleeplock.c:23-42 | The lock's fields name exactly the process between acquiresleep and releasesleep, in every run. |
| SleepLock.MutualExclusion | sleeplock.c:23-42 | At most one process owns a sleep-lock, in every state of every run. |
| PipeSleep.AlwaysInOrder | pipe.c:60-121 | Pipes as clients of sleep and wakeup, one lock operation or byte at a time: at every instant of every run the bytes taken are the first of the bytes stored, with at most PIPESIZE between. |
| PipeSleep.RestWhenFree | pipe.c:60-121 | Whenever the pipe's spinlock is free, whoever sleeps could not go on, and readers and writers do not both sleep. |
| PipeSleep.StoreOwesWakeup | pipe.c:79-98 | A store into an empty open pipe owes the readers a wakeup before the lock is given up, which is what a killed writer omits. |
| SleepLock.SleepersHaveAWaker | sleeplock.c:23-42 | No sleeper is left on a free lock: while the spinlock is free, a lock somebody sleeps on has an owner, which is not the sleeper unless that one asked for a lock it has. |
| BufCache.Unlinked | bio.c:132-133 | The two stores that unlink a buffer leave a ring of the others in order. |
| BufCache.PushedFront | bio.c:134-137 | The four stores behind the head put the buffer first. |
| BufCache.MovedToFront | bio.c:131-138 | Together they keep the list a permutation of all buffers ordered by last release. |
| BufCache.Updated | bio.c:97-116 | Changing one buffer and its own block cannot make another buffer incoherent, because no block is cached twice. |
| BufCache.Recycled | bio.c:80-90 | Taking over a clean unreferenced buffer keeps at most one buffer per block and the coherence of cache and disk. |
| BufCache.Cache.constructor | bio.c:39-56 | binit builds the ring of all buffers. |
| BufCache.Cache.Lookup | bio.c:69-76 | The forward scan finds the buffer of a block if and only if there is one. |
| BufCache.Cache.Victim | bio.c:81-91 | The backward scan finds the least recently released of the buffers that are neither referenced nor dirty. |
| BufCache.Cache.Bget | bio.c:62-93 | The one buffer of the block, or the victim taken over; no dirty or referenced buffer changes hands; fails exactly when neither exists. |
| BufCache.Cache.Iderw | memide.c:39-60 | Writes a dirty buffer or reads an invalid one; fails exactly where the source panics, the unlocked buffer included. |
| BufCache.Cache.BreadLocked | bio.c:97-106 | The caller gets the block's logical contents: the disk overlaid with logged writes. |
| BufCache.Cache.Bwrite | bio.c:110-116 | The buffer's contents reach the disk and it is no longer pinned; fails exactly where the source panics. |
| BufCache.Cache.LogWrite | log.c:231 | The block's logical contents become the buffer's, which is pinned. |
| BufCache.Cache.SetData | fs.c:41-49 | What its holder does to a buffer's data leaves every other buffer, the disk and the logical contents alone. |
| BufCache.Cache.Brelse | bio.c:121-141 | The last release makes the buffer the most recently used, an earlier one leaves the order alone; fails exactly where the source panics; cache and disk stay coherent if and only if the buffer's changes were logged or written before. |
| Pipe.Wrapping | pipe.c:85-108 | The comparisons of the wrapped 32-bit counters mean exactly empty and exactly full. |
| Pipe.SlotOf | pipe.c:93 | A byte's slot is the same computed from the wrapped counter. |
| Pipe.StepKeepsOrder | pipe.c:60-121 | Every stretch under the lock keeps the read bytes a prefix of the written ones with at most PIPESIZE between. |
| Pipe.StepKeepsRest | pipe.c:79-121 | Sleepers stay justified if and only if the step is not a killed writer that fills the pipe while readers sleep. |
| Pipe.ReaderSleepsOn | pipe.c:79-98 | A run from a new pipe in which a killed writer stores 512 bytes and fails while a reader sleeps on. |
| Pipe.RunsKeepOrder | pipe.c:60-121 | In every interleaving of readers, writers, closes and kills the bytes read are a prefix of the bytes written. |
| Pipe.RunsKeepRest | pipe.c:60-121 | Without that one step a sleeping reader means an empty open pipe, a sleeping writer a full one, and never both. |
| Pipe.EndOfFile | pipe.c:101-121 | A read of at least one byte that returns none has seen the end: the write end is closed, and then and ever after all that was written has been read. |
| Pipe.ReadsWhatIsThere | pipe.c:113-117 | A read from a pipe that is not empty returns at once with the next bytes, as many as asked for or all. |
| Pipe.Pipe.Store | pipe.c:93 | The ring store appends the byte, across counter wrap-around. |
| Pipe.Pipe.Take | pipe.c:116 | The ring load takes the oldest byte. |
| Pipe.Pipe.Write | pipe.c:79-98 | Returns if and only if the rest of the bytes fits, and then all of it is appended and the readers are awake; else as much as fits is, the pipe is full, and it sleeps unless killed or nobody can read. |
| Pipe.Pipe.Read | pipe.c:101-121 | Waits or fails if and only if the pipe is empty and open for writing; else takes the next bytes, as many as asked for or all, and wakes the writers; no byte means the pipe is empty and closed for writing. |
| Pipe.Pipe.Close | pipe.c:60-75 | Closes one end and wakes the sleepers of the other. |
| ShellGrammar.LineBack | sh.c:345-359 | parseline of a printed line gives the tree back and stops before the closing parenthesis or the end. |
| ShellGrammar.PipelineBack | sh.c:362-372 | parsepipe of a printed pipeline gives the tree back. |
| ShellGrammar.CommandBack | sh.c:400-446 | parseexec and parseblock of a printed command give the tree back. |
| ShellGrammar.ArgsBack | sh.c:430-442 | parseexec's loop collects words and trailing redirections in order. |
| ShellGrammar.RedirsBack | sh.c:375-397 | parseredirs of printed redirections gives them back in order. |
| ShellGrammar.RoundTrip | sh.c:328-446 | Every command tree with at most nine arguments per command, printed and parsed, is itself. |
| ShellGrammar.BlockParens | sh.c:400-413 | What parseblock reads has at least the parentheses that printing its tree as a block takes. |
| ShellGrammar.PipelineParens | sh.c:362-372 | The same for what parsepipe reads. |
| ShellGrammar.LineParens | sh.c:345-359 | The same for what parseline reads, for every line. |
| ShellGrammar.ParenthesesNeeded | sh.c:328-413 | The printed tree has as few parentheses as any token list that parses to that tree. |
| ShellSyntax.LinesSound | sh.c:345-446 | What parseline accepts is written by a derivation of the language, and its tree is the derivation's. |
| ShellSyntax.LinesComplete | sh.c:345-446 | What a derivation writes parseline accepts, up to the closing parenthesis or the end. |
| ShellSyntax.ParsesExactly | sh.c:328-446 | A token list parses to a tree if and only if some derivation of the language writes that list for that tree. |
| ShellSyntax.AcceptedIsBalanced | sh.c:328-413 | Whatever is accepted has balanced parentheses, and its tree has exactly as many words, files included, as were written. |
| Shell.TokensOfRender | sh.c:266-308 | Reading the text of a token list gives the token list. |
| Shell.TokensExactly | sh.c:266-308 | gettoken's tokens are exactly those that are written: blanks around them, words up to the next blank or symbol, `>>` before `>`. |
| Shell.TextRoundTrip | sh.c:328-342 | A printed tree, as characters, tokenizes and parses to itself. |
| Shell.Parser.Peek | sh.c:311-320 | Skips blanks and reports the next character, consuming no token. |
| Shell.Parser.GetToken | sh.c:266-308 | Takes exactly the first token and delimits a word exactly. |
| Shell.Parser.ParseRedirs | sh.c:375-397 | The loop computes the grammar's redirections around the command, errors included. |
| Shell.Parser.ParseSimple | sh.c:424-445 | parseexec's loop computes the grammar's simple command, errors included. |
| Shell.Parser.ParseCommand | sh.c:416-446 | parseexec computes the grammar's command. |
| Shell.Parser.ParseBlock | sh.c:400-413 | parseblock computes the grammar's block, and fails where the closing parenthesis is missing. |
| Shell.Parser.ParsePipe | sh.c:362-372 | parsepipe computes the grammar's pipeline. |
| Shell.Parser.ParseLine | sh.c:345-359 | parseline computes the grammar's line; the recursion ends on every input. |
| Shell.EndsDelimit | sh.c:450-493 | Every position where nulterminate writes is a delimiter or the end. |
| Shell.SpanReads | sh.c:450-493 | So a word read as a NUL-terminated string from the mutated buffer is exactly the token. |
| Shell.ReadsBack | sh.c:450-493 | Every pointer of the tree reads as its token after all NULs are written. |
| Shell.Parser.NulTerminate | sh.c:450-493 | Writes NULs at exactly the word ends of the tree. |
| Shell.Parser.ParseCmd | sh.c:328-342 | For every line: the tree, read through the final buffer, is one that the line may be written for, and the call fails if and only if there is none, unbalanced parentheses included; a printed tree comes back as itself. |
| PageMap.SetLeafMaps | vm.c:37-58 | Two levels are one flat map: setting the entry of a page changes that page's mapping in that directory and no other. |
| PageMap.NewTableMaps | vm.c:46-55 | A new page table changes no mapping. |
| PageMap.NewTableKeepsInv | vm.c:46-55 | A new page table puts its frame in exactly one place, and every other frame stays where it was. |
| PageMap.MapUserKeepsInv | vm.c:64-90 | Mapping a frame of the kernel's as a user page keeps every frame in exactly one place and P and E exclusive. |
| PageMap.FreeUserKeepsInv | vm.c:273-285 | Unmapping a present or encrypted page frees its frame once and changes no other mapping. |
| PageMap.TakeKeepsInv | kalloc.c:83-96 | kalloc keeps the free list exact. |
| PageMap.GiveKeepsInv | kalloc.c:60-77 | kfree keeps the free list exact. |
| AddressSpace.ReleasedOne | vm.c:273-285 | One round of deallocuvm's loop that finds a page. |
| AddressSpace.ReleasedNone | vm.c:274-276 | Skipping the span of a missing table releases nothing that was mapped. |
| AddressSpace.DismantleKeepsInv | vm.c:292-306 | Once its user pages are gone a directory and its tables can leave the map together. |
| AddressSpace.FreedAll | vm.c:292-306 | freevm frees exactly the frames of that address space and leaves every other one unchanged. |
| AddressSpace.Undone | vm.c:129-146 | Freeing a half-made address space puts every frame back where it was. |
| AddressSpace.Ungrown | vm.c:242-255 | A failed allocuvm takes away exactly the user pages it added. |
| AddressSpace.GrownMore | vm.c:242-255 | One more page keeps the growth as described. |
| AddressSpace.PaidMore | vm.c:37-90 | One more page mapped costs its frame and, if its table was missing, one more. |
| AddressSpace.KernelMissing | vm.c:115-146 | How many tables any stretch of the kernel's half still needs. |
| AddressSpace.UserMissing | vm.c:324-353 | n user pages from page 0 on need one table for every 1024. |
| AddressSpace.KernelRow | vm.c:115-125 | Each row of kmap extends the kernel's half as the reference says. |
| Vm.Vm.Kalloc | kalloc.c:83-96 | Takes the first free frame, or reports that there is none. |
| Vm.Vm.Kfree | kalloc.c:60-77 | Puts a frame back on the list. |
| Vm.Vm.FreeRange | kalloc.c:47-53 | The allocator starts with exactly the pages of the range. |
| Vm.Vm.WalkPgdir | vm.c:37-58 | Finds the table, or makes one; every mapping and every other frame unchanged. |
| Vm.Vm.MapPage | vm.c:64-90 | Maps one page with the flags asked for, P or E, and changes no other mapping; out of memory and the remap panic are exact. |
| Vm.Vm.MapPages | vm.c:64-90 | Maps a run of kernel pages to consecutive frames; running out of memory and the remap panic are exact. |
| Vm.Vm.SetupKvm | vm.c:129-146 | A new address space with exactly the kernel's mappings if 65 frames are free, taking just those; else every frame back where it was. |
| Vm.Vm.Dealloc | vm.c:272-285 | Releases exactly the mapped pages of the range. |
| Vm.Vm.Deallocuvm | vm.c:264-287 | The same in bytes, with the sizes the source returns. |
| Vm.Vm.FreeVm | vm.c:292-306 | Returns every frame of the address space exactly once, present or encrypted. |
| Vm.Vm.Allocuvm | vm.c:232-257 | New zeroed user pages exactly in the range if and only if it is unmapped and the frames for them and their missing tables are free; the remap panic, running out of memory and the refused sizes are exact; on running out, everything mapped in the range is released: exactly the pages added, if nothing was mapped there before. |
| Vm.Vm.AllocPage | vm.c:242-255 | One round of allocuvm's loop: a zeroed page, the remap panic, or the range released. |
| Vm.Vm.Copyuvm | vm.c:324-353 | A child with equal flags and bytes in frames of its own and the parent untouched if and only if the 65 frames for the kernel's half, the n for the pages and one for every 1024 of them are free; else every frame back where it was; the panic for a page the parent does not have is exact. |
| Vm.Vm.CopyPage | vm.c:333-348 | One round of copyuvm's loop: the page copied with its flags, or the child freed. |
| Vm.ChildReadsTheSame | vm.c:324-353 | The plaintext of every page is the same in parent and child, from different frames. |
| Vm.ForkThenFree | vm.c:292-353 | Copying an address space and freeing the copy conserves every frame's place. |
| Encryption.Seals | vm.c:401-424 | Complementing a page and setting E for P keeps the plaintext of every page of every address space. |
| Encryption.Unseals | vm.c:486-528 | Marking a page present keeps its plaintext if and only if the bytes are complemented exactly when the page was encrypted. |
| Encryption.EncryptThenDecrypt | vm.c:486-588 | Encrypting a user page and decrypting it restores its flags (A cleared), and restores its bytes if and only if the first of them is not 0xFF. |
| Encryption.MencryptedKeeps | vm.c:531-588 | mencrypt keeps all plaintext and seals the first page of the range that is not encrypted, and no other. |
| Encryption.RangeSealed | vm.c:531-588 | After a mencrypt that returns 0 the whole range is encrypted if and only if every page after the first plain one was before. |
| Clock.HoleIsNearest | vm.c:446-456 | addClock's scan takes the empty slot nearest below the head, if there is one. |
| Clock.InsertedKeeps | vm.c:440-479 | addClock keeps all plaintext, may only clear an accessed bit or encrypt one page, and leaves the page's address in the queue. |
| Clock.InsertedReadable | vm.c:440-479 | addClock encrypts the page at the head if the queue is full, accessed or not, and puts no other page out of the clear. |
| Clock.InsertedMovesOn | vm.c:440-479 | Which slot takes the address and where the head goes: behind the filled slot, or on by one, by two if the page at the head had been accessed; the accessed bit is cleared. |
| Clock.SecondChanceExactly | vm.c:458-476 | With a full queue the page encrypted is the one that second chance would choose if and only if the page at the head has not been accessed, or every page in the queue has. |
| Clock.FaultedKeeps | vm.c:486-528 | A page fault keeps the plaintext of every other page of every address space; that of an encrypted page if and only if it is the user's and its first stored byte is not zero. |
| Clock.FaultedPlain | vm.c:486-528 | A fault leaves the plaintext of its page or complements it, by a condition on the state before: encrypted by then, the user's, the first byte. |
| Clock.FaultedReadable | vm.c:486-528 | A fault puts its own page in the clear and no other. |
| Clock.FaultedLoose | vm.c:440-528 | A fault on a user page leaves no more pages in the clear outside the queue if and only if it was not page 0 (whose address reads as an empty slot), or page 0 was one already. |
| Clock.WorkingSet | vm.c:440-588 | Over every run of accesses, mencrypts and page faults at most CLOCKSIZE pages are in the clear besides page 0 and those that were outside the queue at the start. |
| Clock.PlainOverRuns | vm.c:440-588 | Over every run of accesses, mencrypts and page faults a page reads as at the start if and only if the faults that complemented it are even in number; so a page that is encrypted, the user's and does not begin with 0xFF whenever it faults keeps its plaintext. |
| Examples.MemoryOk | vm.c:115-257 | The memory of a process as setupkvm and allocuvm leave it, with any pages encrypted, meets the invariant. |
| Examples.SecondStaysPlain | vm.c:531-588 | In such a memory a mencrypt of two plain pages leaves the second plain. |
| Examples.FirstByteLost | vm.c:514-517 | A page of 0xFF bytes, encrypted and decrypted, reads differently. |
| Examples.AccessedIsEvicted | vm.c:458-476 | A full queue whose head page was accessed and whose next was not: a fault encrypts the head page. |
| Examples.PageZeroIsLoose | vm.c:446-456 | A fault anywhere on an encrypted page 0 with an empty queue leaves it in the clear and not in the queue. |
| Vm.Vm.FlipPage | vm.c:572-575 | The XOR loop complements every byte of one frame. |
| Vm.Vm.Mencrypt | vm.c:531-588 | Returns 0 if and only if every page asked for is the user's, and then leaves exactly what Mencrypted says; returns -1 at the first page that has a table and is not the user's, and then changes nothing; all plaintext is kept. |
| Vm.SetupIsKernelOnly | vm.c:115-146 | setupkvm's mappings are what mencrypt and mdecrypt rely on above KERNBASE. |
| Vm.Process.InQ | vm.c:425-437 | The first slot from the head that holds exactly this address, or -1 if none does. |
| Vm.Vm.AddClock | vm.c:440-479 | The loops compute the specification's insertion into queue and page table, and the queue moves on as described. |
| Vm.Vm.Evict | vm.c:458-476 | So does the eviction loop, which ends. |
| Vm.Vm.Mdecrypt | vm.c:486-528 | Queue and memory become those of the specification's page fault; returns 0 exactly when the page has an entry, is the user's and does not begin with a zero byte; an encrypted page keeps its plaintext if and only if the call returns 0. |
| Grep.MeansFirst | grep.c:85-96 | A division of the text among pattern items splits into the first item's stretch and the rest. |
| Grep.MeansThen | grep.c:85-106 | A stretch for the first item and a division for the rest make a division for the whole pattern. |
| Grep.MatchHere | grep.c:85-96 | True if and only if the items of the pattern match a stretch that starts here; the recursion ends. |
| Grep.MatchStar | grep.c:99-106 | The loop finds a length for the starred item if and only if there is one. |
| Grep.Match | grep.c:73-82 | True if and only if the pattern's meaning holds somewhere in the text, or at its start after a caret. |

## Left out

- FileSys.FileSystem.Filewrite: what a device's own write function does is a parameter; the dispatch of fileread and filewrite on the kind of descriptor is not modelled.
- FileSys.FileSystem.Readi: a device inode only yields the result Device; the device's own read function is not modelled, and likewise for writing.
- BufCache.Cache.BreadLocked: waiting for the sleep-lock is modelled by its outcome, that nobody else holds the buffer; the waiting itself is in SleepLock.
- Vm.Vm.Mencrypt: for a page without a table uva2ka and walkpgdir read an entry through address 0, that is from the process's own page 0; the model ends with Unknown there and promises nothing.
- Vm.Vm.Mdecrypt: asks that the pages in the queue have tables, which mdecrypt itself ensures when it queues them and only freevm ends; printing is left out.
- Vm.Vm.MapPages: serves the kernel's half only; user pages are mapped one at a time, as every caller does.
- Shell.Parser.ParseSimple: tree nodes are values, so the store into an argv below redirections already built is a function on the tree, not an aliased write.
- ProcTable.StepKeepsInv: the wrap-around of pids after 2^31 processes is not modelled.
- Pipe.RunsKeepRest: pipealloc and the freeing of the pipe's page are not modelled.
- Umalloc.Allocator.Malloc: an sbrk request that is zero or negative as a 32-bit int ends the model's run with Fault.
- iget, iput, ialloc and ilock, directories and path lookup: table scans around the operations modelled here.
- getpgtable, and the copying of the clock queue by fork: single passes over tables modelled here.
- copyout, loaduvm, inituvm, clearpteu: single-page accesses through the map that PageMap describes; TLB contents and the write-protect bit are not modelled.
- exec, trap and system-call argument handling, runcmd, and the other user programs: glue around these cores.
- The line-reading loop of grep, mkfs, device drivers, boot code and assembly.

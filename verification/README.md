# A Dafny model of the xv6 kernel's hard parts

This project models parts of xv6 (the x86, multiprocessor teaching Unix) and proves properties of the
model. It covers the crash-safe file system stack, sleep and wakeup with the scheduler, process exit
and wait, page tables over the page free list, the user-level allocator, directories and link counts,
path lookup, pipes, the shell's parser, and the regular expression matcher of grep.

A module of plain values defines the state, its steps and the invariant, and proves theorems over
every run of the steps. Where the source is a data structure with operations (the log, the buffer
cache, files, inodes, the process table, page tables, the heap, pipes) a class with the source's own
fields and loops is then proved to take exactly those steps, so the theorems hold of the code. Sleep,
wakeup and the scheduler are a machine of atomic steps only: their subject is the interleaving. The
parser and the matcher are loops and recursion proved against a definition. A `panic` in the source is
a result that a method can return or a predicate on states; where it cannot happen, that is proved.

| files | part of the system |
|---|---|
| `LogProtocol`, `LogSafety`, `LogAnySize`, `LogTheorems`, `Log` | the write-ahead log with group commit and crashes anywhere (`log.c`) |
| `BlockData`, `FsState`, `FileFacts`, `Files` | block allocator, direct and indirect blocks, file contents, transaction size (`fs.c`, `file.c`) |
| `BufferCache` | the ring of buffers over the memory disk (`bio.c`, `memide.c`) |
| `Links`, `LinkFacts`, `LinkRuns`, `LinkAnswers`, `LinkCalls`, `Paths`, `LostParents` | inode cache, directories, link counts, path lookup (`sysfile.c`, `fs.c`) |
| `Sleep`, `SleepSafety`, `SleepLocks`, `SleepReturns` | sleep/wakeup, sleep locks, spin locks, scheduler (`proc.c`, `sleeplock.c`, `spinlock.c`) |
| `ExitWait`, `ProcTable` | fork, exit, wait, kill (`proc.c`) |
| `PageTables`, `KernelMap`, `Vm` | page free list, two-level page tables, the kernel's mappings (`kalloc.c`, `vm.c`) |
| `FreeList`, `Heap` | `malloc` and `free` (`umalloc.c`) |
| `ShellParser`, `Shell`, `ShellRoundTrip`, `ShellGrammar` | the shell's parser (`sh.c`) |
| `Grep` | the matcher (`grep.c`) |
| `Pipe` | pipes (`pipe.c`) |
| `Common` | what several modules share |

## Where the code falls short of its promise

Each of these has a lemma that shows the failing case and a lemma with the exact condition.

- The log. `param.h` calls LOGSIZE the number of data blocks in the on-disk log, but `mkfs` makes a log
  of LOGSIZE blocks including the header. A call within its budget always finds a slot if and only if
  the log has more than LOGSIZE blocks (`LogTheorems.SlotIffLogLargeEnough`). `log_write` tests for room
  before it takes log.lock, so two calls can pass the test together and the commit then writes past
  the end of the log. Crash atomicity holds if and only if the log has more than LOGSIZE blocks, or
  just the header (`LogTheorems.CrashSafeIffAmple`, `LogTheorems.RaceSpoilsHome`).
- The room test of `log_write` also comes before the search for an absorbed block, so writing a block
  that the full log already holds panics (`LogTheorems.FullLogRejectsRewrites`). With a log of more than
  LOGSIZE blocks, calls that have logged at most k blocks are safe from it if and only if k is below
  MAXOPBLOCKS (`LogTheorems.NoPanicIffBudgetLeft`). No chunk of `filewrite` meets it
  (`LogTheorems.ChunkNeverPanics`).
- `kill` compares pids without looking at the state. The slot it finds is free if and only if the pid is
  0 or belongs to a fork that failed (`ExitWait.KillTarget`). A child is born killed if and only if a
  kill hit its slot since the slot was last reaped, or since boot (`ExitWait.BornKilledIff`,
  `ExitWait.KillZero`).
- `malloc` returns a block that is too small if and only if the size computation wraps, and enters a
  block in the list that sbrk has not given if and only if the size does not fit in an int
  (`Heap.Allocator.Malloc`, `Heap.WrapCases`).
- `create` and `link` in a directory that has been removed but is still open leave a link count that no
  name accounts for (`LinkRuns.CreateIffLinked`, `LinkRuns.LinkIffLinked`, `LinkRuns.LostDirectory`).
- A path lookup panics if and only if "." and ".." at its front climb out of removed directories to a
  parent that has been freed (`LostParents.LookupPanicsIff`, `LostParents.LockPanicsIff`,
  `LostParents.CreatePanicsIff`, `LostParents.StrandedPanics`).
- `copyuvm` loses a page if and only if memory runs out at a page table of the user half: the page just
  allocated for the copy is not given back (`Vm.Memory.CopyUvm`, `Vm.LosesAPage`).
- A killed writer that fills the pipe returns without waking the readers, so a reader can stay asleep
  while the pipe is full (`Pipe.StepAwakeIff`, `Pipe.ReaderLeftAsleep`).

## Model

| member | source | states |
|---|---|---|
| LogTheorems.CrashAtomicity | xv6/log.c:69-233 | with an ample log, after any run with crashes at any block write, recovery would leave every home block with the contents after a prefix of the history, and no file system call is split by the end of that prefix |
| LogTheorems.CutSeparates | xv6/log.c:125-174 | a point of the history at which no call is open has whole calls on both sides |
| LogTheorems.Durability | xv6/log.c:145-202 | with an ample log, outside commit and recovery the disk itself holds the durable contents, and with no call in progress every finished call is durable |
| LogTheorems.CrashSafeIffAmple | xv6/log.c:213-233 | crash atomicity holds over every run if and only if the log has more than LOGSIZE blocks or only its header |
| LogTheorems.RaceSpoilsHome | xv6/log.c:213-233 | for every smaller log, a run in which two calls pass the room test together and recovery brings back a home block that no committed call wrote |
| LogTheorems.LightCallNeverPanics | xv6/log.c:213-221 | with more than LOGSIZE blocks, a call that has logged fewer than MAXOPBLOCKS blocks never meets log_write's panic, for new and absorbed blocks alike |
| LogTheorems.NoPanicIffBudgetLeft | xv6/log.c:213-233 | with more than LOGSIZE blocks, over all runs no call that has logged at most k blocks meets log_write's panic, if and only if k is below MAXOPBLOCKS |
| LogTheorems.ChunkNeverPanics | xv6/file.c:127-152 | a call that logs what a chunk of filewrite logs never meets the panic, its last log_write included |
| LogTheorems.DurableForever | xv6/log.c:69-202 | the committed part of the history, which an ample log's disk holds, only grows: what was in it at any moment of a run is in it at every later moment, crashes included |
| LogTheorems.GroupCommit | xv6/log.c:125-202 | while committing is set no call is in progress, and the transaction lists every block that differs from the disk |
| LogTheorems.EndOpNeverPanics | xv6/log.c:145-174 | end_op never finds committing set |
| LogTheorems.Reservation | xv6/log.c:125-141 | in every reachable state lh.n plus the unused budgets of the calls in progress is at most LOGSIZE; the listed blocks are distinct home blocks; a new block within budget finds lh.n below LOGSIZE |
| LogTheorems.SlotIffLogLargeEnough | xv6/log.c:213-233 | a call within budget always has a slot on disk if and only if the log has more than LOGSIZE blocks |
| LogTheorems.FullLogRejectsRewrites | xv6/log.c:213-233 | there is a run in which writing a block that the log already holds panics |
| LogTheorems.StepKeepsDurable | xv6/log.c:69-233 | one step, a crash included, never shortens the durable part of the history |
| LogSafety.RunInv | xv6/log.c:69-233 | with an ample log the invariant of log, cache, disk and ledger holds in every state of every run |
| LogAnySize.RunSound | xv6/log.c:69-233 | the part of it that does not need an ample log holds in every state of every run |
| LogSafety.InvStep | xv6/log.c:69-233 | every step of every action keeps that invariant |
| LogCode.Log.constructor | xv6/log.c:53-66 | a fresh disk about to be booted is a valid starting state |
| LogCode.Log.TryBeginOp | xv6/log.c:125-141 | admits a call exactly when no commit runs and the log can hold the budgets of all calls |
| LogCode.Log.LogWriteTest | xv6/log.c:213-221 | the test without the lock: panics exactly when the guard says so |
| LogCode.Log.LogWriteLocked | xv6/log.c:223-232 | later, under the lock, appends the block or absorbs it; the index stays inside lh.block |
| LogCode.RoomInHeader | xv6/log.c:223-230 | whoever passed the test within its budget has a place in lh.block, whatever other calls did since |
| LogCode.Log.FinishCommit | xv6/log.c:165-173 | the critical section after the commit lets calls in again |
| LogCode.Log.EndOp | xv6/log.c:145-174 | the last call out makes the whole group durable and empties the log; the cache keeps its contents |
| LogCode.Log.LeaveOp | xv6/log.c:145-163 | the critical section of end_op: the last call out starts the commit, nobody else does |
| LogCode.Log.Commit | xv6/log.c:192-202 | afterwards home blocks on disk equal the cache and the log is empty; every block write is one step of the protocol |
| LogCode.Log.WriteLog | xv6/log.c:177-190 | every listed block reaches its log slot, one protocol step each |
| LogCode.Log.WriteHead | xv6/log.c:101-113 | one block write that is the commit point when it follows write_log |
| LogCode.Log.FillHeader | xv6/log.c:101-113 | the word loop builds the header that reads back as the list in memory |
| LogCode.Log.InstallTrans | xv6/log.c:69-82 | copies each log block home, in commit and in recovery, one protocol step each |
| LogCode.Log.LoadHead | xv6/log.c:85-96 | loads the on-disk header |
| LogCode.Log.RecoverFromLog | xv6/log.c:115-122 | every home block becomes what the on-disk log says, and the log is empty |
| LogCode.Log.Crash | xv6/log.c:115-122 | a power failure at any moment keeps the durable part of the history and nothing else |
| LogCode.DiskRecovers | xv6/log.c:69-122 | at any moment the disk is one from which recovery gives the durable contents |
| LogCode.CacheIsLatest | xv6/log.c:213-233 | while calls run, the cache holds the contents after all their writes |
| LogCode.CommitReached | xv6/log.c:192-202 | when commit is done disk, cache and history agree on every home block |
| FileBlocks.Files.Balloc | xv6/fs.c:56-78 | returns the first free block, marked and zeroed, or reports that none is free; logs the bitmap block and the block |
| FileBlocks.Files.Bfree | xv6/fs.c:81-96 | clears the block's bit, or panics exactly when it was clear |
| FileBlocks.Files.Bmap | xv6/fs.c:373-401 | the block of a file block, allocated through the indirect table if needed; all other slots and bytes stay; ownership stays exact |
| FileBlocks.Files.BmapIndirect | xv6/fs.c:386-398 | the indirect half of bmap, including a new table |
| FileBlocks.Files.WritePart | xv6/fs.c:499-505 | one pass of the loop stores its bytes inside one block and nothing else changes in any file |
| FileBlocks.Files.WriteI | xv6/fs.c:482-512 | the file's bytes become the old bytes with the new ones spliced in; other files keep theirs; fails exactly past the size or the maximum file; logs at most WriteBudget blocks, fewer before iupdate; the block of every inode whose copy on disk changes is among them |
| FileBlocks.Files.ReadI | xv6/fs.c:453-477 | returns exactly the clipped slice of the file's bytes and changes nothing, so it allocates nothing |
| FileBlocks.Files.FileWrite | xv6/file.c:117-156 | each chunk is a transaction of at most MAXOPBLOCKS blocks, with fewer logged before its last log_write, and fewer in all from a block boundary; the bytes written are a splice of a prefix of the request; the block of every inode whose copy on disk changes is in one of the transactions |
| FileBlocks.Files.WriteChunk | xv6/file.c:134-145 | one transaction of filewrite: the bytes of its chunk are spliced in, every changed block is logged, the inode's own included, and only that one can be the last of MAXOPBLOCKS |
| FileBlocks.Files.ITrunc | xv6/fs.c:408-436 | frees exactly the blocks the inode owned, each once; "freeing free block" cannot happen; other files are intact; logs the bitmap blocks of its blocks and the inode's block, nothing else; the inode on disk is the empty one |
| FileBlocks.Files.FreeTable | xv6/fs.c:422-432 | the indirect half of itrunc: every entry, then the table |
| FileFacts.TruncBudget | xv6/fs.c:408-436 | that is at most one block per bitmap block and one more, within the budget of a call up to MAXOPBLOCKS - 1 bitmap blocks |
| FileFacts.ChunkFits | xv6/file.c:127-138 | the chunk size chosen by filewrite fits the budget for any offset |
| FileFacts.BudgetTotal | xv6/file.c:127-133 | data, bitmap, indirect and inode blocks of one write add up to the stated bound |
| FileFacts.FinishWrite | xv6/fs.c:482-512 | what the write loop leaves is the spliced contents, with every block below the size mapped |
| FileFacts.SpliceSplice | xv6/file.c:134-152 | two consecutive splices are one splice of the concatenation |
| FileFacts.TruncDone | xv6/fs.c:408-436 | after all slots are gone exactly the inode's blocks are free and ownership is exact again |
| FileFacts.OthersIntact | xv6/fs.c:408-436 | truncating one inode keeps every mapped byte of the others |
| FsState.OwnedIsExact | xv6/fs.c:56-96 | if every used block has one owner, a data block's bit is set exactly when exactly one slot of one inode holds it |
| FsState.AllocKeepsOwned | xv6/fs.c:56-78 | allocation keeps ownership exact with one block in hand |
| FsState.SetEntryKeepsOwned | xv6/fs.c:390-396 | storing that block in the indirect table gives it its one owner |
| FsState.FreeKeepsOwned | xv6/fs.c:81-96 | freeing an owned block keeps ownership exact with one slot dead |
| FsState.EmptyValid | xv6/fs.c:56-96 | a file system without file blocks satisfies the invariant |
| BlockData.PutWordAt | xv6/fs.c:391-394 | writing a 32-bit word into a block of bytes changes that word and no other |
| BufferCache.Bcache.constructor | xv6/bio.c:38-56 | binit builds a ring of all buffers |
| BufferCache.Bcache.Bget | xv6/bio.c:61-93 | finds the cached buffer, or recycles the least recently released buffer that is neither referenced nor dirty; panics exactly when there is none; a buffer's refcnt is the number of its holder and of those who wait for it, and bget adds one who waits |
| BufferCache.Bcache.Scan | xv6/bio.c:68-76 | the walk along next finds the block if any buffer holds it |
| BufferCache.Bcache.ScanBack | xv6/bio.c:81-91 | the walk along prev finds the recyclable buffer released longest ago |
| BufferCache.Bcache.Bread | xv6/bio.c:96-106 | the buffer returned is locked, valid and holds what a plain block map would hold; it waits exactly when the block's buffer is locked, panics exactly when there is no buffer, and otherwise exactly when the block is past the disk; refcnt goes up by one, or is 1 for a recycled buffer, in every case the holder and those who wait |
| BufferCache.Bcache.FillLocked | xv6/bio.c:101-105 | once the lock is free, reads the block if nobody has, and the contents are those of the plain block map; panics exactly past the disk; one who waited is now the holder, so refcnt stays |
| BufferCache.Bcache.Iderw | xv6/memide.c:38-60 | moves one block between buffer and disk; panics exactly on an unlocked, clean-valid, wrong-device or out-of-range buffer |
| BufferCache.Bcache.Bwrite | xv6/bio.c:109-116 | the block on disk becomes the buffer's contents |
| BufferCache.Bcache.Brelse | xv6/bio.c:120-141 | the last release moves the buffer to the front and the list stays ordered by last release |
| BufferCache.Bcache.Pin | xv6/log.c:228-232 | a dirty buffer is kept in the cache until it is written |
| BufferCache.UnlinkRing | xv6/bio.c:132-133 | the two assignments that take a buffer out leave a ring of the others |
| BufferCache.PushFrontRing | xv6/bio.c:134-137 | the four assignments that put it in front leave a ring that starts with it |
| BufferCache.MoveToFront | xv6/bio.c:130-138 | the splice keeps ring, uniqueness, contents and recency order |
| BufferCache.FetchKeeps | xv6/memide.c:57-59 | the disk is up to date for any block that an invalid buffer is filled with |
| BufferCache.FlushKeeps | xv6/memide.c:54-59 | writing a dirty buffer keeps cache and disk in agreement |
| LinkCalls.Inodes.Iget | xv6/fs.c:242-273 | one more reference in the only cache entry for the inode; panics exactly when every entry is in use by others |
| LinkCalls.Inodes.Iput | xv6/fs.c:332-353 | one reference less; the last one frees an inode without links |
| LinkCalls.Inodes.FindName | xv6/fs.c:525-549 | the first used slot whose name matches in DIRSIZ bytes |
| LinkCalls.Inodes.AddEntry | xv6/fs.c:565-579 | the entry goes into the first free slot or at the end; fails exactly on a full directory |
| LinkCalls.Inodes.IsDirEmpty | xv6/sysfile.c:168-181 | true exactly when no slot after "." and ".." is used |
| LinkCalls.Inodes.LinkBegin | xv6/sysfile.c:133-142 | counts the link before the name exists; refuses directories |
| LinkCalls.Inodes.LinkFinish | xv6/sysfile.c:144-164 | done if and only if there is a directory on the same device that does not have the name: it then finds the name at the inode and every other name as before; otherwise the count is taken back; panics if and only if the directory is full or the inode cache has no entry for the inode that has the name; keeps the counts when the directory is linked |
| LinkCalls.Inodes.Unlink | xv6/sysfile.c:184-239 | panics if and only if the inode cache has no entry for what the name names; else done if and only if the name is found, is not "." or ".." and is not a directory with entries: then the name is no longer found and every other name is; removes the links it stood for, in any directory; "nlink < 1" cannot happen |
| LinkCalls.Inodes.Create | xv6/sysfile.c:241-284 | for a name that is found, returns it if and only if a file is asked for and found, and fails otherwise; for a new name, the directory then finds it at an inode that was free and has the kind, and every other name as before; panics if and only if the value-level outcome is a panic or every cache entry is in use for another inode than the one it needs |
| LinkAnswers.CreateMeans | xv6/sysfile.c:241-284 | what create's answer says of the directory before and after, in terms of which names are found where |
| LinkAnswers.LinkMeans | xv6/sysfile.c:144-164 | the like for link |
| LinkAnswers.UnlinkMeans | xv6/sysfile.c:184-239 | the like for unlink |
| LinkCalls.Inodes.MakeNode | xv6/sysfile.c:261-276 | the new inode with "." and ".." and the parent's extra link |
| LinkRuns.LinkCountsExact | xv6/sysfile.c:118-284 | in every reachable state with no link call half way, each inode's nlink is the number of entries other than "." that name it in linked directories |
| LinkRuns.RunGood | xv6/sysfile.c:118-284 | counts, tree shape and references stay right over every interleaving of the calls that adds names to linked directories only |
| LinkRuns.UnlinkGood | xv6/sysfile.c:184-239 | unlink keeps the counts and never panics |
| LinkRuns.CreateIffLinked | xv6/sysfile.c:241-284 | a create that makes an inode keeps the counts if and only if the parent still has a link |
| LinkRuns.LinkIffLinked | xv6/sysfile.c:144-156 | a link that enters a name keeps the counts if and only if the directory still has a link |
| LinkRuns.LostDirectory | xv6/sysfile.c:241-284 | a reachable state in which create breaks the counts |
| LinkRuns.NamesDistinct | xv6/fs.c:552-579 | in every reachable state no directory has two names equal in their first DIRSIZ bytes |
| LinkCalls.FailedUndone | xv6/sysfile.c:184-284 | a failed unlink or create, with its lookup's reference, leaves every inode and every reference as it was |
| LinkCalls.FailedLinkUndone | xv6/sysfile.c:118-164 | so does a failed link, at each of its exits |
| LinkFacts.LinkFailUndoes | xv6/sysfile.c:158-164 | a link that fails at once changes no inode |
| LinkFacts.EmptyDirHasOneLink | xv6/sysfile.c:211-229 | an empty directory with a name has exactly that one link, and its parent keeps at least one |
| LinkFacts.ReleaseCore | xv6/fs.c:332-353 | freeing an unlinked, unreferenced inode keeps the counts |
| Paths.ElementsAreRuns | xv6/fs.c:596-619 | repeated skipelem returns exactly the longest slash-free stretches of the path, in order |
| Paths.ComponentsAreElements | xv6/fs.c:607-614 | each name is its stretch cut to DIRSIZ bytes |
| Paths.SkipElem | xv6/fs.c:596-619 | returns the next component and where the rest starts, which is the end exactly when no component is left |
| Paths.NameX | xv6/fs.c:625-658 | the result is the fold of directory lookup over the components, or over all but the last; one extra reference on success, none on failure; panics whenever the walk meets a freed inode, and otherwise only if the inode cache is left without an entry for an inode on the way |
| Paths.WalkLeads | xv6/fs.c:625-658 | the walk ends at j if and only if there is a chain of directories in which each finds the next under its component, from the start to j |
| Paths.ParentLeads | xv6/fs.c:650-657 | the walk for a parent ends at the directory to which all components but the last lead, and fails for a path without components |
| Paths.Descend | xv6/fs.c:646-651 | one step down moves the one reference from the directory to what it names |
| Paths.WalkNeverStuck | xv6/fs.c:625-658 | from a linked directory no path meets a freed inode |
| LostParents.LookupPanicsIff | xv6/fs.c:625-658 | namex and nameiparent panic on a freed inode if and only if the dots at the front of the path climb through removed directories to one, with a component left |
| LostParents.LockPanicsIff | xv6/fs.c:290-313 | a call that looks up a path and locks the result panics if and only if they climb to one, with or without a component left |
| LostParents.CreatePanicsIff | xv6/sysfile.c:241-284 | create panics if and only if the name is ".." in a removed directory whose parent was freed, or inodes or directory are full; the inode cache's own panic is added in LinkCalls.Inodes.Create |
| LostParents.StrandedPanics | xv6/fs.c:625-658 | a reachable state, after two mkdir and two unlink, in which "../x" and a create of ".." panic |
| SleepSafety.NoLostWakeup | xv6/proc.c:423-480 | in every run of any number of processes, interrupt handlers, CPUs, locks, conditions and channels: when a condition is true and nobody who made it true still owes its wakeup, nobody sleeps on its channel; lk may be ptable.lock and wakeup may follow the release |
| SleepSafety.SleepersHaveAReason | xv6/proc.c:423-459 | whoever sleeps has a false condition or a wakeup owed to it |
| SleepSafety.WakeupReachesAll | xv6/proc.c:463-480 | right after wakeup1 nobody sleeps on the channel or has let go of the lock in order to |
| SleepSafety.RunningOnOneCpu | xv6/proc.c:328-388 | a running process is on exactly one CPU |
| SleepSafety.NoLockPanic | xv6/spinlock.c:24-122 | the panics of acquire, release, popcli and sched cannot happen, the tests of interrupt state included |
| SleepSafety.RunInv | xv6/proc.c:328-503 | the invariant of processes, CPUs, locks and conditions holds in every state of every run |
| SleepSafety.SwitchInv | xv6/proc.c:371-388 | leaving the CPU in sched keeps it |
| SleepSafety.PickInv | xv6/proc.c:328-362 | taking a runnable process keeps it |
| SleepSafety.ChangeInv | xv6/proc.c:423-459 | changing a condition under its lock keeps it |
| SleepSafety.ScanInv | xv6/proc.c:463-471 | so does wakeup1, and it leaves no sleeper behind |
| SleepSafety.HandlerInv | xv6/trap.c:50-78 | so do an interrupt handler's start on a CPU without a process and its return |
| SleepSafety.KillMarkInv | xv6/proc.c:485-503 | kill's wakeup of any sleeper keeps it |
| SleepReturns.SleepReturnsWithLock | xv6/proc.c:423-459 | in every run a process leaves sleep only with the lock it came with, and with its channel cleared |
| SleepReturns.ChanOnlyInSleep | xv6/proc.c:445-452 | in every run a process that is not in sleep has no channel |
| SleepReturns.KillWakes | xv6/proc.c:485-503 | in every run kill comes to its end only with a victim that is not asleep |
| SleepReturns.InterruptReturns | xv6/proc.c:391-398 | in every run a process that the timer interrupted goes on where it was |
| SleepLocks.FreeLockHasNoSleepers | xv6/sleeplock.c:22-42 | when a sleep lock is free and its spin lock is not held, nobody sleeps on it |
| SleepLocks.SleepersHaveAWaker | xv6/sleeplock.c:22-42 | whoever sleeps on a sleep lock has it held by someone, or its spin lock held by the process that is about to wake it |
| SleepLocks.MutualExclusion | xv6/sleeplock.c:22-42 | two processes never hold the same sleep lock, and one that is not free has a holder |
| SleepLocks.RunLockInv | xv6/sleeplock.c:22-42 | what sleep locks need on top of the general invariant holds over every run that keeps to acquiresleep and releasesleep |
| ExitWait.EveryParentAlive | xv6/proc.c:233-274 | in every reachable state each process other than init, from its publication to its reaping, has a parent that is alive |
| ExitWait.LifeStep | xv6/proc.c:186-318 | in every run a process keeps pid and parent until its parent's wait returns it, except that init becomes the parent when the parent exits; only its own exit makes it a zombie; only a kill or a fault marks it |
| ExitWait.BornToForker | xv6/proc.c:186-228 | in every run fork's child is born to the process that forked, which is alive |
| ExitWait.PidsDistinct | xv6/proc.c:76-121 | processes in use have distinct pids |
| ExitWait.ReapedExactlyOnce | xv6/proc.c:278-318 | each exited process is a zombie until exactly one wait returns its pid |
| ExitWait.WaitMissesNoExit | xv6/proc.c:278-318 | a process asleep in wait has no zombie child |
| ExitWait.KillTarget | xv6/proc.c:485-503 | in every reachable state the slot that kill finds is free if and only if the pid is 0 or that of a fork that failed |
| ExitWait.KilledIffHit | xv6/proc.c:186-318 | a slot that is free or being set up is marked killed if and only if a kill hit it since it was last reaped, or since boot |
| ExitWait.BornKilledIff | xv6/proc.c:186-228 | a child is born killed if and only if a kill hit its slot since then |
| ExitWait.RunLeftOver | xv6/proc.c:76-121 | in every reachable state the pids left in free slots are 0 or those of failed forks, and no others are |
| ExitWait.KillZero | xv6/proc.c:485-503 | a run in which kill(0) marks a free slot and the next child is born killed |
| ExitWait.RunGood | xv6/proc.c:186-318 | tree, pids, ledger of exits and sleeping parents stay right over every run |
| ExitWait.ExitMissesNobody | xv6/proc.c:256-272 | exit wakes every parent, old or new, that has a zombie to collect |
| ExitWait.ExitEffect | xv6/proc.c:256-272 | exit gives exactly the children to init, wakes exactly the parent asleep in wait, and init if it gets a zombie, and changes nothing else |
| ProcTable.Ptable.constructor | xv6/proc.c:126-160 | the table after the first process is made |
| ProcTable.Ptable.Allocproc | xv6/proc.c:76-96 | takes the first unused slot with a new pid, or finds none |
| ProcTable.Ptable.Wakeup | xv6/proc.c:463-471 | wakes exactly the sleepers on the channel |
| ProcTable.Ptable.Exit | xv6/proc.c:256-272 | parent woken, children given to init, state ZOMBIE |
| ProcTable.Ptable.GiveToInit | xv6/proc.c:261-268 | the loop passes exactly the exiting process's children to init, and wakes init for a zombie |
| ProcTable.Ptable.Wait | xv6/proc.c:278-318 | one pass: reaps a zombie child exactly when there is one; otherwise returns -1 if and only if the caller is killed or has no child, and else sleeps |
| ProcTable.Ptable.Kill | xv6/proc.c:485-503 | marks the first slot with the pid, makes it runnable if it slept, and leaves every other slot; fails if and only if no slot has the pid |
| Vm.Memory.constructor | xv6/kalloc.c:46-53 | every whole page of the range is on the free list once |
| Vm.Memory.Kalloc | xv6/kalloc.c:82-95 | takes the head of the list; fails exactly when it is empty |
| Vm.Memory.Kfree | xv6/kalloc.c:59-77 | puts the page back; its panic cannot happen for a page from kalloc |
| Vm.Memory.NewDirectory | xv6/vm.c:131-134 | a new directory that maps nothing; no other directory changes |
| Vm.Memory.SetupKvm | xv6/vm.c:122-144 | for any kmap in the kernel half, the new directory maps exactly what kmap says; it takes one page and one per kernel table, runs out of memory exactly when there are fewer, and then gives all back; the "remap" panic happens only with overlapping entries, and success only without |
| Vm.Memory.MapKernel | xv6/vm.c:137-142 | one entry of kmap, with the tables it adds counted |
| Vm.Memory.MapKernelPage | xv6/vm.c:63-83 | one page of it: one translation appears and no other changes |
| KernelMap.EntryMapped | xv6/vm.c:108-142 | every page of an entry is mapped to its own frame of the entry, with the entry's permissions |
| KernelMap.TablesNext | xv6/vm.c:108-120 | the tables used by one page more |
| KernelMap.MappedTwice | xv6/vm.c:74-75 | a page met a second time is in two entries of kmap |
| Vm.Memory.WalkPgdir | xv6/vm.c:38-58 | the table for an address, added if asked and possible; no translation of any process changes |
| Vm.Memory.MapPage | xv6/vm.c:63-83 | one translation appears and no other changes; panics exactly when the page was mapped; on failure nothing changes |
| Vm.Memory.AllocUvm | xv6/vm.c:229-257 | on success exactly the pages in range are mapped to pages from the free list; it succeeds if and only if the free list has a page for each of them and for each table they miss; at both out-of-memory exits none of them is, every other translation is as before and no page is lost; if memory does not run out, it panics exactly when one was mapped |
| Vm.Memory.DeallocUvm | xv6/vm.c:263-287 | exactly the pages in range lose their translation, in spite of the jump over absent tables and 32-bit addresses |
| Vm.Memory.UnmapPage | xv6/vm.c:277-284 | one translation goes and its page is free again |
| Vm.Memory.FreeVm | xv6/vm.c:291-306 | every page of the directory is free again, no page is freed twice, and no other process notices |
| Vm.Memory.CopyUvm | xv6/vm.c:321-351 | the copy maps exactly the parent's pages with their permissions, to pages from the free list, and the kernel's; it succeeds if and only if the pages are present and the free list has enough for the directory, the kernel's tables, the pages and their tables; on failure all is given back, but for one page, lost if and only if memory runs out at a user table |
| Vm.Memory.CopyPages | xv6/vm.c:333-350 | its loop and its exit |
| Vm.LosesAPage | xv6/vm.c:340-350 | a run, for any kmap, in which a copy fails and one page is lost |
| PageTables.KernelMapGood | xv6/vm.c:63-83 | a mapping in the kernel half keeps every page counted exactly once |
| PageTables.MapGood | xv6/vm.c:63-83 | every page of the machine stays counted exactly once when a page is mapped |
| PageTables.UnmapGood | xv6/vm.c:277-284 | and when one is unmapped |
| PageTables.AddTableGood | xv6/vm.c:47-56 | and when a page becomes a table |
| PageTables.RetireGood | xv6/vm.c:291-306 | and when a directory is given up |
| Vm.UnmappedJump | xv6/vm.c:275-276 | stepping over an absent table skips no mapped page |
| Heap.Allocator.Malloc | xv6/umalloc.c:63-90 | for every 32-bit size: a block apart from all others, from the free list or one sbrk request; large enough if and only if the size does not wrap; fails exactly when no free block fits and sbrk fails; both loops end |
| Heap.Allocator.Free | xv6/umalloc.c:24-44 | the block is back in the list, merged with its free neighbours; the ring stays ordered with one wrap |
| Heap.Allocator.MoreCore | xv6/umalloc.c:46-61 | the block entered in the list is the memory sbrk gave if and only if its size fits in an int; the next search meets a block large enough |
| Heap.Allocator.Locate | xv6/umalloc.c:30-32 | the search ends at the place in address order from anywhere in the ring |
| Heap.Allocator.Carve | xv6/umalloc.c:75-85 | the block is all of the free block or its tail |
| Heap.UnitsEnough | xv6/umalloc.c:69 | the rounded size holds the request if and only if the addition does not wrap |
| Heap.SbrkArgExact | xv6/umalloc.c:52-54 | sbrk is asked for the right number of bytes if they fit in an int, and else for none or a negative number |
| Heap.SbrkFits | xv6/umalloc.c:52-69 | the same condition on malloc's argument |
| Heap.WrapCases | xv6/umalloc.c:52-69 | a size that gets an empty block, and one for which sbrk is asked for 0 bytes |
| Heap.FreeRing | xv6/umalloc.c:33-42 | the header assignments of free build the ring of the merged list |
| FreeList.FreeUndoesTake | xv6/umalloc.c:24-90 | freeing a block just allocated gives back the very same free list |
| FreeList.InsertOrdered | xv6/umalloc.c:24-44 | after free the list is address-ordered and no two free blocks touch |
| FreeList.InsertTotal | xv6/umalloc.c:24-44 | free conserves units |
| FreeList.TakeTotal | xv6/umalloc.c:74-85 | malloc conserves units |
| FreeList.InsertSeparate | xv6/umalloc.c:24-44 | allocated and free blocks stay disjoint after free |
| FreeList.TakeSeparate | xv6/umalloc.c:74-85 | and after malloc |
| ShellRoundTrip.RoundTrip | xv6/sh.c:265-446 | parsing the text of any command tree with at most nine arguments per program gives back that tree |
| ShellGrammar.ParsesExactly | xv6/sh.c:327-446 | the parser returns a tree if and only if the grammar of command lines derives the line's tokens for that tree |
| ShellGrammar.RejectsExactly | xv6/sh.c:327-446 | that grammar is unambiguous, and the parser panics if and only if it derives no tree |
| ShellGrammar.BadLinesPanic | xv6/sh.c:384-412 | a line with a redirection mark that no word follows, or with parentheses that do not balance, panics |
| ShellGrammar.LineSound | xv6/sh.c:344-359 | at any place of any line, what parseline accepts the grammar derives for the tree that it returns |
| ShellGrammar.LineComplete | xv6/sh.c:344-359 | and what the grammar derives, up to the end or a ")", parseline reads as that tree and stops after it |
| ShellGrammar.RoundTripAnySpelling | xv6/sh.c:265-446 | any line with the tokens of a rendered tree, each output redirection spelled ">" or ">>", parses to that tree |
| ShellGrammar.LexingUnique | xv6/sh.c:265-308 | gettoken cuts a line the only way there is: white space, longest words, ">>" before ">" |
| ShellRoundTrip.LineAt | xv6/sh.c:344-359 | at any place of any line, parseline reads a rendered list back and stops at its end |
| ShellRoundTrip.BackAt | xv6/sh.c:350-353 | the ampersand loop reads back any number of background marks |
| ShellRoundTrip.PipeAt | xv6/sh.c:361-372 | parsepipe reads a rendered pipeline back |
| ShellRoundTrip.ExecAt | xv6/sh.c:399-446 | parseexec reads a rendered command back, in parentheses or not |
| ShellRoundTrip.ArgsAt | xv6/sh.c:415-446 | the argument loop reads back the words and the redirections after them |
| ShellRoundTrip.RedirsAt | xv6/sh.c:374-397 | parseredirs reads back any sequence of redirections |
| ShellParser.StringsAreWords | xv6/sh.c:448-493 | after the NULs are written every argument and file name is its word: no NUL falls inside one |
| ShellParser.LineWords | xv6/sh.c:344-446 | every string of any parsed command is a longest stretch of word characters |
| ShellParser.EndsOutside | xv6/sh.c:448-493 | no position that gets a NUL is inside a word |
| Shell.ParseBuffer | xv6/sh.c:327-342 | for any buffer, if the parse succeeds every string of the command is its word of the original line |
| Shell.NulTerminate | xv6/sh.c:448-493 | writes a NUL at the end of every word of the command and changes nothing else |
| Shell.GetTok | xv6/sh.c:265-308 | kind, start, end and rest of the next token |
| Shell.Peek | xv6/sh.c:310-320 | skips white space and tests the next character |
| Shell.ParseRedirs | xv6/sh.c:374-397 | the loop refines the recursive definition of a redirection list |
| Shell.ParseExecCmd | xv6/sh.c:415-446 | the loop refines the recursive definition of a simple command, with its panics |
| Shell.ParseBlockCmd | xv6/sh.c:399-413 | a parenthesised line with its redirections, or the panic for a missing parenthesis |
| Shell.ParsePipeCmd | xv6/sh.c:361-372 | a pipeline |
| Shell.ParseLineCmd | xv6/sh.c:344-359 | a line; the mutual recursion ends |
| Grep.Match | xv6/grep.c:72-82 | true exactly when some substring of the text is made of one piece for each item of the pattern, at the front after '^' and at the end before '$' |
| Grep.MatchHere | xv6/grep.c:85-96 | true exactly when some prefix of the text is |
| Grep.MatchStar | xv6/grep.c:99-106 | true exactly when some characters that fit and then the rest match |
| Grep.HereStar | xv6/grep.c:89-90 | a starred item matches any number of fitting characters |
| Grep.HereOne | xv6/grep.c:93-94 | a plain item matches one fitting character |
| Grep.SpellsStar | xv6/grep.c:99-106 | the meaning of a starred item followed by others |
| Pipe.PipeSafety | xv6/pipe.c:59-121 | from a new pipe, over every interleaving of readers, writers, closes and kills: what was read is a prefix of what was written, at most PIPESIZE bytes are in between, and unless a killed writer returned silently no sleeper could go on |
| Pipe.StepAwakeIff | xv6/pipe.c:78-121 | a step leaves somebody asleep who could go on if and only if it is a killed writer filling the pipe past sleeping readers |
| Pipe.ReaderLeftAsleep | xv6/pipe.c:84-97 | a run that leaves a reader asleep with the pipe full |
| Pipe.RunFifo | xv6/pipe.c:78-121 | first in, first out, over every run |
| Pipe.RunAwake | xv6/pipe.c:78-121 | nobody sleeps who could go on, over every run without a silent return |
| Pipe.EndOfFile | xv6/pipe.c:59-121 | over every run: once the write end is closed nothing more is sent, no reader goes to sleep, and a drained pipe gives every reader 0 bytes |
| Pipe.BrokenPipe | xv6/pipe.c:59-98 | over every run: once the read end is closed nothing more is received, no writer goes to sleep, and a write fails if and only if it has more bytes than fit |
| Pipe.RingPipe.constructor | xv6/pipe.c:22-46 | a new pipe is empty and open at both ends |
| Pipe.RingPipe.WriteSome | xv6/pipe.c:78-98 | puts in as many bytes as fit and then returns, sleeps, or fails exactly when bytes are left over and the read end is closed or the writer killed; counters wrap at 32 bits |
| Pipe.RingPipe.ReadSome | xv6/pipe.c:100-121 | takes the next bytes of the stream; returns none for a positive length only when drained and the write end closed |
| Pipe.RingPipe.CloseEnd | xv6/pipe.c:59-75 | closes that end and no other, wakes everybody on the other side, keeps the bytes, and tells when both ends are closed |
| Pipe.CountersAgree | xv6/pipe.c:85-114 | the 32-bit tests for full and empty are right for counters of any size |
| Pipe.RingIndex | xv6/pipe.c:93-116 | a byte's place in the ring is the same whether its position is counted in 32 bits or not |

## Left out

- LogCode.Log.TryBeginOp: one pass of the waiting loop; that a waiting begin_op is woken again is not modelled.
- LogCode.Log.Modify: a call may change any home block it likes; which blocks a call changes is the subject of the file modules, not of this one.
- FileBlocks.Files.WriteI: device inodes are not modelled; running out of blocks ends in the source's panic and nothing is said of the state then.
- FileBlocks.Files.ReadI: device inodes are not modelled.
- FileBlocks.Files.FileWrite: other calls do not run between its transactions, where the source has released the inode's lock; WriteChunk says what each transaction does to whatever contents it finds. Pipes and files not open for writing return before this code.
- BufferCache.Bcache.Bread: stops where it has to wait for a buffer that somebody else has locked; FillLocked is the rest, and waiting is the subject of SleepLocks.
- BufferCache.Bcache.Brelse: asks that a changed buffer has been given to bwrite or log_write, as bio.c asks of its users.
- LinkCalls.Inodes.Create: major and minor numbers are not kept, and link counts are unbounded integers instead of 16-bit ones.
- LinkCalls.Inodes.LinkFinish: the two inodes' devices are compared by the caller's parameter sameDev; the model has one device.
- LinkCalls.Inodes.Iput: the valid flag is not kept; for an inode with a link or another reference it makes no difference.
- Paths.NameX: one lookup runs without other calls in between; the link-count calls, which interleave, take its result as given.
- SleepSafety.NoLostWakeup: a process takes one lock at a time besides ptable.lock, a handler other than the timer's yield runs on a CPU without a process or between the calls of a process, and the number of processes is fixed in a run; fork, exit and wait are the subject of ExitWait.
- SleepLocks.RunLockInv: only the holder calls releasesleep, which sleeplock.c leaves to its callers.
- ExitWait.PidsDistinct: nextpid does not overflow in the model.
- Vm.Memory.SetupKvm: kmap is a parameter, in whole pages above KERNBASE; the test of PHYSTOP and the video memory entry that setupkvm fills in are part of choosing it.
- Vm.Memory.MapPage: mappages is modelled for one user page, which is how allocuvm and copyuvm call it; MapKernel has the loop.
- Vm.Memory.AllocUvm: the contents of user pages are not modelled.
- Vm.Memory.CopyUvm: the contents of user pages are not modelled.
- Vm.Memory.DeallocUvm: oldsz is at most KERNBASE, as the size of every process is.
- Heap.Allocator.Malloc: sbrk returns memory above all it returned before, aligned to a header; where the block entered in the list is not in that memory the model stops and says so.
- Shell.ParseExecCmd: command nodes are values built when their parts are known, not objects filled in place; running out of memory is not modelled.
- On-disk layout of inodes (`iupdate`, `ilock`'s copy): inodes are values; their block number is used only to count logged blocks.
- `exec`, `open` flags, `chdir`, system call argument fetching: easy members around the calls modelled here.
- The buffering loop of `grep`, `runcmd` and the other user programs.
- Liveness and fairness of the scheduler, and running out of buffers, inodes or blocks beyond the panic itself.
- Device drivers, console, graphics, network, boot loader, trap handling and `mkfs`.

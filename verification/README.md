# Verified model of the mCertiKOS teaching kernel

A Dafny model of the parts of the kernel whose correctness spans whole runs, with proofs. The command
`dafny verify dfyconfig.toml` checks everything.

**The crash-safe file store.** `LogSpec` is the redo log as a list of atomic sector writes, with crash atomicity over
all runs. `LogDisk` reads that log off a flat disk of sectors. `CacheSpec` is the write-back buffer cache as values,
under every interleaving of threads; `BufCache` is its code, with the circular linked LRU list and the disk driver's
queue. `Log` is `log.c` on top of that cache, and `TxStore` is what file-system code uses of it. `Layout` is the
on-disk format, `FsSpec` who owns which block and what the bytes of a file are, and `Fs`, `Files`, `Trunc` and
`FileIo` are the bitmap allocator, `bmap`, reading, writing, truncating, and the chunked `file_write`.

**Threads and signals.** `ThreadQueue` is the ready queue linked by index through the thread table. `Sched` is the
scheduler as a state machine, with the theorems about its runs, and `Threads` is its code. `Signals` is about the
order in which pending signals drain, `SignalFrame` about the user stack frame of a handler, and `SignalStack` about
that frame on a stack behind page tables. `SleepLocks` is the sleep/wakeup protocol of the transaction, buffer and
inode locks at the grain of single lock operations.

**Pages.** `PageAlloc` is the next-fit page allocator, `Container` the tree of quotas, `PageTables` and `Paging` the
two-level page tables and who owns each frame, and `UserCopy` copying across page boundaries.

`Common` and `Words` hold shared constants, little-endian words and single bits.

Conventions:

- A class keeps the fields the C code updates; its methods are proved equal to functions on values, and the theorems
  are about those functions. Fields marked `ghost` carry the value a state stands for.
- `KERN_PANIC` is a stopping state: a method's `requires` rules it out, and callers prove that they meet it.
- A crash drops memory after any prefix of the sector writes issued so far. The trace of sector writes that `BufCache`
  keeps is what `Log` relates to the writes of `LogSpec`.
- Where a function of the kernel would sleep, the sequential model states what it does when it need not; what happens
  around the sleep is in `CacheSpec` (interleavings of cache operations) and `SleepLocks`.

Where the code and its comments disagree, the model follows the code:

- `sys_pause` acts as a yield (`Sched.PauseIsYield`).
- SIGKILL to oneself leaves a dead thread running, and the next yield undoes the death (`Sched.SelfKillRevives`);
  `Sched.KillKeepsIff` says this is the only case in which `sys_kill` breaks the scheduler.
- `tqueue_remove` of a thread that is not queued empties the queue (`ThreadQueue.ReadyQueue.Remove`).
- `container_can_consume` answers wrongly when the 32-bit sum wraps around (`Container.CanConsumeIff`), for instance
  at usage 1 and quota 2^32 - 1 (`Container.WrappedSplit`); the split that follows keeps the parent's books exactly if
  the sum does not wrap (`Container.SplitBooksIff`).
- `container_alloc` keeps its charge when no page is found; the books count such charges. It charges for nothing
  exactly if quota is left and no normal page above the allocator's hint is free (`Container.Containers.Alloc`).
- `pt_copyout` reports success and writes to physical page 0 when no page can be had. The bytes are in place exactly
  if the pages and page tables that the range lacks are at most what the quota leaves and at most the free normal
  pages above the hint (`UserCopy.CopyOut`). `UserCopy.LostCopy` is the family of failures with quota left and free
  pages up to the hint only, and `UserCopy.SmallMachine` a machine that is in that state after booting.
- The trampoline's system call number is the enumerator's value, 28, not the one in the comment beside it.

## Model

| member | source | states |
|---|---|---|
| LogSpec.RunsAreAtomic | kern/fs/log.c:69-149 | for every run of transactions, each completing or cut off after any number of sector writes and followed by any number of crashed recoveries, the home area is that of a store in which transactions are atomic |
| LogSpec.CrashAtomic | kern/fs/log.c:135-181 | after any k sector writes of a transaction the disk stands for the state before it or, exactly once the non-empty header is out, after it |
| LogSpec.RecoveryKeepsDurable | kern/fs/log.c:68-122 | recovery cut off after any prefix of its writes still stands for the same state; completed, the home area is that state and the log is empty |
| LogSpec.Reboot | kern/fs/log.c:115-122 | any number of interrupted recoveries followed by a complete one yields the durable state and an empty log |
| LogSpec.RedoAll | kern/fs/log.c:69-82 | installing again over a partial installation changes nothing |
| LogSpec.Committed | kern/fs/log.c:101-113 | once the commit header is down the disk stands for the home area with all logged updates |
| LogSpec.Logging | kern/fs/log.c:159-181 | before the commit header, header and home area are untouched and each log block holds the newest content of its sector |
| LogDisk.ReplayMeans | kern/fs/log.c:36-49 | replaying a trace of raw sector writes is applying its meaning to header, log blocks and home area |
| LogDisk.BlankLog | kern/fs/mkfs.c:112-117 | a log of zeros, as mkfs writes it, is empty: recovery can start from it and leaves the home area as it is |
| CacheSpec.RunsAreTransparent | kern/fs/bufcache.c:38-142 | over every interleaving of threads and interrupts, what readers see is a plain map from sectors to blocks that only holders' changes update, and the cache invariant holds throughout |
| CacheSpec.InvInRange | kern/fs/bufcache.c:61-142 | the invariant makes every step well defined, so runs assume nothing beyond the rules that holders follow |
| CacheSpec.StepKeeps | kern/fs/bufcache.c:61-142 | each atomic section keeps: LRU order a permutation of the buffers, one buffer per sector, clean buffers equal to the disk, one owner per busy buffer; only a holder's change is seen |
| CacheSpec.GetOwner | kern/fs/bufcache.c:67-90 | a buffer handed out had no owner |
| CacheSpec.NothingDirtyIsDropped | kern/fs/bufcache.c:82-90 | a dirty buffer keeps its sector and data until the disk has them, whatever step is taken |
| CacheSpec.ReleaseHonest | kern/fs/bufcache.c:124-142 | a release keeps the cache equal to the disk exactly if the holder dirtied what it changed |
| CacheSpec.ReleaseFirst | kern/fs/bufcache.c:124-142 | a released buffer becomes the first of the order, and all others keep their relative order |
| CacheSpec.OrderOfReleases | kern/fs/bufcache.c:124-142 | over every run the order is that of last releases; buffers never released keep their order behind those that were |
| CacheSpec.VictimIsOldest | kern/fs/bufcache.c:82-90 | over every run the buffer recycled is the one, of those neither busy nor dirty, whose last release lies furthest back |
| CacheSpec.CanGetIff | kern/fs/bufcache.c:61-92 | bufcache_get neither sleeps nor panics exactly if no busy buffer holds the sector and some buffer holds it or can be recycled |
| CacheSpec.InterruptKeeps | kern/dev/disk/ide.c:95-123 | a finished request leaves its buffer valid, clean and equal to the disk, and changes nothing that readers see |
| CacheSpec.ServedInOrder | kern/dev/disk/ide.c:95-161 | over every run disk requests are served in the order in which they were made, each by one interrupt |
| BufCache.PushFrontLinks | kern/fs/bufcache.c:47-53 | the pointer assignments put a buffer at the front of the circular list |
| BufCache.UnlinkLinks | kern/fs/bufcache.c:131-132 | the two unlinking assignments take exactly that buffer out of the circular list |
| BufCache.BufCache.constructor | kern/fs/bufcache.c:38-54 | the list links all buffers, none used |
| BufCache.BufCache.Lookup | kern/fs/bufcache.c:69-79 | the forward scan over the links finds the buffer the specification finds |
| BufCache.BufCache.Victim | kern/fs/bufcache.c:82-90 | the backward scan finds the least recently used buffer that is neither busy nor dirty |
| BufCache.BufCache.Get | kern/fs/bufcache.c:61-92 | one pass of bufcache_get: hit, wait, recycle or out of buffers, and the state each leaves |
| BufCache.BufCache.IdeRw | kern/dev/disk/ide.c:130-161 | the request is served: a dirty buffer is on disk, an invalid one loaded, and readers see what they saw |
| BufCache.BufCache.Interrupt | kern/dev/disk/ide.c:95-123 | ide_intr on the request at the head of the queue, and on an empty queue |
| BufCache.BufCache.Read | kern/fs/bufcache.c:97-106 | a busy buffer with exactly what readers of the sector see; nothing else changes |
| BufCache.BufCache.Write | kern/fs/bufcache.c:111-118 | the sector is on disk when it returns, by exactly one sector write |
| BufCache.BufCache.Release | kern/fs/bufcache.c:124-142 | the buffer becomes the first of the list, reached from the head's link, the others keep their order, and it is free; readers see what they saw |
| Log.WriteAhead | kern/fs/log.c:124-181 | inside a transaction the header on disk stays empty, no home sector on disk changes, and log blocks hold the newest content |
| Log.LogOne | kern/fs/log.c:169-179 | one more log_write keeps the relation between sector writes, log_write calls and the in-memory header, whose sectors stay distinct |
| Log.CrashAnywhere | kern/fs/log.c:135-181 | every crash point in a transaction's real sector writes leaves the old or the new home area, decided by the header write, and a header no longer than the transaction's |
| Log.CommitCrashSafe | kern/fs/log.c:135-181 | wherever the sector writes of a transaction are cut off, the preconditions of recovery hold and it ends with the home area before or after the transaction |
| Log.HeadersBound | kern/fs/log.c:101-113 | no header a transaction writes names more sectors than its distinct logged ones |
| Log.ViewInTransaction | kern/fs/log.c:159-181 | inside a transaction reads see the old home area with its updates |
| Log.Recovered | kern/fs/log.c:115-122 | the sector writes of recovery are those of the specification and leave the durable state |
| Log.RecoveryCrashSafe | kern/fs/log.c:115-122 | wherever the sector writes of recovery are cut off, its preconditions hold again and it ends with the same home area |
| Log.TxLog.LogInit | kern/fs/log.c:53-66 | recovery code over the cache, from any disk whose header fits: its sector writes are the specified ones, the home area becomes the durable state, nothing is left dirty, and cut off after any of its writes it leaves a disk that it can start from again, to the same end |
| Log.Boot | kern/fs/log.c:53-66 | log_init run on a new machine over the disk: an empty log, and the home area the disk stood for |
| Log.BootAfterCrashes | kern/fs/log.c:53-122 | log_init run and cut off any number of times, after any numbers of sector writes, and then completed: the home area the first disk stood for |
| Log.TxLog.ReadHead | kern/fs/log.c:85-96 | the in-memory header is the one on disk |
| Log.TxLog.WriteHead | kern/fs/log.c:101-113 | one sector write puts the in-memory header on disk |
| Log.TxLog.LogWrite | kern/fs/log.c:159-181 | append or absorb: one sector write, to a log block; the buffer is pinned and reads are unchanged |
| Log.TxLog.InstallTrans | kern/fs/log.c:69-82 | every logged sector is copied home on disk and in the cache, in order, and no buffer stays dirty |
| Log.TxLog.CommitTrans | kern/fs/log.c:135-149 | the transaction's sector writes are exactly the specified ones, every logged home sector on disk has its new content, no buffer is dirty, readers see no change, and any crash on the way recovers to the old or the new home area |
| Log.TxLog.BeginTrans | kern/fs/log.c:124-133 | opens the transaction when none is open |
| TxStore.Store.Begin | kern/fs/log.c:124-133 | at the start of a transaction the home area on disk is what the file system sees |
| TxStore.Store.AtRest | kern/fs/log.c:135-149 | between transactions the disk can be booted from, and recovery would find what the file system sees |
| TxStore.Store.Commit | kern/fs/log.c:135-149 | nothing seen changes; a crash at any sector write since the transaction began leaves a disk that boots to the home area before it or after it |
| TxStore.Store.WriteHeld | kern/fs/log.c:151-181 | modify, log_write: the home area as seen changes at that sector only, and the header gains it at most once |
| Layout.Mark | kern/fs/block.c:42-44 | setting or clearing the bit of one block leaves the bits of all others |
| Layout.PutNodeIs | kern/fs/inode.c:66-82 | a dinode reads back as written, and the others in its block are untouched |
| Layout.DinodeFields | kern/fs/dinode.h:9-16 | the fields of a dinode are the four shorts, the size and the addresses at their places in the structure |
| FsSpec.OneOwner | kern/fs/inode.c:237-265 | two pointers to the same block are the same slot of the same inode, and its bitmap bit is set |
| FsSpec.UsedHasOwner | kern/fs/block.c:30-73 | a data block is marked used exactly if some slot of some inode points to it |
| FsSpec.AllocKeeps | kern/fs/block.c:30-54 | marking a free block keeps ownership, with that block waiting to be placed |
| FsSpec.EnterKeeps | kern/fs/inode.c:256-262 | entering a new block into an indirect block keeps ownership |
| FsSpec.DetachKeeps | kern/fs/inode.c:287-298 | taking off the indirect block takes off exactly the blocks it points to |
| FsSpec.SameContents | kern/fs/inode.c:349-379 | a file none of whose blocks moved or changed has the same bytes |
| Fs.Scan | kern/fs/block.c:39-50 | the lowest block not marked in the bitmap |
| Fs.FileSystem.ReadSuper | kern/fs/block.c:7-15 | the superblock |
| Fs.FileSystem.BlockAlloc | kern/fs/block.c:30-54 | the lowest free block, which is a data block; it is marked and zeroed, ownership is kept, and only the bitmap and that block are logged |
| Fs.FileSystem.BlockFree | kern/fs/block.c:57-73 | the bit was set, so the panic is unreachable; exactly that block becomes free |
| Fs.FileSystem.BMap | kern/fs/inode.c:237-265 | the block of a file block, old or new and zero, with no hole left, no data moved, ownership kept, the free count reduced by exactly what was taken, and only bitmap, indirect and data block logged |
| Fs.LogBound | kern/fs/log.c:164-173 | distinct logged sectors are at most as many as the set they come from |
| Files.InodeLoad | kern/fs/inode.c:139-169 | the in-memory inode is the dinode on disk |
| Files.InodeUpdate | kern/fs/inode.c:66-82 | exactly the inode's dinode changes on disk, and ownership is kept |
| Files.RecordKeeps | kern/fs/inode.c:66-82 | recording a dinode moves no block, changes no data and frees nothing |
| Files.WriteBlock | kern/fs/inode.c:366-372 | one round of the loop: those bytes of that block change, every other block of every file stays |
| Files.InodeWrite | kern/fs/inode.c:349-379 | the file's bytes become prefix + source + suffix, across the indirect boundary; every other file's bytes are unchanged; on-disk dinodes agree with the inodes; no holes; free blocks fall by exactly the growth; at most 3 sectors besides data are logged; otherwise -1 and no change |
| Files.InodeRead | kern/fs/inode.c:320-344 | exactly the slice of the file's bytes, or -1 past its end or on wrap-around; nothing changes |
| Files.EmptyFs | kern/fs/mkfs.c:245-259 | a file system with only the leading blocks marked and no files, not even the root directory, satisfies the invariants |
| Files.RootFs | kern/fs/mkfs.c:115-167 | so does what mkfs leaves when it is given no files: the root directory is inode 1 and owns the first data block |
| Trunc.InodeTrunc | kern/fs/inode.c:274-302 | the file is empty, exactly the blocks it owned became free, no other file changed, dinodes agree |
| Trunc.FreeDirect | kern/fs/inode.c:281-286 | one direct block leaves the inode and becomes free |
| Trunc.FreeEntries | kern/fs/inode.c:291-294 | exactly the nonzero entries of the indirect block become free, each while still marked |
| FileIo.WriteChunk | kern/fs/file.c:138-156 | one chunk is one transaction; no header it writes names more than 7 sectors, and a crash anywhere in it recovers to the home area before or after the chunk |
| FileIo.FileWrite | kern/fs/file.c:124-161 | the chunks together write a prefix of the source as one write would; all of it exactly if the result is not -1, and otherwise the next chunk does not fit; a crash after any sector write of the call leaves a disk that boots to a whole number of chunks written and every other file unchanged |
| FileIo.CutOneMore | kern/fs/file.c:140-157 | a further transaction extends that from a series of transactions to the longer series |
| FileIo.BootFindsChunks | kern/fs/file.c:124-161 | log_init run on the disk that a crash anywhere in file_write leaves, itself cut off any number of times before it completes, finds a whole number of chunks in the file and every other file's bytes unchanged |
| FileIo.CrashLeavesFilesWhole | kern/fs/file.c:138-156 | if the sector writes of a chunk are cut off anywhere, the home area the disk stands for has the file overwritten as a whole or not at all, and every other file's bytes unchanged |
| FileIo.WrittenTwice | kern/fs/file.c:140-157 | two consecutive writes are one write of the concatenation |
| FileIo.ChunkAffordable | kern/fs/file.c:138-143 | a chunk lies in at most four blocks, which bounds its log entries |
| ThreadQueue.ReadyQueue.Enqueue | kern/thread/PTQueueInit/PTQueueInit.c:33-50 | the links spell the queue with the thread appended |
| ThreadQueue.ReadyQueue.Dequeue | kern/thread/PTQueueInit/PTQueueInit.c:57-80 | the head and the rest of the queue, or the null index on an empty one |
| ThreadQueue.ReadyQueue.Remove | kern/thread/PTQueueInit/PTQueueInit.c:86-113 | the links spell the queue without the thread exactly if it was queued or the queue was empty; on an unqueued thread the queue is lost |
| ThreadQueue.Removed | kern/thread/PTQueueInit/PTQueueInit.c:90-112 | cutting a queued thread out of the links, at the head, the tail or between; its neighbours are never the same thread |
| Sched.RunsKeepInv | kern/thread/PThread/PThread.c:33-191 | in every state of every run the ready queue holds exactly the READY threads once each, only the current thread is RUN, exactly the sleepers have a channel, and only created processes live |
| Sched.BootInv | kern/init/init.c:59-65 | so does the state after the hand-off to the shell |
| Sched.WakeupIs | kern/thread/PThread/PThread.c:177-191 | a wakeup makes exactly the sleepers on the channel ready and touches no other thread |
| Sched.WakeOrder | kern/thread/PThread/PThread.c:177-191 | woken threads join the end of the ready queue in the order of their numbers |
| Sched.TerminateKeeps | kern/trap/TTrapHandler/TTrapHandler.c:246-263 | the state guard makes the removal from the ready queue safe |
| Sched.KillKeepsIff | kern/trap/TSyscall/TSyscall.c:453-502 | sys_kill keeps the invariant exactly if it is not SIGKILL to the running thread |
| Sched.SignalIsPending | kern/trap/TSyscall/TSyscall.c:453-502 | for a living target and any signal but SIGKILL, exactly that bit is added to its mask, every other mask stays, a sleeping target becomes READY and queued, and only sleepers on its channel change state |
| Sched.SelfKillRevives | kern/trap/TSyscall/TSyscall.c:471-488 | after SIGKILL to oneself the next yield is the yield of a thread that has only lost its pending signals: the dead thread is ready and queued again, or running if nobody else is ready, and the invariant holds again |
| Sched.PauseIsYield | kern/trap/TSyscall/TSyscall.c:504-518 | sys_pause with nothing pending is a yield |
| Sched.SpawnKeeps | kern/thread/PThread/PThread.c:33-46 | a new process gets a number never used before, and no number is given back; it is READY and last in the queue, and no other thread changes |
| Sched.DeadStaysDead | kern/trap/TSyscall/TSyscall.c:471-499 | a created process that is dead stays dead through every continuation of every run |
| Sched.KilledIsDead | kern/trap/TSyscall/TSyscall.c:471-488 | SIGKILL makes another thread dead with nothing pending, takes it off the ready queue and leaves every other thread alone |
| Sched.DiesIff | kern/trap/TTrapHandler/TTrapHandler.c:265-312 | a trap return ends the running thread exactly if the lowest signal pending from 1 to 31 is SIGKILL or has no handler |
| Sched.HandledIsDelivered | kern/trap/TTrapHandler/TTrapHandler.c:265-312 | if it has a handler and is not SIGKILL it is delivered, and nothing but its bit in that mask changes |
| Sched.DiedIsDead | kern/trap/TTrapHandler/TTrapHandler.c:265-312 | if it is SIGKILL or has no handler, the running thread is dead with nothing pending and off the queue, the head of the queue runs, and no other thread changes |
| Sched.NothingToDeliver | kern/trap/TTrapHandler/TTrapHandler.c:265-312 | with nothing pending from 1 to 31, nothing changes |
| Sched.SleepIs | kern/thread/PThread/PThread.c:129-164 | the running thread sleeps on the channel named, the head of the queue runs, and nothing else changes |
| Sched.SleepsUntilWoken | kern/thread/PThread/PThread.c:129-191 | over every run, after thread_sleep the thread stays asleep on its channel until the first wakeup of the channel, signal to a sleeper on it, or SIGKILL to the thread |
| Sched.WokenIsReady | kern/thread/PThread/PThread.c:177-191 | and the first step that wakes the channel makes it READY and queued |
| Sched.BoundedWaiting | kern/thread/PThread/PThread.c:57-172 | a ready thread with k threads ahead of it runs within k + 1 switches, unless it is killed |
| Sched.NeverNull | kern/thread/PThread/PThread.c:86-172 | with an idle thread that never sleeps, dies or is killed, the ready queue is never empty when another thread runs |
| Threads.Threads.constructor | kern/init/init.c:59-65 | the thread table after the hand-off |
| Threads.Threads.Yield | kern/thread/PThread/PThread.c:57-79 | the code takes the machine's yield step and keeps the invariant |
| Threads.Threads.Sleep | kern/thread/PThread/PThread.c:129-164 | the code takes the machine's sleep step and keeps the invariant: the thread is asleep on the channel named and the head of the queue runs |
| Threads.Threads.SleepResume | kern/thread/PThread/PThread.c:166-171 | clearing the channel on resumption changes nothing: the waker has done it |
| Threads.Threads.Wakeup | kern/thread/PThread/PThread.c:177-191 | the loop over the thread table takes the machine's wakeup step: every sleeper on the channel is READY and queued |
| Threads.Threads.Spawn | kern/thread/PThread/PThread.c:33-46 | the code takes the machine's spawn step, with a number never used before, READY and last in the queue |
| Threads.Threads.TerminateProcess | kern/trap/TTrapHandler/TTrapHandler.c:246-263 | the thread is dead, has nothing pending and is off the queue |
| Threads.Threads.Kill | kern/trap/TSyscall/TSyscall.c:453-502 | the code takes the machine's kill step; it fails exactly for a bad signal number or a target that is out of range or dead, and then changes nothing; SIGKILL makes the target dead, any other signal adds its bit to the target's mask alone and makes a sleeping target READY; the invariant is kept exactly if it is not SIGKILL to the running thread |
| Threads.Threads.Pause | kern/trap/TSyscall/TSyscall.c:504-518 | the code takes the machine's pause step, which is a yield unless something is pending |
| Threads.Threads.HandlePending | kern/trap/TTrapHandler/TTrapHandler.c:265-312 | the code takes the machine's trap-return step; of the lowest signal pending: with a handler, and not SIGKILL, it is returned for delivery and only its bit is cleared; otherwise the thread is dead and the head of the queue runs; with nothing pending nothing changes |
| Signals.DrainIs | kern/trap/TTrapHandler/TTrapHandler.c:265-312 | the signals that trap returns take from a mask are its pending ones from 1 to 31, each once, ascending |
| Signals.SignalsDrain | kern/trap/TTrapHandler/TTrapHandler.c:265-312 | over every run in which nobody signals a living thread, the signals delivered to it followed by those still to come are exactly the ones pending at the start, in order |
| Signals.TakenIsDelivered | kern/trap/TTrapHandler/TTrapHandler.c:265-312 | the signal a trap return takes from a thread that lives on is the one handle_pending_signals returns for delivery, and it has a handler |
| Signals.DrainedInTime | kern/trap/TTrapHandler/TTrapHandler.c:265-312 | once such a thread has returned from as many traps as it had signals pending, all of them have been delivered |
| Signals.SignalsConserved | kern/trap/TSyscall/TSyscall.c:453-502 | over every run on which a thread lives, for each signal: pending at the start plus sent while not pending equals delivered plus still pending |
| Signals.NoSignalLost | kern/trap/TSyscall/TSyscall.c:453-502 | a signal sent to a thread is, as long as it lives, delivered afterwards or still pending |
| Signals.SendsCollapse | kern/trap/TSyscall/TSyscall.c:453-502 | however often a signal was sent before, without a further send it is delivered at most once, and exactly once or still pending if it was pending |
| Signals.SendTwice | kern/thread/PTCBIntro/PTCBIntro.c:139-151 | sending a pending signal again changes nothing |
| SignalFrame.RoundTrip | kern/trap/TSyscall/TSyscall.c:520-563 | if the handler leaves the saved words alone, sigreturn restores exactly the interrupted ESP and EIP if and only if the stack pointer left room for them in user space; otherwise it fails and changes nothing |
| SignalFrame.HandlerSees | kern/trap/TTrapHandler/TTrapHandler.c:188-234 | at an aligned ESP the handler finds the trampoline's address, above it the signal number, and the trampoline intact |
| SignalFrame.TrampolineReturns | kern/trap/TTrapHandler/TTrapHandler.c:203-212 | the trampoline's bytes load the number of sigreturn, trap into the kernel by the system call vector, and spin should that ever return |
| SignalFrame.HandlerReturns | kern/trap/TTrapHandler/TTrapHandler.c:188-234 | a handler that returns through the word on top of its stack makes the sigreturn system call |
| SignalFrame.FrameOnly | kern/trap/TTrapHandler/TTrapHandler.c:188-234 | delivery changes no byte outside the frame |
| SignalFrame.Process.Deliver | kern/trap/TTrapHandler/TTrapHandler.c:168-244 | the code builds the specified frame and context; without a handler it does nothing |
| SignalFrame.Process.SigReturn | kern/trap/TSyscall/TSyscall.c:520-563 | the code restores what the specification restores, in each of its three outcomes |
| SignalStack.Task.Deliver | kern/trap/TTrapHandler/TTrapHandler.c:168-244 | five copies to a stack behind page tables: nothing outside the frame changes in any process, the saved words are in place if the process has room for what their eight bytes need, and return address, signal number and trampoline if it has room for the whole frame |
| SignalStack.Task.SigReturn | kern/trap/TSyscall/TSyscall.c:520-563 | each of the three outcomes exactly in its case; if the saved words are in place, ESP and EIP become exactly those |
| SignalStack.Task.RoundTrip | kern/trap/TSyscall/TSyscall.c:520-563 | delivery and sigreturn restore ESP and EIP if the process has room for the saved words, and succeed at all exactly if the stack pointer leaves room for them in user space |
| SignalStack.SavedStill | kern/trap/TSyscall/TSyscall.c:520-563 | whatever a handler or another process writes elsewhere, the saved words stay in place |
| SignalStack.NeedAfter | kern/lib/pmap.c:54-89 | copying part of a range takes off what the range needs exactly what that part needed |
| SleepLocks.SingleHolder | kern/fs/inode.c:139-184 | in every interleaving a transaction, buffer or inode has at most one holder |
| SleepLocks.HoldsIffTaken | kern/fs/bufcache.c:61-142 | in every interleaving a resource belongs to exactly the threads that found it free inside its guard and have not given it up since |
| SleepLocks.BusyIffTaken | kern/fs/log.c:124-149 | and its busy flag is set exactly while some thread has it so |
| SleepLocks.NoLostWakeup | kern/thread/PThread/PThread.c:129-191 | in every interleaving, while nobody is inside the guard, a thread asleep on a resource means it is still busy and somebody holds it |
| SleepLocks.SleeperRetries | kern/fs/inode.c:139-169 | a thread that slept on a resource goes nowhere else before it asks for the guard to look again |
| SleepLocks.StepKeeps | kern/fs/log.c:124-149 | every lock-level step keeps: spinlock ownership, one holder per busy flag, and a wakeup still to come for everyone asleep or about to be |
| SleepLocks.ReleaseWakesAll | kern/fs/bufcache.c:138-141 | the end of a release leaves nobody asleep on the resource or about to be |
| PageAlloc.NextFit | kern/pmm/MATOp/MATOp.c:35-53 | the lowest free normal page above the hint, or 0 exactly if there is none |
| PageAlloc.RetryFinds | kern/pmm/MATOp/MATOp.c:23-59 | two consecutive calls cannot both fail while a normal page from 1 on is free |
| PageAlloc.WrapsAround | kern/pmm/MATOp/MATOp.c:23-59 | two tries are first fit with wrap-around, starting above the hint |
| PageAlloc.Pages.Palloc | kern/pmm/MATOp/MATOp.c:23-59 | the scan returns that page and marks it alone |
| PageAlloc.Pages.Pfree | kern/pmm/MATOp/MATOp.c:70-76 | exactly that page becomes free |
| Container.BelowQuotaMeansFree | kern/pmm/MContainer/MContainer.c:20-142 | whenever any container is below its quota, some normal page is free |
| Container.ParentsDecrease | kern/pmm/MContainer/MContainer.c:94-114 | a parent is live and has a smaller number than its child |
| Container.ReachesRoot | kern/pmm/MContainer/MContainer.c:94-114 | the chain of parents of any live container stays among live containers and reaches the root |
| Container.SplitKeeps | kern/pmm/MContainer/MContainer.c:94-114 | a split keeps the exact books: every container is charged for its pages, its children's quotas and the charges that found no page, within its quota; its child's number is new |
| Container.AllocKeeps | kern/pmm/MContainer/MContainer.c:122-132 | a page from the allocator was nobody's, and the books balance exactly with it |
| Container.ChargeKeeps | kern/pmm/MContainer/MContainer.c:122-132 | so they do when a charge finds no page and is counted as such |
| Container.NextIffRoom | kern/pmm/MContainer/MContainer.c:122-132 | container_alloc succeeds exactly if quota is left and a normal page above the hint is free, and a success takes one off both, so as many calls in a row succeed as the smaller of the two allows |
| Container.BelowHintIsLost | kern/pmm/MATOp/MATOp.c:35-53 | with quota left and free pages at or below the hint only, the call fails |
| Container.FreeKeeps | kern/pmm/MContainer/MContainer.c:135-142 | so they do when its owner frees it and is refunded |
| Container.FreeThenAlloc | kern/pmm/MContainer/MContainer.c:122-142 | after a page is freed the next allocation of its owner finds whatever the page allocator finds, and succeeds if the page lies above the hint |
| Container.CanConsumeIff | kern/pmm/MContainer/MContainer.c:82-86 | the check is right exactly unless the 32-bit sum wraps around to something within the quota |
| Container.SplitBooksIff | kern/pmm/MContainer/MContainer.c:82-114 | a split that the check lets through keeps the parent's books exactly if the 32-bit sum does not wrap around; if it does, the child's quota alone exceeds what the parent is charged |
| Container.WrappedSplit | kern/pmm/MContainer/MContainer.c:82-114 | an input at which it wraps around: usage 1 and a quota of 2^32 - 1 leave the parent charged nothing |
| Container.Containers.constructor | kern/pmm/MContainer/MContainer.c:20-49 | the root's quota is the number of free normal pages, nothing is used, and the books balance |
| Container.Containers.Split | kern/pmm/MContainer/MContainer.c:94-114 | the code makes that split, and the child starts with no lost charges |
| Container.Containers.Alloc | kern/pmm/MContainer/MContainer.c:122-132 | 0 at the quota, else the lowest free normal page above the hint, which nobody owned, or 0; the usage, the hint and the table after it; charged without a page exactly if quota is left and no page above the hint is free |
| Container.Containers.Free | kern/pmm/MContainer/MContainer.c:135-142 | an allocated page becomes free and its owner's usage falls by exactly one; otherwise nothing changes; who is live does not change |
| PageTables.OnePlace | kern/vmm/MPTIntro/MPTIntro.c:51-112 | no frame is mapped at two places, or both mapped and a page table |
| PageTables.SetPteIs | kern/vmm/MPTIntro/MPTIntro.c:90-112 | storing an entry changes the translation of that entry and of no other, in any process |
| PageTables.WriteKeeps | kern/vmm/MPTIntro/MPTIntro.c:81-88 | writing a frame that is not a page table changes no translation |
| Paging.Paging.constructor | kern/vmm/MPTComm/MPTComm.c:10-29 | kernel slots and all of process 0 point into the identity tables, user slots are empty |
| Paging.Paging.IdptblInit | kern/vmm/MPTOp/MPTOp.c:72-96 | every entry of the identity tables maps its own page |
| Paging.IdentityIs | kern/vmm/MPTOp/MPTOp.c:72-96 | an identity entry maps its address to itself, present and writable, not for users, and global exactly outside user space |
| Paging.Paging.KernelIsIdentity | kern/vmm/MPTComm/MPTComm.c:10-29 | walking directory and table, a kernel address of any process, and any address of process 0, translates to itself |
| Paging.Paging.GetEntry | kern/vmm/MPTOp/MPTOp.c:10-23 | the entry of a user address, 0 if there is none |
| Paging.Paging.AllocPtbl | kern/vmm/MPTComm/MPTComm.c:38-56 | a cleared table in the frame container_alloc finds, new to everybody, or 0 and no change, exactly if it finds none; every entry, every mapped page and every other slot stays, and so does the identity map |
| Paging.Paging.MapPage | kern/vmm/MPTKern/MPTKern.c:30-46 | the frame is behind the address and every other entry and page stays; the constant for failure and no change exactly if the slot has no table and no frame can be had for one |
| Paging.Paging.AllocPage | kern/vmm/MPTNew/MPTNew.c:17-33 | a frame new to everybody behind the address; failure and no mapping changed exactly if the container has room for fewer frames than it takes, one or, without a table, two; frame ownership and identity entries are kept |
| Paging.Paging.UnmapPage | kern/vmm/MPTKern/MPTKern.c:56-64 | the entry as it was; afterwards it is empty and all others stay |
| Paging.Paging.FreePtbl | kern/vmm/MPTComm/MPTComm.c:61-67 | the slot is empty, the table's frame is free, ownership is kept and all other directory entries stay |
| UserCopy.SameFrame | kern/vmm/MPTOp/MPTOp.c:10-23 | two mapped user addresses share a frame exactly if they are in the same page of the same process |
| UserCopy.Wrote | kern/lib/pmap.c:75-80 | writing within a mapped page changes those bytes of that process and no other mapped byte of any process |
| UserCopy.StrayWrite | kern/lib/pmap.c:65-80 | what a failed allocation sends to physical page 0 changes no process's memory |
| UserCopy.NeedStep | kern/lib/pmap.c:63-86 | a round takes off what the rest of the range needs exactly the frames it cost: none for a mapped page, one for a page, two for a page and its table |
| UserCopy.MappedNeedsNothing | kern/lib/pmap.c:63-72 | a range that is mapped needs no frames |
| UserCopy.CopyOut | kern/lib/pmap.c:54-89 | no translation and no byte outside the range changes, in any process; in range, the bytes are in place exactly if the unmapped pages of the range plus its directory slots without a table are at most the quota left and at most the free normal pages above the hint, all before the call |
| UserCopy.CopyIn | kern/lib/pmap.c:19-52 | the bytes of the range are read exactly under the same condition before the call; no byte changes, and nothing at all if the range was mapped |
| UserCopy.CopyOutThenIn | kern/lib/pmap.c:19-89 | copying out and back in returns the same bytes for any length and alignment, if before the call the process had room for what the range needs, and always if the range was mapped |
| UserCopy.LostCopy | kern/lib/pmap.c:54-89 | with quota left, free pages up to the hint only and the range not all mapped, the copy reports its full length and the bytes are not in place |
| UserCopy.SmallMachine | kern/pmm/MATOp/MATOp.c:7-53 | a machine in that state after booting: its one normal page is the first, at which the hint starts |

## Left out

- Log.TxLog.LogInit: assumes that the header on disk fits the kernel's array of ten sectors and names sectors of the
  disk; `Log.CommitCrashSafe` and `Log.RecoveryCrashSafe` show that it does after any crash. `read_head` checks
  neither.
- Log.TxLog.BeginTrans: states the case in which no transaction is open; waiting for one is in `SleepLocks`.
- BufCache.BufCache.Read: states the case in which `bufcache_get` neither sleeps nor panics, which
  `CacheSpec.CanGetIff` characterises.
- BufCache.BufCache.IdeRw: starts from an empty request queue, and the disk never reports an error; queues of several
  requests are in `CacheSpec`.
- Fs.FileSystem.BlockAlloc: needs a free block below the log, since the code has no result otherwise, and one bitmap
  block, which is the geometry of mkfs.
- Fs.FileSystem.BMap: file blocks up to the end of the file, which are those its callers ask for; past it the code
  would leave holes.
- Files.InodeLoad: the copy from the dinode, without the busy flag, which is in `SleepLocks`, and without the panic on
  a free inode.
- Files.InodeWrite: needs enough free blocks, and at most six data blocks per transaction, the most that the nine log
  slots are sure to hold besides bitmap, indirect block and inode block; it leaves out device inodes, as do reads.
- Files.InodeRead: the destination buffer is the returned sequence.
- Threads.Threads.Spawn: the checks of `sys_spawn` are its preconditions, since the code reads the current process id
  before setting it.
- SignalFrame.Process.Deliver: user memory is flat there, with stack pointers that wrap around; stack pages that may
  be missing are in `SignalStack`.
- SignalFrame.RoundTrip: over the same flat memory; `SignalStack.Task.RoundTrip` is the one behind page tables.
- SignalStack.Task.Deliver: stack pointers from 31 on, so that nothing wraps around. The condition for the saved words
  is sufficient only: a page that one copy fails to get a later copy may get, with contents that happen to be those
  words.
- Container.Containers.Free: an allocated page must belong to the container that frees it.
- Paging.Paging.MapPage: the frame must be allocated and not mapped, and the permission must include the present bit,
  as all callers see to.
- UserCopy.CopyOut: assumes that neither address range wraps around 32 bits.
- UserCopy.CopyOutThenIn: the condition is sufficient only: when no page can be had for either copy, the bytes go to
  physical page 0 and come back from there.
- Directories, paths, file descriptors, link counts and reading from device inodes.
- `inode_alloc`, `inode_get`, reference counts and `inode_put`.
- IPC, whose lock calls are commented out.
- More than one CPU, per-CPU structures, the spinlock implementation, and the wait in `ide_rw` as a lock-level
  protocol.
- Signal masks and flags, nested handlers, `alarm`, and `sys_sigaction`.
- Device drivers other than the request queue of the disk driver, the boot loader, context switch, traps and segments.
- The memory map of the BIOS: the initial allocation table is a parameter.
- `elf_load`, `pt_memset`, user programs and the C library.

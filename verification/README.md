# A verified model of xv6's stateful cores

This project models the parts of xv6 whose correctness is a property of whole runs: the
write-ahead log over the buffer cache, the buddy allocator, the scheduler's locking
protocol with sleep and wakeup, Sv39 page tables, inodes and the block bitmap, the
user-level allocator, the virtio disk driver, pipes, the shell's parser and grep's
matcher. Sizes such as the number of buffers, log blocks, processes, CPUs and block
sizes are parameters wherever the code does not fix them.

`dafny verify dfyconfig.toml` checks the whole project.

## How it is organised

* **Log and cache.** `Bio` is the buffer cache as a class with its linked ring
  (`Ring`). `Log` is the commit protocol as a state machine: operations, block writes,
  evictions, crashes between any two block writes, and recovery. The machine refines a
  disk on which groups of operations take effect atomically. `LogDriver` is log.c itself
  as methods over `Bio`; each records the protocol steps it takes, so every statement
  about runs of the protocol is a statement about the code. `LogRestart` and `LogOverflow`
  deal with the two places where the code can leave the protocol (see below).
* **Buddy allocator.** `BuddyTree` states what bit vectors and free lists describe and
  how split, take, release and merge change it; `BuddyInit` what initialisation must
  leave; `Buddy` is the allocator as a class over linked lists (`List`) and proves that
  addresses, indices and sizes fit together (`Arith`); `BuddySizes` is the arithmetic of
  bd_init and the bits in bytes.
* **Scheduler.** `Sched` has one step per atomic action of every CPU, including each
  acquire and release; `Lifecycle` says who may change the state of a process; `SleepLock`
  instantiates the condition with a sleep-lock; `WaitExit` adds parents, exit and wait, and
  `WaitMiss` a run in which init misses an exit.
* **Memory.** `Kalloc` is the page allocator; `PageTree` what a three-level table in
  memory means; `PageNeeds` how many table pages a range needs; `Vm` walk, mappages,
  uvmunmap, uvmalloc and uvmdealloc; `VmCopy` uvmcopy; `PageFree` freewalk and uvmfree.
* **Files.** `FsBlock` bits and words in blocks; `FsRefs` which blocks are in use and by
  whom; `Fs` balloc to writei; `File` filewrite, whose transactions keep the bound on logged
  blocks that `Log` assumes of operations; `FsWorst` a file system on which that bound is
  tight; `FsCrash` puts these layers together: what a crash leaves of the transactions.
* **User programs and drivers.** `UnitMap` and `Umalloc`; `VirtioRing` and `Virtio`;
  `Pipe`; `ShellLex`, `ShellParse`, `ShellGrammar`, `ShellPrint` and `ShellNul`;
  `Regex`.

A panic is a precondition where callers must avoid it, an assertion where it is proved
unreachable, and a separate result (`None`, `false`) where the system may really run out
of something. Disk contents, the result of sbrk, failing copies to user memory and kill
are parameters. Integers are unbounded; 16-, 32-bit and `uint` counters that can wrap
are written out as such.

## Where the code does less than one might expect

* **Recovery unpins buffers nobody pinned.** install_trans calls bunpin in recovery as
  in commit, so the unsigned reference count of every replayed block wraps. Disk
  contents after recovery are right (`Log.CrashAtomicity`), but the cache is off
  balance, and a later operation on a replayed block can be acknowledged, committed and
  lost: `LogRestart.ReplayLosesUpdate` gives the run. `LogRestart.SafeToRunOn` is the exact
  condition: the boot may run on if and only if the log was empty. The run theorems
  therefore speak of runs that do not go on working after a replay until the next boot.
* **log_write tests before it locks.** The comparison of lh.n with the size of the log
  happens before the lock is taken, so two operations can both pass it for the last slot. The
  group then has more blocks than the log area has slots, and write_log overwrites the block
  after the area: `LogOverflow.OverwritesHome` gives the run. `LogOverflow.SafeExactly` says
  for which sizes there is none: the header holds no more entries than there are slots, or
  the cache cannot hold the larger group, or begin_op never lets two operations in together,
  or no operation can log anything. mkfs's disk is safe only because NBUF is no larger than
  its log area. For all other sizes the run theorems speak of runs in which nobody passes the
  test while another operation is between its test and its insertion.
* **A killed writer wakes nobody.** A pipe writer that finds the pipe full after it has
  been killed returns without waking readers, who then sleep in front of a full pipe:
  `Pipe.StrandedReader`. The last clauses of `Pipe.Pipe.Write`, `Read` and `Kill` say exactly
  when this happens and which calls end it: any write that sleeps or returns its count, and a
  read that empties the pipe.
* **sbrk takes an int.** morecore records the size it meant to ask for.
  `Umalloc.SbrkExact` says for which requests that is what sbrk was asked for.
* **bd_initfree and a heap without missing memory.** `BuddySizes.RightInRange` says that the
  right pair is inside the bit vectors if and only if some memory is unavailable.
* **uvmcopy that fails at once.** If not even the first page can be copied, uvmcopy unmaps an
  empty range, and uvmunmap panics at the first page all the same. `VmCopy.UvmCopy` says when
  that is: the parent has memory, and there are fewer free pages than one and the table pages
  the child lacks for page 0. `VmCopy.CopyPanics` is a machine on which it happens.
* **Recovery can run out of buffers.** Replayed blocks keep their buffers referenced, so
  recovery succeeds exactly if the log names fewer blocks than there are buffers
  (`LogDriver.FsLog.RecoverFromLog`). With mkfs's log there are at most 29 and NBUF is 30.
* **init may miss an exit.** `WaitExit.NoMissedExit`: no process but init sleeps in wait while
  it has an exited child. init may, for a child that woke somebody else and was given to init
  afterwards: exit wakes init before it gives its children away, and init can look and sleep
  again in between. `WaitMiss.InitMissesExit` gives the run.
* **`>>` does not append.** A line parses to the same command with `>` in place of every `>>`:
  `ShellGrammar.AppendIsWrite`.

## Model

| member | source | states |
|---|---|---|
| `Ring.Remove` | os/kernel/list.c:24-28 | taking a node out of a doubly linked ring leaves the ring of the other nodes, in order, in both directions |
| `Ring.Push` | os/kernel/list.c:39-47 | linking a node after the head gives the ring with that node first |
| `Bio.BufferCache.constructor` | os/kernel/bio.c:35-52 | the ring links all buffers once in both directions and the cache agrees with the disk |
| `Bio.BufferCache.Find` | os/kernel/bio.c:57-72 | the scan from the front finds the first buffer with this identity, or there is none |
| `Bio.BufferCache.FindUnused` | os/kernel/bio.c:74-86 | the scan from the back finds the last unreferenced buffer of the ring, or every buffer is referenced |
| `Bio.BufferCache.Bread` | os/kernel/bio.c:57-101 | the locked buffer holds the latest contents of the block; None exactly when the block is not referenced and as many blocks are as there are buffers; on a miss the unreferenced buffer nearest the end of the ring is recycled, no referenced one is, and no other block's contents, reference count or lock changes |
| `Bio.BusyBuffers` | os/kernel/bio.c:74-87 | some buffer can be recycled exactly if fewer blocks are referenced than there are buffers |
| `Bio.Recycle` | os/kernel/bio.c:74-87 | giving an unreferenced buffer to an uncached block keeps the agreement of cache and latest contents: no two buffers cache one block and nothing unwritten is lost |
| `Bio.Hit` | os/kernel/bio.c:63-71 | a hit keeps the agreement, also for the buffers that were never used and share identity (0, 0) |
| `Bio.BufferCache.Bwrite` | os/kernel/bio.c:103-110 | disk and cache agree on this block, nothing else changes |
| `Bio.BufferCache.Brelse` | os/kernel/bio.c:112-135 | one reference and the lock are dropped, the latest contents stay known because the last reference goes only if the disk has them; with the last reference the buffer moves to the front of the ring and the others keep their order, otherwise the ring stays |
| `Bio.FrontKeepsAgree` | os/kernel/bio.c:125-132 | moving a buffer to the front of the ring keeps the first buffer with each identity the valid one |
| `Bio.BufferCache.Bpin` | os/kernel/bio.c:137-142 | one more reference, everything else as before |
| `Bio.BufferCache.Bunpin` | os/kernel/bio.c:144-149 | one reference less, wrapping at zero |
| `Bio.BufferCache.ReferencedIsCached` | os/kernel/bio.c:57-87 | a referenced block stays in the cache until it is released |
| `Log.StepRefines` | os/kernel/log.c:68-235 | every step of operations, commit, eviction, crash and recovery is one step of the atomic disk and keeps the invariant, except exactly the end of a recovery that replayed something; a commit never contains part of an operation; log_write's test and its insertion are two steps, and unless the sizes are safe the test must find nobody between the two |
| `Log.RunRefines` | os/kernel/log.c:68-235 | after any run the committed contents of the disk and the contents operations see are those of the atomic disk after the same events, for every interleaving if the sizes are safe, and otherwise if nobody disturbs log_write between its test and its insertion |
| `Log.CrashAtomicity` | os/kernel/log.c:68-122 | after a crash in any state and any number of further crashes during recovery, a completed recovery leaves the home blocks as before the group if its header was not written, and with all of the group if it was |
| `Log.CommitIsDurable` | os/kernel/log.c:192-202 | when commit has cleared the header, the group's blocks are in place and a crash then loses nothing |
| `Log.RecoveryEndsDurable` | os/kernel/log.c:115-122 | a completed recovery leaves exactly what was committed at the crash |
| `Log.WriteHeadStep` | os/kernel/log.c:98-113 | the one block write that commits makes the whole group durable |
| `Log.InstallKeepsCommitted` | os/kernel/log.c:67-82 | replaying one entry never changes what the log and home blocks together mean, so replay may be repeated |
| `Log.ClearKeepsCommitted` | os/kernel/log.c:192-202 | with every entry installed, erasing the header does not change the committed contents |
| `Log.BeginReserves` | os/kernel/log.c:124-141 | after admission the unused budgets are within the product that begin_op compares with the log |
| `Log.LogTestStep` | os/kernel/log.c:214-222 | passing the unlocked test keeps the room in the log area if the sizes are safe or nobody else is past the test |
| `Log.AloneInside` | os/kernel/log.c:124-141 | if two budgets do not fit into the header, nobody else is inside an operation, so the unlocked test is as good as a locked one |
| `Log.LogWriteReserves` | os/kernel/log.c:224-235 | lh.n plus the unused budgets of all open operations stays within the header, with or without absorption and whatever the test saw |
| `LogOverflow.SafeExactly` | os/kernel/log.c:214-235 | every run of the log matches the atomic disk if and only if the sizes are safe; mkfs's are, but not with one more buffer or with a log area of 20 blocks |
| `LogOverflow.OverwritesHome` | os/kernel/log.c:176-235 | for all other sizes: a run from a disk in order, without crash or panic, that overwrites the block after the log area, which no operation logged |
| `Log.UnusedBound` | os/kernel/log.c:124-141 | the open operations have at most maxop unused blocks each |
| `Log.EndOpStep` | os/kernel/log.c:143-174 | the panic in end_op is unreachable: committing implies that no operation is open |
| `Log.EvictStep` | os/kernel/log.c:204-235 | recycling buffers during an operation loses nothing, because the group's blocks are pinned |
| `Log.RecoverClearStep` | os/kernel/log.c:115-122 | at the end of recovery every home block has its committed contents; the protocol invariant holds again exactly if nothing was replayed |
| `Log.HomesOutsideArea` | os/mkfs/mkfs.c:97-104 | the home blocks are exactly the blocks outside the log area; with the values mkfs writes there are 29 slots, and block 32, the first inode block, is a home block |
| `LogRestart.ReplayLosesUpdate` | os/kernel/log.c:67-82 | from any end of a recovery that replayed something: a run without crashes in which an acknowledged, committed write does not reach the disk |
| `LogRestart.SafeToRunOn` | os/kernel/log.c:67-122 | for safe sizes the boot may run on faithfully if and only if the log was empty |
| `LogRestart.EmptyIsFaithful` | os/kernel/log.c:115-122 | for safe sizes, with an empty log every run from here on matches the atomic disk |
| `LogDriver.FsLog.WriteLog` | os/kernel/log.c:176-190 | the loop takes exactly one protocol step per logged block, in order; it panics exactly if the group has as many blocks as there are buffers |
| `LogDriver.FsLog.WriteHead` | os/kernel/log.c:98-113 | the header block becomes the count and the entries, other words and blocks stay; it fails exactly if every buffer is referenced |
| `LogDriver.FsLog.InstallTrans` | os/kernel/log.c:67-82 | one install step per entry, in commit and in recovery; it panics exactly if there are as many entries as buffers |
| `LogDriver.FsLog.Commit` | os/kernel/log.c:192-202 | the protocol steps of a whole commit in the order of their block writes; afterwards the log is empty; it panics exactly if the group pins every buffer |
| `LogDriver.FsLog.ReadHead` | os/kernel/log.c:84-96 | the in-memory header is the one on disk; it fails exactly if every buffer is referenced |
| `LogDriver.FsLog.RecoverFromLog` | os/kernel/log.c:115-122 | the recorded run ends with the home blocks holding what was committed at the crash; this succeeds exactly if the log names fewer blocks than there are buffers |
| `LogDriver.FsLog.TryBeginOp` | os/kernel/log.c:124-141 | admitted only if no commit is going on and the reservation fits, else nothing changes |
| `LogDriver.FsLog.LogGuard` | os/kernel/log.c:214-222 | the tests pass exactly if the header and the log area have room and an operation is open; nothing changes |
| `LogDriver.FsLog.LogInsert` | os/kernel/log.c:224-235 | the block is in the header once and pinned once, whatever the tests saw |
| `LogDriver.FsLog.LogWrite` | os/kernel/log.c:204-235 | both parts in a row: the block is in the header once and pinned once; false, exactly if the tests fail, is a panic |
| `LogDriver.FsLog.Update` | os/kernel/log.c:204-235 | bread, change, log_write and brelse together are the test and the insertion of the protocol; the panics happen exactly if the header is full or a block not yet in the group finds every buffer pinned |
| `LogDriver.FsLog.EndOp` | os/kernel/log.c:143-174 | the last operation to end commits the group, the others only leave; it panics exactly if that commit does |
| `LogDriver.PinCount` | os/kernel/log.c:67-82 | how many buffers the protocol keeps referenced: those of the group not yet installed, or those of the entries replayed so far |
| `List.FreeLists.constructor` | os/kernel/list.c:12-17 | every list is empty |
| `List.FreeLists.Empty` | os/kernel/list.c:19-22 | true exactly for an empty list |
| `List.FreeLists.RemoveNode` | os/kernel/list.c:24-28 | the node leaves its list, the caller naming only the node; other lists stay |
| `List.FreeLists.Pop` | os/kernel/list.c:30-37 | the first node is taken off |
| `List.FreeLists.PushFront` | os/kernel/list.c:39-47 | a node that is on no list becomes the first |
| `BuddyTree.Tiling` | os/kernel/buddy.c:121-194 | every leaf of the heap lies in exactly one block that is not split, and that block is either in use or on the free list of its size |
| `BuddyTree.LiveDisjoint` | os/kernel/buddy.c:121-194 | no leaf belongs to two blocks in use |
| `BuddyTree.SplitStep` | os/kernel/buddy.c:137-152 | one turn of the splitting loop keeps the invariant: bits, lists, no two free buddies |
| `BuddyTree.TakeStep` | os/kernel/buddy.c:133-136 | popping a block and marking it keeps the invariant |
| `BuddyTree.ReleaseStep` | os/kernel/buddy.c:167-194 | putting back a block whose buddy is in use keeps the invariant |
| `BuddyTree.MergeStep` | os/kernel/buddy.c:172-189 | joining two buddies into their parent keeps the invariant |
| `BuddyTree.AncestorsSplit` | os/kernel/buddy.c:156-165 | every block above an existing block is split |
| `BuddyTree.DescendantsAbsent` | os/kernel/buddy.c:156-165 | nothing exists below a block that is not split |
| `BuddyInit.Gap` | os/kernel/buddy.c:254-270 | at each size below the root's children the left index lies strictly below the right one, so the two pairs differ |
| `BuddyInit.FreeAt` | os/kernel/buddy.c:237-270 | the free blocks that exist at a size are the left one if it is odd and the one before right if right is odd |
| `BuddyInit.MarkedList` | os/kernel/buddy.c:237-270 | what initialisation must push at a size is exactly the free blocks that exist there, each once |
| `BuddyInit.Telescope` | os/kernel/buddy.c:254-270 | what one size contributes closes the gap between the bounds at that size and the next |
| `Buddy.AddrIndex` | os/kernel/buddy.c:109-119 | the address of a block leads back to it, at its own size and at the sizes next to it |
| `Buddy.Halves` | os/kernel/buddy.c:109-119 | a block starts where its left half starts and its right half follows |
| `Buddy.IndexOfLeaf` | os/kernel/buddy.c:109-119 | the index computed from an address is that of the block containing the leaf |
| `Buddy.Allocator.constructor` | os/kernel/buddy.c:294-353 | initialisation establishes the invariant with metadata and missing memory in use and leaves exactly the maximal free blocks on the lists; the final comparison of free bytes cannot fail |
| `Buddy.Allocator.Mark` | os/kernel/buddy.c:215-235 | exactly the blocks that touch the range are marked, at every size |
| `Buddy.Allocator.InitPair` | os/kernel/buddy.c:237-252 | the free half of a pair is pushed exactly if the other half is marked |
| `Buddy.Allocator.InitFree` | os/kernel/buddy.c:254-270 | looking only at two pairs per size pushes every maximal free block once, and the sizes add up to the memory that is neither metadata nor missing |
| `Buddy.Allocator.FirstK` | os/kernel/buddy.c:95-106 | the smallest size that holds n bytes |
| `Buddy.Allocator.Malloc` | os/kernel/buddy.c:121-154 | null exactly when no list from the first fitting size up has a block; otherwise a block of exactly that size, new, with all other blocks in use as before: the leftmost part of the first block on the smallest list that has one; that list loses its first element, each list in between has just the right half, and the others do not change |
| `Buddy.Allocator.Size` | os/kernel/buddy.c:156-165 | the size at which p was allocated |
| `Buddy.Allocator.RootNotLive` | os/kernel/buddy.c:156-165 | the root is never a block in use, because leaf 0 stays reserved |
| `Buddy.Allocator.Free` | os/kernel/buddy.c:167-194 | exactly this block is given back and merged as far as buddies are free: each list on the way loses exactly the buddy, the last one gets the merged block in front, its buddy is not free, and the other lists do not change; the invariant holds again |
| `BuddySizes.Log2` | os/kernel/buddy.c:205-213 | the position of the highest bit |
| `BuddySizes.NumSizes` | os/kernel/buddy.c:303-307 | the largest block covers the memory and the next smaller one is no larger than it |
| `BuddySizes.EndIsLastLeaf` | os/kernel/buddy.c:282-292 | the rounding of the unavailable bytes marks from the last whole leaf of memory on |
| `BuddySizes.MetaFits` | os/kernel/buddy.c:312-334 | from seven sizes up the allocator's own data takes at most a quarter of the heap and covers its size records |
| `BuddySizes.InitSizes` | os/kernel/buddy.c:294-353 | what the constructor requires holds for every memory size from seven sizes up that is not itself a block size |
| `BuddySizes.BdInit` | os/kernel/buddy.c:294-353 | from a number of bytes to an allocator in order, with exactly the leaves of metadata and missing memory in use and the lists as computed from the two bounds |
| `BuddySizes.RightInRange` | os/kernel/buddy.c:254-270 | the right pair is inside the bit vectors if and only if some memory is missing |
| `BuddySizes.BitSet` | os/kernel/buddy.c:46-50 | exactly the named bit of the byte vector becomes one |
| `BuddySizes.BitClear` | os/kernel/buddy.c:53-57 | exactly the named bit becomes zero |
| `BuddySizes.VectorOps` | os/kernel/buddy.c:37-57 | bytes that hold a vector of bits hold the changed vector after setting or clearing a bit |
| `Sched.StepKeeps` | os/kernel/proc.c:291-633 | every step of every CPU, with each lock that exit and reparent take and exit's wakeup of init, keeps the invariant about stacks, process locks, the condition lock and sleepers |
| `Sched.NoLostWakeup` | os/kernel/proc.c:549-597 | in every reachable state with the condition lock free, no process sleeps on the channel while its own condition holds |
| `Sched.HandOff` | os/kernel/proc.c:444-526 | in every reachable state at most one CPU is on a process's stack, and while its lock is free it is RUNNING exactly if one CPU has it as c->proc |
| `Sched.ReapIsSafe` | os/kernel/proc.c:383-435 | wait frees a zombie only when no CPU is on its stack or has it as c->proc |
| `Sched.SchedChecks` | os/kernel/proc.c:497-515 | three panics of sched are unreachable: p->lock is held by this CPU, no other lock is, and the state is not RUNNING |
| `Lifecycle.Life` | os/kernel/proc.c:356-633 | in every run the state of a process changes only from UNUSED to RUNNABLE to RUNNING and from there to RUNNABLE, SLEEPING or ZOMBIE, from SLEEPING to RUNNABLE and from ZOMBIE to UNUSED, each by the function that may do so and by a CPU that holds p->lock; a sleeper is woken only by wakeup on its channel, by kill, or, in wait, by an exit |
| `Sched.OnNoCpu` | os/kernel/proc.c:444-487 | a process that is not RUNNING and does not hold its own lock is on no CPU |
| `SleepLock.MutualExclusion` | os/kernel/sleeplock.c:21-41 | at most one process is inside, the lock word names it, and while lk->lk is free every sleeper waits for a lock that is taken |
| `SleepLock.LockWord` | os/kernel/sleeplock.c:21-41 | the lock word is nonzero exactly while somebody is inside, and what a process has seen in its while-test still holds until it stores to the word or lets go of lk->lk |
| `SleepLock.WordKeeps` | os/kernel/sleeplock.c:21-41 | every step keeps this: the store of acquiresleep reads nothing, and only the exclusivity of lk->lk makes the lock still free |
| `WaitExit.NoMissedExit` | os/kernel/proc.c:291-435 | in every reachable state, no process but init sleeps in wait with its lock free while it has an exited child; for init the only such children have woken another process |
| `WaitMiss.InitMissesExit` | os/kernel/proc.c:291-435 | a run after which init sleeps in wait with its lock free, a child of it is a ZOMBIE, and every CPU is back in its scheduler |
| `WaitExit.ReparentFamily` | os/kernel/proc.c:291-313 | a child that exited before it is given to init has woken the process that gives it away |
| `WaitExit.ExitFamily` | os/kernel/proc.c:356-376 | a process becomes ZOMBIE under the lock of the parent it wakes, so that parent is not in the middle of wait and not asleep there afterwards |
| `WaitExit.MoveFamily` | os/kernel/proc.c:291-435 | every step of fork, exit, reparent and wait, with their locks one by one, keeps the account of parents, of whom an exiting process wakes and of what wait has passed over |
| `Kalloc.Memory.Kfree` | os/kernel/kalloc.c:46-63 | the page is first on the free list, which is chained through the pages; no other page changes |
| `Kalloc.Memory.Kalloc` | os/kernel/kalloc.c:68-82 | the first free page, or 0 exactly if there is none; no other page changes |
| `Kalloc.Memory.FreeRange` | os/kernel/kalloc.c:33-40 | exactly the whole pages in the range join the free list, the last one first, and no other page changes |
| `PageTree.PteRoundTrip` | os/kernel/riscv.h:336-343 | a page-table entry gives back its address and flags |
| `PageTree.Digits` | os/kernel/riscv.h:345-351 | the three indices are the base-512 digits of the page number |
| `PageTree.AddMidOk` | os/kernel/vm.c:84-94 | linking a new second-level page keeps the tree well formed and unshared, and the flat map as it was |
| `PageTree.AddLeafOk` | os/kernel/vm.c:84-94 | the same for a new leaf page |
| `PageTree.StoreOk` | os/kernel/vm.c:170-172 | a store through the pointer walk returns changes the flat map at one page number only |
| `Vm.PageTable.constructor` | os/kernel/vm.c:210-220 | an empty page table maps nothing |
| `Vm.PageTable.Walk` | os/kernel/vm.c:78-96 | the place of the entry for va, creating exactly the tables that are missing, from the front of the free list, without changing the flat map; None exactly if more are missing than may or can be created; no page is lost |
| `Vm.PageTable.WalkAddr` | os/kernel/vm.c:101-119 | the physical page of a valid user mapping, 0 otherwise; nothing changes |
| `Vm.PageTable.MapPages` | os/kernel/vm.c:155-175 | exactly the requested pages are mapped to consecutive frames, if and only if there are free pages for the table pages they need; on failure exactly the first n of them are |
| `Vm.PageTable.GrowOne` | os/kernel/vm.c:250-262 | a new page with the given contents is mapped exactly if there are free pages for it and for the tables it needs; otherwise no mapping changes and no page is lost |
| `PageNeeds.NeededStep` | os/kernel/vm.c:78-96 | the table pages a range needs are those of the range without its last page and the ones then still missing for that page |
| `PageNeeds.NeededMonotone` | os/kernel/vm.c:78-96 | a longer range needs no fewer table pages |
| `Vm.PageTable.UvmUnmap` | os/kernel/vm.c:180-208 | exactly the entries of the range are cleared; with do_free exactly their pages go to the free list |
| `Vm.PageTable.UvmDealloc` | os/kernel/vm.c:271-282 | exactly the pages past the new size are unmapped and freed |
| `Vm.PageTable.UvmAlloc` | os/kernel/vm.c:240-265 | either every page of the range is mapped to its own zeroed page, or the leaf map is what it was and every data page is back with the allocator; the first exactly if there are as many free pages as pages in the range and tables missing for it; each new entry has the bits V, R, W, X and U and each page was the first free one in its turn; pages of others are untouched |
| `Vm.PageTable.AllocThenLookUp` | os/kernel/vm.c:101-119 | after uvmalloc, walkaddr of any address in the new range gives the new page, which is not 0 and holds zeros |
| `Vm.UserBits` | os/kernel/vm.c:258 | an entry made with uvmalloc's permissions has the bits V, R, W, X and U |
| `Vm.GrowStep` | os/kernel/vm.c:246-263 | one more page mapped keeps the account of pages and entries |
| `Vm.Restored` | os/kernel/vm.c:250-262 | unmapping what was mapped so far gives back the leaf map and all pages |
| `VmCopy.UvmCopy` | os/kernel/vm.c:313-347 | the child gets a new page with the same flags and the same contents for every page of the parent, exactly if there are free pages for them and for the tables they need, or its leaf map is what it was and every page is back; the parent's tables and data do not change; the panic happens exactly if the parent has memory and there are no free pages for page 0 and its tables |
| `VmCopy.CopyOne` | os/kernel/vm.c:327-340 | one turn maps a copy of one page exactly if there are free pages for it and its tables, or changes no mapping and loses no page |
| `VmCopy.CopyPanics` | os/kernel/vm.c:313-347 | a process with one page of memory forks when no page is free: the copy ends in the panic |
| `Vm.PageTable.MayUnmap` | os/kernel/vm.c:189-196 | the three tests of a turn of uvmunmap pass exactly for a valid leaf entry |
| `VmCopy.ParentOk` | os/kernel/vm.c:319-347 | while only free pages and the child's tables change, the parent's table maps what it did |
| `PageFree.FreeWalk` | os/kernel/vm.c:284-302 | exactly the table and the tables below it join the free list, each before those below it, no other page changes, and the panic on a leaf is unreachable |
| `PageFree.UvmFree` | os/kernel/vm.c:304-311 | every page of the address space, data and tables, is back with the allocator, in the order in which they were freed |
| `PageFree.BelowStep` | os/kernel/vm.c:290-300 | the tables below the first i + 1 entries are those below the first i and the subtree under entry i |
| `PageFree.Apart` | os/kernel/vm.c:284-302 | subtrees under different entries share no page, and none contains its parent |
| `FsBlock.SetBit` | os/kernel/fs.c:74-76 | exactly the named bit of the block is set |
| `FsBlock.ClearBit` | os/kernel/fs.c:97-101 | exactly the named bit of the block is cleared |
| `FsBlock.WordOfSet` | os/kernel/fs.c:394-399 | a stored 32-bit word reads back and other words do not change |
| `FsBlock.ZeroWord` | os/kernel/fs.c:51-60 | a zeroed block is an empty table of block numbers |
| `FsRefs.ReferencedOnce` | os/kernel/fs.c:378-441 | no block is referenced from two slots, of one inode or of two |
| `FsRefs.GiveDirect` | os/kernel/fs.c:384-394 | a fresh zeroed block put into a slot of an inode keeps references one-to-one; for the indirect slot this needs the zeroing |
| `FsRefs.GiveIndirect` | os/kernel/fs.c:395-402 | a fresh block put into an entry of the indirect block keeps references one-to-one |
| `FsRefs.DropDirect` | os/kernel/fs.c:420-425 | clearing a slot gives up exactly its block |
| `FsRefs.DropRest` | os/kernel/fs.c:427-437 | clearing the indirect slot of an inode without direct blocks gives up all the rest |
| `FsRefs.MarkOk` | os/kernel/fs.c:65-87 | the bitmap then marks exactly one block more |
| `FsRefs.UnmarkOk` | os/kernel/fs.c:90-104 | the bitmap then marks exactly one block less |
| `Fs.FileSystem.Balloc` | os/kernel/fs.c:65-87 | the first free data block, never metadata and never one in use, now marked and zeroed; None exactly when none is free; only it and its bitmap block change |
| `Fs.FileSystem.Bfree` | os/kernel/fs.c:90-104 | exactly this block becomes free; the panic on a free block is unreachable for a block in use |
| `Fs.FileSystem.Bmap` | os/kernel/fs.c:378-406 | the block of the file, allocated if there was none, with bitmap and references still in agreement; no block of any file moves or changes contents, and the blocks logged are listed exactly and include every block changed; a new block is the first free one and zeroed, the indirect block first; None exactly if fewer blocks are free than the slot and its indirect block need |
| `Fs.FileSystem.Readi` | os/kernel/fs.c:459-480 | exactly the bytes of the file from off, clipped at its size, across direct and indirect blocks; nothing changes, so bmap never allocates here |
| `Fs.FileSystem.WriteOne` | os/kernel/fs.c:499-507 | one turn of the loop replaces exactly its bytes in one block |
| `Fs.FileSystem.Writei` | os/kernel/fs.c:486-518 | the file becomes the old one with the bytes at off replaced and longer if need be, with the same type and link words and the size this makes; in its blocks no byte outside the write changes, also beyond the end; no other file and none of its blocks changes, blocks below the size stay mapped, bitmap and references agree, the inode is written back, every block changed was logged, and at most WriteCost blocks were; None exactly if fewer blocks are free than the missing blocks of the range and the indirect block, and otherwise exactly these are taken |
| `Fs.CoveredShort` | os/kernel/fs.c:499-507 | running out of blocks in some turn of the loop means there were too few for the whole write |
| `Fs.ProgressStep` | os/kernel/fs.c:499-507 | a turn of the write loop extends the part of the file that is already new and keeps all blocks up to there mapped |
| `Fs.SpendStep` | os/kernel/fs.c:378-406 | a turn adds one logged block if the file block was there and two if not, beside the indirect block and its bitmap block |
| `Fs.CostStep` | os/kernel/fs.c:499-507 | a first block that is not aligned is there already because the file has no holes |
| `Fs.FileSystem.Iupdate` | os/kernel/fs.c:222-238 | the inode's sixteen words are in its place in its inode block; other inodes, files and the bitmap are unchanged |
| `Fs.FileSystem.LoadInode` | os/kernel/fs.c:299-309 | reading the inode block gives back what iupdate stored |
| `Fs.FileSystem.Itrunc` | os/kernel/fs.c:413-441 | the file is empty, with the same type and link words, exactly its blocks are free again, other files are untouched, bitmap and references agree, every block changed was logged; logged are exactly the inode block and the bitmap blocks that describe the file's blocks |
| `Fs.TruncCount` | os/kernel/fs.c:413-441 | that is one block more than there are such bitmap blocks, so it fits an operation exactly if the file's blocks lie under at most nine bitmap blocks; there are no more than the bitmap has |
| `Fs.OthersKeep` | os/kernel/fs.c:378-518 | what happens to one inode leaves every other file with the same blocks and the same contents |
| `File.ChunkFits` | os/kernel/file.c:149-156 | the bound on the blocks a write logs is within MAXOPBLOCKS at every offset if and only if the write has at most the chunk size of filewrite |
| `FsWorst.OneByteMore` | os/kernel/file.c:149-156 | on a file system in order, a write of one byte more than the chunk size succeeds and logs more than MAXOPBLOCKS blocks |
| `FsWorst.WorstFileSystem` | os/kernel/fs.c:65-104 | that file system: bitmap, inode blocks and indirect blocks as bytes on disk, with five free blocks in the reach of five bitmap blocks, are in order |
| `File.OpenFile.Write` | os/kernel/file.c:149-175 | the bytes that fit, in whole chunks, are in the file at the old offset, one transaction per chunk, each from one file system in order to the next; type and link words stay and the size is what the bytes make it; the panic happens exactly if these bytes need more blocks than are free, and otherwise exactly that many are taken; it stops early exactly if writei refuses a chunk; a short write is impossible |
| `File.OpenFile.WriteChunk` | os/kernel/file.c:163-168 | one transaction takes a file system in order to another and logs at most MAXOPBLOCKS blocks, every block it changes among them and none of the log; it panics exactly if writei does |
| `File.AcceptedChunk` | os/kernel/file.c:158-171 | the first chunk that writei refuses is the one at which the bytes that fit end |
| `FsCrash.CrashLeavesOrder` | os/kernel/file.c:158-171 | file system and log together: after a crash at any moment and a completed recovery the home blocks are those of a file system in order, before or after whole transactions, and after all that were complete when a group was last committed |
| `FsCrash.NoneOrAll` | os/kernel/log.c:143-174 | a group written during a transaction has none of its blocks or all of them, because the header is not written while the operation is open |
| `FsCrash.Carried` | os/kernel/log.c:204-235 | a transaction that logs every block it changes, last with its new contents, takes the pending home blocks from the one disk to the other |
| `File.OverwriteMore` | os/kernel/file.c:158-173 | writing two chunks one after the other is writing them together |
| `UnitMap.Apart` | os/user/umalloc.c:24-90 | blocks do not overlap |
| `UnitMap.AbsorbOk` | os/user/umalloc.c:32-41 | joining a block with the one after it keeps the units partitioned |
| `UnitMap.CarveOk` | os/user/umalloc.c:77-81 | cutting the tail off a block keeps the units partitioned |
| `UnitMap.GrowOk` | os/user/umalloc.c:46-61 | new units from sbrk form a new block |
| `UnitMap.TotalUnits` | os/user/umalloc.c:24-90 | the sizes of the blocks of a partition add up to the number of its units |
| `Umalloc.Heap.Accounted` | os/user/umalloc.c:24-90 | at any time the sizes of the free and the handed-out blocks add up to the units obtained |
| `Umalloc.Heap.FindPlace` | os/user/umalloc.c:30-32 | the search ends, wherever freep starts, at the list element after which the block belongs |
| `Umalloc.Heap.Free` | os/user/umalloc.c:24-44 | the list stays circular, ascending with one wrap, and fully coalesced; exactly this block is given back, joined with the free blocks that end where it starts and start where it ends, no other free block changes, freep is the last one below it, no unit is lost, and no header is written inside a block in use |
| `Umalloc.Heap.Morecore` | os/user/umalloc.c:46-61 | the new units, at least 4096, are on the list as one block with their free neighbours; 0 if sbrk failed, and then nothing changed |
| `Umalloc.Heap.Malloc` | os/user/umalloc.c:63-90 | a block of exactly the units needed, disjoint from all others: the end of the first free block, going round from freep, that is large enough, or of the one with the new units; freep is then the block before it; morecore is called at most once and only if nothing fitted; 0 only if nothing fits and sbrk failed; nothing is written inside blocks in use |
| `Umalloc.Heap.Take` | os/user/umalloc.c:73-84 | the whole block or its tail is handed out, the list keeps its order |
| `Umalloc.RemoveLinks` | os/user/umalloc.c:32-35 | leaving out the block after p changes one link |
| `Umalloc.InsertLinks` | os/user/umalloc.c:36-42 | linking a block in after p changes one link |
| `Umalloc.SbrkExact` | os/user/umalloc.c:52-56 | the int passed to sbrk is the size recorded if and only if the request with its header is below 2 GB |
| `VirtioRing.CountChains` | os/kernel/virtio_disk.c:166-178 | three descriptors are in use for each request |
| `VirtioRing.InFlight` | os/kernel/virtio_disk.c:180-261 | at most NUM/3 requests are in flight |
| `VirtioRing.ModuloIsExact` | os/kernel/virtio_disk.c:268-279 | comparing the indices modulo NUM is exact, whatever the 16-bit counters have wrapped to |
| `VirtioRing.RingPush` | os/kernel/virtio_disk.c:243-245 | an entry put at the wrapped index extends the queue and overwrites nothing outstanding |
| `Virtio.Disk.AllocDesc` | os/kernel/virtio_disk.c:127-138 | the first free descriptor, or -1 exactly if none is free |
| `Virtio.Disk.Alloc3Desc` | os/kernel/virtio_disk.c:166-178 | three free descriptors, or what was taken is given back and fewer than three were free |
| `Virtio.Disk.Submit` | os/kernel/virtio_disk.c:180-250 | the request is described to the device, the buffer is marked busy, and the request is last in the available ring, exactly if fewer than NUM/3 requests are in flight; otherwise nothing changed |
| `Virtio.ServesRequest` | os/kernel/virtio_disk.c:203-236 | the three descriptors make a device that follows them move two sectors into the buffer for a read and the buffer into two sectors for a write, touch nothing else, and report status 0 |
| `Virtio.Disk.Rw` | os/kernel/virtio_disk.c:180-261 | a whole transfer: block n is sectors 2n and 2n + 1; after a read the buffer holds them, after a write they hold the buffer, and no other sector or buffer changes |
| `Virtio.Disk.WriteThenRead` | os/kernel/virtio_disk.c:180-261 | a block that was written is read back, into any buffer |
| `Virtio.RoomForOne` | os/kernel/virtio_disk.c:166-178 | three descriptors are free exactly if fewer than NUM/3 requests are in flight |
| `Virtio.Disk.Fetch` | os/kernel/virtio_disk.c:238-248 | the device takes requests in the order they were offered |
| `Virtio.Disk.Complete` | os/kernel/virtio_disk.c:268-279 | the device carries out any request it has taken, as its descriptors say: the buffer gets the two sectors or the two sectors the buffer, nothing else changes, and the request is reported |
| `Virtio.Disk.IntrOne` | os/kernel/virtio_disk.c:268-279 | there is a turn exactly if a completed request has not been seen; it clears b->disk of that request's buffer and of no other |
| `Virtio.Disk.Intr` | os/kernel/virtio_disk.c:263-281 | every completed request is seen once, b->disk is cleared for exactly their buffers, and no other request changes |
| `Virtio.Disk.FreeChain` | os/kernel/virtio_disk.c:153-164 | following the next fields frees exactly the three descriptors of the request |
| `Virtio.Disk.Finish` | os/kernel/virtio_disk.c:252-260 | the request is gone and its descriptors are free; the panics of free_desc are unreachable |
| `Pipe.FullTest` | os/kernel/pipe.c:84 | the test for a full pipe is exact when the 32-bit counters wrap |
| `Pipe.EmptyTest` | os/kernel/pipe.c:110 | so is the test for an empty one |
| `Pipe.RingIndex` | os/kernel/pipe.c:94 | the wrapped counter gives the ring position of the true count |
| `Pipe.Pipe.Write` | os/kernel/pipe.c:76-100 | the bytes are stored after all others, never more than PIPESIZE unread; a sleeping writer has found the pipe full with a reader and has woken all readers; it gives up exactly if it has more than there is room for and was killed or has no reader, and exactly then sleeping readers stay asleep |
| `Pipe.Pipe.Read` | os/kernel/pipe.c:102-127 | the bytes returned are the next ones stored, in order, on any pipe; a reader sleeps only before an empty pipe that may still be written, and wakes all writers after taking; readers left asleep have a reason again exactly if the call empties the pipe |
| `Pipe.Pipe.NoDeadlock` | os/kernel/pipe.c:76-127 | a reader and a writer are never asleep at the same time |
| `Pipe.Pipe.CloseWrite` | os/kernel/pipe.c:58-74 | nobody is left waiting for bytes, also if readers were asleep without reason |
| `Pipe.Pipe.CloseRead` | os/kernel/pipe.c:58-74 | nobody is left waiting for room |
| `Pipe.Pipe.Kill` | os/kernel/proc.c:614-633 | the sleeper is woken, and nobody sleeps without reason exactly if nobody did or nobody sleeps any more |
| `Pipe.StrandedReader` | os/kernel/pipe.c:76-127 | a killed writer leaves a reader asleep before a full pipe |
| `ShellLex.GetToken` | os/user/sh.c:265-308 | takes the next token off the token sequence of the line, with its ends; NUL exactly at the end |
| `ShellLex.Peek` | os/user/sh.c:310-320 | tells whether the next token starts with one of the characters, and takes nothing |
| `ShellLex.WordTokens` | os/user/sh.c:294-299 | a word token is a maximal run of word characters |
| `ShellParse.ParseRedirs` | os/user/sh.c:374-397 | parses the redirections the grammar finds, and fails exactly where it does |
| `ShellParse.ParseItems` | os/user/sh.c:423-445 | parses words and redirections of a simple command as the grammar does, at most nine words |
| `ShellParse.ParseBlock` | os/user/sh.c:399-413 | parses a parenthesised line as the grammar does; its first panic is unreachable |
| `ShellParse.ParsePipe` | os/user/sh.c:361-372 | parses a pipeline as the grammar does, and ends |
| `ShellParse.ParseLine` | os/user/sh.c:344-359 | parses a line as the grammar does, and ends on every input |
| `ShellParse.ParseCmd` | os/user/sh.c:327-340 | a command exactly if the grammar accepts the whole line |
| `ShellGrammar.ParserIsGrammar` | os/user/sh.c:327-446 | a line parses to a command if and only if the grammar, given as a relation with existential splits, derives the command from it; so the grammar is unambiguous and binds as the parser does; a redirection at the end is the outermost, with input from fd 0 for < and output to fd 1 for > and >> |
| `ShellGrammar.ExecForms` | os/user/sh.c:374-446 | reading a command item by item from its end, as the grammar does, and from its beginning, as the parser does, is the same |
| `ShellGrammar.LineParse` | os/user/sh.c:344-446 | whatever the grammar derives is parsed, and what follows is left |
| `ShellGrammar.LineDerived` | os/user/sh.c:344-446 | whatever is parsed is derived from exactly the tokens taken |
| `ShellGrammar.AppendIsWrite` | os/user/sh.c:374-397 | a line parses to the same command with > in place of every >> |
| `ShellPrint.TokensParse` | os/user/sh.c:344-446 | the tokens of a parenthesised printing parse to the command printed and leave what follows |
| `ShellPrint.LexTree` | os/user/sh.c:265-308 | scanning a parenthesised printing gives its tokens |
| `ShellPrint.RoundTrip` | os/user/sh.c:327-446 | every command with at most nine words each, printed with parentheses, parses back to itself |
| `ShellNul.NulTerminate` | os/user/sh.c:448-493 | NUL is written at the end of every word of the command and nowhere else |
| `ShellNul.LineFrom` | os/user/sh.c:344-446 | every argv and file pointer of a parsed command is a word of the line |
| `ShellNul.WordsSurvive` | os/user/sh.c:448-493 | no NUL is written inside a word |
| `ShellNul.ParseCommand` | os/user/sh.c:327-342 | the command of the line, with every argv and file pointer reading as the C string that was its word |
| `Regex.Match` | os/user/grep.c:70-80 | true exactly if some substring is in the language of the pattern, at the ends of the text the pattern asks for |
| `Regex.MatchHere` | os/user/grep.c:82-94 | true exactly if some prefix of the text is in the language, all of it if the pattern ends in $ |
| `Regex.MatchStar` | os/user/grep.c:96-104 | true exactly if the text is some number of c and then a match of the rest |
| `Regex.ShowItems` | os/user/grep.c:82-94 | reading a pattern into items loses nothing of it |
| `Regex.EndIsLast` | os/user/grep.c:89-90 | $ is the end only as the last character |
| `Regex.HereFirst` | os/user/grep.c:82-104 | a match is a piece for the first item and then a match of the rest |

## Left out

- Interleaving inside one cache or log call: `Bio` and `LogDriver` methods run one after the other; waiting for a buffer's sleep-lock in bread, other processes using buffers between two block writes of a commit, and other operations between the two parts of log_write are covered only by the state machine of `Log`.
- LogDriver.FsLog.LogWrite: nobody comes between its two parts; the machine of `Log` has them as two steps that interleave.
- LogDriver.FsLog.Update: nobody comes between the two parts of log_write, as above.
- Bio.BufferCache.Bread: the block's buffer is not locked; where it is, the code waits.
- Several devices share the cache model through block identities, but `Log` is the log of one device.
- log_write's panics: the model has them as the event LogPanic and does not claim that they cannot happen.
- Log.RunRefines: runs that go on working after a recovery that replayed something are excluded; `LogRestart` shows why and that the exclusion is exact. For sizes that are not safe, runs in which log_write is disturbed are excluded; `LogOverflow` shows why and that the condition on sizes is exact.
- LogRestart.SafeToRunOn: assumes safe sizes, as the run theorems do; `LogOverflow` deals with the others.
- FsCrash.CrashLeavesOrder: operations may overlap, but the file system changes its disk by one transaction after the other; two system calls that change blocks in turns under different inode locks are not modelled.
- Sched: exit codes, user memory and the contents of system calls are not modelled; there is one condition lock and one channel beside those of wait, and kill locks one process at a time, in any order; interrupts on and off (push_off, pop_off, intena) are not modelled.
- The scheduler is proved safe, not fair: nothing is claimed about who runs when.
- Buddy.Allocator.constructor: metadata must take at most a quarter of the heap and some memory must be missing; `BuddySizes.BdInit` shows that both hold from seven sizes up unless the memory is itself a block size.
- BuddySizes.BdInit: memory of exactly a block size is outside, because there the code reads beyond its bit vectors (`BuddySizes.RightInRange`), and so are heaps of fewer than seven sizes. Offsets above 2^31 and sizes above 2^63 are outside the model.
- Vm: uvminit, uvmclear, copyin, copyout, copyinstr and the kernel page table are not modelled; addresses are words of 512-entry pages, without TLB or access bits.
- PageFree.UvmFree: size 0, for which uvmunmap does not stop at an empty range, is not modelled; its one caller does not pass it.
- Fs: ialloc, iget, iput, directories and paths are not modelled; type, major, minor and nlink are two words of the inode; results after a failed copy to or from user memory are not modelled in readi and writei.
- File.OpenFile.Write: pipes and devices behind a file descriptor are not modelled.
- Umalloc.Heap.Malloc: assumes that what sbrk returns covers the size recorded; for requests of 2 GB and more, where sbrk is asked for another size (`Umalloc.SbrkExact`), it need not.
- Umalloc: the static header lies below all memory from sbrk, and addresses count headers.
- Virtio: device initialisation and memory barriers are not modelled; blocks are within the disk, so that the device completes with status 0; a buffer is in one request at a time, because its caller holds its sleep-lock; sleeping until descriptors are free or the request is done is the caller calling again.
- Pipe: a process in pipewrite or piperead holds its end of the pipe open.
- sh: runcmd, reading lines and printing errors; grep: reading files by lines.
- exec, fork's copying, system calls, traps, console, UART, PLIC and mkfs.
- Assembly, hardware and memory ordering: steps are sequentially consistent.

# Verified models of xv6 for RISC-V

This project models the parts of the xv6 RISC-V kernel and of its user programs
whose correctness is hard to see from the code, and proves what the comments,
the design and the tests of xv6 rely on. Sequential code becomes classes with
methods that update their fields as the C code does, each proved against a
specification; protocols between processes, CPUs, devices and crashes become
state machines, and their theorems are about every state of every run.

| file | models |
|---|---|
| `Log.dfy` | the redo log of `kernel/log.c`: a state machine with crashes between any two block writes, and the code as a class that refines it |
| `FsImage.dfy`, `Fs.dfy` | the block allocator, block map, truncation, `readi`, `writei` and the chunks of `filewrite` |
| `Proc.dfy` | the process table protocol: scheduler, `sleep`, `wakeup`, `fork`, `exit`, `wait`, `kill` |
| `PageTable.dfy`, `PagePool.dfy`, `Subtree.dfy`, `UserBytes.dfy`, `Vm.dfy` | Sv39 user page tables, the page allocator, and copies from and to user memory |
| `Bio.dfy` | the buffer cache and its LRU ring |
| `Virtio.dfy` | the virtio disk driver with a nondeterministic device |
| `Pipe.dfy` | the pipe ring and its sleepers |
| `Refs.dfy`, `RefRuns.dfy` | reference counts of open files, inodes and pipes: the system calls, and all interleavings of their steps |
| `Umalloc.dfy` | `malloc` and `free` |
| `Shell.dfy`, `ShellLines.dfy` | the shell's parser: the code, what lines mean, and that exactly the lines parse |
| `Grep.dfy` | `grep` and its matcher |
| `Division.dfy` | facts about quotients and remainders that page tables and rings share |

How the models are set up:

- A critical section of a spinlock is one atomic step, under sequential
  consistency. An inode's sleep-lock makes `readi` and `writei` one step.
- A `panic` is either a precondition, where the source demands something of its
  callers, or a result that the contract characterises (`Bfree`, `LogWrite`,
  `ParseCommand`). `Itrunc`, `EndOp`, `SysDup`, `SysClose`, `Freewalk` and
  `Finish` call such operations with the precondition proved, so those panics
  are unreachable there.
- What the model cannot see is a parameter: the process that runs, the page
  that `kalloc` gives to a pipe, the break that `sbrk` returns, whether and
  where a user copy fails, how much `read` returns, what path lookup finds.
- Table sizes are symbolic where the code allows it. Machine integers that wrap
  are modelled with their wrap: 16-bit ring indices, 32-bit pipe counters, the
  32-bit `uint` arithmetic of `readi` and `writei`, and the C `int` passed to `sbrk`.
- Page tables follow section 4.4 (Sv39) of the RISC-V Privileged Architecture,
  version 1.12; the disk driver follows section 2.6 (split virtqueues) of virtio
  version 1.1.

Where the code and what is expected of it disagree, the model follows the code
and says exactly when the expectation holds:

- The log space that `begin_op` reserves is safe to use if and only if the log
  area has at least one block more than LOGSIZE (`ReservationHonoured`);
  `mkfs` makes it one block too short (`MkfsLogIsOneShort`).
- `log_write` tests for a full log before it looks for the block, so a write
  that would be absorbed panics too (`AbsorbedWriteCanPanic`).
- `pipewrite` leaves without waking readers when the writer is killed midway;
  nobody sleeps without reason if and only if that does not happen while a
  reader sleeps (`Write`, `KilledWriterSkipsWakeup`).
- `morecore` passes its byte count to `sbrk` as an `int`; the two agree if and
  only if the request is at most 0x7fffffe0 bytes. For the largest 31 requests
  `sbrk` is asked for 0 or 16 bytes and succeeds (`SbrkArgument`).
- `virtio_disk_rw` computes the sector in 32 bits, so two blocks have the same
  sector if and only if they are 2^31 apart (`SectorsApart`).
- `grep` stops at the first line that does not fit its buffer (`Grep`); its
  output is complete for every pattern if and only if no complete line is left
  there (`CompleteForAll`, `OverlongLineLost`).
- The shell accepts exactly the lines of its grammar (`AcceptsLines`); after an
  `&` only another one, a `;`, a `)` or the end may follow. It panics on the
  tenth word of a command, although MAXARGS is 10; a tree of plain words parses
  if and only if it has no such command (`TenWordsPanic`).
- `kill(0)` marks a slot that is not in use, and `allocproc` leaves that mark to
  the next process (`KilledBeforeBirth`); in all runs every process is born
  unkilled if and only if nobody calls `kill(0)`, or the machine has fewer than
  two slots or no CPU (`BornUnkilledExactly`).
- `itrunc` logs at most MAXOPBLOCKS blocks on every disk of up to 9 * BPB blocks
  (`Itrunc`, `TruncFits`). On every larger disk whose metadata is within the
  first bitmap block it can log more (`TruncExceeds`).

## Model

| member | source | states |
|---|---|---|
| `RedoLog.HeaderRoundTrip` | kernel/log.c:86-114 | the header block that write_head writes reads back as the same list of block numbers |
| `RedoLog.InitInv` | kernel/log.c:54-65 | the invariant holds of a disk with a readable header, before recovery |
| `RedoLog.BeginOpInv` | kernel/log.c:126-142 | admitting an operation keeps the invariant, in particular the reserved space |
| `RedoLog.BeginSleepInv` | kernel/log.c:126-142 | an operation that is not admitted sleeps; no sleeper is left asleep while its test would pass |
| `RedoLog.LogWriteInv` | kernel/log.c:214-235 | an append or an absorbed write keeps reservation, pins and the picture of what recovery would give |
| `RedoLog.EndOpInv` | kernel/log.c:146-175 | an operation that ends while others run keeps the invariant |
| `RedoLog.EndLastOpInv` | kernel/log.c:146-175 | the last operation to end starts the commit with every logged operation complete |
| `RedoLog.CopyBlockInv` | kernel/log.c:178-191 | one block copied to the log does not change what recovery would give |
| `RedoLog.CommitHeadInv` | kernel/log.c:102-114 | the header write makes the whole group durable at once |
| `RedoLog.InstallBlockInv` | kernel/log.c:68-83 | installing one block and unpinning it does not change what recovery would give |
| `RedoLog.EraseHeadInv` | kernel/log.c:193-203 | erasing the header after all blocks are installed does not change what recovery would give |
| `RedoLog.CrashInv` | kernel/log.c:68-123 | a crash at any point, also during recovery, keeps the invariant |
| `RedoLog.ReadHeadInv` | kernel/log.c:86-97 | recovery reads the list that the last commit wrote |
| `RedoLog.RedoBlockInv` | kernel/log.c:68-83 | installing one block during recovery keeps the invariant |
| `RedoLog.RedoDoneInv` | kernel/log.c:116-123 | after recovery disk and memory agree and nothing is logged |
| `RedoLog.StepInv` | kernel/log.c:68-235 | every step of every operation, commit, crash and recovery keeps the invariant |
| `RedoLog.RunInv` | kernel/log.c:68-235 | the invariant holds in every state of every run |
| `RedoLog.CrashAtomicity` | kernel/log.c:68-203 | in every state of every run, what recovery gives for each home block is exactly the effect of the operations committed so far, none of them half; when idle, disk and memory both equal all writes |
| `RedoLog.DurableStep` | kernel/log.c:193-203 | what is durable changes at the header write only, and then to all that was written |
| `RedoLog.DurableGrows` | kernel/log.c:116-203 | what is durable at one point of a run is a prefix of what is durable later |
| `RedoLog.SpaceReserved` | kernel/log.c:126-175 | in every run logged blocks plus unused reservations fit LOGSIZE, committing implies no operation is outstanding, and a sleeper implies that it would not be admitted |
| `RedoLog.AppendFits` | kernel/log.c:214-235 | with a log area of LOGSIZE + 1 blocks no append within an operation's budget panics |
| `RedoLog.ReservationHonoured` | kernel/log.c:126-235 | in all runs no append within budget panics, if and only if the log area has at least LOGSIZE + 1 blocks |
| `RedoLog.MkfsLogIsOneShort` | mkfs/mkfs.c:25 | the layout of mkfs has a run in which an append within budget panics |
| `RedoLog.PanicsWhenFull` | kernel/log.c:214-235 | log_write panics exactly when the list has reached the capacity of the log |
| `RedoLog.AbsorbedWriteCanPanic` | kernel/log.c:214-235 | there is a run in which a write to a block that is already logged panics |
| `LogCode.Log.BeginOp` | kernel/log.c:126-142 | refines one step: admitted exactly if the test passes, with one more operation outstanding, otherwise asleep on the log |
| `LogCode.Log.LogWrite` | kernel/log.c:214-235 | refines one step: the cached block has the new contents, is listed once and pinned; fails exactly where the source panics, changing nothing |
| `LogCode.Log.FindSlot` | kernel/log.c:225-228 | the first slot that holds the block, or the end of the list |
| `LogCode.Log.EndOp` | kernel/log.c:146-175 | one operation fewer and all sleepers woken; the last one commits everything written so far and leaves log and pins empty |
| `LogCode.Log.Commit` | kernel/log.c:193-203 | takes the steps of a commit from the first copy to the erased header |
| `LogCode.Log.WriteLog` | kernel/log.c:178-191 | takes one copy step for each logged block |
| `LogCode.Log.WriteHead` | kernel/log.c:102-114 | the header block becomes the encoding of the list |
| `LogCode.Log.WriteCommitHead` | kernel/log.c:193-203 | refines the commit step |
| `LogCode.Log.EraseCommitHead` | kernel/log.c:193-203 | refines the step that erases the transaction |
| `LogCode.Log.InstallTrans` | kernel/log.c:68-83 | takes one install step for each block, unpinning it unless recovering |
| `LogCode.Log.CopyHome` | kernel/log.c:68-83 | the home block gets the contents of its log block, on disk and in the cache |
| `LogCode.Log.constructor` | kernel/log.c:54-65 | initlog after any past run, crashed anywhere: recovery ends with exactly the durable writes of that run |
| `LogCode.Log.RecoverFromLog` | kernel/log.c:116-123 | refines recovery from the header to the erased log |
| `LogCode.Log.ReadHead` | kernel/log.c:86-97 | refines the step that reads the header |
| `FsBlocks.OrMaskBits` | kernel/fs.c:65-88 | setting a bit by mask sets that bit and no other |
| `FsBlocks.AndNotMaskBits` | kernel/fs.c:91-105 | clearing a bit by mask clears that bit and no other |
| `FsBlocks.SetBit` | kernel/fs.c:75-77 | in a bitmap block bit i is set and every other bit is as before |
| `FsBlocks.ClearBit` | kernel/fs.c:97-102 | in a bitmap block bit i is cleared and every other bit is as before |
| `FsBlocks.WordOfPut` | kernel/fs.c:407-415 | an indirect entry that is written reads back, and the others are unchanged |
| `FsImage.AllocatedBitmap` | kernel/fs.c:65-88 | allocating adds exactly that block to the blocks marked in use and changes no other data block |
| `FsImage.FreedBitmap` | kernel/fs.c:91-105 | freeing removes exactly that block from the blocks marked in use and changes no data block |
| `FsImage.OwnershipExact` | kernel/fs.c:382-453 | a block below sb.size is marked in use if and only if it is metadata or some inode refers to it, and no two references are to the same block |
| `FsImage.AddrGrowth` | kernel/fs.c:388-406 | a new direct or indirect block in an empty address keeps ownership exact |
| `FsImage.EntryGrowth` | kernel/fs.c:407-415 | a new entry of the indirect block keeps ownership exact |
| `FsImage.GrownFile` | kernel/fs.c:382-421 | bmap changes no byte of any file below its size |
| `FsImage.DropAddr` | kernel/fs.c:432-437 | dropping a direct address keeps ownership exact without the block |
| `FsImage.DropIndirect` | kernel/fs.c:439-449 | dropping the indirect block leaves the inode without blocks and the others' ownership exact |
| `FsImage.WrittenContent` | kernel/fs.c:505-539 | once the size is set, the file is the old one patched with the bytes written |
| `FsImage.WrittenOthers` | kernel/fs.c:505-539 | no other file changes |
| `FsCode.Fs.Balloc` | kernel/fs.c:65-88 | the lowest free block, zeroed and marked; 0 if and only if every block is in use |
| `FsCode.Fs.Bfree` | kernel/fs.c:91-105 | clears the bit; fails exactly where the source panics because the block is free |
| `FsCode.Fs.Iupdate` | kernel/fs.c:225-241 | the inode block gets the in-memory inode and is logged |
| `FsCode.Fs.BmapAddr` | kernel/fs.c:388-406 | an address of the inode, allocated when missing, with exact ownership, at most one bitmap block logged and every change logged |
| `FsCode.Fs.BmapEntry` | kernel/fs.c:407-417 | an entry of the indirect block, allocated when missing, likewise |
| `FsCode.Fs.Bmap` | kernel/fs.c:382-421 | the block of the file, allocating what is missing; 0 only when the disk is full; a mapped block changes nothing; no file changes, ownership stays exact and the file invariant is kept; logs all it changes and at most the blocks named |
| `FsCode.Fs.FreeDirect` | kernel/fs.c:432-437 | all direct blocks are given back, each once |
| `FsCode.Fs.FreeEntries` | kernel/fs.c:440-446 | all indirect entries are given back, each marked in use until then |
| `FsCode.Fs.FreeIndirect` | kernel/fs.c:439-449 | entries and indirect block are given back and the inode refers to nothing |
| `FsCode.Fs.Itrunc` | kernel/fs.c:425-453 | the inode refers to nothing, its blocks and no others are free, size 0 is written, no other file changes, the file invariant is kept, every changed block is logged and no more than the bitmap blocks and the inode block; the panic of bfree is unreachable |
| `FsCode.TruncFits` | kernel/param.h:13-22 | the bound on what itrunc logs is within MAXOPBLOCKS if and only if the disk has at most 9 * BPB blocks; with 200000 blocks it is 26 |
| `FsCode.TruncExceeds` | kernel/fs.c:425-453 | on every disk of more than 9 * BPB blocks with its metadata within the first bitmap block, a file whose truncation logs more than MAXOPBLOCKS blocks |
| `FsCode.Fs.constructor` | mkfs/mkfs.c:93-115 | an empty image, or one with a file of whole blocks, meets the invariants |
| `FsCode.MarkBlocks` | mkfs/mkfs.c:235-250 | the bitmap marks the metadata and the blocks of the file, and nothing else |
| `FsCode.Fs.Readi` | kernel/fs.c:471-496 | returns exactly the clipped slice of the file, nothing for an offset beyond the end or one that overflows, and changes, allocates and logs nothing |
| `FsCode.Fs.Writei` | kernel/fs.c:505-539 | -1 and no change for a bad range; otherwise the file is patched with the first r bytes, other files are untouched, r is short only when the disk is full; every changed block is logged and at most LogBound of them |
| `FsCode.Fs.WriteChunk` | kernel/fs.c:516-528 | one turn of the loop: the block is mapped and spliced |
| `FsCode.Fs.WriteLoop` | kernel/fs.c:516-528 | the loop writes tot bytes and stops short only when the disk is full; keeps the account of logged blocks |
| `FsCode.Fs.UnalignedIsMapped` | kernel/fs.c:505-539 | a write that starts inside a block starts in a mapped one |
| `FsCode.TallyBound` | kernel/fs.c:505-539 | the account of bitmap, data, indirect and inode blocks is within the bound for any alignment |
| `FsCode.ChunkFits` | kernel/file.c:149-175 | a chunk of filewrite, at any offset, is within MAXOPBLOCKS |
| `FsCode.Fs.WriteTransaction` | kernel/file.c:162-167 | one transaction logs every block it changes, at most MAXOPBLOCKS, and writes r bytes; short only for a bad range or a full disk |
| `FsCode.Fs.Filewrite` | kernel/file.c:155-175 | the file is patched with as many bytes as the offset moved; the result is n if and only if that is all of them; each transaction stays within MAXOPBLOCKS and together they log every changed block; it stops early only for a bad offset, the maximum file size or a full disk |
| `ProcTable.SchedRunInv` | kernel/proc.c:458-466 | this step keeps the invariant: the scheduler picks a runnable process and enters it with p->lock held |
| `ProcTable.SchedReleaseInv` | kernel/proc.c:466-473 | this step keeps the invariant: back from swtch the scheduler clears c->proc and releases the lock |
| `ProcTable.ResumeInv` | kernel/proc.c:511-529 | this step keeps the invariant: a process comes back from sched, or starts in forkret, and releases its lock |
| `ProcTable.YieldInv` | kernel/proc.c:511-517 | this step keeps the invariant: a timer interrupt in user space, or in fork and wait where no lock is held, makes the process runnable and switches away |
| `ProcTable.SleepOtherInv` | kernel/proc.c:547-566 | this step keeps the invariant: sleep on a channel other than a process |
| `ProcTable.RousedInv` | kernel/proc.c:583-591 | this step keeps the invariant: wakeup makes a sleeper runnable |
| `ProcTable.KillInv` | kernel/proc.c:597-616 | this step keeps the invariant: kill marks a process, or with pid 0 an unused slot, and makes a sleeper runnable |
| `ProcTable.ForkAllocInv` | kernel/proc.c:109-150 | this step keeps the invariant: fork takes an unused slot and a new pid, and leaves the slot's killed mark |
| `ProcTable.ForkFailInv` | kernel/proc.c:291-296 | this step keeps the invariant: a fork that fails frees the slot again |
| `ProcTable.ForkCopiedInv` | kernel/proc.c:297-315 | this step keeps the invariant: fork releases the child's lock before it takes wait_lock |
| `ProcTable.ForkSetParentInv` | kernel/proc.c:317-319 | this step keeps the invariant: fork sets the parent under wait_lock |
| `ProcTable.ForkMakeRunnableInv` | kernel/proc.c:321-323 | this step keeps the invariant: fork makes the child runnable |
| `ProcTable.ExitBeginInv` | kernel/proc.c:349-371 | this step keeps the invariant: exit takes wait_lock |
| `ProcTable.ReparentChildInv` | kernel/proc.c:335-340 | this step keeps the invariant: a child is given to init, which is then woken |
| `ProcTable.WakeInitInv` | kernel/proc.c:330-341 | this step keeps the invariant: one turn of the wakeup of init inside reparent |
| `ProcTable.WakeParentInv` | kernel/proc.c:373-374 | this step keeps the invariant: one turn of the wakeup of the parent |
| `ProcTable.BecomeZombieInv` | kernel/proc.c:376-379 | this step keeps the invariant: the process becomes a zombie while it holds both locks |
| `ProcTable.ExitUnlockInv` | kernel/proc.c:381 | this step keeps the invariant: exit releases wait_lock |
| `ProcTable.ExitSwitchInv` | kernel/proc.c:383-385 | this step keeps the invariant: exit switches away for good |
| `ProcTable.WaitBeginInv` | kernel/proc.c:397-402 | this step keeps the invariant: wait takes wait_lock |
| `ProcTable.WaitSkipInv` | kernel/proc.c:402-424 | this step keeps the invariant: wait passes a slot that is not a zombie child |
| `ProcTable.WaitReapInv` | kernel/proc.c:405-420 | this step keeps the invariant: wait frees a zombie child and returns its pid |
| `ProcTable.WaitReturnInv` | kernel/proc.c:411-430 | this step keeps the invariant: wait returns -1 without children, killed, or when the status cannot be copied out |
| `ProcTable.WaitLockInv` | kernel/proc.c:559 | this step keeps the invariant: sleep from wait takes p->lock while wait_lock is still held |
| `ProcTable.WaitUnlockInv` | kernel/proc.c:560 | this step keeps the invariant: sleep then releases wait_lock |
| `ProcTable.WaitSleepInv` | kernel/proc.c:562-566 | this step keeps the invariant: sleep sets channel and state and switches away |
| `ProcTable.InitInv` | kernel/proc.c:232-255 | the invariant holds when only init exists |
| `ProcTable.StepInv` | kernel/proc.c:279-616 | every step of every process on every CPU keeps the invariant |
| `ProcTable.RunInv` | kernel/proc.c:279-616 | the invariant holds in every state of every run |
| `ProcTable.SchedulerExclusive` | kernel/proc.c:444-519 | in every state of every run, a process whose lock is free is RUNNING if and only if some CPU has it as c->proc, and no two CPUs have the same process |
| `ProcTable.ExitWaitProtocol` | kernel/proc.c:315-435 | in every state of every run: while wait_lock is free no process asleep in wait has a zombie child and everyone but init has a parent that is alive; and no pid is reaped twice |
| `ProcTable.ReapIsSafe` | kernel/proc.c:402-421 | the zombie that wait frees is on no CPU, is nobody's parent and was not reaped before |
| `ProcTable.FreeZombieIsOff` | kernel/proc.c:402-421 | a zombie whose lock is free has switched away for good |
| `ProcTable.RunScans` | kernel/proc.c:399-422 | in every state of every run, the flag of a wait loop is set if and only if the process has a child among the slots it has passed |
| `ProcTable.WaitIsRight` | kernel/proc.c:390-433 | in every run, a wait that has passed all slots and was not killed returns only if the process has no child, and goes to sleep only if it has one |
| `ProcTable.ChanIsForSleep` | kernel/proc.c:546-593 | in every run, a process has a channel only while it is in sleep |
| `ProcTable.KillWakes` | kernel/proc.c:597-616 | the victim is marked and, if it was asleep, runnable; all other processes stay as they are |
| `ProcTable.KilledStays` | kernel/proc.c:597-635 | every step of every process keeps the mark of a killed process until its slot is freed |
| `ProcTable.RunNoLeak` | kernel/proc.c:109-172 | in every state of every run, a slot that allocproc took and that is not yet runnable belongs to a fork under way |
| `ProcTable.StaysUnmarked` | kernel/proc.c:109-172 | in every run without kill(0), no slot that is not in use is marked as killed |
| `ProcTable.BornUnkilled` | kernel/proc.c:109-150 | in every run without kill(0), every process is born unkilled |
| `ProcTable.KilledBeforeBirth` | kernel/proc.c:597-616 | with two slots and a CPU there is a run in which kill(0) marks a free slot and the next process is born killed |
| `ProcTable.BornUnkilledExactly` | kernel/proc.c:597-616 | in all runs on a machine every process is born unkilled, if and only if kill(0) is not called or the machine has fewer than two slots or no CPU |
| `Sv39.PteRoundTrip` | kernel/riscv.h:386-390 | address and flags of a page table entry read back |
| `Sv39.IndexSplit` | kernel/riscv.h:393-395 | two page numbers below MAXVA with the same three indices are equal |
| `Sv39.FlagBits` | kernel/riscv.h:373-377 | in every combination of the five flags, the tests of an entry find exactly the bits for valid, writable, user and leaf, and the address is that of the frame |
| `PageTable.WalkRoles` | kernel/vm.c:85-103 | each table that a walk reaches is owned by that root for those indices |
| `PageTable.AddMid` | kernel/vm.c:85-103 | a new middle table keeps the trees and changes no leaf |
| `PageTable.AddLow` | kernel/vm.c:85-103 | a new lowest table keeps the trees and changes no leaf |
| `PageTable.SetLeaf` | kernel/vm.c:143-172 | writing a leaf entry changes that page of that tree and no other |
| `PageTable.AddFrame` | kernel/vm.c:143-172 | a frame mapped at an unmapped page keeps frames distinct |
| `PageTable.DropFrame` | kernel/vm.c:177-199 | an unmapped page gives up its frame and no other |
| `PageTable.AddTop` | kernel/vm.c:203-212 | a new root is empty and changes no leaf of another tree |
| `PagePool.PoolTake` | kernel/kalloc.c:68-82 | free, owned and held pages still partition the managed range |
| `PagePool.PoolGive` | kernel/kalloc.c:46-63 | free, owned and held pages still partition the managed range |
| `Subtree.PrunedTrees` | kernel/vm.c:278-304 | freeing a whole tree without leaves keeps the other trees, their frames and leaves |
| `Subtree.BlankWhenUnmapped` | kernel/vm.c:278-294 | a tree without mapped pages has no leaf entry, so the panic of freewalk is unreachable |
| `Subtree.PrunedNext` | kernel/vm.c:278-294 | one turn of freewalk frees exactly the subtree below one entry |
| `UserBytes.PatchedByte` | kernel/vm.c:358-383 | writing to one frame changes exactly those bytes of that address space |
| `VmCode.Vm.constructor` | kernel/kalloc.c:26-31 | after kinit exactly the managed pages are free |
| `VmCode.Vm.Freerange` | kernel/kalloc.c:33-40 | every managed page goes to the free list, once |
| `VmCode.Vm.Kalloc` | kernel/kalloc.c:68-82 | the head of the free list, filled with junk, or 0 if and only if it is empty; the partition holds |
| `VmCode.Vm.Kfree` | kernel/kalloc.c:46-63 | the page is filled with junk and becomes the head of the free list; the partition holds |
| `VmCode.Vm.NewTable` | kernel/vm.c:95-100 | a zeroed page becomes a table; no leaf changes |
| `VmCode.Vm.Walk` | kernel/vm.c:85-103 | the lowest table on the path of the page, 0 if there is none; allocation adds tables and changes no leaf, and fails only with at most one free page |
| `VmCode.Vm.MapPage` | kernel/vm.c:160-166 | exact insert of one page; on failure no leaf changes |
| `VmCode.Vm.Mappages` | kernel/vm.c:143-172 | exact insert of a run of pages: the first k are mapped as asked, everything else is unchanged; k is all of them if and only if it succeeds |
| `VmCode.Vm.Uvmunmap` | kernel/vm.c:177-199 | exact removal of a run of pages; with do_free the frames go back to the free list |
| `VmCode.Vm.Uvmcreate` | kernel/vm.c:203-212 | a new tree without mapped pages, or 0 if and only if no page is free |
| `VmCode.Vm.Uvmalloc` | kernel/vm.c:232-256 | the new pages are mapped, zeroed and have the flags: the user can read every new byte, and write it if and only if xperm has the write bit; on failure the leaf map of every tree is as before and memory was short |
| `VmCode.ZeroRunIs` | kernel/vm.c:232-256 | with the flags that uvmalloc gives, every new address is readable and zero, and writable if and only if xperm is 4 or 12 |
| `VmCode.Vm.Uvmdealloc` | kernel/vm.c:262-274 | the pages beyond the new size are unmapped and freed, nothing else changes |
| `VmCode.Vm.Freewalk` | kernel/vm.c:278-294 | exactly the tables below this one go back to the free list |
| `VmCode.Vm.Uvmfree` | kernel/vm.c:298-304 | every page that the tree owned is free, and no other tree changes |
| `VmCode.Vm.Uvmcopy` | kernel/vm.c:312-340 | the child has equal bytes and flags in frames of its own: it can read and write exactly what the parent can; on failure no leaf of any tree changes |
| `VmCode.CopyRunIs` | kernel/vm.c:312-340 | after the copy every address of the child has the byte, the readability and the writability it has in the parent |
| `VmCode.Vm.Uvmclear` | kernel/vm.c:344-353 | the entry loses its user bit and no other bit, and nothing else changes |
| `VmCode.Vm.Walkaddr` | kernel/vm.c:108-126 | 0 if and only if the address is not user-mapped, otherwise the frame |
| `VmCode.Vm.Copyout` | kernel/vm.c:358-383 | fails exactly at the first byte that is not user-writable; the bytes before it are written and nothing else changes |
| `VmCode.Vm.Copyin` | kernel/vm.c:388-408 | fails exactly at the first byte that is not user-mapped; returns the user's bytes |
| `VmCode.Vm.Copyinstr` | kernel/vm.c:414-451 | succeeds if and only if a NUL occurs within max bytes with every byte up to it user-mapped; returns the string with its NUL |
| `VmCode.Vm.CopyRoundTrip` | kernel/vm.c:358-408 | copyout and then copyin give the same bytes across any page boundaries, if and only if the range is writable |
| `LruRing.UnlinkRing` | kernel/bio.c:128-129 | the four pointers of an unlink remove one buffer from the ring |
| `LruRing.FrontRing` | kernel/bio.c:130-133 | the pointers of an insert put it at the front of the ring |
| `BufferCache.StepInv` | kernel/bio.c:36-151 | every step of every client keeps the invariant |
| `BufferCache.RunInv` | kernel/bio.c:36-151 | the invariant holds in every state of every run |
| `BufferCache.ReadsAreFlat` | kernel/bio.c:92-112 | in every run a valid buffer holds what a flat block store would, an uncached block is on disk as in the store, and no two buffers hold the same block |
| `BufferCache.StoreChanges` | kernel/bio.c:36-151 | only a client that writes to its buffer changes the flat store, and only at the block of that buffer |
| `BufferCache.DiskChanges` | kernel/bio.c:106-112 | only bwrite changes the disk: the block of the buffer gets its data |
| `BufferCache.GetGives` | kernel/bio.c:58-89 | after bget the process is a user of the buffer, which has one reference more; a hit changes nothing else, a miss gives the buffer its new block, not valid |
| `BufferCache.UserStays` | kernel/bio.c:58-137 | every step but its own release leaves a user of a buffer its user; the buffer has references and keeps its block |
| `BufferCache.UserKeepsBlock` | kernel/bio.c:58-137 | in every run, as long as a process is a user of a buffer, the buffer keeps its block and has references |
| `BufferCache.InUseKeepsBlock` | kernel/bio.c:58-89 | a buffer with references keeps its block |
| `BufferCache.RecycleInv` | kernel/bio.c:77-82 | giving an unused buffer a block that is not cached keeps the invariant |
| `BufferCache.UnlockInv` | kernel/bio.c:119-122 | giving up the sleep-lock of a buffer whose change is written or pinned keeps the invariant |
| `BufferCache.DropInv` | kernel/bio.c:124-136 | giving up the reference later, when another process may hold the lock, keeps the invariant |
| `BioCode.Bcache.constructor` | kernel/bio.c:36-53 | a ring of all buffers, none of which holds a block |
| `BioCode.Bcache.LinkAll` | kernel/bio.c:36-53 | the ring is a permutation of all buffers |
| `BioCode.Bcache.Find` | kernel/bio.c:65-73 | the buffer that holds the block, or none does |
| `BioCode.Bcache.FindUnused` | kernel/bio.c:75-88 | the unused buffer that was moved to the front longest ago, or all are in use |
| `BioCode.Bcache.Bget` | kernel/bio.c:58-89 | a hit adds one reference and changes nothing else; a miss recycles the least recently used unused buffer, with one reference and not valid; the caller is a user of it; 0 where the source panics, when all are in use |
| `BioCode.Bcache.Bread` | kernel/bio.c:92-103 | the locked buffer holds what the flat store has for its block; no other buffer changes |
| `BioCode.Bcache.Bwrite` | kernel/bio.c:106-112 | the block is on disk and no longer dirty |
| `BioCode.Bcache.Brelse` | kernel/bio.c:116-137 | both parts in a row: the lock and one reference less; with the last one the buffer moves to the front and the others keep their order |
| `BioCode.Bcache.Unlock` | kernel/bio.c:119-122 | refines the step that gives up the sleep-lock |
| `BioCode.Bcache.Drop` | kernel/bio.c:124-136 | refines the step that gives up the reference; with the last one the buffer moves to the front and the others keep their order |
| `BioCode.Bcache.MoveToFront` | kernel/bio.c:126-134 | the ring stays a permutation of all buffers with this one first |
| `BioCode.Bcache.Bpin` | kernel/bio.c:139-144 | one more reference |
| `BioCode.Bcache.Bunpin` | kernel/bio.c:146-151 | one reference less |
| `VirtQueue.SubmitInv` | kernel/virtio_disk.c:226-281 | submitting a request keeps the invariant |
| `VirtQueue.TakeInv` | kernel/virtio_disk.c:271-281 | the device reads the oldest pending request from the avail ring, which has not been overwritten |
| `VirtQueue.CompleteInv` | kernel/virtio_disk.c:294-327 | any request that the device took may complete next |
| `VirtQueue.ReportInv` | kernel/virtio_disk.c:294-327 | the entry that the interrupt handler reads is a completed request with status 0 and the buffer that issued it |
| `VirtQueue.SeesEntries` | kernel/virtio_disk.c:309-324 | with 16-bit indices the handler's test holds if and only if there is an entry |
| `VirtQueue.FinishInv` | kernel/virtio_disk.c:283-291 | the three descriptors that a finished request frees were in use |
| `VirtQueue.StepInv` | kernel/virtio_disk.c:155-327 | every step of driver and device keeps the invariant |
| `VirtQueue.RunInv` | kernel/virtio_disk.c:155-327 | the invariant holds in every state of every run |
| `VirtQueue.FreeCount` | kernel/virtio_disk.c:155-291 | in every state of every run NUM - 3 * in-flight descriptors are free |
| `VirtQueue.RequestSafe` | kernel/virtio_disk.c:215-291 | in every state of every run a request has three different descriptors that are in use, and its info entry names its own buffer |
| `VirtQueue.SubmitAsks` | kernel/virtio_disk.c:215-281 | what the device finds in the descriptors and the operation is the buffer, the direction and the sector that were asked for, and its head is the newest avail entry |
| `VirtQueue.RequestStays` | kernel/virtio_disk.c:215-327 | a step ends a request if and only if it is its own finish; every other step leaves it its descriptors, buffer, direction and sector |
| `VirtQueue.RequestKept` | kernel/virtio_disk.c:215-327 | in every run, from submission until it is finished a request asks the device for the same buffer, direction and sector |
| `VirtQueue.SectorsApart` | kernel/virtio_disk.c:218 | blocks have different sectors up to block 2^31; a block beyond it has the sector of the block 2^31 before it, because the product is computed in 32 bits |
| `VirtQueue.DescriptorsSafe` | kernel/virtio_disk.c:155-291 | in every state of every run two requests in flight share no descriptor and no buffer |
| `VirtQueue.EntriesSurvive` | kernel/virtio_disk.c:215-281 | in every run every avail entry that the device has not read still names its request |
| `VirtioCode.Disk.constructor` | kernel/virtio_disk.c:61-153 | all descriptors are free and both rings empty |
| `VirtioCode.Disk.AllocDesc` | kernel/virtio_disk.c:156-166 | a free descriptor, now in use, or -1 if and only if there is none |
| `VirtioCode.Disk.FreeDesc` | kernel/virtio_disk.c:169-182 | the descriptor is cleared and free; its panics are the precondition |
| `VirtioCode.Disk.FreeChain` | kernel/virtio_disk.c:185-197 | exactly the descriptors of the chain are cleared and free |
| `VirtioCode.Disk.Alloc3Desc` | kernel/virtio_disk.c:201-213 | three different descriptors that were free; on failure the free map is as before and fewer than three were free |
| `VirtioCode.Disk.Rw` | kernel/virtio_disk.c:215-281 | refines submission of the buffer, direction and sector of the block: the device is told of a head whose descriptors ask for exactly that; otherwise fewer than three descriptors are free and nothing in use changed |
| `VirtioCode.Disk.Submit` | kernel/virtio_disk.c:226-281 | fills in the three descriptors and the operation and puts the head into the avail ring |
| `VirtioCode.Disk.DeviceTake` | kernel/virtio_disk.c:271-281 | the device takes the oldest pending request |
| `VirtioCode.Disk.DeviceComplete` | kernel/virtio_disk.c:294-327 | the device reports a request it took, in any order |
| `VirtioCode.Disk.Intr` | kernel/virtio_disk.c:294-327 | every completed request, and no other, has its buffer handed back; the panic on status is unreachable |
| `VirtioCode.Disk.Finish` | kernel/virtio_disk.c:283-291 | after the wait exactly the three descriptors of this request become free; the panics of free_desc are unreachable |
| `PipeRing.WrapTests` | kernel/pipe.c:76-130 | with 32-bit counters the tests for full and empty are exact |
| `PipeRing.PutByte` | kernel/pipe.c:91-97 | a byte put into the ring is the next one to come after those outstanding |
| `PipeRing.GetByte` | kernel/pipe.c:120-126 | the byte taken is the oldest outstanding one |
| `PipeCode.Pipe.constructor` | kernel/pipe.c:22-56 | an empty pipe with both ends open |
| `PipeCode.Pipe.Write` | kernel/pipe.c:76-103 | in every run, appends a prefix of the source in order and leaves at most PIPESIZE outstanding; says when it returns, fails and sleeps and whom it wakes; if nobody was asleep without reason, then nobody is afterwards, if and only if it is not killed midway while a reader sleeps |
| `PipeCode.Pipe.Read` | kernel/pipe.c:105-130 | in every run, takes the oldest outstanding bytes in order, as many as are asked for and there are, or up to the byte where copyout fails, which is lost; sleeps if and only if the ring is empty, the write end open and the process not killed; wakes writers |
| `PipeCode.Pipe.Close` | kernel/pipe.c:58-74 | closes one end and wakes the other side; the page goes back if and only if both are closed |
| `PipeCode.Pipe.Kill` | kernel/proc.c:597-616 | a killed sleeper sleeps on the pipe no longer, and nothing else changes |
| `PipeCode.KilledWriterSkipsWakeup` | kernel/pipe.c:84-87 | a concrete pipe in which a reader sleeps on while a byte waits |
| `RefCounts.ClearInv` | kernel/file.c:71-82 | the last reference to a file lets go of its inode or pipe end |
| `RefCounts.WithPipeInv` | kernel/pipe.c:22-56 | two new files become the ends of a pipe |
| `RefCounts.HeldNothing` | kernel/sysfile.c:39-108 | when no kernel code holds a reference, each file's ref is the number of its slots, each inode's ref the number of its files and current directories, and a pipe page is in use if and only if one of its ends is open |
| `RefCode.PipeUndone` | kernel/sysfile.c:489-503 | closing both ends of a new pipe gives its page back and leaves everything as before |
| `RefCode.FileTable.FileAlloc` | kernel/file.c:29-44 | a free file with one reference, or 0 if and only if all are in use |
| `RefCode.FileTable.FileDup` | kernel/file.c:47-56 | one more reference |
| `RefCode.FileTable.FileClose` | kernel/file.c:59-83 | one reference less; the last one closes the pipe end or puts the inode, once |
| `RefCode.FileTable.FdAlloc` | kernel/sysfile.c:39-52 | the lowest free descriptor takes over the reference; -1 if and only if there is none |
| `RefCode.FileTable.ArgFd` | kernel/sysfile.c:21-35 | the file of an open descriptor, which has a reference; 0 if and only if it is not open |
| `RefCode.FileTable.SysDup` | kernel/sysfile.c:54-66 | the lowest free descriptor holds the file, which has one reference more and is otherwise the same; fails if and only if the descriptor is not open or none is free, and then nothing changes |
| `RefCode.FileTable.SysClose` | kernel/sysfile.c:97-108 | the slot is empty and the file has one reference less, or none and no target; fails if and only if the descriptor is not open |
| `RefCode.FileTable.Create` | kernel/sysfile.c:245-302 | every way through create: the result is held if there is one, and no other reference is left |
| `RefCode.FileTable.SysOpen` | kernel/sysfile.c:304-371 | a new file for the inode in a free descriptor; says exactly when it fails, and then no reference has changed |
| `RefCode.FileTable.SysChdir` | kernel/sysfile.c:409-432 | the new directory replaces the old one with balanced references; on failure nothing changes |
| `RefCode.FileTable.PipeAlloc` | kernel/pipe.c:22-56 | two new files for the ends of the page; fails if and only if there is no page or there are not two free files, and then nothing changes |
| `RefCode.FileTable.SysPipe` | kernel/sysfile.c:477-505 | two different descriptors for the two ends; says exactly when it fails, and then everything is as before, the page given back |
| `RefCode.FileTable.ForkFiles` | kernel/proc.c:305-309 | the child has the parent's files and directory, with balanced references; every file refers to what it referred to |
| `RefCode.FileTable.ExitFiles` | kernel/proc.c:354-366 | the process has no file and no directory, with balanced references; every file still in use refers to what it referred to |
| `RefCode.FileTable.Perform` | kernel/sysfile.c:39-505 | dup, close, open, chdir, pipe, fork and exit of any process, on success and on every failure path, ends with no reference held |
| `RefCode.AfterAnyCalls` | kernel/sysfile.c:39-505 | after every sequence of those system calls from an empty table, references balance |
| `RefRuns.HasReference` | kernel/file.c:47-83 | a process that has a file, in a descriptor or a variable, finds a reference to it |
| `RefRuns.StepInv` | kernel/sysfile.c:39-505 | every step of every process keeps the counts exact and no process gives away more than it has |
| `RefRuns.RunInv` | kernel/sysfile.c:39-505 | that holds in every state of every interleaving |
| `RefRuns.BalancedWhenIdle` | kernel/sysfile.c:39-505 | in every interleaving of steps of all processes, whenever no system call is in progress, references balance |
| `RefRuns.NeverDangling` | kernel/file.c:47-83 | in every interleaving the panics of filedup and fileclose are unreachable for a process that has the file |
| `RefCode.FileTable.constructor` | kernel/file.c:22-26 | no file is open and no reference is held |
| `FreeRing.InsertedInv` | user/umalloc.c:24-44 | a block put between its neighbours keeps ring, order and disjointness |
| `FreeRing.MergedInv` | user/umalloc.c:33-42 | joining two adjacent free blocks keeps the invariant and all units |
| `FreeRing.FreedInv` | user/umalloc.c:24-44 | after free no two free blocks are adjacent, and no unit is lost |
| `FreeRing.SplitInv` | user/umalloc.c:78-82 | taking the tail of a block keeps the invariant and all units |
| `FreeRing.UnlinkedInv` | user/umalloc.c:76-77 | taking a whole block keeps the invariant |
| `FreeRing.GrownInv` | user/umalloc.c:46-61 | a fresh region from sbrk is a block of its own |
| `UmallocCode.StopsAtSlot` | user/umalloc.c:30-32 | the loop test of free holds exactly outside the one place where the block belongs |
| `UmallocCode.SbrkArgument` | user/umalloc.c:46-61 | the int passed to sbrk is the byte count meant, if and only if the request is at most 0x7fffffe0 bytes; beyond it, it is negative up to 0xffffffe0 bytes, then 0, then 16 |
| `UmallocCode.UnitsHold` | user/umalloc.c:69 | the units after the header hold the bytes asked for, with fewer than 16 to spare |
| `UmallocCode.SizesFit` | user/umalloc.c:46-90 | sizes fit the 32-bit header field while the heap is below 2^32 units |
| `UmallocCode.Allocator.constructor` | user/umalloc.c:21-22 | before the first malloc there is no ring |
| `UmallocCode.Allocator.FindSlot` | user/umalloc.c:29-32 | the search ends at the place of the block in the ring |
| `UmallocCode.Allocator.Free` | user/umalloc.c:24-44 | the block is free and joined with its neighbours; freep is the block before it; contents and sizes of all other blocks are untouched; all units are conserved |
| `UmallocCode.Allocator.Morecore` | user/umalloc.c:46-61 | 0 if and only if sbrk fails, and then nothing changes; otherwise the region is in the ring and the search will find room |
| `UmallocCode.Allocator.Take` | user/umalloc.c:75-85 | the last n units of the block, which overlap no other; freep is the block before |
| `UmallocCode.Allocator.Malloc` | user/umalloc.c:63-90 | a block of the units asked for that overlaps no other, or 0 if and only if sbrk failed; calls morecore at most once and only if no block is large enough; other blocks are untouched; without morecore it is the end of the first large enough block after freep |
| `Regex.MatchHere` | user/grep.c:85-96 | true if and only if the text has a prefix that is the concatenation of matches of the pattern's items |
| `Regex.MatchStar` | user/grep.c:99-106 | true if and only if c* and then the rest match so |
| `Regex.Match` | user/grep.c:72-82 | true if and only if the pattern matches at some position, or at the start if it begins with ^ |
| `Regex.MatchesCons` | user/grep.c:85-96 | the declarative meaning, by ways to cut the text, is that of the first item and then the rest |
| `Regex.StarUnrolls` | user/grep.c:99-106 | c* matches nothing, or one character that c allows and then c* again; a dot allows every character |
| `Regex.ParseShow` | user/grep.c:85-96 | a pattern is read as the items it was written from |
| `Regex.ShowParse` | user/grep.c:85-96 | reading a pattern loses nothing: its items written down again are the pattern |
| `GrepCode.FindNewline` | user/grep.c:22 | the first newline of the buffer, if any |
| `GrepCode.LinesJoin` | user/grep.c:18-33 | the lines and the unfinished rest, joined again, are the input |
| `GrepCode.LinesAreLines` | user/grep.c:18-33 | no line has a newline in it |
| `GrepCode.GrepLine` | user/grep.c:23-27 | the line is written if and only if it matches; only its newline is overwritten |
| `GrepCode.GrepLines` | user/grep.c:20-29 | writes the matching ones of the complete lines in the buffer |
| `GrepCode.GrepChunk` | user/grep.c:18-33 | handles one read and keeps the unfinished line |
| `GrepCode.Grep` | user/grep.c:11-35 | for every way in which read splits the input, the output is exactly what should be written up to the first line without a newline among its first 1023 bytes; it is complete if and only if no complete line from there on matches |
| `GrepCode.CompleteForAll` | user/grep.c:11-35 | the output is complete for every pattern, if and only if no complete line is left where grep stops |
| `GrepCode.OverlongLineLost` | user/grep.c:18 | a concrete line of 1023 bytes that is lost |
| `ShellGrammar.GetToken` | user/sh.c:266-309 | a token lies within the line and, unless it is the end, moves the position on |
| `ShellGrammar.ParseLine` | user/sh.c:345-360 | parsing never moves back and stays within the line, so it terminates |
| `ShellRoundTrip.LineParses` | user/sh.c:345-447 | a printed command at any place of a line parses to the tree with its words where they stand |
| `ShellRoundTrip.WordsParse` | user/sh.c:416-447 | fewer than MAXARGS plain words parse to exactly those words |
| `ShellRoundTrip.RoundTrip` | user/sh.c:328-447 | every command tree with at most nine plain words per command survives a parenthesised print followed by a parse |
| `ShellRoundTrip.TenWordsPanic` | user/sh.c:437-441 | a printed tree of plain words parses if and only if no command anywhere in it has ten or more words |
| `ShellLines.WrapNest` | user/sh.c:375-398 | redirections are nested with the last one outermost |
| `ShellLines.ItemsParse` | user/sh.c:430-446 | words and redirections in any order, with any space between them, parse to exactly the words and exactly the redirections, each in order |
| `ShellLines.SimpleParses` | user/sh.c:416-447 | a simple command parses to the Exec of its words inside one Redir for each redirection, with its file and mode |
| `ShellLines.PartParses` | user/sh.c:400-447 | so does a simple command or a block before `|`, `&`, `;`, `)` or the end |
| `ShellLines.PipeParses` | user/sh.c:362-373 | parts joined by bars parse to pipes nested to the right |
| `ShellLines.LineParses` | user/sh.c:345-360 | pipelines with ampersands, joined by semicolons, parse to a List nested to the right, with one Back for each ampersand |
| `ShellLines.LineMeaning` | user/sh.c:328-447 | every line, with or without parentheses and with any space, parses to what it means |
| `ShellAccepts.LineRead` | user/sh.c:345-447 | whatever parseline accepts is a line |
| `ShellAccepts.AcceptsLines` | user/sh.c:328-447 | a C string parses if and only if it is a line, and then to what the line means; everything else is a panic |
| `ShellCode.Peek` | user/sh.c:311-321 | the position after blanks, and whether one of the characters stands there |
| `ShellCode.NextToken` | user/sh.c:266-309 | refines the token function |
| `ShellCode.RedirsFrom` | user/sh.c:375-398 | refines the list of redirections |
| `ShellCode.ArgsFrom` | user/sh.c:430-446 | refines the words and redirections of a command, whose meaning `ShellLines.ItemsParse` gives, with argv never past MAXARGS |
| `ShellCode.ExecFrom` | user/sh.c:416-447 | refines a command or block |
| `ShellCode.BlockFrom` | user/sh.c:400-414 | refines a block in parentheses |
| `ShellCode.PipeFrom` | user/sh.c:362-373 | refines pipelines |
| `ShellCode.LineFrom` | user/sh.c:345-360 | refines lists and background commands |
| `ShellCode.LineOk` | user/sh.c:345-447 | every word of a parsed tree is a nonempty stretch of word characters that ends before the end of the buffer |
| `ShellCode.NulTerminate` | user/sh.c:450-494 | the buffer is zero right after every word of the tree and unchanged elsewhere |
| `ShellCode.WordsReadBack` | user/sh.c:450-494 | in a terminated buffer every word read as a C string is the token that was parsed |
| `ShellCode.ParseCommand` | user/sh.c:328-343 | the parsed tree; after termination every argument and file name read as a C string from the shared buffer is the token that was parsed |

## Left out

- `kernel/proc.c` is modelled on values, as a state machine, and not as a class: its loops hold a different lock in each turn, so no method body is one step. What a step changes is written as one update, not as assignments in order.
- ProcTable.StepInv: does not model what fork, exit and wait do to memory, files and names; `Vm.dfy` and `Refs.dfy` model those parts.
- Liveness: that a runnable process runs, or that a sleeping operation is admitted in the end, is not stated.
- Weak memory, fences and interrupt disabling in `kernel/spinlock.c`.
- LogCode.Log.LogWrite: asks that the caller has budget left for a block that is not yet logged, which is the promise that begin_op's reservation rests on; `Filewrite` proves it for file writes, the other system calls are not modelled that far.
- FsCode.Fs.Writei: states the contents for user copies that succeed; a copy that fails midway may leave a partly written block.
- FsCode.Fs.Readi: states the result for user copies that succeed.
- FsCode.Fs.Filewrite: only the inode case; pipes are in `Pipe.dfy` and devices are not modelled.
- FsCode.Fs.Bmap: inodes are in memory and locked; `ilock`, `iget` slots and `ialloc` are not modelled, and inode blocks are kept as inodes instead of bytes.
- The file invariant that every block below the size is mapped is an assumption about the initial image; `bmap`, `writei` and `itrunc` keep it.
- Directories and paths (`dirlookup`, `dirlink`, `namex`, `skipelem`) and the link counts of `sys_link`, `sys_unlink`, `sys_mkdir` and `sys_mknod`; `create`, `sys_open` and `sys_chdir` take what lookup finds as a parameter.
- RefCode.FileTable.SysOpen: reference counts only; modes, offsets, truncation and the freeing of an unlinked inode in iput are not modelled, and neither are the slots of the inode table.
- RefCode.FileTable.SysDup: runs alone here, as do the other system calls of that class; `RefRuns.dfy` interleaves their steps, and there a process may take its steps in any order in which it has the files it uses.
- RefRuns.StepInv: the last fileclose of a pipe end and its pipeclose are one step.
- ProcTable.ExitWaitProtocol: pids are unbounded; `nextpid` is a C int, so that no pid is reaped twice holds for fewer than 2^31 calls of allocproc.
- VmCode.Vm.Uvmalloc: a size beyond the user range is modelled where memory runs out first, as it does on a machine with less memory than that range; otherwise mappages would panic on the trapframe page.
- VmCode.Vm.Mappages: user pages are mapped to frames that the caller holds, as every caller does; the panics on misaligned and remapped ranges are preconditions, and a range does not straddle user memory and the trampoline pages.
- VmCode.Vm.Uvmunmap: its three panics are preconditions, as is that frames are freed exactly for user pages.
- The kernel page table (`kvmmake`, `kvmmap`), `uvmfirst`, and executable or kernel permissions beyond the flags as numbers.
- Addresses are unbounded integers; those at or beyond MAXVA fail before they could wrap.
- BioCode.Bcache.Unlock: asks that a changed block is written or pinned before it is released; without that the cache may lose it, by design.
- BioCode.Bcache.Bread: the buffer from bget whose sleep-lock is free; waiting for that lock is not modelled, and a disk transfer is atomic.
- VirtioCode.Disk.Rw: waiting for descriptors and for the interrupt are separate steps; the memory layout, notification and initialisation registers and a device that reports errors are not modelled.
- PipeCode.Pipe.Read: a copy that fails loses the byte it took, as in the source; that is stated, not excluded.
- UmallocCode.Allocator.Malloc: sbrk gives fresh, aligned regions above the ring's base; requests beyond 0x7fffffe0 bytes are covered by SbrkArgument only.
- GrepCode.Grep: input without NUL bytes; what read returns is at least one byte until the end of the input.
- ShellCode.ParseCommand: error messages, `runcmd` and `getcmd` are not modelled; a line without NUL bytes.
- `kernel/exec.c`, `kernel/trap.c`, `kernel/syscall.c`, `kernel/console.c`, `kernel/uart.c`, `kernel/plic.c`, `kernel/printf.c`, `kernel/string.c`, assembly files, the remaining user programs and `mkfs` beyond its log size: easy or hardware-bound.

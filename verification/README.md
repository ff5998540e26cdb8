# Orion kernel: verified model

A Dafny model of the core of Orion, a 32-bit x86 kernel, with proofs about whole runs of it. Check it
with `dafny verify dfyconfig.toml`.

Each subsystem has two layers. The first describes the subsystem as a machine on plain values (rows of
blocks, process tables, sets of free frames, byte sequences) and states what holds in every run of that
machine. The second holds the kernel's own routines as classes with arrays, fields and loops, changed in
place as the C code changes them; each routine is proved to take exactly the step of the machine. So what
is proved about the machine holds of the routines.

| subsystem | machine and its laws | routines |
|---|---|---|
| boundary-tag heap | `Machine`, `HeapBlocks`, `HeapRuns` | `HeapTags`, `KernelHeap` |
| processes and scheduler | `ReadyQueue`, `Processes`, `ProcessInvariant`, `ExitWait`, `Scheduling`, `Blocking`, `IdleLoop`, `Sleeping`, `Starvation`, and runs from boot in `BootRuns`, `Orphans` | `KernelProcs` |
| frame allocator | `Frames` | `BitWords`, `FrameAllocator` |
| page tables | `PageTables` | `KernelVmm` |
| pipes | `Bytes`, `Pipes`, `PipeProtocol` | `KernelPipe` (in `Pipes.dfy`) |
| descriptors | `Descriptors` | `KernelFds` |
| files | `RamFiles` | `KernelRamFs` |
| paths | `Paths`, `PathWalk`, `Creation` | `KernelVfs` |

## How the kernel is modelled

- The kernel runs with interrupts off between entry and return (`kernel/arch/x86/syscall.asm:30`), so a
  process step is what happens between two points where control can move. A process inside a system call
  carries the place where it goes on. Process 1 runs the idle loop, which makes no system call, until exec
  gives it other code.
- A step strands the CPU when the current process blocks or ends and no other process is READY. Unless a row
  says otherwise, "every run" of processes is every run from boot in which no step does; every run in which
  process 1 is left in the idle loop is one (`IdleLoop.IdleRunIsSafe`).
- The waiter slots of all pipes and of the keyboard are one bag of PIDs in the process machine. A process
  that waits for a pipe or key goes into it, in the place of another one if the slot was taken.
- Integers are unbounded; where the C code's 32-bit arithmetic can wrap and it matters, the model wraps:
  block sizes, the end of the heap, tick counts, map-entry lengths, range ends, buffer capacities and byte
  counts returned as `int`.
- A panic is an outcome that a precondition excludes, or that is recorded in the state, as for the heap.
- Memory supply is a parameter: a flag for an allocation that may fail, a number of frames for the heap. The
  heap is taken to be the only thing mapped in its 64 MiB.
- Page tables and heap words are directly addressable; address translation of the kernel's own accesses
  is not modelled.
- Words are bit strings in `BitWords`, read by halving; `&` with a power of two minus one is `%`.

## Where the code does not do what its comments say

The model follows the code. Each of these is stated by the members named, with the exact condition where
there is one.

- The scheduler calls itself round-robin but always scans from the front: two processes can keep all
  others off the CPU (`Starvation.ThirdStarvesInRun`, `Starvation.GetsCpuIffFewAhead`,
  `Starvation.StarvedAfterBoot`).
- Exec accepts process 1. When its new code blocks with nobody else READY, it goes on running although it is
  BLOCKED (`ProcessInvariant.StepKeepsInvIff`, `IdleLoop.SleepingIdleStrands`).
- `pmm_get_free_frames` never returns the number of free frames (`FrameAllocator.Pmm.GetFreeFrames`).
- A partial page at either end of the kernel image is not reserved
  (`FrameAllocator.ImageProtectedIffAligned`).
- A memory-map entry of 4 GiB or more from address 0 is lost (`FrameAllocator.EntryExact`).
- A request of almost 4 GiB is granted with a block of 16 bytes (`HeapRuns.MallocSpec`), or makes the end of the
  heap wrap around (`HeapRuns.MallocSoundIff`, `HeapRuns.HugeRequestBreaks`).
- Growing the heap panics, where an error is meant to be returned, if the last frame goes to a page that needs a
  new table (`HeapRuns.GrowHaltsIff`).
- An existing directory entry never gains the user bit (`PageTables.UserMappingWorksIff`).
- The range check passes unmapped ranges at the top of the address space
  (`KernelVmm.RangeCheckExactIff`), and the loop that maps a range of almost 4 GiB never ends
  (`KernelVmm.RangeLoopEndsIff`).
- Exec accepts a ZOMBIE (`ExitWait.LedgerKeptIffProper`, `ExitWait.RestartedZombieLosesCode`) and leaves
  the PID of its target in a waiter slot (`Blocking.SlotsKeptIff`, `Sleeping.StaleSlotCutsSleepShort`).
- The exit code of an orphan goes to whoever gets the dead parent's PID (`ExitWait.CodeGoesToForkerIff`,
  `Orphans.CodeGoesToStranger`).
- A sleep whose wake-up tick wraps is over at once or never (`Sleeping.SleepExactIff`).
- Each pipe end has one waiter slot (`PipeProtocol.InvKeptIffNotCrowded`,
  `PipeProtocol.CrowdedSleeperLost`).
- A writer that has slept does not look for readers again before it goes on writing, so a write can succeed
  although nobody is left to read it (`PipeProtocol.UnreadAcceptedIff`, `PipeProtocol.WriteOutlivesReaders`).
- A write that fails may have had part of its data accepted (`PipeProtocol.WriteAcceptsPrefix`,
  `PipeProtocol.FailedWriteAccepts`).
- Descriptors are closed when a process is destroyed, not when it exits, so a dead writer keeps readers
  asleep (`Descriptors.EndOfStreamIffCollected`, `Descriptors.DeadWriterHoldsPipe`).
- The growth loop of a file never ends beyond 2^31 bytes (`RamFiles.GrowthEndsIff`), and a transfer of 2^31
  bytes does not move the offset (`RamFiles.ReadUntilEndIsAll`, `KernelRamFs.OpenFile.Write`).
- A doubled slash as far as a mount path can reach hides a mount, and a component over 63 characters is read as
  several (`PathWalk.ResolveIsWalkIff`, `PathWalk.ResolveIsWalkIffNeat`).
- Mkdir reports success when a regular file has the name (`Creation.MkdirMakesDirectoryIff`,
  `Creation.MkdirOverFile`).
- Open and mkdir look for the last slash in a copy of the path cut to 127 characters, and names are cut to
  63 characters when they are stored: the path may not lead to what was made, and a directory can be hidden
  (`Creation.CreateThenResolveIff`, `Creation.MkdirThenResolveIff`, `Creation.CreationKeepsIff`,
  `Creation.CutHidesDirectory`).

## Model

| member | source | states |
|---|---|---|
| `HeapBlocks.BlockSizeCoversRequest` | kernel/mm/kheap.c:219-222 | the block taken for a request holds it if and only if rounding up and adding tags does not wrap 32 bits |
| `HeapBlocks.FirstFit` | kernel/mm/kheap.c:225-232 | the lowest free block that is large enough, all lower ones being taken or too small |
| `HeapBlocks.CoalesceKeeps` | kernel/mm/kheap.c:98-133 | all four cases of merging keep the tiling, leave no two free neighbours and touch no live block |
| `HeapBlocks.PlaceKeepsTiling` | kernel/mm/kheap.c:158-176 | splitting or taking a block keeps the heap exactly tiled by aligned blocks of at least 16 bytes |
| `HeapBlocks.PlaceKeepsApart` | kernel/mm/kheap.c:158-176 | splitting leaves no two free neighbours |
| `HeapBlocks.PlaceAddsLive` | kernel/mm/kheap.c:158-176 | taking a block adds one live block and changes no other |
| `HeapBlocks.ReleaseKeeps` | kernel/mm/kheap.c:267-279 | freeing removes exactly the block freed from the live ones and keeps tiling and separation |
| `HeapBlocks.ReleaseUndoesPlace` | kernel/mm/kheap.c:158-176 | freeing right after placing gives back the very same row of blocks |
| `HeapBlocks.BytesConserved` | kernel/mm/kheap.c:295-314 | allocated plus free block bytes are all bytes between prologue and epilogue |
| `HeapBlocks.NothingLiveIsOneBlock` | kernel/mm/kheap.c:98-133 | a heap with nothing allocated is a single free block |
| `HeapBlocks.LiveBlocksDetermineRow` | kernel/mm/kheap.c:98-176 | two sound rows over the same space with the same live blocks are equal, so what a step does to the live blocks is all that it does |
| `HeapRuns.GrowReachesEnd` | kernel/mm/kheap.c:72-93 | the mapping loop covers the end asked for if and only if it lies below the ceiling and there are frames enough; it takes one frame for each page and each new page table |
| `HeapRuns.FramesWantedIs` | kernel/mm/vmm.c:20-32 | the frames wanted are one for each page and one for each 4 MiB that starts among them |
| `HeapRuns.GrowHaltsIff` | kernel/mm/vmm.c:28-51 | the kernel panics in the loop if and only if the supply ends between a page and the table it is due |
| `HeapRuns.ExtendKeeps` | kernel/mm/kheap.c:139-154 | extension appends a free block merged with a free last block and keeps the heap sound |
| `HeapRuns.MallocSpec` | kernel/mm/kheap.c:217-247 | success adds one fresh live block of at least the size computed and less than 16 bytes more, more only where the next block is not free; it holds the request if and only if rounding up did not wrap. The heap grows exactly if nothing fits, by the larger of block and page, and the free bytes change by just growth and block. Failure of a nonzero request means no block fits and the heap cannot grow, changes no block, and is a panic exactly if the frames run out between a page and its table |
| `HeapRuns.NoWrapIff` | kernel/mm/kheap.c:139-142 | the end of an extension wraps exactly for requests whose block would end beyond 4 GiB |
| `HeapRuns.MallocSoundIff` | kernel/mm/kheap.c:139-154 | an allocation keeps the heap sound if and only if the end of its extension does not wrap 32 bits |
| `HeapRuns.HugeRequestBreaks` | kernel/mm/kheap.c:139-154 | a request of 0xFF000000 bytes right after boot gets a pointer and leaves a heap that is not sound |
| `HeapRuns.BootIsFirstExtension` | kernel/mm/kheap.c:183-206 | the first 64 KiB can be mapped if and only if there are 18 frames: 17 pages and a table |
| `HeapRuns.MallocIsFirstFit` | kernel/mm/kheap.c:224-237 | no fitting free block lies below the one returned, and the heap grows only when none fits |
| `HeapRuns.FreeSpec` | kernel/mm/kheap.c:267-279 | freeing a live pointer removes exactly its block |
| `HeapRuns.FreeUndoesMalloc` | kernel/mm/kheap.c:217-279 | freeing an allocation that did not grow the heap restores the heap exactly |
| `HeapRuns.EveryRunIsSound` | kernel/mm/kheap.c:98-279 | after any sequence of allocations and frees from boot the heap is tiled, no two free blocks touch, the live blocks are those handed out and no byte is lost |
| `HeapRuns.LiveAllocationSound` | kernel/mm/kheap.c:217-279 | in every reachable state a live allocation is 8-byte aligned, inside the mapped heap, has all bytes of its block to itself, and the block is less than 16 bytes larger than the request makes it |
| `HeapRuns.LiveAllocationsApart` | kernel/mm/kheap.c:139-279 | in every reachable state live allocations are pairwise disjoint, tag words included |
| `HeapRuns.AllFreedIsOneBlock` | kernel/mm/kheap.c:98-133 | once everything is freed the heap is one free block |
| `HeapTags.RetagEncodes` | kernel/mm/kheap.c:98-133 | rewriting tags inside a stretch of blocks encodes the new row and leaves every word of the other blocks alone |
| `HeapTags.FuseEncodes` | kernel/mm/kheap.c:108-131 | two tag writes turn the encoding of a row into that of the merged row |
| `HeapTags.AlignedFitsIff` | kernel/mm/kheap.c:250-262 | a page boundary with the size behind it fits into the block asked for if and only if the total, rounded up, does not wrap 32 bits |
| `KernelHeap.KHeap.constructor` | kernel/mm/kheap.c:179-214 | with 18 frames boot writes prologue and epilogue and leaves one free block of 64 KiB |
| `KernelHeap.KHeap.EnsureMapped` | kernel/mm/kheap.c:72-93 | the loop maps as the growth function says, panics as it says, succeeds exactly when there is room, and keeps all words, also after a partial failure |
| `KernelHeap.KHeap.MapNext` | kernel/mm/kheap.c:81-89 | one turn of that loop is one turn of the growth function |
| `KernelHeap.KHeap.CreateTable` | kernel/mm/vmm.c:20-51 | a frame goes to a new table at the start of each 4 MiB, and without one the kernel panics |
| `KernelHeap.KHeap.MergeTags` | kernel/mm/kheap.c:98-133 | the four cases write header and footer of the merged block and nothing else |
| `KernelHeap.KHeap.Coalesce` | kernel/mm/kheap.c:98-133 | the tag words encode the merged row, the pointer returned is the merged block's, live words are untouched |
| `KernelHeap.KHeap.ExtendHeap` | kernel/mm/kheap.c:139-154 | the old epilogue becomes a free block merged with its predecessor; null exactly when memory cannot be mapped |
| `KernelHeap.KHeap.Place` | kernel/mm/kheap.c:158-176 | the tag words encode the row with the block taken or split, live words are untouched |
| `KernelHeap.KHeap.FindFit` | kernel/mm/kheap.c:225-232 | the walk over headers ends at the first fit or at the epilogue |
| `KernelHeap.KHeap.Kmalloc` | kernel/mm/kheap.c:217-247 | takes the step of the block machine, so that one fresh live block cut to size is added or no block changes, and writes no word of any live block; requests that wrap the end of the heap excluded |
| `KernelHeap.KHeap.Kfree` | kernel/mm/kheap.c:267-279 | takes the step of the block machine and writes no word of any other live block |
| `KernelHeap.KHeap.KmallocAligned` | kernel/mm/kheap.c:250-265 | page-aligned result inside a fresh block with room for the size, the word before it pointing back to the block |
| `KernelHeap.KHeap.KfreeAligned` | kernel/mm/kheap.c:281-288 | frees exactly the block that the intact back pointer names |
| `KernelHeap.KHeap.Dump` | kernel/mm/kheap.c:290-317 | the totals printed are the allocated and free bytes and add up to the whole heap |
| `ReadyQueue.SwapRemoveRemoves` | kernel/proc/sched.c:50-59 | moving the last entry into the gap removes one process and keeps all others, once each |
| `Processes.Best` | kernel/proc/sched.c:98-115 | the scan finds the READY process that is first in (priority, queue position) order, other than the one skipped |
| `ProcessInvariant.QueueNeverFull` | kernel/proc/sched.c:39-42 | the queue-full branch is unreachable |
| `ProcessInvariant.SearchIsLowest` | kernel/proc/proc.c:41-58 | the PID hint is a pure speed-up: the two passes find the lowest free PID and fail only when all are taken |
| `ProcessInvariant.CreatedSlotIsFree` | kernel/proc/proc.c:84-90 | the slot of a fresh PID is UNUSED, so the fatal branch is unreachable |
| `ProcessInvariant.CreateKeeps` | kernel/proc/proc.c:75-157 | creation takes a free slot and PID, queues the newborn once and changes nothing else |
| `ProcessInvariant.SwitchKeeps` | kernel/proc/sched.c:83-145 | a switch leads to a state in which exactly the current process is RUNNING |
| `ProcessInvariant.ExitKeeps` | kernel/proc/proc.c:325-349 | exit keeps queue, PIDs, the rule that no waiting parent misses a dead child and the one RUNNING process if and only if another process is then READY, a parent just woken included |
| `ProcessInvariant.WaitKeeps` | kernel/proc/proc.c:351-385 | a turn of wait keeps them if and only if it collects a child or another process is READY |
| `ProcessInvariant.ExecKeeps` | kernel/proc/exec.c:8-43 | exec of any process but RUNNING ones, process 1 included, re-queues it exactly once |
| `ProcessInvariant.ExecRestarts` | kernel/proc/exec.c:8-43 | the target starts over with a full slice at the end of the queue, its identity, priority and parent unchanged; everybody else changes only by the switch at the end |
| `ProcessInvariant.ForkMakesChild` | kernel/proc/fork.c:9-40 | if memory and a PID can be had, and only then, there is a child with the lowest free PID, the priority of its parent and a full slice, at the end of the queue; everybody else changes only by the switch at the end |
| `ProcessInvariant.TickQueues` | kernel/proc/sched.c:62-75 | a tick appends exactly the sleepers that are due to the queue, in the order of their PIDs |
| `ProcessInvariant.WakeKeeps` | kernel/proc/proc.c:402-417 | a wake-up moves a BLOCKED process to the queue once and touches nothing else |
| `ProcessInvariant.StepKeepsInvIff` | kernel/proc/sched.c:98-145 | every step of every kind keeps the invariant, and with it "exactly the current process is RUNNING", if and only if it does not block or end the current process while nobody else is READY |
| `ProcessInvariant.IdleNeverStrands` | kernel/kernel.c:69 | while process 1 is in the idle loop, no step of any process does that |
| `IdleLoop.IdleRunIsSafe` | kernel/kernel.c:69 | so it never happens in a run from boot without exec of process 1 |
| `IdleLoop.SleepingIdleStrands` | kernel/proc/exec.c:16-38 | a run from boot in which process 1, restarted by exec, goes to sleep and still has the CPU |
| `ProcessInvariant.EveryRunIsSafe` | kernel/proc/proc.c:75-417 | the invariant holds in every state of every run from boot in which no step strands the CPU |
| `ProcessInvariant.ReachableStateSound` | kernel/proc/sched.c:32-145 | in every reachable state the queue holds each READY or RUNNING process once and nothing else, only the current one is RUNNING, a PID is taken exactly when its slot is in use, and slices are as long as the priority says |
| `ExitWait.NoLostWakeup` | kernel/proc/proc.c:325-385 | in every run a process blocked in wait has no dead child that matches |
| `ExitWait.WaitCollectsLowest` | kernel/proc/proc.c:360-375 | wait hands over the code of the matching dead child with the lowest PID, frees its slot and PID, and changes nobody else but by the switch at the end |
| `ExitWait.WaitSleepsIffNone` | kernel/proc/proc.c:360-384 | the caller is BLOCKED in its wait if and only if there is no such child, and nothing is collected then |
| `ExitWait.ExitWakesIff` | kernel/proc/proc.c:325-349 | exit wakes a process that is in wait if and only if that is the parent and waits for this child or for any |
| `ExitWait.ExitCodeDeliveredOnce` | kernel/proc/proc.c:325-385 | in every run without exec of a ZOMBIE each exit code is either still in the table or was handed to exactly one wait, unchanged |
| `ExitWait.CodeGoesToForkerIff` | kernel/proc/proc.c:360-375 | in every run without exec of a ZOMBIE a code is handed to the process that forked the child if and only if that process had not been collected before; otherwise a later user of its PID gets it |
| `Orphans.CodeGoesToStranger` | kernel/proc/proc.c:351-375 | a run from boot in which a process collects the code of a process it has not forked, because it has got the PID of the parent |
| `ExitWait.LedgerKeptIffProper` | kernel/proc/exec.c:16-20 | that bookkeeping survives a step if and only if the step is not an exec of a ZOMBIE, which the code does not refuse |
| `ExitWait.RestartedZombieLosesCode` | kernel/proc/exec.c:16-37 | a run from boot in which a restarted ZOMBIE leaves an exit code that is with no dead process and was never delivered |
| `Scheduling.SwitchPicksForemost` | kernel/proc/sched.c:98-138 | at the end of a slice the CPU goes to the READY process first in (priority, queue position), with a full slice |
| `Scheduling.ForemostIsUnique` | kernel/proc/sched.c:103-115 | priority and queue position leave no tie: at most one process can be the one that is picked |
| `Scheduling.BlockHandsOver` | kernel/proc/proc.c:377-400 | a process that blocks loses the CPU at once to that process |
| `Scheduling.ExitHandsOver` | kernel/proc/proc.c:325-349 | a process that exits loses the CPU at once to that process, among them a parent just woken |
| `Scheduling.CpuHoldIsBounded` | kernel/proc/sched.c:91-121 | in every run a process with another one READY is switched out within as many ticks as its slice is long, unless execve re-arms it |
| `Scheduling.CpuHoldLasts` | kernel/proc/sched.c:85-96 | in every run a process that does not block, exit or call execve keeps the CPU for as long as fewer ticks have passed than its slice had left, whatever calls it makes; only ticks shorten the slice, each by one |
| `Scheduling.SliceIsExact` | kernel/proc/sched.c:91-121 | at the tick that uses up its slice a process loses the CPU if and only if another one is then READY; otherwise it gets a full new slice |
| `Scheduling.KeepOverStep` | kernel/proc/sched.c:85-96 | every step that ends in a switch takes a pending tick off the slice of the current process and leaves none pending |
| `Scheduling.ExecveRearms` | kernel/syscall/syscall.c:193-194 | with no tick pending execve gives the caller a full slice and changes nothing else |
| `Scheduling.SlicesFollowPriority` | kernel/proc/proc.c:132-140 | better priority never gives a shorter slice: 10 ticks at normal priority, one more for every two levels above up to 18, one less for every five below, 7 for the idle process |
| `Blocking.TickWakesExactlyDue` | kernel/proc/sched.c:62-75 | a tick wakes a blocked process exactly when its wake-up tick has come; waiters and pipe sleepers are never woken by the timer |
| `Blocking.StepLeavesSleeper` | kernel/proc/proc.c:325-417 | no step but a tick, an exec or a wake-up through a slot of its own touches a process blocked in a sleep or in a wait for a pipe or key |
| `Blocking.SlotsKeptIff` | kernel/proc/exec.c:23-37 | the promise that every waiter slot names a process blocked on a pipe or key, each in one slot, survives a step if and only if the step is not an exec of a process in a slot |
| `Blocking.SlotsNameIoWaiters` | kernel/fs/pipe.c:46-78 | so it holds in every run without such an exec |
| `Sleeping.SleepExactIff` | kernel/proc/proc.c:390-393 | in 32-bit ticks a sleep of n ticks is over at the n-th tick and not before if and only if the wake-up tick does not wrap, or wraps together with the counter; any other is over at the first tick or never |
| `Sleeping.SleepLasts` | kernel/proc/proc.c:387-400 | in every run a sleeper stays BLOCKED while fewer ticks have passed than it asked for, unless exec restarts it or an earlier exec left a PID in a waiter slot |
| `Sleeping.SleepEnds` | kernel/proc/sched.c:62-75 | the n-th tick makes it runnable and queued exactly once |
| `Sleeping.StaleSlotCutsSleepShort` | kernel/proc/exec.c:23-37 | a run from boot in which a stale slot ends a sleep of 50 ticks without a tick |
| `Starvation.ThirdStarves` | kernel/proc/sched.c:103-121 | the scheduler is not round-robin: a process that is not on the CPU and has two others ahead of it in (priority, queue position) never gets the CPU, however many ticks pass |
| `Starvation.StepPassed` | kernel/proc/sched.c:98-138 | no step of any kind gives the CPU to a process that two others are ahead of |
| `Starvation.ThirdStarvesInRun` | kernel/proc/sched.c:98-138 | in every run a process that is not on the CPU does not get it as long as two others stay ahead of it |
| `Starvation.GetsCpuIffFewAhead` | kernel/proc/sched.c:91-121 | with nobody of better priority in a timed sleep, a waiting process gets the CPU after some number of ticks if and only if fewer than two are ahead of it |
| `Starvation.StarvedAfterBoot` | kernel/proc/sched.c:103-121 | a run from boot with the idle process and three of normal priority, the third of which never gets the CPU |
| `KernelProcs.Kernel.constructor` | kernel/proc/proc.c:22-38 | boot state of table, bitmap and queue |
| `KernelProcs.Kernel.PidAlloc` | kernel/proc/proc.c:41-58 | the bitmap search returns what the specification search does and sets that bit and the hint |
| `KernelProcs.Kernel.FreePid` | kernel/proc/proc.c:61-72 | clears one bit and lowers the hint; double frees are ignored |
| `KernelProcs.Kernel.ProcCreate` | kernel/proc/proc.c:75-157 | takes the creation step, giving the PID back when memory is short |
| `KernelProcs.Kernel.SchedAdd` | kernel/proc/sched.c:32-47 | appends a READY process |
| `KernelProcs.Kernel.SchedRemove` | kernel/proc/sched.c:50-59 | removes by moving the last entry into the gap |
| `KernelProcs.Kernel.Scan` | kernel/proc/sched.c:98-115 | the loop finds the foremost READY entry |
| `KernelProcs.Kernel.SchedSwitch` | kernel/proc/sched.c:83-145 | takes the switch step; the tick is used up, and while the slice has more ticks the only other change is that it has one less |
| `KernelProcs.Kernel.SchedYield` | kernel/proc/sched.c:219-228 | takes the yield step |
| `KernelProcs.Kernel.SchedStart` | kernel/proc/sched.c:150-191 | starts the foremost READY process |
| `KernelProcs.Kernel.TimerTick` | kernel/proc/sched.c:62-75 | takes the tick step: wakes the sleepers that are due, then switches |
| `KernelProcs.Kernel.ProcWake` | kernel/proc/proc.c:402-417 | takes the wake step |
| `KernelProcs.Kernel.ProcExit` | kernel/proc/proc.c:325-349 | takes the exit step |
| `KernelProcs.Kernel.ProcWaitTurn` | kernel/proc/proc.c:360-384 | takes one turn of wait; collects the lowest matching dead child with its own code, or blocks |
| `KernelProcs.Kernel.ProcSleep` | kernel/proc/proc.c:387-400 | takes the sleep step |
| `KernelProcs.Kernel.ProcFork` | kernel/proc/fork.c:9-40 | takes the fork step and returns the PID of the child, or PID_INVALID |
| `KernelProcs.Kernel.ProcExec` | kernel/proc/exec.c:8-43 | takes the exec step; -1 for a process that is absent or RUNNING, else 0 |
| `KernelProcs.Kernel.ProcDestroy` | kernel/proc/proc.c:216-244 | frees PID and slot of a ZOMBIE |
| `BitWords.SetBitSets` | kernel/mm/pmm.c:11 | setting a bit sets that bit and no other |
| `BitWords.ClearBitClears` | kernel/mm/pmm.c:12 | clearing a bit clears that bit and no other |
| `BitWords.FullWord` | kernel/mm/pmm.c:165 | a word of all ones has no clear bit, so skipping it is safe |
| `Frames.AllocIsLowest` | kernel/mm/pmm.c:150-189 | the search hint is a pure speed-up: the lowest free frame is returned, and failure means none is free |
| `Frames.EveryRunIsSound` | kernel/mm/pmm.c:150-208 | in every run frames handed out are distinct and not free, and no free frame lies below the hint |
| `Frames.FramesConserved` | kernel/mm/pmm.c:150-208 | in every run the frames free or handed out stay the same set |
| `Frames.FreeUndoesAlloc` | kernel/mm/pmm.c:150-208 | giving a frame back restores the free set, and it is the next one handed out |
| `Frames.RegionIsWholeFrames` | kernel/mm/pmm.c:25-56 | rounding inward marks exactly the frames that lie wholly in a region |
| `FrameAllocator.EntryExact` | kernel/mm/pmm.c:115-124 | a memory-map entry frees exactly the frames it covers if and only if it is not one of 4 GiB or more from address 0, whose length is cut to 0 |
| `FrameAllocator.ImageProtectedIffAligned` | kernel/mm/pmm.c:134-136 | every frame of the kernel image is reserved under every memory map if and only if the image starts and ends on page boundaries |
| `FrameAllocator.Pmm.constructor` | kernel/mm/pmm.c:70-147 | after boot a frame is free exactly when it is not frame 0, lies wholly in a marked entry and not wholly in the kernel image; the used count is exact |
| `FrameAllocator.Pmm.MarkRegionReserved` | kernel/mm/pmm.c:25-44 | reserves exactly the whole frames of the region and keeps the count exact |
| `FrameAllocator.Pmm.MarkRegionAvailable` | kernel/mm/pmm.c:47-67 | frees exactly the whole frames of the region but frame 0 and keeps the count exact |
| `FrameAllocator.Pmm.MarkEntries` | kernel/mm/pmm.c:95-131 | the walk over the memory map |
| `FrameAllocator.Pmm.FindIn` | kernel/mm/pmm.c:158-185 | one pass over the words finds the lowest clear bit in the range |
| `FrameAllocator.Pmm.AllocFrame` | kernel/mm/pmm.c:150-189 | takes the allocation step on the bitmap, counter and hint |
| `FrameAllocator.Pmm.FreeFrame` | kernel/mm/pmm.c:192-208 | takes the free step; frame 0 and double frees are ignored |
| `FrameAllocator.Pmm.GetFreeFrames` | kernel/mm/pmm.c:212-214 | the reported free count is wrong in every state: it is off by the number of frames that were never made available, which is not zero |
| `PageTables.CreateTableKeeps` | kernel/mm/vmm.c:20-43 | a new table comes from an unused frame, stays marked used, and changes no entry of the flat view |
| `PageTables.MapPageMaps` | kernel/mm/vmm.c:46-57 | mapping sets the entry of one page to the frame and the flags given, the present bit added, and leaves every other page alone |
| `PageTables.MapPageWrites` | kernel/mm/vmm.c:20-57 | the entry has the frame number in its top 20 bits, the present bit and the other flags as given; a new directory entry is present and writable, and for the user exactly if the page is; no other directory entry changes |
| `PageTables.EntryIsUnique` | kernel/mm/vmm.c:54 | there is only one such entry |
| `PageTables.UnmapPageUnmaps` | kernel/mm/vmm.c:70-80 | unmapping clears one page and leaves every other page alone |
| `PageTables.TablesRefineFlatMap` | kernel/mm/vmm.c:20-108 | for any sequence of calls, with other users taking and giving back frames in between, the two-level tables act as a flat map in which the last call on a page decides |
| `PageTables.LastMappingHolds` | kernel/mm/vmm.c:46-80 | for any sequence of calls a page last mapped has the frame and flags of that call, and a page last unmapped has no entry |
| `PageTables.TranslationAfterMap` | kernel/mm/vmm.c:83-96 | after mapping, addresses of the page translate into the frame given at the same offset, others as before |
| `PageTables.UserMappingWorksIff` | kernel/mm/vmm.c:24-39 | a page mapped for the user is reachable if and only if its table is new or was made for the user |
| `KernelVmm.RangeCheckExactIff` | kernel/mm/vmm.c:213-234 | the range check is right for every address space if and only if rounding up the end does not wrap |
| `KernelVmm.RangeLoopEndsIff` | kernel/mm/vmm.c:60-67 | the loop over a range ends if and only if the length is at most 4 GiB less a page |
| `KernelVmm.Vmm.CreateTable` | kernel/mm/vmm.c:20-43 | takes the table step, zeroing the new table |
| `KernelVmm.Vmm.MapPage` | kernel/mm/vmm.c:46-57 | the page has the frame and the flags given, the present bit added, and every other page its old entry; without a frame for the table nothing changes |
| `KernelVmm.Vmm.MapRange` | kernel/mm/vmm.c:60-67 | maps consecutive pages to consecutive frames in 32-bit arithmetic and no other page; where it stops early, the pages before are mapped and no table can be had for the next |
| `KernelVmm.Vmm.UnmapPage` | kernel/mm/vmm.c:70-80 | clears one page of the flat view |
| `KernelVmm.Vmm.GetPhys` | kernel/mm/vmm.c:83-96 | translates as the flat view says |
| `KernelVmm.Vmm.RangeMapped` | kernel/mm/vmm.c:213-234 | true exactly when all pages looked at are mapped; without wrap, when every page touched is |
| `KernelVmm.Vmm.constructor` | kernel/mm/vmm.c:110-139 | after boot the first 4 MiB map to themselves and nothing else is mapped |
| `KernelPipe.DropMovesHead` | kernel/fs/pipe.c:116-120 | dropping bytes from the wrapped ring is moving the head |
| `KernelPipe.StoreAppends` | kernel/fs/pipe.c:155-160 | storing behind the last byte of the wrapped ring appends |
| `KernelPipe.KPipe.TakeBatch` | kernel/fs/pipe.c:113-120 | the copying loop takes the oldest bytes in order |
| `KernelPipe.KPipe.PutBatch` | kernel/fs/pipe.c:151-160 | the copying loop appends in order |
| `KernelPipe.KPipe.ReadTurn` | kernel/fs/pipe.c:106-126 | one turn of the read loop: end of stream, sleep, or a batch and a wake-up |
| `KernelPipe.KPipe.WriteTurn` | kernel/fs/pipe.c:139-166 | one turn of the write loop: broken pipe, sleep, or a batch and a wake-up |
| `KernelPipe.KPipe.WakePeer` | kernel/fs/pipe.c:64-78 | clears the slot and yields the PID in it |
| `KernelPipe.KPipe.CloseRead` | kernel/fs/pipe.c:170-185 | counts down, wakes a writer at the last read end, releases the pipe when both ends are gone |
| `KernelPipe.KPipe.CloseWrite` | kernel/fs/pipe.c:188-203 | counts down, wakes a reader at the last write end, releases the pipe when both ends are gone |
| `PipeProtocol.EveryRunIsFifo` | kernel/fs/pipe.c:97-167 | in every interleaving the bytes delivered followed by the bytes buffered are the bytes accepted, at most 4096 of them buffered; what each call gets of them is said by `ReadReturnsDelivered` and `WriteAcceptsPrefix` |
| `PipeProtocol.ReadReturnsDelivered` | kernel/fs/pipe.c:97-127 | in every run a read hands back exactly the bytes delivered to its process since it began, in that order; as many as asked for, unless the pipe is drained and all writers are closed |
| `PipeProtocol.SoleReaderGetsStream` | kernel/fs/pipe.c:97-127 | with nobody else reading meanwhile that is the next stretch of the stream of accepted bytes |
| `PipeProtocol.TurnsAreGreedy` | kernel/fs/pipe.c:113-160 | a turn that moves bytes ends with nothing left to move or with the buffer empty, or full for a write |
| `PipeProtocol.InvKeptIffNotCrowded` | kernel/fs/pipe.c:46-61 | the sleepers' promise survives a step if and only if the step does not put a second sleeper on one end |
| `PipeProtocol.SleeperJustified` | kernel/fs/pipe.c:46-166 | in every run with one sleeper per end a reader sleeps only on an empty pipe with writers, a writer only on a full pipe with readers, and its PID is in the slot |
| `PipeProtocol.NeverBothAsleep` | kernel/fs/pipe.c:46-166 | and a reader and a writer never sleep together |
| `PipeProtocol.ShortReadOnlyAtEnd` | kernel/fs/pipe.c:108-111 | in every run a read comes back short only when the pipe is drained, all writers are closed and every byte ever to be accepted has been delivered |
| `PipeProtocol.WriteFailsOnlyWhenBroken` | kernel/fs/pipe.c:141-149 | a write fails only when no reader is left |
| `PipeProtocol.WriteAcceptsPrefix` | kernel/fs/pipe.c:130-167 | in every run, when a write comes back, the bytes accepted from it are a prefix of its data, in order and once each; all of it, or no reader is left |
| `PipeProtocol.UnreadAcceptedIff` | kernel/fs/pipe.c:139-153 | without a reader, bytes are accepted if and only if the writer has slept since it last looked for readers and finds room |
| `PipeProtocol.UnreadAcceptedOnce` | kernel/fs/pipe.c:139-166 | in every run a write from which that happens comes back with its next turn, so it happens once |
| `PipeProtocol.WriteOutlivesReaders` | kernel/fs/pipe.c:146-160 | a run in which a write of 4097 bytes succeeds although the last reader has closed |
| `PipeProtocol.FailedWriteAccepts` | kernel/fs/pipe.c:141-149 | a run in which a write of 4097 bytes fails after 4096 of them have been accepted |
| `PipeProtocol.CrowdedSleeperLost` | kernel/fs/pipe.c:51-54 | a run in which a second reader takes the slot and the first sleeps on although bytes are there |
| `Descriptors.CloseKeeps` | kernel/proc/fd.c:20-25 | closing a slot drops one reference and releases file and pipe end with the last one |
| `Descriptors.ShareKeeps` | kernel/syscall/syscall.c:157-158 | one more slot is one more reference |
| `Descriptors.PipeKeeps` | kernel/fs/pipe.c:206-254 | a new pipe has one file for each end |
| `Descriptors.ForkKeeps` | kernel/proc/fork.c:25-30 | after fork the child has the parent's descriptors, no other table has changed and the counts are exact |
| `Descriptors.Dup2Keeps` | kernel/syscall/syscall.c:143-161 | with both descriptors in range and the old one open, the new one then refers to the file of the old one and no other slot changes; otherwise nothing changes. The counts stay exact |
| `Descriptors.OpenStepKeeps` | kernel/syscall/syscall.c:100-115 | the lowest free descriptor gets a new file; with a full table no slot and no file changes |
| `Descriptors.CloseStepKeeps` | kernel/syscall/syscall.c:118-127 | exactly the slot of the descriptor is emptied; one out of range changes nothing |
| `Descriptors.PipeStepKeeps` | kernel/fs/pipe.c:206-254 | two new files, one for each end, and a new pipe with one reader and one writer |
| `Descriptors.PipeStepSlots` | kernel/fs/pipe.c:206-254 | the two lowest free descriptors get the ends of the new pipe, the read end first |
| `Descriptors.CreateSlots` | kernel/proc/fd.c:9-17 | a new process has descriptors 0, 1 and 2 as far as memory allows, each a file of its own, and no other |
| `Descriptors.StepLives` | kernel/proc/proc.c:216-244 | which processes are there, and which of them have exited, after any step |
| `Descriptors.StepKeepsKinds` | kernel/fs/vfs.c:208-219 | no step makes a file anything else than it was; a new file is a pipe end only where the step makes that pipe |
| `Descriptors.SlotsDetermineFiles` | kernel/fs/vfs.c:208-219 | two states with the same slots and files of the same kinds have the same counts, files and pipes, so what a step does to the slots is all that it does |
| `Descriptors.DestroyKeeps` | kernel/proc/fd.c:28-36 | a destroyed process leaves no reference behind |
| `Descriptors.RefcountIsSlotCount` | kernel/fs/vfs.c:208-219 | in every run a file's count is the number of slots that refer to it, and it is gone exactly when that is zero |
| `Descriptors.PipeEndsFollowSlots` | kernel/fs/pipe.c:170-203 | in every run a pipe counts readers (writers) exactly while some slot holds that end, and exists exactly while some slot holds either |
| `Descriptors.WritersAreProcesses` | kernel/fs/pipe.c:188-203 | in every run a write end counts as open exactly while some process in the table holds it, dead ones included |
| `Descriptors.EndOfStreamIffCollected` | kernel/proc/proc.c:325-349 | once all living processes have closed the write end, a reader of the empty pipe sees the end of the stream if and only if no dead process still holds that end; otherwise it sleeps |
| `Descriptors.DeadWriterHoldsPipe` | kernel/proc/proc.c:325-349 | a run in which the only writer has exited and a reader goes to sleep until the dead writer is destroyed |
| `KernelFds.FdLayer.VfsClose` | kernel/fs/vfs.c:208-219 | drops one reference |
| `KernelFds.FdLayer.FdClose` | kernel/proc/fd.c:20-25 | closes one slot |
| `KernelFds.FdLayer.FdTableCloseAll` | kernel/proc/fd.c:28-36 | closes all slots of a table |
| `KernelFds.FdLayer.FdTableClone` | kernel/proc/fd.c:39-45 | shares every file of a table |
| `KernelFds.FdLayer.FdInstall` | kernel/proc/fd.c:48-57 | uses the lowest free slot, or fails and changes nothing |
| `KernelFds.FdLayer.SysOpen` | kernel/syscall/syscall.c:100-115 | takes the open step and returns the lowest free descriptor; with a full table the file is closed again |
| `KernelFds.FdLayer.SysDup2` | kernel/syscall/syscall.c:143-161 | the new slot holds the file of the old one and no other slot changes, or nothing does; the source's results |
| `KernelFds.FdLayer.SysClose` | kernel/syscall/syscall.c:118-127 | takes the close step with the source's results |
| `KernelFds.FdLayer.PipeCreate` | kernel/fs/pipe.c:206-254 | takes the pipe step and returns the two lowest free descriptors |
| `KernelFds.FdLayer.FdTableInit` | kernel/proc/fd.c:9-17 | opens the three standard descriptors as far as memory allows |
| `KernelFds.FdLayer.ForkTable` | kernel/proc/fork.c:25-30 | takes the fork step on descriptors |
| `KernelFds.FdLayer.DestroyTable` | kernel/proc/proc.c:216-244 | takes the destroy step on descriptors |
| `RamFiles.ReadUntilEndIsAll` | kernel/fs/vfs.c:222-230 | reading in chunks until nothing comes yields exactly the content if and only if every read moves the offset |
| `RamFiles.MovesIff` | kernel/fs/vfs.c:227-229 | which is so unless a file of 2^31 bytes is first asked for all of them at once |
| `RamFiles.SpliceRoundTrip` | kernel/fs/ramfs.c:107-137 | what was written is read back there, and reads elsewhere give what they gave |
| `RamFiles.AppendConcatenates` | kernel/fs/vfs.c:238 | appends concatenate |
| `RamFiles.GrowthEndsIff` | kernel/fs/ramfs.c:117-119 | the doubling loop ends if and only if the size needed is at most 2^31 |
| `KernelRamFs.RamFile.NewCapacity` | kernel/fs/ramfs.c:117-119 | the doubling loop ends with a capacity that suffices |
| `KernelRamFs.RamFile.Grow` | kernel/fs/ramfs.c:115-133 | a larger buffer with the same content |
| `KernelRamFs.RamFile.Read` | kernel/fs/ramfs.c:92-104 | returns the bytes at the offset, cut at the end of the file |
| `KernelRamFs.RamFile.Write` | kernel/fs/ramfs.c:107-137 | splices the data in; other bytes stay; without memory nothing changes |
| `KernelRamFs.RamFile.Open` | kernel/fs/ramfs.c:72-83 | truncation empties the file |
| `KernelRamFs.OpenFile.Read` | kernel/fs/vfs.c:222-230 | reads at the offset and advances it by what was read, unless the count comes back negative |
| `KernelRamFs.OpenFile.Write` | kernel/fs/vfs.c:233-246 | splices at the offset, or at the end when appending, and advances unless the count comes back negative; fails exactly for an empty request or when the file cannot grow, and then changes no byte |
| `Paths.ResolveViaParent` | kernel/fs/vfs.c:112-145 | unless something is mounted below its parent, a path resolves like its parent followed by the names in its leaf |
| `Creation.LeafIsLastNameIff` | kernel/fs/vfs.c:179-191 | the leaf that open and mkdir make is the last name of the path if and only if that name is proper and its slash is among the first 127 characters |
| `Creation.CreateThenResolve` | kernel/fs/vfs.c:169-205 | with a leaf that is read as it is stored, an open that creates leads to the vnode opened, and every path that resolved before resolves as it did |
| `Creation.CreateThenResolveIff` | kernel/fs/vfs.c:169-205 | that holds in every file system reachable from boot by opens, mkdirs and mounts if and only if the leaf is read as it is stored, or is only slashes |
| `Creation.MkdirThenResolve` | kernel/fs/vfs.c:249-273 | with a proper leaf, after mkdir the path leads to the vnode handed back unless something is mounted there, in which case it leads there as before |
| `Creation.MkdirThenResolveIff` | kernel/fs/vfs.c:249-273 | that holds in every reachable file system if and only if the leaf is a proper name or the path is the root |
| `Creation.MkdirMakesDirectoryIff` | kernel/fs/ramfs.c:174-196 | with a proper leaf and nothing mounted on the path, after a successful mkdir it leads to a directory if and only if it led nowhere or to a directory before |
| `Creation.MkdirOverFile` | kernel/fs/ramfs.c:179-183 | after an open that makes a file, mkdir of the same path succeeds and the path leads to the file |
| `Creation.CreationKeepsIff` | kernel/fs/ramfs.c:155-196 | a creation leaves all paths of all reachable file systems alone if and only if its leaf is not cut to a name that hides another |
| `Creation.ResolutionIsStable` | kernel/fs/ramfs.c:155-196 | over any sequence of such creations a path that resolves keeps its vnode |
| `Creation.CutHidesDirectory` | kernel/fs/vfs.c:179-198 | two calls of mkdir and an open after which the path of the second directory leads to the new file |
| `Creation.ReachableInv` | kernel/fs/vfs.c:58-83 | in every reachable file system "/" is mounted, mount paths have at most 127 characters, stored names at most 63, and vnode numbers are fresh |
| `Paths.MountPointResolves` | kernel/fs/vfs.c:86-124 | a mount point resolves to the root mounted on it |
| `PathWalk.NamesAreComponents` | kernel/fs/vfs.c:127-135 | the loop takes the components between slashes as long as none is over 63 characters |
| `PathWalk.BestIsDeepest` | kernel/fs/vfs.c:86-109 | where matching goes by components, the longest textual match is the mount with the most components |
| `PathWalk.DeepestIsDeepest` | kernel/fs/vfs.c:86-109 | no mount whose components come first in the path has more of them |
| `PathWalk.ResolveIsWalk` | kernel/fs/vfs.c:112-145 | resolution is a component-by-component walk from the deepest mount, for paths without a doubled slash within reach of a mount path and without a component over 63 characters |
| `PathWalk.ResolveIsWalkIff` | kernel/fs/vfs.c:71-121 | for any absolute path it is so in every file system with canonical mount paths of at most 127 characters if and only if the path begins with the text of its first components wherever that text can be a mount path, and no component is over 63 characters |
| `PathWalk.NeatIffNeatForMounts` | kernel/fs/vfs.c:71-72 | for a path of at most 127 characters the part of that condition about slashes is that none is doubled before the last component |
| `PathWalk.ResolveIsWalkIffNeat` | kernel/fs/vfs.c:98-121 | for a path of at most 127 characters it is so in every reachable file system with canonical mount paths if and only if the path has no doubled slash before its last component and no component over 63 characters |
| `KernelVfs.Vfs.FindMount` | kernel/fs/vfs.c:86-109 | the loop finds the longest match |
| `KernelVfs.Vfs.VfsMount` | kernel/fs/vfs.c:58-83 | adds a mount with its path cut to 127 characters, or fails when there are 8 |
| `KernelVfs.Vfs.Resolve` | kernel/fs/vfs.c:112-145 | the cursor loop resolves as specified |
| `KernelVfs.Vfs.RamfsLookup` | kernel/fs/ramfs.c:140-152 | the list walk finds the first entry of that name |
| `KernelVfs.Vfs.RamfsCreate` | kernel/fs/ramfs.c:174-196 | hands back an existing entry or puts a new one in front |
| `KernelVfs.Vfs.OpenCreate` | kernel/fs/vfs.c:169-205 | takes the create step |
| `KernelVfs.Vfs.Mkdir` | kernel/fs/vfs.c:249-273 | takes the mkdir step |

## Left out

- Assembly stubs, descriptor tables, task state segment, CR3 and TLB: hardware effects; a context switch is a change of the current process.
- Serial, VGA, timer and keyboard drivers, console output: input and output only. The keyboard's wake-up is a step of the process machine.
- The ELF loader and the system-call dispatcher: single-branch glue and file parsing.
- Address spaces other than the kernel's: teardown does not free the directory frame, so there is nothing to state about reclaiming.
- Accounting fields of a process (ticks run, times scheduled, creation tick), `proc_set_priority` and `proc_set_timeslice`: nothing reads the former, nothing calls the latter.
- Device nodes and vnode reference counts: ramfs vnodes are never released, so their counts decide nothing.
- Unlinking and listing directories, and allocation failure while creating a name, which leaves everything unchanged: easy members.
- The failure paths of `pipe_create` after its files exist: they release objects that closing has already released. `MakePipe` needs two free slots for this reason.
- KernelHeap.KHeap.Kmalloc: requests whose extension would end beyond 4 GiB are excluded by `NoWrap`, because the code then writes its tags outside the heap; `HeapRuns.NoWrapIff` says exactly which those are, and `HeapRuns.MallocSoundIff` that the heap is sound after exactly the others.
- HeapRuns.MallocSpec: excludes the same requests.
- KernelHeap.KHeap.constructor: a supply of fewer than 18 frames is excluded, because the code panics (`HeapRuns.BootIsFirstExtension`).
- KernelHeap.KHeap.KmallocAligned: sizes for which the total with page and back pointer wraps are excluded, because the block is then too small (`HeapTags.AlignedFitsIff`) and the code stores the back pointer outside it.
- KernelHeap.KHeap.Kfree: only live pointers and null may be freed, because the code trusts the tag word before any pointer it is given.
- FrameAllocator.Pmm.constructor: map entries that end beyond 64 bits and an upper-memory size beyond 4 GiB are excluded, because the code would write outside its bitmap.
- KernelRamFs.RamFile.Write: the bytes between the old end and a write beyond it are unspecified, because the code leaves them uninitialised. Writes that end beyond 2^31 are excluded, because the growth loop does not end (`RamFiles.GrowthEndsIff`) or, where the end wraps 32 bits, the copy runs past the buffer.
- PathWalk.ResolveIsWalk: components over 63 characters are excluded, because the loop cuts them into pieces; `PathWalk.ResolveIsWalkIff` shows that it cannot do without.
- PipeProtocol.SleeperJustified: exec on a sleeping process is not part of the runs, because it leaves the waiter slot behind.
- KernelVmm.Vmm.MapRange: lengths for which the loop never ends are excluded; `KernelVmm.RangeLoopEndsIff` says which.
- KernelFds.FdLayer.PipeCreate: tables with fewer than two free slots are excluded, for the reason given above.
- KernelRamFs.OpenFile.Write: excludes the writes that `KernelRamFs.RamFile.Write` excludes.
- KernelProcs.Kernel.ProcFork: the descriptors of the child are the matter of `KernelFds.FdLayer.ForkTable`.
- KernelProcs.Kernel.ProcDestroy: the descriptors are the matter of `KernelFds.FdLayer.DestroyTable`; a process that is no ZOMBIE makes the source panic.
- Sleeping.SleepLasts: sleeps that are not exact are excluded; `Sleeping.SleepExactIff` says what becomes of them.

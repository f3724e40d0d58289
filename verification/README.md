# A verified model of the BTL_OS simulator

The simulator runs programs on several simulated CPUs in lockstep time slots. This project models its
three stateful parts and proves what they promise over whole runs.

* **Paged heap** (`Regions`, `Heap`, `MemPhy`, `Paging`, `SharedMemory`, `Refinement`, `VirtualMemory`,
  `FifoOrder`, `StaleVictim`, `ProcessMemory`, `LibMem`, `Areas`).
  A process allocates, frees, reads and writes regions. Below that lie a first-fit free list, a break
  that grows by pages, a page table, and one pool of RAM frames shared by all processes. The main results:
  whatever any number of processes do, an in-bounds read returns the last byte its own process wrote there;
  and with a swap device beside RAM, growth and page replacement leave every mapped page its bytes.
* **MLQ scheduler and the CPU and loader threads** (`Queue`, `Sched`, `Fairness`, `Os`, `Placement`,
  `RunningOrder`, `Completion`, `Clock`, `Deadline`, `Shutdown`). Array queues, slot budgets and time slices.
  The main results:
  an explicit bound on waiting, unique placement, exact slices, exact release times, a deadline for the whole
  configuration, no process left behind when the CPUs stop, and exactly which CPUs can stop.
* **Timer barrier** (`Barrier`, `Timer`, `TimerSafety`, `TimerProgress`). The lock and condition-variable
  protocol, one step per lock operation, shared access or signal. It refines the simple barrier machine that
  the CPU and loader model is built on, it cannot deadlock, and its threads cannot spin.

## How the model is layered

Code that changes data in place is a class or a method with loops (`Queues.Queue`, `Scheduler.MlqScheduler`,
`MemPhy.Memory`, `ProcessMemory.Process`). Each method is proved equal to a function on values, and the
properties of whole runs are lemmas about those functions. The four calls a program makes, in `LibMem`, are
proved to perform exactly the steps of the machine those lemmas speak about. A C linked list is the sequence
of its nodes, front first, reassigned by the loops that walk it; a fixed-size buffer is an array. The threads
are state machines over their steps. Fields called history variables in the comments (`lost`, `ran`, `runs`, `trace`,
`live`, `addedAt`, `slots`, `cleared`) record the past and influence no step.

`PAGE_SIZE`, `MAX_PGN`, `SYMTBL_MAX`, `MAX_QUEUE_SIZE`, `MAX_PRIO` and `TIME_SLOT` are constants of unknown value.
A page table entry is unmapped, in RAM, or swapped; the headers that fix its bits are not part of this model.

## What the code does that one might not expect

* `pte_set_swap` sets the present bit (`src/mm.c:56`), so `pg_getpage` takes a swapped page for a resident one.
  The model follows the code: `Paging.Present` is the present bit, and `Paging.GetPageBringsIn` says exactly
  when a call leaves its page in RAM. The replacement path itself is specified and proved for every page that
  is not in RAM, and the runs of `VirtualMemory` mix both readings of the test. In-bounds accesses reach
  neither case: `SharedMemory.InRamBelowBreak`.
* A page enters the FIFO list on every access, so the tail may be a page that is already out.
  `StaleVictim.StaleVictimReached` and `StaleVictim.StaleVictimCorrupts` follow a run on which that happens, to
  a read that returns the wrong byte; `Paging.SafeVictims` says exactly which victims are safe.
* Accesses above the break are not refused, so growth may overwrite page table entries that are in use.
  `VirtualMemory.GrowthLosesNothing` says exactly when a frame is lost.
* Bringing a page back from swap would never return its swap frame: `Paging.SwapFramesConserved`. As the code
  stands no swap frame is lost, because no page is ever brought back: `VirtualMemory.NextSwap`.
* Allocating over a live slot loses the old region. The heap partition counts it among the `lost` regions.
* An idle CPU loops at `src/os.c:59-62` without looking at `done`, so a CPU may never stop.
  `Shutdown.IdleLoopReached` gives a run, and `Shutdown.StopsUnlessIdling` and `Shutdown.AllStopUnlessIdling`
  the exact condition. The converse always holds, `Clock.StoppedMeansAllComplete`, and all processes are
  complete by a known slot in any case, `Deadline.CompleteByDeadline`.
* A read or write with a bad region id returns with the memory lock still held (`src/libmem.c:409-410`); the
  contracts of `ReadRegion` and `WriteRegion` say so.
* `MEMPHY_format` leaves the next pointer of a single-frame list unset: `MemPhy.FormattedSound`.
* `init_mm` clears only entry 0 of the region table and no page table entry. The constructor of
  `ProcessMemory.Process` takes whatever the fresh memory holds; the runs start from zeroed tables.
* The guards on region ids accept `PAGING_MAX_SYMTBL_SZ` itself, so the table has an entry for it here.

## Assumptions on the callers

Reads and writes stay inside a live region. Sizes are not negative and addresses do not overflow. RAM has at
most `MAX_PGN` frames. Process priorities are below `MAX_PRIO`, pids are unique (`src/loader.c:38-39`), and the
loader adds a process only while fewer than `MAX_QUEUE_SIZE` are live, because a full queue drops silently.

## Model

| member | source | states |
|---|---|---|
| Queues.Queue.Enqueue | src/queue.c:10-22 | Appends at the back; NULL and a full queue change nothing |
| Queues.Queue.ShiftDown | src/queue.c:33-37 | The shifting loop removes one cell and keeps the order of the rest; cells past the size stay NULL |
| Queues.Queue.Dequeue | src/queue.c:24-40 | Takes the front process, or NULL from an empty queue |
| Queues.Queue.DequeueRunning | src/queue.c:43-59 | Removes the first process with the pid, and says whether there was one |
| Queues.WithoutPidKeepsOrder | src/queue.c:43-59 | Exactly the first process with the pid is gone; those before it stay, those behind it move up by one |
| Scheduler.MlqScheduler.constructor | src/sched.c:29-41 | Empty queues, and MAX_PRIO - i slots at level i |
| Scheduler.MlqScheduler.Dispatch | src/sched.c:57-60 | The head of the level moves to the running list and the level pays one slot |
| Scheduler.MlqScheduler.Scan | src/sched.c:55-65 | One pass serves the lowest-numbered level with a slot and a process, or nobody |
| Scheduler.MlqScheduler.ResetSlots | src/sched.c:66-69 | Every level gets its whole budget back and the queues stay |
| Scheduler.MlqScheduler.GetMlqProc | src/sched.c:50-73 | The two-attempt loop over arrays of queues is the function Get |
| Scheduler.MlqScheduler.PutMlqProc | src/sched.c:75-87 | put and add: to the back of its own level, off the running list |
| Scheduler.GetContract | src/sched.c:50-73 | NULL if and only if every queue is empty; budgets stay in 0 .. MAX_PRIO - i |
| Scheduler.GetDispatches | src/sched.c:54-64 | The process served is the front of one level; no lower-numbered level could have been served; nothing else moves |
| Fairness.RoundLengthFormula | src/sched.c:66-69 | A round has MAX_PRIO (MAX_PRIO + 1) / 2 slots |
| Fairness.FetchBringsCloser | src/sched.c:50-73 | A fetch hands out the waiting process or lowers its bound by at least one, resets included |
| Fairness.HandedWithinBound | src/sched.c:50-87 | Starvation bound: handed out within sum(slot) + T n fetches, whatever arrives meanwhile |
| Fairness.ServedSpendsSlots | src/sched.c:56-60 | Within a round the dispatches of a level are exactly the slots it has spent |
| Fairness.WeightedShare | src/sched.c:50-73 | From the fetch that opens a round to the one that opens the next, a level is served at most MAX_PRIO - i times, and exactly so often if it still has work then |
| Fairness.FirstRoundShare | src/sched.c:29-41 | The same from the start state: before the first reset level i is served at most MAX_PRIO - i times, and exactly so often if it still has work then |
| Fairness.LevelIsFifo | src/sched.c:50-87 | Over any run what a level handed out and still holds is what it held followed by what was admitted, in order |
| Timer.NextInv | src/timer.c:21-93 | The protocol invariant is kept by every step of every thread, spurious wake-ups included |
| TimerSafety.Lockstep | src/timer.c:21-77 | A working device has completed exactly `time` slots; unfinished devices are at most one slot apart |
| TimerSafety.TimeStable | src/timer.c:44-45 | No step changes the time while a device works in its slot |
| TimerSafety.NoLostWakeup | src/timer.c:30-36 | Whoever sleeps on a condition that holds is about to be signalled |
| TimerSafety.ExitIsExact | src/timer.c:37-56 | At the tick fsh equals event if and only if all have detached; the timer leaves exactly when it let nobody go |
| TimerSafety.Refines | src/timer.c:21-93 | Every step is one event of the simple barrier or invisible |
| TimerSafety.RunRefines | src/timer.c:21-93 | The visible events of any run form a run of the simple barrier |
| TimerSafety.InitRefines | src/timer.c:15-27 | The protocol starts where the barrier starts, at time 0 with every device in its first slot |
| TimerSafety.StartRefines | src/timer.c:21-93 | Every run of the protocol from its start is a run of the very barrier the CPU and loader threads start from |
| TimerSafety.CountersAreExact | src/timer.c:44-77 | Over any run the time is the number of ticks, and the slots of a device are the next_slot calls it has begun but for the one it may be in |
| TimerSafety.StopIsHonoured | src/timer.c:22-56 | Once asked to stop the timer ticks at most once more |
| TimerProgress.QuietMeansWaitingForWork | src/timer.c:31-36 | The system rests only when the timer has left or waits for a device that works; nobody is left over from an earlier slot |
| TimerProgress.NoDeadlock | src/timer.c:21-93 | With no device working and the timer not gone, some thread can move |
| TimerProgress.EventWorks | src/timer.c:21-93 | Each protocol step lowers the outstanding work; a call or a detach adds a bounded amount |
| TimerProgress.WorkIsBounded | src/timer.c:21-93 | Protocol steps of any run are bounded by the devices' calls and the spurious wake-ups |
| Placement.BootPlaced | src/os.c:199-262 | Before any thread has moved, every process is accounted for |
| Placement.AdmitLosesNobody | src/queue.c:10-22 | Admitting keeps everybody if and only if the level has room; a full queue drops the newcomer |
| Placement.NextPlaced | src/os.c:48-143 | Unique placement is kept by every step of every CPU and the loader |
| Placement.ExactlyOnePlace | src/os.c:48-103 | A live process is once in its own ready queue and with no CPU, or in none and with one CPU |
| Placement.NoSharedProcess | src/os.c:48-103 | Two CPUs never have the same process in hand |
| RunningOrder.RunningInDispatchOrder | src/queue.c:43-59 | Over any run the running list is what the CPUs have in hand, in the order in which they took it |
| Completion.NextProgress | src/os.c:54-100 | Time slices, program counters and run counts stay consistent under every step |
| Completion.SliceIsExact | src/os.c:72-98 | A process put back has run exactly TIME_SLOT instructions, one that finishes at most that many; time_left is 0 with no process |
| Completion.GoneMeansComplete | src/cpu.c:61-70 | A process leaves only after instructions 0 .. size - 1 ran in order, once each |
| Completion.OccupancyBound | src/os.c:48-103 | Over any run the occupied CPU slots are at most the sum of max(1, size) |
| Clock.FollowsBarrier | src/os.c:61-141 | The CPU and loader threads use the barrier only through its own events |
| Clock.ReleaseTimeIsMaximum | src/os.c:116-137 | The release slot is the maximum over j <= i of start[j] + i - j |
| Clock.AddedOnTime | src/os.c:116-137 | Over any run process i is added in exactly its release slot, never early, one per slot |
| Clock.StoppedMeansAllComplete | src/os.c:80-84 | If every CPU has stopped, every configured process was loaded and has run to its end |
| Shutdown.IdleCpuNeverStops | src/os.c:56-63 | Once all work is over, a CPU in the idle loop stays there for ever |
| Shutdown.StopsUnlessIdling | src/os.c:54-103 | Once all work is over and `done` is set, a CPU can still stop if and only if it is not in the idle loop |
| Shutdown.AllStopUnlessIdling | src/os.c:54-103 | Then all CPUs can still stop if and only if none of them is in the idle loop |
| Shutdown.IdleLoopReached | src/os.c:56-143 | One CPU and one process of one instruction: a run from the start after which the CPU never stops |
| Shutdown.NoWorkNeverStops | src/os.c:56-63 | With no process to load, no CPU ever stops |
| Deadline.LiveMeansBusy | src/os.c:54-100 | While a process is live, some CPU is busy or the process has just arrived |
| Deadline.NextPaid | src/os.c:48-143 | After the last arrival every slot with work left is paid for by an instruction run, under every step |
| Deadline.CompleteByDeadline | src/os.c:48-143 | Every process is complete after slot last release + 1 + sum of max(1, size), for any number of CPUs and any interleaving |
| MemPhy.CellInjective | src/libmem.c:344-351 | Frame and offset determine the physical address and are determined by it |
| MemPhy.Memory.constructor | src/mm-memphy.c:227-241 | Zeroed storage and the free list MEMPHY_format builds |
| MemPhy.Memory.Format | src/mm-memphy.c:115-141 | The loop builds the list 0 .. numfp - 1, or fails when there is no whole frame; after a single frame follows whatever its unset pointer leads to |
| MemPhy.FormattedSound | src/mm-memphy.c:115-141 | The list is 0 .. numfp - 1 if and only if there are two frames or the unset pointer is NULL |
| MemPhy.Memory.GetFreeFp | src/mm-memphy.c:143-159 | Takes the head of the free list, or fails |
| MemPhy.Memory.PutFreeFp | src/mm-memphy.c:211-222 | Puts a frame at the head |
| MemPhy.Memory.Read | src/mm-memphy.c:58-69 | The byte in the cell |
| MemPhy.Memory.Write | src/mm-memphy.c:98-109 | Changes one cell |
| MemPhy.CopyCells | src/mm.c:218-228 | The copying loop overwrites exactly one page with the source page |
| MemPhy.SwapCpPage | src/mm.c:215-231 | One frame takes the bytes of another device's frame; every other byte stays |
| Regions.InsertCanonical | src/libmem.c:35-75 | Linking in a region that neither overlaps nor touches keeps the list canonical |
| Regions.CanonicalUnique | src/libmem.c:35-75 | The set of free bytes determines a canonical free list entry by entry |
| Regions.AbsorbApart | src/libmem.c:204-232 | One coalescing pass leaves nothing that touches the grown region |
| Regions.FreedCount | src/libmem.c:183-238 | Freeing adds exactly the bytes of the region to the free bytes |
| Regions.FreedCanonical | src/libmem.c:204-238 | Freeing keeps the list sorted, without empty or touching entries |
| Regions.FreeingNothing | src/libmem.c:196-238 | Freeing an empty slot leaves the free list as it is |
| Regions.CarveCount | src/libmem.c:580-602 | Carving takes exactly the region's bytes out of the free bytes |
| Regions.CarveCanonical | src/libmem.c:580-602 | Carving keeps the list canonical |
| Regions.FirstFitIsLowest | src/libmem.c:578-606 | First fit picks the lowest-addressed region that is large enough |
| Regions.CarveThenFree | src/libmem.c:183-238 | Giving back what was carved restores the list entry by entry |
| Heap.PagesForIsLeast | src/mm-vm.c:118-119 | The increment is the least whole number of pages that holds the request |
| Heap.InitHeapOk | src/mm.c:238-268 | A new process owns nothing: empty slots, no page mapped or listed, break 0 |
| Heap.AllocHeapOk | src/libmem.c:98-174 | Live, free and lost regions stay a partition of [0, sbrk); the slot gets the new region, and an old one there is lost |
| Heap.FreeHeapOk | src/libmem.c:183-255 | The partition stays; a region with bytes is freed and its slot cleared, an empty slot changes no free byte, a failure changes nothing |
| Heap.FreeSucceedsExactlyWhen | src/libmem.c:196-238 | Free succeeds if and only if the slot holds bytes, or is empty at an address where a free region begins or ends |
| Heap.AllocThenFree | src/libmem.c:98-255 | Allocating from the free list and freeing restores the whole descriptor |
| Heap.GrowthIsMinimal | src/libmem.c:98-174 | The break moves only if no free region fits, then by ceil(size / page) pages; else the lowest fitting region is used |
| Heap.GrowthFrames | src/mm.c:83-165 | A growth maps the new pages to the first frames of the pool, the last one taken first, and no other entry changes |
| Heap.AllocFailsExactlyWhen | src/libmem.c:98-147 | Fails if and only if no free region is large enough and the free frames together are smaller than the request; then nothing changed |
| SharedMemory.PagesFitFrames | src/mm.c:83-117 | Mapped pages and free frames never exceed the frames, so page numbers stay below MAX_PGN |
| SharedMemory.GrowFrames | src/mm.c:83-165 | Growth keeps exact frame ownership across all processes, whatever lies below the break |
| SharedMemory.InRamBelowBreak | src/libmem.c:290-296 | Every page below the break is in RAM, so in-bounds accesses never replace |
| SharedMemory.CellsDistinct | src/libmem.c:342-351 | Different addresses, of one process or two, have different cells |
| SharedMemory.StepOk | src/libmem.c:98-466 | Frame ownership, partition, canonical lists and residency are kept by every call of every process |
| Refinement.WriteChangesOneByte | src/libmem.c:372-392 | A write changes the byte at its own address and at no other live address of any process |
| Refinement.StepRefines | src/libmem.c:98-466 | Every call is one call on an array of private byte sequences |
| Refinement.HoldsLastWritten | src/libmem.c:98-466 | Over any run a place in a live region holds what its process last wrote there |
| Refinement.ReadReturnsLastWritten | src/libmem.c:403-444 | An in-bounds read returns the last byte its process wrote at that region and offset |
| Paging.GetPageBringsIn | src/libmem.c:290-334 | After a successful call the page is in RAM if and only if it was not on swap |
| Paging.FailedCallPopsVictim | src/libmem.c:297-306 | A call fails exactly when the page is not present and swap is full; then just the tail page has left the FIFO list |
| Paging.FaultCoherent | src/libmem.c:297-325 | With a resident victim, frames and swap frames stay distinct and off the free lists, across processes |
| Paging.FaultKeepsContents | src/libmem.c:297-325 | With a resident victim other than the page, every page of every process keeps its contents and the page is in RAM |
| Paging.FaultKeepsRamFrames | src/libmem.c:297-325 | The same RAM frames are occupied and the same are free |
| Paging.SwapFramesConserved | src/libmem.c:297-325 | With a resident victim, every swap frame stays free or in use if and only if the wanted page was not on swap |
| StaleVictim.StaleVictimReached | src/libmem.c:290-334 | An allocation and a store, then accesses to two pages above the break: the second takes a victim that is already out |
| StaleVictim.StaleVictimCorrupts | src/libmem.c:290-392 | Two pages then share a frame, and a read of the victim returns a byte written to another page |
| Paging.SafeVictims | src/libmem.c:297-325 | With every RAM frame accounted for, a page fault keeps the system coherent if and only if the victim is in RAM and is not the wanted page, or swap is full |
| VirtualMemory.SystemIsOwned | src/mm.c:83-165 | Every state heap calls lead to meets the assumptions of paging: frames distinct, off the free list and accounted for |
| VirtualMemory.GrowthKeepsFrames | src/mm.c:83-207 | Growth, with pages swapped below the break or not, keeps frame ownership if and only if it overwrites no entry that holds a frame |
| VirtualMemory.GrowthLosesNothing | src/mm.c:83-207 | It keeps every frame of RAM and swap accounted for if and only if the entries it overwrites were never mapped |
| VirtualMemory.CallIsGetPage | src/libmem.c:290-334 | With the present bit as test, a step of the run is the code's own pg_getpage |
| VirtualMemory.StoreChangesOneByte | src/libmem.c:372-392 | A store changes one byte of one page of one process, wherever the other pages are |
| VirtualMemory.NextOwned | src/libmem.c:290-334 | Frame ownership across all processes is kept by every growth, failed growth, replacement, access and store |
| VirtualMemory.NextSwap | src/libmem.c:290-334 | Swap frames stay accounted for if and only if the step does not bring a page back from swap |
| VirtualMemory.RunMeaning | src/libmem.c:290-392 | Over any run of growths, replacements, accesses and stores by all processes, each mapped page holds its start contents changed by its own stores alone, and frames stay owned |
| FifoOrder.VictimsInArrivalOrder | src/libmem.c:290-334 | Over any run the pages that left a process's FIFO list, then those on it from the tail on, are the initial list followed by the pages listed since, in order |
| FifoOrder.LeavingGoesOut | src/libmem.c:297-325 | On a replacement the page that leaves the list goes to swap, and no other page of any process leaves RAM |
| FifoOrder.ListIsArrivalOrder | src/mm.c:98-111 | From power-on, over any in-bounds calls, the list from its tail on is the new pages in address order and the accessed pages, as they came |
| ProcessMemory.Process.constructor | src/mm.c:238-268 | An empty descriptor over whatever the fresh tables hold, but for entry 0 of the region table |
| ProcessMemory.Process.EnlistVmFreergList | src/libmem.c:35-75 | The walk inserts before the first node at or past the end; an empty region is refused |
| ProcessMemory.Process.GetFreeVmrgArea | src/libmem.c:562-610 | First fit, with the rest linked back in |
| ProcessMemory.Process.Coalesce | src/libmem.c:205-232 | The in-place pass is Absorb |
| ProcessMemory.Process.FreeRegion | src/libmem.c:183-255 | Refuses bad ids; otherwise the whole new descriptor is Free of the old one |
| ProcessMemory.Process.AllocPagesRange | src/mm.c:127-165 | n frames, last taken first; short of that the pool is restored in its exact order |
| ProcessMemory.Process.VmapPageRange | src/mm.c:83-117 | Consecutive pages get the frames in list order and enter the FIFO list |
| ProcessMemory.Process.VmMapRam | src/mm.c:176-207 | All pages mapped, or nothing changed |
| ProcessMemory.Process.GetVmAreaNodeAtBrk | src/mm-vm.c:55-76 | The region starts at the first page boundary at or above the break, which is the break itself when aligned |
| ProcessMemory.Process.IncVmaLimit | src/mm-vm.c:115-138 | The overlap walk never refuses; the break moves by whole pages, also when mapping then fails |
| ProcessMemory.Process.AllocRegion | src/libmem.c:98-174 | Alloc of the old state; on failure the descriptor and the frame pool, in its order, are as before |
| ProcessMemory.Process.FindVictimPage | src/libmem.c:525-553 | Removes the tail of the FIFO list |
| ProcessMemory.Process.ReplacePage | src/libmem.c:297-325 | The page-fault path is Replace, on descriptor, RAM and swap, whatever the swap entry's frame field then reads as |
| ProcessMemory.Process.PgGetPage | src/libmem.c:290-334 | Replaces only when the present bit is clear, enlists the page, returns the frame field |
| ProcessMemory.Process.PgGetVal | src/libmem.c:342-363 | The byte in the frame the page has after the call |
| ProcessMemory.Process.PgSetVal | src/libmem.c:372-392 | Exactly one RAM cell changes after the page was brought in |
| ProcessMemory.Process.ReadRegion | src/libmem.c:403-417 | -1 for a bad id, the lock then still held; else what pg_getpage does and the byte behind the address; with the page in RAM only the FIFO list changed |
| ProcessMemory.Process.WriteRegion | src/libmem.c:454-466 | -1 for a bad id, the lock then still held; else what pg_getpage does and the cell of the address changed; with the page in RAM nothing but that cell and the FIFO list |
| LibMem.AccessPossible | src/libmem.c:342-351 | In a sound system an in-bounds address can be accessed without replacement |
| LibMem.LibAlloc | src/libmem.c:262-268 | On the caller's objects and the shared RAM, exactly the allocation step of the shared memory machine |
| LibMem.LibFree | src/libmem.c:276-282 | Exactly the free step |
| LibMem.LibRead | src/libmem.c:420-444 | Exactly the read step, with the byte it returns |
| LibMem.LibWrite | src/libmem.c:469-488 | Exactly the write step |
| Areas.ClashesIsOverlap | src/mm-vm.c:98-101 | The three tests are interval overlap |
| Areas.ValidateOverlapVmArea | src/mm-vm.c:82-107 | Refuses if and only if another area clashes |

## Left out

- ReadRegion: a thread that waits for the lock is not modelled; each call is one atomic step, and the methods ask that the lock is free.
- FaultKeepsContents: asks for a resident victim other than the wanted page; `SafeVictims` shows that no weaker guard will do.
- RunMeaning: asks that victims are resident and that growth overwrites no entry in use; `SafeVictims` and `GrowthLosesNothing` show that no weaker guards will do.
- HandedWithinBound: speaks of a scheduler without `killall`, which edits queues outside their lock.
- PutMlqProc: stands for `put_mlq_proc` and `add_mlq_proc`, whose bodies are the same, and omits the `priority` field that `enqueue` overwrites and nobody reads.
- Lists are sequences of nodes: allocation, aliasing and release of list nodes, and failing `malloc`, are not modelled.
- `dequeue_running` at `src/os.c:67` runs without the queue lock; it is one atomic step here.
- Instructions are opaque to the CPU model: `run` advances the program counter and records the instruction; the memory calls it makes are the operations of `SharedMemory`.
- Bit layouts of page table entries, sequential devices, `free_pcb_memph`, the syscall table, `killall`, printing, configuration parsing, the obsolete `mem.c` and `paging.c`, and the scheduler without MLQ.
- Attaching devices and tearing the timer down; the protocol starts with n attached devices.
- Integer widths: sizes and addresses are unbounded naturals.

# A verified model of WKOS

WKOS is a small real-time operating system with drivers for SPI flash and a USB device port. This project models the parts
of it that keep state over long runs, and proves what they promise. Every file is a module of its own:

| file | models |
|---|---|
| `Bytes.dfy`, `Words.dfy`, `Queues.dfy` | helpers: stores into a sequence, 32-bit words, lists of tasks |
| `NorFlash.dfy`, `W25qxx.dfy` | the NOR chip as erase and program operations, and the driver that makes a memory of it |
| `Download.dfy` | the firmware download session on top of the driver |
| `ListHead.dfy` | the circular doubly linked lists of the kernel, on the heap |
| `MmRuns.dfy`, `Mm.dfy` | the block allocator: its state as a sequence of runs, and the in-band headers in place |
| `TaskMemory.dfy` | stacks, pids and tagged memory of tasks over whole runs |
| `Bitmap.dfy`, `ReadyTable.dfy` | find-first-set and the two forms of the ready bitmap |
| `Timers.dfy`, `TimerList.dfy` | tick arithmetic and the timeout list: as values, and in place |
| `Tasks.dfy`, `Kernel.dfy` | the scheduler and the life of a task: as functions on a state, and in place |
| `Scheduling.dfy`, `Sleeping.dfy`, `Ordering.dfy` | the invariant of every reachable state, who runs, how long a task sleeps, and that nobody overtakes |
| `Effects.dfy` | what each call does to every task, field by field, and to the lists |
| `Slicing.dfy`, `RoundRobin.dfy` | time slices of one priority, as a queue and in the kernel |
| `Semaphore.dfy`, `SemObject.dfy` | counting semaphores on top of the scheduler: as values, and in place |
| `Counting.dfy` | what each call does to count and queue, and what it is to the scheduler |
| `Sends.dfy`, `Scenarios.dfy` | what becomes of a send over whole runs, and runs from the start that reach special states |
| `Fifo.dfy` | the ring buffer and the log that uses it |
| `Usb.dfy` | control and data transfers across callbacks |
| `Format.dfy`, `Conversions.dfy` | the text a format means, scanned as the source does, and told from the spelling of each conversion |
| `Vsprintf.dfy` | the formatter that writes that text into a limited buffer |

Code that works in place is a class with the fields of the source's struct, or a method over an array. Its methods are
proved equal to functions on values, and the long-run properties are proved about those. Each API call is one atomic step.

## What the code does that its callers might not expect

These are properties of the code as it is; each has a lemma or a contract that says exactly when it happens.

* An allocation whose run ends with the pool links to a header outside it, and the header list is no ring any more
  (`Mm.Pool.MmAlloc`), as with a request for all blocks of a fresh pool (`MmRuns.WholePoolIff`).
* A failed stack allocation does not return NULL but the last word of a stack at address 0, and fills memory from there
  (`Mm.Pool.StackAlloc`).
* A task creation without memory for the stack goes on with that word: with a size of 0 it makes a pid of it and frees what
  it has not got (`TaskMemory.NoStack`).
* The flash write returns the size of its last chunk (`W25qxx.Driver.Write`).
* A first download package tagged 0xFF counts as a repetition; a package for no partition is acknowledged but not stored; a
  header of the wrong kind or index ends the session with the return code 0; the reboot flag goes to the address that is
  left of 0x7f00000 in 24 bits (`Download.ExactlyOnce`, `Download.Updater.WriteImgToFlash`, `Download.ReturnsZeroIff`,
  `Download.Updater.WriteRebootFlag`).
* Time slices are only fair between tasks that have not used up part of theirs before (`RoundRobin.KernelFairIff`),
  which a yield in the middle of a slice is enough to do (`Scenarios.BrokenSlice`).
* A change of priority keeps the mask of the priority the task was created with, and can leave the bitmap out of step with
  the lists, even if the priority stays (`ReadyTable.SetPrioIff`, `ReadyTable.SetPrioTwice`).
* `task_ready` of a waiting task leaves its timer armed (`Scheduling.TaskReadyIff`).
* One `sch_unlock` too many locks the scheduler (`Scheduling.UnlockIff`, `Scheduling.UnlockTooOften`).
* A semaphore send is swallowed, with no count raised and no task woken, if and only if the first waiter is not blocked any
  more, as when its time is up but it has not returned yet, or when it did not want to wait (`Sends.SendSwallowedIff`,
  `Sends.SendDecides`, `Sends.ZeroTimeoutSwallows`). A send that finds the count at 255 sets it to 0
  (`Semaphore.Conservation`). The queue serves the largest priority number first.
* Deleting a task that waits for a semaphore leaves it in the queue (`Semaphore.DeleteIff`).
* A full read of no bytes never calls its handler (`Usb.ReadFull`), and a control transfer of 2^31 bytes or more beyond one
  packet stops after the first one (`Usb.DataStageIff`).
* `%o` is printed in base 16, as `divide` knows the bases 10 and 16 only, which shows from 8 on (`Format.OctalIff`), and
  `vsnprintf` can return more than the length of the text when the text was cut short (`Vsprintf.ReturnIff`).

## Model

| member | source | states |
|---|---|---|
| W25qxx.Driver.Write | drivers/spi/spi-w25qxx.c:298-347 | for every position and buffer the flash afterwards is the old one with the buffer stored at the position, and the log of erased sectors grows by exactly the dirty ones; the return value is the size of the part in the last sector it comes to, so the size asked for if and only if the write stays in one sector |
| W25qxx.Driver.WriteLoop | drivers/spi/spi-w25qxx.c:307-346 | the loop over sectors, with its growing prefix and the erases still to come |
| W25qxx.Driver.StoreChunk | drivers/spi/spi-w25qxx.c:312-344 | one turn of that loop: the stored prefix grows by the chunk, and the erase log stays on schedule |
| W25qxx.Driver.WriteChunk | drivers/spi/spi-w25qxx.c:314-330 | the part of a write inside one sector is a plain store, whichever branch is taken, and erases only if the target range was dirty |
| W25qxx.Driver.RewriteSector | drivers/spi/spi-w25qxx.c:322-327 | erase, patch the copy and program it back: only the patched range differs |
| W25qxx.Driver.ErasedRun | drivers/spi/spi-w25qxx.c:315-319 | the check stops at the first byte of the target range that is not 0xFF, or runs through |
| W25qxx.Driver.WriteNoCheck | drivers/spi/spi-w25qxx.c:271-294 | programming page by page is one program operation over the whole range |
| W25qxx.Driver.WritePage | drivers/spi/spi-w25qxx.c:249-262 | one page program inside a page |
| W25qxx.Driver.EraseSector | drivers/spi/spi-w25qxx.c:176-190 | one sector becomes 0xFF and is logged |
| W25qxx.LastPartIs | drivers/spi/spi-w25qxx.c:312-346 | what comes before that part are whole sectors, from the one that the write starts in |
| W25qxx.Driver.Read | drivers/spi/spi-w25qxx.c:230-243 | the buffer holds the cells from the position on, starting over behind the last one; beyond size it is unchanged |
| W25qxx.DirtySectorsAre | drivers/spi/spi-w25qxx.c:315-322 | a sector is in the erase schedule if and only if the part of it that is written held a byte other than 0xFF |
| W25qxx.DirtySectorsAscend | drivers/spi/spi-w25qxx.c:312-345 | each sector is erased at most once, in ascending order |
| W25qxx.ProgramErased | drivers/spi/spi-w25qxx.c:263-266 | programming erased cells stores the data |
| W25qxx.ProgramStoresIff | drivers/spi/spi-w25qxx.c:263-266 | without an erase, programming stores the data if and only if it only clears bits |
| NorFlash.NorChip.PageProgram | drivers/spi/spi-w25qxx.c:244-262 | a program operation ANDs the data into at most one page |
| NorFlash.NorChip.SectorErase | drivers/spi/spi-w25qxx.c:176-190 | an erase sets the 4096 bytes of one sector to 0xFF |
| Download.PrefixAtEveryIteration | app/keyboard/com/com_updata.c:86-116 | after every iteration the partition starts with the data of the packages whose tag differs from the one before, and later iterations keep that prefix |
| Download.AcceptedPrefix | app/keyboard/com/com_updata.c:93-98 | the same from any address and tag in the middle of a session, with everything before the address unchanged |
| Download.DownloadFrame | app/keyboard/com/com_updata.c:86-116 | a session only changes the range of its partition that its packages fit into |
| Download.AcceptedGrows | app/keyboard/com/com_updata.c:94-98 | the accepted data of the first packages is a prefix of that of all |
| Download.ExactlyOnce | app/keyboard/com/com_updata.c:71-98 | a sender that repeats its chunks gets each stored exactly once if and only if the tags alternate, counting DATA_ERR as the first |
| Download.DownloadDelivers | app/keyboard/com/com_updata.c:86-119 | so an alternating sender gets its image into the partition, and the reboot flag does not touch it |
| Download.Updater.WriteImgToFlash | app/keyboard/com/com_updata.c:29-55 | a plain write into partition 0, 1 or 2 at 0, 0x8000 or 0x3a000, or nothing for any other number |
| Download.Updater.WriteRebootFlag | app/keyboard/com/com_updata.c:57-60 | one byte, at the address that the 24 bits of the chip make of 0x7f00000 |
| Download.Updater.ReceivePackage | app/keyboard/com/com_updata.c:87-115 | one iteration: flash, address, tag and the reason to stop |
| Download.ReturnsZeroIff | app/keyboard/com/com_updata.c:108-115 | a session that is not complete returns 0 if and only if the first round it does not go on from was received, acknowledged and not the last, and the header read then is of another kind or index |
| Download.SessionIs | app/keyboard/com/com_updata.c:86-125 | for whatever the host does: the session goes on to the first round with an error or another header, returns the first error code of that round, is complete if and only if that round announced no further package and had no error, times out if there is none, and hands over the package of each round that brought one, with the tag of its header |
| Download.Updater.ReceiveTurn | app/keyboard/com/com_updata.c:86-116 | one turn keeps what the flash, addr and total_size are going to be |
| Download.Updater.ReceiveLoop | app/keyboard/com/com_updata.c:86-116 | the loop ends as the host makes it end, total_size, counted on its own, is the length of the accepted data and agrees with addr, and the flash is the one the packages define |
| Download.Updater.DownloadImg | app/keyboard/com/com_updata.c:62-127 | the whole session with its return codes, the flag being written only after a complete one |
| Lists.ListAddTail | include/wk/list.h:54-57 | on the ring the new node comes right before the head; nothing outside the ring changes |
| Lists.ListAdd | include/wk/list.h:49-52 | the new node comes right behind the head |
| Lists.ListDel | include/wk/list.h:70-75 | the node leaves the ring and becomes a ring of its own; for a node that is one already nothing changes |
| Lists.ListSplice | include/wk/list.h:247-252 | the nodes of one ring come behind a node of another, in order |
| Lists.ListSpliceTailInit | include/wk/list.h:290-297 | append of one list to another, and the first is empty afterwards |
| Lists.ListCutPosition | include/wk/list.h:214-226 | the nodes up to the entry become the new list, the rest stays; an empty list, or a single node that is not the entry, is left alone |
| Lists.ListTests | include/wk/list.h:131-144 | list_empty, list_is_last and list_is_singular say what the sequence of nodes says |
| Lists.RingLinks | include/wk/list.h:28-47 | next and prev are inverse all around the ring and lead around it |
| Lists.RotateRing | include/wk/list.h:28-47 | a ring may be read from any of its nodes |
| Lists.RingUnique | include/wk/list.h:28-47 | a ring has only one sequence of nodes from a given head |
| Mm.Pool.MmAlloc | mm/mm.c:50-64 | first fit: either no place is large enough and nothing changes, or the first place becomes one run; the header list stays valid if and only if that run ends before the pool does |
| Mm.Pool.FindBlock | mm/mm.c:30-48 | the scan finds the first place of enough free blocks, or none |
| Mm.Pool.ScanBlocks | mm/mm.c:30-48 | its loop over the headers |
| Mm.Pool.MmFree | mm/mm.c:70-90 | the run becomes free blocks again, each with its own header in the list |
| Mm.Pool.MmInit | mm/mm_init.c:17-35 | the blocks get cleared headers, linked in address order |
| Mm.Pool.MmPoolInit | mm/mm_init.c:37-47 | the pool that check_mm_pool finds in the memory is free blocks, or too small |
| Mm.Pool.WkAlloc | mm/mm.c:92-104 | the same through wk_alloc |
| Mm.Pool.WkFree | mm/mm.c:106-128 | release of a live run, or -1 for NULL |
| Mm.Pool.WkFreeByPid | mm/mm.c:130-153 | the walk ends although it splices the list it walks, and has freed the runs with that tag |
| Mm.CheckMmPoolIs | mm/mm_core.c:22-38 | the pool starts at the first aligned address of the memory and has all blocks that fit |
| Mm.Pool.StackAlloc | mm/mm.c:160-183 | first fit for a stack, which is filled; the header list stays valid if and only if its run ends before the pool does; the failed case returns the last word of a stack at NULL and fills memory from there, which the pool survives if the size is at most its start, and does not if its first header is filled |
| Mm.Pool.StackFree | mm/mm.c:185-218 | release of a stack by its last word, and the error cases |
| Mm.Pool.Reap | init/system.c:33-36 | stack and tagged memory of a closed task are freed |
| MmRuns.AlwaysTiled | mm/mm.c:30-153 | over every run of allocations and releases, none of which ends with the pool, the runs tile the pool exactly, and free and live blocks add up to it |
| MmRuns.AllocStepIff | mm/mm.c:50-64 | an allocation is a step of such a run if and only if its first-fit place ends before the pool does, which is when the header list survives it |
| MmRuns.WholePoolIff | mm/mm.c:56-61 | in a fresh pool every place ends before the pool does, except for requests that need all of its blocks |
| MmRuns.BlocksConserved | mm/mm.c:30-90 | free blocks and blocks of live runs add up to the pool |
| MmRuns.LivesDisjoint | mm/mm.c:50-64 | live runs lie one behind the other |
| MmRuns.LivesInside | mm/mm.c:50-64 | each inside the pool |
| MmRuns.FreeUndoesAlloc | mm/mm.c:50-90 | releasing what was just allocated gives the pool back as it was |
| MmRuns.FreeByPidEffect | mm/mm.c:143-149 | release by pid takes exactly the runs with that tag out of the live ones |
| MmRuns.ScanEnd | mm/mm.c:35-47 | a scan that reaches the end shows that no place is large enough |
| MmRuns.PidsDistinct | kernel/pid.c:12-18 | tasks alive at the same time have different pids, none of them 0 |
| MmRuns.StackTopInside | mm/mm.c:178-182 | the word that stack_alloc returns lies in the payload of its run |
| TaskMemory.TasksKeepTheirOwn | kernel/task.c:153-178 | over every run of task creations, tagged and untagged allocations, releases and reapings, in which no allocation ends with the pool and a creation without a stack was for a size above 0 and at most the start of the pool: living tasks have different pids, each made from its own stack, every tag is that of a living task, and reaping a task takes its stack and the runs with its tag and nothing of another task |
| TaskMemory.NoStack | kernel/task.c:153-178 | where there is no stack, stack_free frees nothing if and only if the size is above 0, and there is no pid if and only if the word returned is not behind the first header of the pool, up to what 32 bits drop |
| TaskMemory.NoStackNoSize | kernel/task.c:153-178 | an input for which there is a pid, and something is freed |
| TaskMemory.ReapTakes | init/system.c:33-36 | the live runs after a reaping are those before it without the stack and the runs with the tag |
| TaskMemory.PidsDiffer | kernel/pid.c:12-18 | different stacks give different pids, unless one is too short to give any |
| TaskMemory.FailKeeps | kernel/task.c:153-178 | a creation that fails leaves the live runs as they were, with the same exceptions |
| MmRuns.ReapEffect | init/system.c:33-36 | reaping takes exactly the stack and the runs tagged with the pid |
| Bitmap.LowestBitIs | kernel/kernel.c:16-34 | an entry of the table is the lowest set bit of its index, counted from 0 |
| Bitmap.FfsBits | kernel/kernel.c:16-43 | the table-driven search gives the lowest set bit of any 32-bit word, counted from 1 |
| Bitmap.FirstIsLowest | kernel/kernel.c:39-43 | the same in terms of single bits |
| Bitmap.SetBit | kernel/sch.c:152 | setting a bit of the group changes that bit only |
| Bitmap.ClearBit | kernel/sch.c:171-176 | so does clearing it |
| Bitmap.MarksLowest | kernel/sch.c:89-103 | with a bit set exactly for each non-empty list, __wk_ffs leads to the first non-empty list of a linear scan |
| ReadyTable.AddMarked | kernel/sch.c:147-152 | two-level form: adding a task keeps table and group in step with the lists |
| ReadyTable.DelMarked | kernel/sch.c:165-178 | so does deleting one, whose group bit goes with the last bit of its byte |
| ReadyTable.HighestIsLowest | kernel/sch.c:93-97 | the two-level search finds what a linear scan finds |
| ReadyTable.TwoLevelFindsLowest | kernel/sch.c:54-59 | after any adds and deletes from sch_init, for up to 256 priorities |
| ReadyTable.FlatFindsLowest | kernel/sch.c:60-61 | the same for the flat form of up to 32 priorities |
| ReadyTable.SetPrioIff | kernel/task.c:343-361 | task_set_prio, which changes the list but keeps the mask of the creation, leaves the flat bitmap in step if and only if the new priority is that of the creation or has ready tasks, the old list does not run empty (or was empty and is not the one of the mask), and a ready task is where the mask points to |
| ReadyTable.SetPrioReadyIff | kernel/task.c:343-361 | the same for a task that is ready |
| ReadyTable.SetPrioTwice | kernel/task.c:343-361 | an input: a task moved from priority 5 to 7 and then, alone there, set to 7 again sets the bit of an empty list |
| ReadyTable.ReadyLists.AddTask | kernel/sch.c:136-156 | on an object with table and group, whose bitmap stays in step |
| ReadyTable.ReadyLists.DelTask | kernel/sch.c:158-182 | likewise for a task that leaves |
| ReadyTable.ReadyLists.HighestReady | kernel/sch.c:93-97 | what it finds is the lowest non-empty list of a linear scan |
| Timers.LaveTickCountsDown | kernel/timer.c:56-70 | after timer_start the remaining time is init_tick, falls by one per tick but the one that wraps run_tick, and is 0 first after init_tick ticks, or one more behind the wrap |
| Timers.InsertedSorted | kernel/timer.c:138-147 | inserting by remaining ticks, where all overdue timers look the same, keeps the list sorted by deadline, priority and arrival |
| Timers.ApplyKeepsInv | kernel/timer.c:118-206 | every start, stop and tick keeps the list sorted, and an overdue timer near enough to the front |
| Timers.RunKeepsInv | kernel/timer.c:118-206 | so does every run |
| Timers.WaitsUntilDue | kernel/timer.c:190-206 | a timer that is left alone never fires before its deadline |
| Timers.OverdueFires | kernel/timer.c:190-206 | an overdue one with i others ahead fires within i + 1 ticks |
| Timers.FiresOnTime | kernel/timer.c:190-206 | it fires at one of the ticks D to D + k, with k timers ahead of it at tick D |
| Timers.TickKeepsInv | kernel/clk.c:24-41 | what a tick does to the list and the log of fired timers |
| TimerList.Timeouts.TimerStart | kernel/timer.c:118-153 | in place: removed, given its deadline, inserted behind the entries it does not precede |
| TimerList.Timeouts.FindPlace | kernel/timer.c:138-145 | the loop stops at the place that the specification says |
| TimerList.Timeouts.TimerStop | kernel/timer.c:155-168 | removed if it was started, otherwise nothing happens |
| TimerList.Timeouts.TimerCtrl | kernel/timer.c:170-187 | only the start value changes |
| TimerList.Timeouts.TimerCheck | kernel/timer.c:190-206 | at most the first timer is taken, and only when it is due |
| TimerList.Timeouts.GetLaveTick | kernel/timer.c:56-70 | the remaining time, with the two cases of the wrap |
| TimerList.Timeouts.Beat | kernel/clk.c:24-27 | run_tick counts up and wraps |
| Scheduling.RunKeeps | kernel/task.c:181-341 | in every reachable state the ready bit is set exactly for non-empty lists, ready and running tasks are exactly once in the list of their priority and others in none, closed tasks on the close list only, an armed timer means a waiting task, and remaining_tick is in 1..init_tick |
| Scheduling.StepKeeps | kernel/task.c:181-341 | each call keeps that invariant |
| Scheduling.InitOk | kernel/sch.c:28-47 | it holds after sch_init |
| Scheduling.SwitchSettles | kernel/sch.c:76-125 | after switch_task with the scheduler unlocked, the current task heads the lowest-numbered non-empty list and is the only one running; locked, nothing changes |
| Scheduling.SchStartSettles | kernel/sch.c:49-74 | so does sch_start |
| Scheduling.StepSettles | kernel/sch.c:76-125 | every call that comes to switch_task with the scheduler unlocked, the last sch_unlock and a tick included, leaves that state, whatever was before; the calls that do not come to it keep it unless they leave the choice to a later one |
| Scheduling.NextIs | kernel/sch.c:93-103 | the bitmap leads to the first task of the lowest list, which is ready |
| Scheduling.HangKeeps | kernel/task.c:220-244 | a task that hangs is in no list, waits, and has no timer |
| Scheduling.SleepKeeps | kernel/task.c:273-303 | a sleeping task is in no list, and waits with its timer armed |
| Scheduling.ResumeKeeps | kernel/task.c:246-271 | task_resume of a task in any state but closed makes it ready in exactly one list, without a timer |
| Scheduling.DelKeeps | kernel/task.c:181-201 | a deleted task is closed, on the close list, in no ready list, and has no timer, whatever it was doing |
| Scheduling.YieldKeeps | kernel/task.c:311-341 | a yield keeps every task in exactly one list |
| Scheduling.BeatKeeps | kernel/clk.c:20-42 | a tick with its slice and its timeout |
| Scheduling.ReapKeeps | init/system.c:25-31 | taking a task off the close list |
| Scheduling.DueTaskWaits | kernel/task.c:45 | the timer found due belongs to a waiting task, so the check in timeout never fails |
| Scheduling.TaskReadyIff | kernel/task.c:203-218 | task_ready keeps the invariant if and only if the task is not closed and has no armed timer |
| Scheduling.LockUnlock | kernel/sch.c:189-225 | lock and unlock are one switch_task, or nothing inside another lock |
| Scheduling.UnlockIff | kernel/sch.c:203-225 | unlocking takes one off the depth if and only if there is one to take off; otherwise the depth wraps |
| Scheduling.UnlockTooOften | kernel/sch.c:210-215 | after unlocking an unlocked scheduler the same task runs over any run without another lock or unlock |
| Sleeping.ClockRuns | kernel/clk.c:20-42 | over any run of the scheduler the timers go through the run of the timeout list that the calls make |
| Sleeping.SleeperWaits | kernel/task.c:273-303 | a task with an armed timer waits until its deadline, whatever else happens |
| Sleeping.SleeperWakes | kernel/task.c:37-58 | and is made ready between its deadline and as many ticks later as timers were ahead of it |
| Sleeping.FiredIsReady | kernel/task.c:37-58 | the tick that fires a timer makes its task ready, with its flag set |
| Sleeping.WakeupAt | kernel/clk.c:41 | over a run, every timer fired at the tick after which its task was ready |
| Sleeping.SleepArms | kernel/task.c:273-303 | after task_sleep the caller waits with a timer for exactly the ticks it asked for, and another task runs |
| Ordering.NobodyOvertakes | kernel/sch.c:136-148 | over any run a ready task stays ahead of the ones behind it in its list, until it goes away or to the end itself |
| Ordering.StepFollows | kernel/sch.c:136-182 | each step of the scheduler keeps that order |
| Ordering.NewcomerIsLast | kernel/sch.c:147 | a task that becomes ready comes behind all that are ready at its priority |
| Scheduling.NotChosen | kernel/sch.c:99-104 | switch_task never goes to a task that is not ready, and leaves it as it is |
| Slicing.FairIff | kernel/clk.c:29-39 | a window of all slices together gives each task exactly its own if and only if all but the first have whole slices left |
| Slicing.WindowExact | kernel/clk.c:29-39 | then the queue is the same again after the window |
| Slicing.WindowUnfair | kernel/clk.c:29-39 | otherwise the first task gets more than its slice |
| Slicing.TickValid | kernel/clk.c:29-39 | remaining_tick stays in 1..init_tick |
| Slicing.StaysFresh | kernel/clk.c:29-39 | ticks alone keep every later window fair |
| RoundRobin.BeatIsTick | kernel/clk.c:20-42 | a tick of the kernel that fires no timer is a tick of that queue |
| RoundRobin.BeatsAreTicks | kernel/clk.c:20-42 | so are any number of them, and the ticks a task runs are those it pays for |
| RoundRobin.KernelFairIff | kernel/clk.c:20-42 | fairness of the kernel itself, with the same condition |
| Scenarios.BrokenSlice | kernel/task.c:311-341 | a run from the start of the system: one of two tasks yields in the middle of its slice, and the next window of all slices is not fair |
| RoundRobin.StaysFair | kernel/clk.c:20-42 | which ticks keep |
| Effects.StepTasks | kernel/task.c:60-341 | for every call and every task: priority, slice length, remaining ticks, time-out flag, timer value and state afterwards; remaining ticks change only in a tick of the running task, at any depth of locking and whatever fires, the flag is set by its timer alone and cleared by the end of task_sleep alone |
| Effects.StepRest | kernel/task.c:60-341 | the close list, the depth of locking and the number of tasks afterwards; a new task is suspended with a whole slice |
| Effects.StepCurrent | kernel/sch.c:76-133 | who runs changes only in calls that come to a switch_task with the scheduler unlocked, and in sch_start |
| Effects.StepLast | kernel/clk.c:20-42 | whoever becomes ready, yields, or has used up a slice while running is then behind every task of the priority that was ready before, at any depth of locking |
| Effects.RunCharges | kernel/clk.c:29-39 | over every run a task pays for exactly the ticks that find it running |
| Effects.WakeUpClears | kernel/task.c:305-308 | the end of task_sleep clears the flag of the running task and changes nothing else |
| Kernel.System.AddTaskToReadyList | kernel/sch.c:136-156 | on the heap: the task becomes READY at the end of the list of its priority, with the bit set; `Scheduling.AddReadyKeeps` says what that keeps |
| Kernel.System.DelTaskToReadyList | kernel/sch.c:158-182 | the task leaves its list, and the bit goes with the last one in it (`Scheduling.DelReadyKeeps`) |
| Kernel.System.SwitchTask | kernel/sch.c:76-133 | the new state is the one that `Scheduling.SwitchSettles` is about: the choice of the bitmap, the two changes of status, and nothing while the scheduler is locked |
| Kernel.System.Start | kernel/sch.c:49-74 | the first choice of a task (`Scheduling.SchStartSettles`) |
| Kernel.System.LockScheduler | kernel/sch.c:189-200 | the nesting depth counts up in 32 bits |
| Kernel.System.UnlockScheduler | kernel/sch.c:203-225 | it counts down in 32 bits, and reaching 0 is one switch_task (`Scheduling.LockUnlock`) |
| Kernel.System.CreateTask | kernel/task.c:60-131 | a suspended task with a full slice, or -EINVAL for a priority from 32 on |
| Kernel.System.TaskReady | kernel/task.c:203-218 | nothing for a task that is ready already; otherwise it joins its list, and a switch follows once the scheduler runs (`Scheduling.TaskReadyIff`) |
| Kernel.System.TaskHang | kernel/task.c:220-244 | the task leaves its list to wait with its timer stopped, or -1 and no change if it was not ready (`Scheduling.HangKeeps`) |
| Kernel.System.TaskResume | kernel/task.c:246-271 | the task is taken from wherever it is to the end of its ready list, its timer stopped (`Scheduling.ResumeKeeps`) |
| Kernel.System.TaskSleep | kernel/task.c:273-303 | the return code is 0 if and only if the caller has gone to sleep, which is if and only if the tick is not 0 and it was ready or running; otherwise nothing changes (`Sleeping.SleepArms`) |
| Kernel.System.AfterTaskSleep | kernel/task.c:305-308 | when a sleeper runs again, the flag that its timer set is cleared (`Effects.WakeUpClears`) |
| Kernel.System.TaskYieldCpu | kernel/task.c:311-341 | a running task goes to the end of its list, and the next one runs (`Scheduling.YieldKeeps`, `RoundRobin.BeatIsTick`) |
| Kernel.System.TaskDelete | kernel/task.c:181-201 | the task is on the close list and nowhere else (`Scheduling.DelKeeps`) |
| Kernel.System.TaskExit | kernel/task.c:24-35 | the running task deletes itself and another one runs (`Scheduling.ExitKeeps`) |
| Kernel.System.TimeoutOf | kernel/task.c:37-58 | the waiting task gets its flag and becomes ready, and a switch follows (`Sleeping.FiredIsReady`) |
| Kernel.System.SliceTick | kernel/clk.c:29-39 | the running task pays for the tick, and yields with a new slice when its own is used up (`RoundRobin.BeatIsTick`) |
| Kernel.System.TimerCheck | kernel/timer.c:190-206 | at most one timer fires, and its task becomes ready (`Scheduling.DueTaskWaits`) |
| Kernel.System.SystemBeat | kernel/clk.c:20-42 | run_tick, slice and timers, in that order: the running task pays and a due timer fires in the same tick (`Effects.StepTasks`, `Effects.StepLast`, `Sleeping.ClockRuns`) |
| Kernel.System.ReapClosed | init/system.c:25-31 | the first closed task leaves the close list (`Effects.StepRest`) |
| Semaphore.Conservation | kernel/sem.c:33-136 | over every run the initial count and the sends are count, grants and dequeued waiters, exactly as long as no send finds the 8-bit count full, and up to multiples of 256 in general; a positive count means an empty queue, and the queue is in order |
| Semaphore.SemRunKeeps | kernel/sem.c:33-136 | the invariant behind it, over every run of gets, timed gets, returns, sends and other steps of the scheduler |
| Semaphore.SemStepKeeps | kernel/sem.c:33-136 | each step keeps it |
| Semaphore.QueuedKeeps | kernel/sem.c:43-49 | the insertion loop keeps the queue ordered by non-increasing priority number, first come first served among equals |
| Semaphore.GetKeeps | kernel/sem.c:53-74 | a get keeps the account balanced and the queue in order |
| Semaphore.GetTimeoutKeeps | kernel/sem.c:76-102 | so does a timed get, in all three cases |
| Semaphore.SendKeeps | kernel/sem.c:115-136 | so does a send of one |
| Semaphore.DeleteIff | kernel/task.c:181-200 | deleting a task keeps the semaphore invariant if and only if the task is not in the queue |
| Semaphore.GetBlocks | kernel/sem.c:66-73 | a get that finds the count at 0 leaves its caller waiting in the queue, and takes nothing |
| Semaphore.GetTimeoutBlocks | kernel/sem.c:93-102 | a timed get does so with a timer for the ticks it was given |
| Semaphore.ReturnLeaves | kernel/sem.c:104-110 | a waiter that returns with -ETIMEDOUT has left the queue, and nobody else has |
| Semaphore.SendReaches | kernel/sem.c:123-131 | a send takes the first waiter off the queue, stops its timer, makes it ready and leaves its flag as it is |
| Sends.SendDecides | kernel/sem.c:104-131 | over any run from a send to the return of the waiter it took: the waiter returns -ETIMEDOUT if and only if its flag was set when the send came, and the send is spent on it in either case |
| Sends.SendSwallowedIff | kernel/sem.c:123-133 | over any run of a semaphore: a send raises no count and makes no blocked task ready if and only if the first waiter is not blocked any more |
| Sends.ReadyWaiterSwallows | kernel/sem.c:123-131 | a queued task that is not blocked swallows the send that reaches it, whatever happened in between |
| Sends.ZeroTimeoutSwallows | kernel/sem.c:93-96 | so does the caller of a get that does not want to wait, with any number of waiters ahead of it |
| Sends.StepKept | kernel/task.c:37-58 | no step of another task arms the timer of a task or touches its flag |
| Scenarios.LostSend | kernel/sem.c:104-131 | a run from the start of the system with a send between the tick that ends a wait and the return with -ETIMEDOUT |
| Scenarios.SwallowedSend | kernel/sem.c:93-96 | a run with a get that does not want to wait and the send it swallows |
| Counting.CallEffect | kernel/sem.c:33-136 | for every call: count, grants, sends, dequeued waiters and the members of the queue afterwards; a get or timed get that finds the count positive lowers it by one and touches nothing else, except for a get at the lowest priority, which does nothing |
| Counting.CallsKernel | kernel/sem.c:33-136 | what each call is to the scheduler: a blocking get is task_hang and switch_task, a timed one task_sleep, a return the end of task_sleep, a send task_resume of the first waiter and switch_task |
| Counting.RunsKernel | kernel/sem.c:33-136 | so every run of a semaphore is a run of scheduler calls |
| Counting.GetsLower | kernel/sem.c:63-66 | over every run without a send the count falls by the number of gets that found it positive, and the grants grow by it |
| Counting.ServedInTime | kernel/sem.c:96-131 | a task that slept and is back returns 0 from a later timed get that a send serves before its timer fires, whatever happens in between |
| SemObject.SemT.EnqueueCurrent | kernel/sem.c:33-51 | the running task is queued at the place that keeps the order (`Semaphore.QueuedKeeps`), and is in the queue only once |
| SemObject.SemT.FindPlace | kernel/sem.c:44-47 | the loop stops at the first waiter with a smaller priority number |
| SemObject.SemT.SemGet | kernel/sem.c:53-74 | nothing for the lowest priority, one less if the count was positive, and otherwise the caller blocks (`Counting.CallEffect`, `Semaphore.GetBlocks`) |
| SemObject.SemT.SemGetTimeout | kernel/sem.c:76-102 | one less, or queued at once with -EBUSY, or blocked with a timer (`Semaphore.GetTimeoutBlocks`) |
| SemObject.SemT.AfterWaiting | kernel/sem.c:104-112 | -ETIMEDOUT and out of the queue if the flag is set, otherwise 0 (`Semaphore.ReturnLeaves`) |
| SemObject.SemT.SemSend | kernel/sem.c:115-136 | the first waiter is resumed, or the 8-bit count goes up, and a switch follows (`Semaphore.SendReaches`) |
| Fifo.ReadLogTakes | kernel/printk/log.c:63-79 | read_log returns as much as asked for, or all there is, and takes that from the front |
| Fifo.FifoBuf.ReadSize | lib/fifo_buf.c:14-44 | all or nothing from the front of the queue, in either branch; the peek leaves it as it is |
| Fifo.FifoBuf.WriteSize | lib/fifo_buf.c:74-100 | all or nothing at the end of the queue, in either branch |
| Fifo.StoreTwo | lib/fifo_buf.c:81-90 | a wrapped write appends |
| Fifo.StoreOne | lib/fifo_buf.c:91-99 | a write in one piece appends |
| Fifo.UsedSplits | lib/fifo_buf.c:21-43 | a read takes the front and leaves the rest |
| Fifo.ReadsArePrefix | lib/fifo_buf.c:14-100 | over any interleaving what was read and what is left are what was stored, in order |
| Fifo.LogServer.ReadLog | kernel/printk/log.c:64-81 | as many bytes as there are, up to what is asked for |
| Fifo.LogServer.WriteLog | kernel/printk/log.c:45-62 | a write of the ring once the server runs |
| Usb.DataStage | drivers/usb/device/core/core.c:1842-1882 | the packets of the data stage are the cut of the buffer, and the stage becomes STATUS_OUT after the last one and not before |
| Usb.CutIs | drivers/usb/device/core/core.c:1842-1882 | the cut concatenates to the buffer, has size / maxpacket + 1 packets, all but the last full and the last shorter, as sections 5.5.3 and 8.5.3 of USB 2.0 ask |
| Usb.DataStageIff | drivers/usb/device/core/core.c:1848-1856 | for any 32-bit size the host gets the whole buffer if and only if the size is less than 2^31 + maxpacket |
| Usb.DataStageTooLong | drivers/usb/device/core/core.c:1848-1856 | otherwise the stage ends after the first packet |
| Usb.WriteRequest | drivers/usb/device/core/core.c:785-796 | a write request of any size sends its packets one per notification, and the handler runs when the last has been taken, and for each later notification |
| Usb.PacketsAre | drivers/usb/device/core/core.c:912-936 | those packets make up the buffer, none is above maxpacket, and all but the last are full |
| Usb.ReadFull | drivers/usb/device/core/core.c:797-812 | a full read fed packets no longer than announced stores the concatenation of those up to its last byte and nothing else, whatever comes after them; the handler runs exactly once, with the last byte, and never for a read of no bytes; after each packet the room announced is what is left, up to maxpacket |
| Usb.ReadBest | drivers/usb/device/core/core.c:797-812 | a best read stores each packet behind the one before it and runs the handler for each with its own size, nothing is announced after the first, and what is left falls by what came |
| Usb.ReadsEach | drivers/usb/device/core/core.c:797-812 | an endpoint that asks for the same room again after each packet hands every packet to its handler with its size, at the start of the room |
| Usb.ControlEp.UsbdEp0Write | drivers/usb/device/core/core.c:1980-2005 | the endpoint starts the transfer that `Usb.DataStage` is about, with its first packet |
| Usb.ControlEp.UsbdEp0InHandler | drivers/usb/device/core/core.c:1842-1882 | the next packet, the empty one or the status stage, with the subtraction in 32 bits and the test on a signed word |
| Usb.DataEp.RequestWrite | drivers/usb/device/core/core.c:1673-1676 | the request of `Usb.WriteRequest` with its first packet |
| Usb.DataEp.RequestRead | drivers/usb/device/core/core.c:1668-1672 | the request of `Usb.ReadFull`, with the room announced to the controller |
| Usb.DataEp.DataTaken | drivers/usb/device/core/core.c:774-796 | the next packet or the handler, and -1 without a configuration |
| Usb.WantedIs | drivers/usb/device/core/core.c:797-812 | those are all packets, or the shortest front of them that has the size of the read |
| Usb.DataEp.DataCame | drivers/usb/device/core/core.c:774-812 | the packet is stored behind the ones before it, then handler or next announcement; ignored when nothing is left to read |
| Vsprintf.Vsnprintf | lib/vsprintf.c:215-425 | for the text that `Format.Rendered` defines: the buffer holds the first size - 1 characters of the unbounded text and NUL, or the whole text and NUL, and is otherwise untouched |
| Vsprintf.PrintNumber | lib/vsprintf.c:53-132 | the number is put as its unbounded field, as far as it fits; the place moves one too far if an uncounted sign is followed by padding |
| Vsprintf.PutConversion | lib/vsprintf.c:288-413 | each conversion puts its text |
| Vsprintf.ProcessSpec | lib/vsprintf.c:245-283 | flags, width and qualifier are scanned as specified |
| Vsprintf.ReturnIff | lib/vsprintf.c:101-116 | the return value is the length of the unbounded text if and only if no padded signed number lies behind the end of the buffer |
| Vsprintf.ReturnValue | lib/vsprintf.c:416-424 | it tells in any case whether the text was cut short |
| Vsprintf.ReturnTooLarge | lib/vsprintf.c:101-116 | an input for which the return value is too large |
| Conversions.NumberIs | lib/vsprintf.c:245-413 | told from the spelling of the format: d, i and u print the number in base 10 and x, X and o in base 16, in the case of the letter and without needless zeros; d and i read the word as signed, and h keeps 16 bits of it; only d and i have a sign; and what fills up to the width goes behind with -, between sign and digits with 0, and else in front |
| Conversions.SpecIs | lib/vsprintf.c:245-283 | each flag is set if and only if its character stands among the flags, and the width is the decimal number or the argument of the star, whose sign asks for - |
| Conversions.CharacterIs | lib/vsprintf.c:289-310 | %c is the low 8 bits of the argument in its field |
| Conversions.StringIs | lib/vsprintf.c:312-339 | %s is the argument up to NUL, or (NULL), in its field |
| Conversions.PointerIs | lib/vsprintf.c:341-349 | %p is the word in base 16, with zeros up to eight digits if no width is given |
| Conversions.OthersAre | lib/vsprintf.c:351-393 | %% is a percent sign, and any letter that names no conversion is printed behind one |
| Conversions.PlainIs | lib/vsprintf.c:238-243 | all else is printed as it stands, up to NUL |
| Conversions.RenderedFirst | lib/vsprintf.c:238-425 | the whole text is what stands at each place of the format, one after the other |
| Conversions.LooseIs | lib/vsprintf.c:101-116 | the numbers of `Vsprintf.ReturnIff`, told from the spelling |
| Format.DigitsPlain | lib/vsprintf.c:18-32 | digits are of one case, and do not begin with a needless zero |
| Format.DigitsParsed | lib/vsprintf.c:18-32 | the digits of a number parse back to it, in both bases and cases |
| Format.OctalIff | lib/vsprintf.c:358-360 | %o prints the digits of base 16, which are those of base 8 if and only if the number is below 8 |
| Format.FieldLength | lib/vsprintf.c:90-129 | a field is as long as the larger of width and sign with digits |
| Format.FieldParsed | lib/vsprintf.c:90-129 | between sign and spaces it holds digits that parse back to the number, zeros included |

## Left out

- Mutexes with priority inheritance and the message queue: the granted waiter stays on the wait list, and priorities change.
- Changes of a task's priority in runs of the scheduler: all runs keep priorities fixed, and `ReadyTable.SetPrioIff` says what a change does.
- `sem_send` of more than one: its loop goes on from an entry that it has just taken out of the list.
- More than one semaphore: the wait node of a task is shared by all of them, so a get on one would take it out of another.
- The interleaving inside a call: a call is one step, also where the source tests the count before it blocks interrupts.
- Timers other than those of the tasks in runs of the scheduler; the timeout list itself is modelled for any timers.
- Runs of the timeout list that go past 64 bits of ticks; there only the tick arithmetic of one timer is stated.
- Names, the list of all tasks, stack contents, context switches and interrupt nesting.
- In `Tasks.dfy` and `Kernel.dfy` a list of tasks is a sequence of task numbers; that heap lists behave as such sequences is what `ListHead.dfy` proves.
- Memory of tasks in the scheduler: creation and reaping are steps of the task table there, and steps of the pool in `Mm.dfy`.
- Payloads: what a task writes into its memory is not modelled, but that `stack_alloc` fills the headers inside its run is.
- SPI transfers, write enable and busy polling: erase, program and read are single operations of the chip.
- W25qxx.Driver.Read: asks for less than 65536 bytes, because the source counts them in 16 bits and would not end.
- W25qxx.Driver.Write: asks that the range ends inside the chip, because beyond it the address wraps.
- Download.Updater.DownloadImg: assumes that every package fits the buffer of the first one, and that the partition range fits the chip.
- Mm.Pool.StackAlloc: asks for a pool inside the 32-bit address space; a failed call that fills only a part of the first header promises nothing about the pool.
- MmRuns.AlwaysTiled: its runs contain no allocation that ends with the pool, after which the source has no header list to go on with; `MmRuns.AllocStepIff` says which allocations are left.
- TaskMemory.TasksKeepTheirOwn: the same, and no creation for which there is no stack and whose size is 0 or above the start of the pool, as that frees or overwrites other memory.
- TaskMemory.FailKeeps: the same creations.
- Runs of the scheduler and the memory of tasks are not one state machine: `TaskMemory.dfy` takes creations and reapings in any order.
- Scheduling.RunKeeps: assumes an idle task that neither blocks nor ends, `task_ready` for suspended or ready tasks only, slices of at least one tick, and that deleted tasks are left alone.
- Timers.RunKeepsInv: assumes that timers are started with at least one tick and that neither deadlines nor run_tick wrap.
- Semaphore.Conservation: assumes that the idle task does not call, and that no queued task is deleted, which `Semaphore.DeleteIff` shows to be necessary.
- USB descriptors, class drivers, control transfers from the host, stalled endpoints and their suspended requests.
- The request that a handler starts from inside its call: the handler only leaves a mark with the size it was given.
- Vsprintf.Vsnprintf: asks for a size of at least 1, as size 0 means no limit to the source, and for no `%f`.
- Field widths beyond `int`, and arguments that are not there: widths are unbounded here, and missing arguments read as 0.
- The string library, device registration, console commands, key scanning, LEDs and all other hardware access.

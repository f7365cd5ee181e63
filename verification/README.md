# uC/OS-II kernel core and Altera HAL runtime, verified

A Dafny model of the real-time kernel (uC/OS-II, in the configuration of the
server) and of the hardware abstraction layer it runs on, with proofs of what
they promise.

**Kernel.** `KernelModel` is the kernel on plain sets: tasks by priority, the
ready list as a set, events with stored units and a set of waiters.  Each of its
functions is one critical section.  `KernelSafety` proves that every critical
section keeps the kernel's invariant, so it holds in every interleaving of tasks,
interrupts and ticks; `KernelRuns`, `KernelTicks`, `KernelConservation` and
`KernelSuspension` prove what follows for whole runs.  `KernelServices` says what
each service does to the control block and the readiness of its task, and over runs
when delays, timeouts and suspensions end.  `Kernels` is the C code
itself: class `KernelCore` has the task and event tables, the priority bitmaps (`PrioBitmap`,
`Bits`), the two linked lists (`KernelLists`), the nesting counters
(`SchedNesting`), and each method is proved to compute its `KernelModel` or
`SchedNesting` function on the state its tables stand for (`KernelTables`).  The
services state in addition that they leave the links between control blocks alone
(`SameLinks`), from which `KernelLists.LinksKept` gives the list invariant.

**HAL.** `Alarms` (32-bit tick counter and roll-over flags), `HeapLock` (newlib's
re-entrant heap lock as atomic steps), `FdPool` (file descriptors), `WallClock`,
`SleepSplit`, `Printers`, `CacheFlush` and `SlabHeap`.  `Arithmetic` holds shared
facts about division.

The clock, drivers' answers, callbacks' answers, names already looked up and the
viewer's tick-step state are parameters.  Pointers to control blocks are indexes
into their tables; -1 is the null pointer.

The service files os_sem.c, os_mbox.c, os_q.c, os_task.c and os_time.c are not
UTF-8 text; their functions are cited below by their prototypes in ucos_ii.h, with
the lines of the body in the last column.

Results that differ from what the code or its comments promise:

- OSTaskResume never readies a task whose multi-event wait ended while it was
  suspended, because OS_STAT_MULTI stays set (`ResumeAfterWait`,
  `ReleaseDecides`, `LostForever`, `LostExample`).  If the wait had timed out, a
  late post can still bring the task back (`TimedOutRunsIffNotSuspended`).
- The highest ready task need not be running between the critical section of a
  service and its OS_Sched, nor after a task has called OSTimeTick, which the
  comment at os_core.c:844 allows (`BehindInBetween`).
- A scheduler lock/unlock pair in an interrupt takes away a lock of the
  interrupted task (`IsrPairDropsLock`); beyond 255 interrupt levels the kernel
  reschedules inside an interrupt (`DeepNestingReschedules`).
- An alarm interval of 2^32 - 1 fires at once (`StartIsRight`).
- settimeofday multiplies in 32 bits, so the clock can be set wrong by almost a
  second (`ProductsAgree`, `SetThenGet`, `LossExample`).
- TIOCEXCL can be granted to one of two users of a device
  (`LockGrantedToSoleUser`), although the comment at alt_fd_lock.c:43 says that it
  is granted only if there is no other.
- __malloc_unlock accepts any caller (`UnlockTrustsItsCaller`, `StrangerGetsIn`).
- mcount_allocate does not notice that sbrk failed, nor that a block is larger
  than a slab (`SlabHeap.Heap.Allocate`, `UnsoundBlocks`).
- A cache flush of a region that ends in the last line of the address space can loop
  forever or, if it ends at the last byte, leave lines unflushed (`NeverEnds`,
  `LastRegion`).

## Model

| member | source | states |
|---|---|---|
| `KernelSafety.StepKeeps` | fpga/software/server1_bsp/UCOSII/src/os_core.c:989-1196 | Every critical section (pend, multi-pend, wake-up, post, abort, tick of one task, delay, suspend, resume, create) keeps the whole invariant: a task is in an event's wait list exactly when it is in an unfinished wait on that event, no unit is stored while somebody waits for it, a released task has no delay left, and so on. |
| `KernelSafety.ReadyInListTimedOut` | fpga/software/server1_bsp/UCOSII/src/os_core.c:899-913 | A task that is ready while some wait list still names it has pend status OS_STAT_PEND_TO. |
| `KernelSafety.WakeLeaves` | fpga/software/server1_bsp/UCOSII/src/os_core.c:468-536 | When a waiting task runs again, whatever ended its wait, it leaves every wait list, no other task's entry changes, and no trace of the wait stays in its control block. |
| `KernelRuns.BootIsInit` | fpga/software/server1_bsp/UCOSII/src/os_core.c:554-592 | OSInit's empty tables with the idle task created, and any events nobody waits on, are an initial state of the run theorems. |
| `KernelRuns.ReachableStates` | fpga/software/server1_bsp/UCOSII/src/os_core.c:554-592 | In every run from OSInit, under any interleaving, wait lists and ready list tell the truth and a task both ready and listed has timed out. |
| `KernelRuns.OneOutcome` | fpga/software/server1_bsp/UCOSII/src/os_core.c:458-536 | Between blocking and running again a task is handed at most one event; the call returns exactly that event with its message, or its abort; with none it returns a timeout, and then the timeout was nonzero and the tick came to the task that often (or OSTimeDlyResume cut it short). So a post after the timeout but before the task runs is delivered, and a released task never times out. |
| `KernelServices.TimesOutInTime` | fpga/software/server1_bsp/UCOSII/src/os_core.c:896-917 | A wait to which nothing is handed ends on exactly the visit of OSTimeTick that its timeout names, and never with timeout zero: from then on the task is ready unless suspended, before it is not. |
| `KernelServices.WaitStarts` | fpga/software/server1_bsp/UCOSII/src/os_core.c:458-465 | A task that begins to wait leaves the ready list, joins the wait lists of its events and no other, has its timeout as its delay and the status bits of exactly the kinds it waits for; nothing else changes. |
| `KernelRuns.DelayRunsOut` | fpga/software/server1_bsp/UCOSII/src/os_core.c:896-917 | A delay of n expires on exactly the n-th visit of OSTimeTick to the task, whatever else happens to other tasks, and makes it ready exactly then unless it is suspended. |
| `KernelServices.DelaySleeps` | fpga/software/server1_bsp/UCOSII/inc/ucos_ii.h:1169 | A task that calls OSTimeDly(n) is ready again exactly from the n-th following visit of OSTimeTick on. Body: OSTimeDly, os_time.c lines 44-67. |
| `KernelServices.DelayStarts` | fpga/software/server1_bsp/UCOSII/inc/ucos_ii.h:1169 | OSTimeDly(n) gives the running task a delay of n, takes it off the ready list and changes nothing else. Body: os_time.c lines 53-64. |
| `KernelServices.TickCounts` | fpga/software/server1_bsp/UCOSII/src/os_core.c:896-917 | A visit of OSTimeTick takes one tick off a delay; the last one ends it, with a timeout if the task was pending, and readies the task unless it is suspended; no other task changes. |
| `KernelTicks.TickIsRun` | fpga/software/server1_bsp/UCOSII/src/os_core.c:896-917 | An uninterrupted call of OSTimeTick is a run that visits every task but the idle one, and has the effect of Tick. |
| `KernelTicks.VisitsAreCalls` | fpga/software/server1_bsp/UCOSII/src/os_core.c:851-919 | Over runs in which any steps come between the visits of a call: a task that exists from the start is visited exactly as often as calls processed their tick. |
| `KernelTicks.DelayInCalls` | fpga/software/server1_bsp/UCOSII/src/os_core.c:896-917 | A delay of n expires in exactly the n-th call of OSTimeTick that processes its tick, and the task is ready from then on unless suspended. |
| `KernelTicks.SleepsForCalls` | fpga/software/server1_bsp/UCOSII/inc/ucos_ii.h:1169 | A task that calls OSTimeDly(n) is ready again exactly from the n-th following call of OSTimeTick that processes its tick on. Body: OSTimeDly, os_time.c lines 44-67. |
| `KernelTicks.Stepping` | fpga/software/server1_bsp/UCOSII/src/os_core.c:871-893 | Of n calls, the state WAIT lets none process its tick, ONCE exactly the first, and any other state all. |
| `KernelConservation.PollConserves` | fpga/software/server1_bsp/UCOSII/src/os_core.c:385-448 | For any event array the poll of OSEventPendMulti takes min(stored units, listed occurrences) from each event, oldest first; taken and left together are what was stored. |
| `KernelConservation.PollOrder` | fpga/software/server1_bsp/UCOSII/src/os_core.c:385-455 | The returned events are, in array order, the occurrences that find a unit: the n-th occurrence of an event does if and only if it stores more than n units. |
| `KernelConservation.PollBlocks` | fpga/software/server1_bsp/UCOSII/src/os_core.c:450-465 | The call blocks if and only if every listed event is empty. |
| `KernelConservation.MessagesMatch` | fpga/software/server1_bsp/UCOSII/src/os_core.c:385-448 | The two arrays OSEventPendMulti fills belong together: the messages beside an event are the oldest it stored, in order, one for each listed occurrence as far as they go. |
| `KernelConservation.RunConserves` | fpga/software/server1_bsp/UCOSII/src/os_core.c:379-536 | Over every run and for every event, what it stored at first followed by all accepted posts equals what tasks were given followed by what it stores now: nothing is lost, doubled or reordered. |
| `KernelSafety.ResumeAfterWait` | fpga/software/server1_bsp/UCOSII/src/os_core.c:458-459 | OSTaskResume readies a suspended task whose wait is over if and only if the wait was on a single event (OS_STAT_MULTI outlives a multi-event wait). Body: OSTaskResume, os_task.c lines 814-830. |
| `KernelSuspension.ReleasedRunsIffNotSuspended` | fpga/software/server1_bsp/UCOSII/src/os_core.c:1026-1040 | A task released from a multi-event wait is ready at any later point before it runs if and only if it was ready and nobody suspended it in between. |
| `KernelSuspension.ReleaseReadies` | fpga/software/server1_bsp/UCOSII/src/os_core.c:1026-1040 | The post or abort that ends a wait readies its task if and only if the task is not suspended at that moment. |
| `KernelSuspension.ReleaseDecides` | fpga/software/server1_bsp/UCOSII/src/os_core.c:1026-1040 | Over runs: from the hand-over that ends a multi-event wait until the task runs, it is ready if and only if it was not suspended at the hand-over and nobody suspended it since. |
| `KernelSuspension.TimedOutRunsIffNotSuspended` | fpga/software/server1_bsp/UCOSII/src/os_core.c:899-917 | Over runs: from the timeout of a multi-event wait until the task runs or a late post or abort reaches it, it is ready if and only if it was and nobody suspended it since. |
| `KernelSuspension.LostForever` | fpga/software/server1_bsp/UCOSII/src/os_core.c:1026-1040 | Once such a task is not ready, no continuation of the run makes it ready again. Body: OSTaskResume, os_task.c lines 814-830. |
| `KernelSuspension.LostExample` | fpga/software/server1_bsp/UCOSII/src/os_core.c:1023-1040 | A concrete run from OSInit that loses a task: wait on two events, suspend, post, resume. Body: OSTaskSuspend, os_task.c lines 981-986. |
| `KernelServices.SuspendStops` | fpga/software/server1_bsp/UCOSII/inc/ucos_ii.h:1149 | OSTaskSuspend marks the task suspended, takes it off the ready list and changes nothing else. Body: os_task.c lines 981-986. |
| `KernelServices.ResumeLifts` | fpga/software/server1_bsp/UCOSII/inc/ucos_ii.h:1148 | OSTaskResume takes the mark away and changes no other bit; a task that had it is ready afterwards if and only if it has no delay, or inside a pend service a single-event wait that is over. Body: os_task.c lines 814-821. |
| `KernelServices.ResumeUndoesSuspend` | fpga/software/server1_bsp/UCOSII/inc/ucos_ii.h:1148-1149 | Over runs: a suspension and a later resumption, with nothing else touching the task, restore its control block; and its readiness if and only if it was not ready at the end of a multi-event wait. Body: os_task.c lines 814-830 and 981-986. |
| `KernelServices.DelayEnds` | fpga/software/server1_bsp/UCOSII/inc/ucos_ii.h:1179 | OSTimeDlyResume ends a delay or a timeout at once, with the status a tick would leave, and the task is ready if and only if it is not suspended; without a delay it changes nothing. Body: os_time.c lines 196-209. |
| `KernelServices.CreateStarts` | fpga/software/server1_bsp/UCOSII/src/os_core.c:1926-2024 | A created task is ready, with no delay, status, message or wait, and no other task changes. |
| `Bits.UnMapIsLowest` | fpga/software/server1_bsp/UCOSII/src/os_core.c:38-55 | OSUnMapTbl[v] is the number of the lowest set bit, for every nonzero byte v. |
| `PrioBitmap.Inserted` | fpga/software/server1_bsp/UCOSII/src/os_core.c:1068-1069 | Setting the two bits of a priority adds exactly that priority to the set and keeps the group bits right. |
| `PrioBitmap.Removed` | fpga/software/server1_bsp/UCOSII/src/os_core.c:1144-1148 | Clearing them removes exactly that priority; the group bit goes exactly when the row becomes empty. |
| `PrioBitmap.EmptyIff` | fpga/software/server1_bsp/UCOSII/src/os_core.c:1213-1229 | The group byte is zero if and only if the set is empty. |
| `PrioBitmap.Top` | fpga/software/server1_bsp/UCOSII/src/os_core.c:1657-1658 | The two table lookups find the least member of the set. |
| `PrioBitmap16.Inserted` | fpga/software/server1_bsp/UCOSII/src/os_core.c:1068-1069 | The same for rows of sixteen priorities (OS_LOWEST_PRIO > 63). |
| `PrioBitmap16.Removed` | fpga/software/server1_bsp/UCOSII/src/os_core.c:1144-1148 | The same for rows of sixteen priorities. |
| `PrioBitmap16.Top` | fpga/software/server1_bsp/UCOSII/src/os_core.c:1661-1676 | The byte-wise lookups of the wide build find the least member of the set. |
| `MsgQueue.Get` | fpga/software/server1_bsp/UCOSII/src/os_core.c:420-427 | Taking from the ring buffer returns the oldest entry and leaves the others in order, wrap-around included. |
| `MsgQueue.Put` | fpga/software/server1_bsp/UCOSII/inc/ucos_ii.h:532-540 | Posting appends at the end, wrap-around included. Body: OSQPost, os_q.c lines 590-605. |
| `MsgQueue.TakesUntilFull` | fpga/software/server1_bsp/UCOSII/inc/ucos_ii.h:1035-1036 | With nobody waiting, a queue takes exactly as many posts as it has free entries and refuses the others, and stores what it took in the order of the posts. Body: OSQPost, os_q.c lines 596-605. |
| `MsgQueue.NewTakesItsSize` | fpga/software/server1_bsp/UCOSII/inc/ucos_ii.h:1011-1012 | So a new queue of size N takes exactly N posts. Body: OSQCreate, os_q.c lines 121-166. |
| `KernelTables.UnitsAre` | fpga/software/server1_bsp/UCOSII/inc/ucos_ii.h:389-396 | What an event block stores: a semaphore as many null units as its count, up to 65535, a mailbox its message unless null, a queue the entries from OSQOut on, up to its size. |
| `Kernels.KernelCore.EventTaskRdy` | fpga/software/server1_bsp/UCOSII/src/os_core.c:989-1043 | On the bitmap tables: releases exactly the best waiter of the event, out of all its wait lists, with message, status and zero delay, and readies it unless suspended. |
| `Kernels.KernelCore.EventTaskWait` | fpga/software/server1_bsp/UCOSII/src/os_core.c:1066-1075 | Puts the running task into the wait list and takes it off the ready list, and changes nothing else. |
| `Kernels.KernelCore.EventTaskWaitMulti` | fpga/software/server1_bsp/UCOSII/src/os_core.c:1095-1119 | The same for every event of an array. |
| `Kernels.KernelCore.EventTaskRemove` | fpga/software/server1_bsp/UCOSII/src/os_core.c:1138-1149 | Takes one task off one wait list and changes nothing else. |
| `Kernels.KernelCore.EventTaskRemoveMulti` | fpga/software/server1_bsp/UCOSII/src/os_core.c:1168-1196 | Takes one task off the wait lists of an array of events. |
| `Kernels.KernelCore.PollEvents` | fpga/software/server1_bsp/UCOSII/src/os_core.c:379-455 | The poll loop computes the specification of which KernelConservation speaks. |
| `Kernels.KernelCore.EventPendMultiEnter` | fpga/software/server1_bsp/UCOSII/src/os_core.c:306-464 | Error returns in the order of the checks; otherwise the available units, or the task blocked on every event. |
| `Kernels.KernelCore.EventPendMultiExit` | fpga/software/server1_bsp/UCOSII/src/os_core.c:466-537 | Result and clean-up of a multi-event wait are those of which KernelRuns speaks. |
| `Kernels.KernelCore.PendEnter` | fpga/software/server1_bsp/UCOSII/inc/ucos_ii.h:1077-1079 | Entry of the three single pend services: type, interrupt and lock errors; a unit exactly if the count is positive, the mailbox not null, the queue not empty, and then that unit taken out of the block; else the task blocked. Body: OSSemPend, os_sem.c lines 298-322, and OSMboxPend, OSQPend. |
| `Kernels.KernelCore.PendExit` | fpga/software/server1_bsp/UCOSII/inc/ucos_ii.h:1077-1079 | Exit of the three single pend services. Body: OSSemPend, os_sem.c lines 324-347, and OSMboxPend, OSQPend. |
| `Kernels.KernelCore.PostTo` | fpga/software/server1_bsp/UCOSII/inc/ucos_ii.h:1087 | The three post services: hand over to the best waiter; with nobody waiting, one more count, the message or one more queue entry, refused exactly at count 65535, at a full mailbox or a full queue; refused posts change nothing. Body: os_sem.c lines 453-484, os_mbox.c lines 455-489, os_q.c lines 571-608. |
| `Kernels.KernelCore.PendAbortOne` | fpga/software/server1_bsp/UCOSII/inc/ucos_ii.h:1082-1084 | Aborts the best waiter, if any. Body: os_sem.c lines 384-431, and the same in os_mbox.c and os_q.c. |
| `Kernels.KernelCore.PendAbortAll` | fpga/software/server1_bsp/UCOSII/inc/ucos_ii.h:1082-1084 | The broadcast aborts waiters until there is none and reports their number. Body: os_sem.c lines 409-415, and the same in os_mbox.c and os_q.c. |
| `KernelModel.AllAborted` | fpga/software/server1_bsp/UCOSII/inc/ucos_ii.h:1082-1084 | After a broadcast every former waiter, and no other task, is aborted with zero delay, and exactly those not suspended were made ready. Body: os_sem.c lines 407-415. |
| `Kernels.KernelCore.TimeDly` | fpga/software/server1_bsp/UCOSII/inc/ucos_ii.h:1169 | Delays the running task by the ticks asked for and takes it off the ready list, except from an interrupt or for zero ticks. Body: os_time.c lines 44-67. |
| `Kernels.KernelCore.TimeDlyResume` | fpga/software/server1_bsp/UCOSII/inc/ucos_ii.h:1179 | Ends the delay of a task and readies it unless it is suspended; every error return leaves the kernel as it was. Body: os_time.c lines 167-210. |
| `Kernels.KernelCore.TaskSuspend` | fpga/software/server1_bsp/UCOSII/inc/ucos_ii.h:1149 | Suspends a task and takes it off the ready list; every error return leaves the kernel as it was. Body: os_task.c lines 941-991. |
| `Kernels.KernelCore.TaskResume` | fpga/software/server1_bsp/UCOSII/inc/ucos_ii.h:1148 | Lifts a suspension, and readies a task that has no other status and no delay; every error return leaves the kernel as it was. Body: os_task.c lines 790-834. |
| `Kernels.KernelCore.TCBInit` | fpga/software/server1_bsp/UCOSII/src/os_core.c:1926-2024 | Fails if and only if the free list is empty, and then changes nothing; otherwise the head of the free list becomes the head of the active list, both lists stay well formed and partition the control blocks, and a fresh ready task exists at the priority. |
| `Kernels.KernelCore.TaskCreate` | fpga/software/server1_bsp/UCOSII/inc/ucos_ii.h:1114-1117 | The four error returns change nothing, the reserved priority is given back on failure; success creates the task. Body: os_task.c lines 215-254. |
| `Kernels.KernelCore.Reserve` | fpga/software/server1_bsp/UCOSII/inc/ucos_ii.h:1114-1117 | The critical sections of OSTaskCreate before and after OS_TCBInit change no task, ready list, event or link: only whether the priority is taken. Body: os_task.c lines 235-238 and 246-248. |
| `Kernels.KernelCore.constructor` | fpga/software/server1_bsp/UCOSII/src/os_core.c:1504-1531 | After OSInit all control blocks are free, in order, no task exists and nothing is ready. |
| `KernelLists.CreatedLinks` | fpga/software/server1_bsp/UCOSII/src/os_core.c:2009-2019 | Linking a new control block keeps: free and active lists partition the table, the active list is doubly linked and ends in the idle task, OSTaskCtr is its length, OSTCBPrioTbl is its exact index. |
| `KernelLists.AllButIdle` | fpga/software/server1_bsp/UCOSII/src/os_core.c:896-897 | The active list without its last element is exactly the set of existing tasks without the idle task. |
| `Kernels.KernelCore.TickAll` | fpga/software/server1_bsp/UCOSII/src/os_core.c:896-917 | The walk ends at the idle task and performs the tick on every other task, the links unchanged. |
| `KernelModel.TickVisitsAll` | fpga/software/server1_bsp/UCOSII/src/os_core.c:896-917 | A tick is one visit to every task but the idle one, and the order does not matter. |
| `Kernels.KernelCore.TimeTick` | fpga/software/server1_bsp/UCOSII/src/os_core.c:851-919 | OSTime wraps at 2^32; stepping in state WAIT processes nothing, ONCE exactly one tick, any invalid state is corrected. |
| `Kernels.KernelCore.EventCreate` | fpga/software/server1_bsp/UCOSII/src/os_core.c:1213-1229 | A created event has the given contents and nobody waiting. Body: OSSemCreate, os_sem.c lines 112-121, and OSMboxCreate, OSQCreate. |
| `Kernels.KernelCore.SchedNew` | fpga/software/server1_bsp/UCOSII/src/os_core.c:1652-1658 | OSPrioHighRdy becomes the least ready priority. |
| `Kernels.KernelCore.Sched` | fpga/software/server1_bsp/UCOSII/src/os_core.c:1610-1633 | Switches to the least ready priority exactly when both nesting counters are zero, and counts a switch exactly if the task changes. |
| `Kernels.KernelCore.IntExit` | fpga/software/server1_bsp/UCOSII/src/os_core.c:651-679 | Leaves one interrupt level and, at level zero with the scheduler unlocked, switches to the least ready priority, counting real switches. |
| `Kernels.KernelCore.IntEnter` | fpga/software/server1_bsp/UCOSII/src/os_core.c:617-630 | Counts an interrupt level, up to 255. |
| `Kernels.KernelCore.SchedLock` | fpga/software/server1_bsp/UCOSII/src/os_core.c:698-715 | Counts a lock, except inside an interrupt, up to 255. |
| `Kernels.KernelCore.SchedUnlock` | fpga/software/server1_bsp/UCOSII/src/os_core.c:735-761 | Undoes a lock and reschedules when the last one goes: the critical section of DropLock, then OS_Sched, without an interruption between them. |
| `Kernels.KernelCore.DropLock` | fpga/software/server1_bsp/UCOSII/src/os_core.c:743-757 | The critical section of OSSchedUnlock: counts down, and says whether OS_Sched is to follow, as the run theorems have it. |
| `SchedNesting.CountersAreDepths` | fpga/software/server1_bsp/UCOSII/src/os_core.c:617-761 | Over every run with paired calls, with interrupts between a service's critical section and its OS_Sched and between OSSchedUnlock's and its OS_Sched: the counters are the true nesting depths up to any point if and only if no depth so far exceeds 255, and then the highest ready task runs whenever both depths are zero, the running task owes no OS_Sched, and no OSTimeTick called by a task is still unanswered. |
| `SchedNesting.SwitchOnlyAtZero` | fpga/software/server1_bsp/UCOSII/src/os_core.c:1610-1633 | No step switches while a counter is nonzero, and only OS_Sched and OSIntExit do; they end with the least ready priority running whenever they leave both at zero, and an unlock from nonzero that does so owes an OS_Sched. |
| `SchedNesting.BehindInBetween` | fpga/software/server1_bsp/UCOSII/src/os_core.c:735-761 | The exceptions are real: before the OS_Sched of a service, and after OSTimeTick called by a task, the running task is the highest ready one only if the new ready list makes it so; the OS_Sched, or any interrupt, then puts it right. |
| `SchedNesting.SameTaskInside` | fpga/software/server1_bsp/UCOSII/src/os_core.c:651-679 | While an interrupt is serviced or the scheduler is locked, the running task stays the same. |
| `SchedNesting.DeepNestingReschedules` | fpga/software/server1_bsp/UCOSII/src/os_core.c:624-626 | Beyond 255 levels the 255th exit reschedules with interrupts still open. |
| `SchedNesting.IsrPairDropsLock` | fpga/software/server1_bsp/UCOSII/src/os_core.c:706-752 | A lock/unlock pair called by an interrupt is without effect if and only if the interrupted task holds no lock. |
| `SchedNesting.UnmatchedCalls` | fpga/software/server1_bsp/UCOSII/src/os_core.c:617-761 | Before multitasking none of the four calls counts or switches; an unlock without a lock does nothing; an exit without an entry switches like the last exit. |
| `Alarms.SystemClock.Start` | fpga/software/server1_bsp/HAL/src/alt_alarm_start.c:64-112 | Error returns, and the new entry at the head of the list. |
| `Alarms.SystemClock.Tick` | fpga/software/server1_bsp/HAL/src/alt_tick.c:96-135 | The list after a tick and the alarms called, in list order. |
| `Alarms.SystemClock.Stop` | fpga/software/server1_bsp/HAL/src/alt_tick.c:66-73 | Removes the entry and no other. |
| `Alarms.TickInOrder` | fpga/software/server1_bsp/HAL/src/alt_tick.c:96-135 | A tick calls each alarm at most once, in list order, and keeps the others in their order. |
| `Alarms.StopInOrder` | fpga/software/server1_bsp/HAL/src/alt_tick.c:66-73 | The entries that stay when one is removed keep their order. |
| `Alarms.StartIsRight` | fpga/software/server1_bsp/HAL/src/alt_alarm_start.c:80-96 | A started alarm stands for the deadline now + n + 1 of an unbounded clock if and only if n < 2^32 - 1 or the counter is at its last value. |
| `Alarms.LongestFiresAtOnce` | fpga/software/server1_bsp/HAL/src/alt_alarm_start.c:89-96 | Otherwise it fires on the very next tick. |
| `Alarms.VisitIsRight` | fpga/software/server1_bsp/HAL/src/alt_tick.c:107-134 | Counter, deadline modulo 2^32 and flag fire exactly on the deadline, and re-arming by p moves it by exactly p. |
| `Alarms.FiresOnSchedule` | fpga/software/server1_bsp/HAL/src/alt_tick.c:96-141 | In every run of ticks, starts and stops an alarm is called on exactly the ticks of its unbounded schedule: none early, late or lost over any number of wraps. |
| `Alarms.StartedOnSchedule` | fpga/software/server1_bsp/HAL/src/alt_alarm_start.c:64-112 | From its start on: first on the (n+1)-th following tick, then after each nonzero answer p exactly p ticks later. |
| `Alarms.PeriodicSchedule` | fpga/software/server1_bsp/HAL/src/alt_tick.c:119-133 | A constant answer p gives exactly every p-th tick from the first. |
| `HeapLock.StepKeeps` | fpga/software/server1_bsp/UCOSII/src/alt_malloc_lock.c:63-146 | Every step of either function keeps: semaphore count plus tasks between acquisition and post is one, and lockid and locks are the holder's identity and depth. |
| `HeapLock.MutualExclusion` | fpga/software/server1_bsp/UCOSII/src/alt_malloc_lock.c:63-146 | In every run at most one task is past its lock, it is the recorded owner, locks is its nesting depth, and nobody waits for a free lock. |
| `HeapLock.QueryNeverMisleads` | fpga/software/server1_bsp/UCOSII/src/alt_malloc_lock.c:87-101 | However old the OSSemQuery result, the critical section admits a task without the semaphore if and only if it already holds the lock. |
| `HeapLock.PostHandsOver` | fpga/software/server1_bsp/UCOSII/src/alt_malloc_lock.c:134-138 | A post with waiters makes the best waiter the only holder. |
| `HeapLock.ReleasedByLastUnlock` | fpga/software/server1_bsp/UCOSII/src/alt_malloc_lock.c:63-146 | Nested locks: a task with more completed locks than unlocks holds the lock, and of its unlocks exactly the one that makes them equal goes on to the post. |
| `HeapLock.DepthIsBalance` | fpga/software/server1_bsp/UCOSII/src/alt_malloc_lock.c:63-146 | The nesting depth is, in every run, the number of completed locks less the unlocks. |
| `HeapLock.UnlockTrustsItsCaller` | fpga/software/server1_bsp/UCOSII/src/alt_malloc_lock.c:126-143 | An unlock keeps the lock sound if and only if its caller holds it or no lock is counted. |
| `HeapLock.ExampleLocked` | fpga/software/server1_bsp/UCOSII/src/alt_malloc_lock.c:63-109 | A run from the free lock after which one task holds it. |
| `HeapLock.StrangerGetsIn` | fpga/software/server1_bsp/UCOSII/src/alt_malloc_lock.c:126-143 | From there: another task calls __malloc_unlock and then __malloc_lock, and both tasks are inside. |
| `FdPool.OpenIsAtomic` | fpga/software/server1_bsp/HAL/src/alt_open.c:105-171 | Open succeeds exactly if the name is known, a descriptor is free, no other descriptor has locked the device and the driver agrees; then it returns the lowest free descriptor and touches no other; any failure leaves every open descriptor as it was and every other one free. |
| `FdPool.OpenOutcome` | fpga/software/server1_bsp/HAL/src/alt_open.c:105-171 | Which error each failing open gives, in the order of the tests; a successful one returns the lowest free descriptor, opened for the device with all the caller's flags but the two reserved ones, and raises the mark to it. |
| `FdPool.CloseOutcome` | fpga/software/server1_bsp/HAL/src/alt_close.c:75-101 | The driver's error or zero; every descriptor but the three standard ones is freed whatever the driver says, and no other changes. |
| `FdPool.IoctlOutcome` | fpga/software/server1_bsp/HAL/src/alt_ioctl.c:106-168 | The lock requests on a device change the lock bit of the one descriptor and nothing else, or are refused for another user below the mark; all other requests get the driver's answer, or ENOTTY. |
| `FdPool.FlagsReadBack` | fpga/software/server1_bsp/HAL/src/alt_fcntl.c:84-85 | F_GETFL after a successful open gives exactly the flags passed to it, without the two reserved bits. |
| `FdPool.SetFlReadsBack` | fpga/software/server1_bsp/HAL/src/alt_fcntl.c:84-92 | F_SETFL(a) followed by F_GETFL gives a on O_APPEND and O_NONBLOCK and what was read before on all other bits. |
| `FdPool.FlagsLast` | fpga/software/server1_bsp/HAL/src/alt_fcntl.c:84-92 | Over runs: F_GETFL reads the same from a descriptor until it is closed, redirected or changed by F_SETFL; locking and unlocking do not show. |
| `FdPool.CloseUndoesOpen` | fpga/software/server1_bsp/HAL/src/alt_close.c:84-94 | Closing what was just opened restores the pool, whatever the driver answers. |
| `FdPool.RedirectIsLocal` | fpga/software/server1_bsp/HAL/src/alt_io_redirect.c:58-72 | A redirection changes its standard descriptor, or nothing; above 2 the pool is as before. |
| `FdPool.RedirectOpens` | fpga/software/server1_bsp/HAL/src/alt_io_redirect.c:58-72 | If the open succeeds the standard descriptor is opened for the device with the caller's flags, otherwise it stays; the other two standard descriptors stay. |
| `FdPool.RedirectsAreLocal` | fpga/software/server1_bsp/HAL/src/alt_io_redirect.c:85-94 | alt_io_redirect has no net effect above the standard descriptors. |
| `FdPool.StepKeeps` | fpga/software/server1_bsp/HAL/src/alt_release_fd.c:44-51 | Every call keeps the pool sound (0..2 always open, everything above the high-water mark free) and every exclusive access that the call may not end. |
| `FdPool.ExclusiveAccess` | fpga/software/server1_bsp/HAL/src/alt_open.c:64-92 | In every run, from a descriptor holding ALT_FD_EXCL until it is unlocked, closed (above 2) or redirected (0..2), every open of its device fails, and neither such an open nor a redirection to the device changes any open descriptor. |
| `FdPool.LockGrantedToSoleUser` | fpga/software/server1_bsp/HAL/src/alt_fd_lock.c:54-75 | TIOCEXCL is granted exactly to sole users if and only if the descriptor at the high-water mark is not the one other user. |
| `FdPool.SharedDeviceLocked` | fpga/software/server1_bsp/HAL/src/alt_fd_lock.c:61-69 | The exception occurs: of two descriptors of one device the first gets the lock. |
| `FdPool.FileTable.GetFd` | fpga/software/server1_bsp/HAL/src/alt_get_fd.c:54-101 | The loop claims the lowest free descriptor and raises the mark, or changes nothing. |
| `FdPool.FileTable.OpenFile` | fpga/software/server1_bsp/HAL/src/alt_open.c:105-171 | Open over the array computes the specification. |
| `FdPool.FileTable.CloseFile` | fpga/software/server1_bsp/HAL/src/alt_close.c:64-101 | Close over the array computes the specification. |
| `FdPool.FileTable.FdLock` | fpga/software/server1_bsp/HAL/src/alt_fd_lock.c:54-75 | The scan refuses the lock exactly for another user below the mark; a granted lock sets the lock bit and changes nothing else. |
| `FdPool.FileTable.FdUnlock` | fpga/software/server1_bsp/HAL/src/alt_fd_unlock.c:52-56 | Clears the lock bit of the one descriptor, and changes no other bit and no other descriptor. |
| `FdPool.FileTable.IoctlFile` | fpga/software/server1_bsp/HAL/src/alt_ioctl.c:106-168 | Lock requests on a device, else the driver, else an error. |
| `FdPool.FileTable.FcntlFile` | fpga/software/server1_bsp/HAL/src/alt_fcntl.c:66-101 | F_SETFL changes O_APPEND and O_NONBLOCK only; F_GETFL hides the two reserved flags. |
| `FdPool.SetFlSetsOnly` | fpga/software/server1_bsp/HAL/src/alt_fcntl.c:86-92 | F_SETFL sets the two flags to what it is given and leaves all others. |
| `FdPool.FileTable.IoRedirect` | fpga/software/server1_bsp/HAL/src/alt_io_redirect.c:85-94 | Three redirections in order, no net effect above 2. |
| `FdPool.FileTable.constructor` | fpga/software/server1_bsp/HAL/src/alt_dev.c:118-149 | The pool at start: 0..2 on the null device, the rest free, mark -1. |
| `FdPool.InitialOk` | fpga/software/server1_bsp/HAL/src/alt_dev.c:118-149 | That pool is sound: the invariant of the run theorems holds at start. |
| `WallClock.Clock.SetTimeOfDay` | fpga/software/server1_bsp/HAL/src/alt_settod.c:72-96 | Stores the offset, or fails without a clock and stores nothing. |
| `WallClock.Clock.GetTimeOfDay` | fpga/software/server1_bsp/HAL/src/alt_gettod.c:75-124 | The normalised sum of the stored offset and the ticks, or a failure without a clock. |
| `WallClock.Clock.Settle` | fpga/software/server1_bsp/HAL/src/alt_gettod.c:94-112 | The two normalisation loops end and keep the total, or give zero for a negative total. |
| `WallClock.NormalisedKeeps` | fpga/software/server1_bsp/HAL/src/alt_gettod.c:94-112 | What they end in: microseconds below a second and the same total, or time zero for a negative total with negative microseconds. |
| `WallClock.NeverSet` | fpga/software/server1_bsp/HAL/src/alt_gettod.c:91-112 | A clock that was never set shows the seconds and microseconds since its tick counter was zero. |
| `WallClock.ProductsAgree` | fpga/software/server1_bsp/HAL/src/alt_settod.c:80-84 | The 32-bit and the 64-bit product agree modulo one second if and only if the high word is a multiple of 15625. |
| `WallClock.SetThenGet` | fpga/software/server1_bsp/HAL/src/alt_gettod.c:91-112 | Set at N0 and read at N >= N0 ticks: if that makes any time after the epoch, the clock shows exactly the time set plus the elapsed ticks if and only if the product at N0 was good; if it makes time zero, if and only if the product lost nothing or made the time too small, which the clamp repairs. |
| `WallClock.SmallProduct` | fpga/software/server1_bsp/HAL/src/alt_settod.c:80-84 | So it is right whenever the ticks at setting, in microseconds, fit in 32 bits. |
| `WallClock.LossExample` | fpga/software/server1_bsp/HAL/src/alt_settod.c:80-84 | A wrong one: at 100 ticks a second, set to 10 s at tick 429497, the clock at once reads 10.967296 s. |
| `WallClock.ReadBackAndMonotone` | fpga/software/server1_bsp/HAL/src/alt_settod.c:80-84 | An immediate read shows the time that was set, and later reads never go back. |
| `SleepSplit.USleep` | fpga/software/server1_bsp/HAL/src/alt_usleep.c:56-104 | The delays add up to the tick count, all but the last are 0xffff and that is no more, and the rest is busy-waited. |
| `SleepSplit.TicksExact` | fpga/software/server1_bsp/HAL/src/alt_usleep.c:79-80 | The tick count is exact if and only if the 32-bit product of the fraction does not overflow. |
| `SleepSplit.SleepExact` | fpga/software/server1_bsp/HAL/src/alt_usleep.c:79-101 | With a rate dividing 10^6, delays and busy loop make exactly the requested time, under the same condition and no other. |
| `Printers.LogInteger` | fpga/software/server1_bsp/HAL/src/alt_log_printf.c:206-297 | The div/mod printer outputs the numeral of the magnitude with sign and padding, in the letters the directive asks for; its place value never wraps. |
| `Printers.PrintHex` | fpga/software/server1_bsp/HAL/src/alt_printf.c:82-111 | The shift/mask printer outputs the hexadecimal numeral, in digits and lower-case letters. |
| `Printers.LayoutReads` | fpga/software/server1_bsp/HAL/src/alt_log_printf.c:257-297 | Padded output of any number in any base from 2 to 16 reads back as the number and has length max(width, digits + sign). |
| `Printers.LayoutShape` | fpga/software/server1_bsp/HAL/src/alt_log_printf.c:257-297 | Every character of the output: with zero padding the sign and zeros, else blanks and the sign; then digits of the base in the case of the directive, without a leading zero. |
| `Printers.IntegerReads` | fpga/software/server1_bsp/HAL/src/alt_log_printf.c:210-245 | Read back, a directive gives the 32-bit argument as signed or unsigned. |
| `Printers.PlacesAreNumeral` | fpga/software/server1_bsp/HAL/src/alt_log_printf.c:248-297 | Digits by place value, from the top, are the numeral without a leading zero. |
| `Printers.PlainLayout` | fpga/software/server1_bsp/HAL/src/alt_printf.c:82-111 | Without a width the two printers' outputs are the same string. |
| `CacheFlush.FlushInstructions` | fpga/software/server1_bsp/HAL/src/alt_icache_flush.c:42-84 | The addresses flushed, with the cap and the extra line of an unaligned start, for exactly the regions on which the loop ends and that do not wrap once capped. |
| `CacheFlush.FlushData` | fpga/software/server1_bsp/HAL/src/alt_dcache_flush.c:57-97 | The addresses flushed, capped only when lines are flushed by index, under the same condition. |
| `CacheFlush.RegionCovered` | fpga/software/server1_bsp/HAL/src/alt_dcache_flush.c:78-94 | Every line of the region is flushed, none twice, and beyond it nothing but, for an unaligned start, the next line. |
| `CacheFlush.EmptyRegion` | fpga/software/server1_bsp/HAL/src/alt_dcache_flush.c:78-94 | For an empty region nothing is flushed, or the one address of an unaligned start. |
| `CacheFlush.CapCovers` | fpga/software/server1_bsp/HAL/src/alt_icache_flush.c:53-74 | However long the region, the capped flush reaches the place of each of its lines in a direct-mapped cache, aligned or not. |
| `CacheFlush.CachesCovered` | fpga/software/server1_bsp/system.h:118-131 | For the two caches of the build: the place of every line of the region in the instruction cache, which is flushed by index and capped, and every line itself in the data cache, which is flushed by address; and the places in a data cache flushed by index. |
| `CacheFlush.NeverEnds` | fpga/software/server1_bsp/HAL/src/alt_dcache_flush.c:78-86 | On a region whose last round takes the loop pointer past the end of the address space, the pointer is below the region's end in every round: the loop never ends. |
| `CacheFlush.LastRegion` | fpga/software/server1_bsp/HAL/src/alt_dcache_flush.c:76-94 | A region that ends exactly at the end of the address space is flushed if and only if it starts unaligned in the last line. |
| `SlabHeap.Heap.Sbrk` | fpga/software/server1_bsp/HAL/src/alt_sbrk.c:68-136 | Without a decrease: a word-aligned block inside the heap that overlaps nothing handed out before, or a failure that hands out nothing. With a decrease: the heap stays sound if and only if nothing in use is above its new end. |
| `SlabHeap.Heap.Allocate` | fpga/software/server1_bsp/HAL/src/alt_gmon.c:133-148 | A block inside the heap and inside its slab, that overlaps nothing handed out before, if and only if it is at most 1020 bytes long and the slab had room or sbrk gave a new one; an empty block is always fine. |
| `SlabHeap.UnsoundBlocks` | fpga/software/server1_bsp/HAL/src/alt_gmon.c:133-148 | Both failures occur: in a heap of 1000 bytes the block returned is sbrk's failure value, and a block of 1021 bytes reaches beyond its slab. |
| `SlabHeap.Carved` | fpga/software/server1_bsp/HAL/src/alt_gmon.c:143-145 | Cutting a block off the slab keeps all blocks and the rest of the slab disjoint. |
| `SlabHeap.Extended` | fpga/software/server1_bsp/HAL/src/alt_sbrk.c:96-97 | Moving the heap end up keeps them disjoint. |
| `SlabHeap.Shrunk` | fpga/software/server1_bsp/HAL/src/alt_sbrk.c:96-97 | Moving it down keeps them sound if and only if all of them are below the new end. |

## Left out

- Mutexes, event flags, memory partitions and OS timers: services on other control blocks; OSEventPendMulti refuses the first two, as the model does.
- OSTaskDel, OSTaskChangePrio, OSSemSet, OSQFlush, OSQPostFront, the PostOpt and Accept services, event deletion: not part of the kernel model.
- The free list of event blocks: `EventCreate` is given an unused block.
- Kernels.KernelCore.TaskCreate: states the whole call without interrupts; of its critical sections only the linking one is a step of the run theorems, since the others change nothing that the runs speak of (`Reserve`).
- Kernels.KernelCore.TickAll: states the walk without interrupts between two tasks; in the run theorems any step may come between two visits (`KernelTicks.VisitsAreCalls`).
- Kernels.KernelCore.TimeTick: states a call whose walk is not interrupted, like TickAll.
- Kernels.KernelCore.SchedUnlock: states a call without an interrupt between its critical section and OS_Sched; the run theorems of SchedNesting have them apart.
- A whole broadcast abort is one critical section in the code and one method here; the run theorems have it as one abort after another.
- SchedNesting: the OS_Sched of a service called by an interrupt does nothing and is not a step.
- The array given to OSEventPendMulti is taken not to change while the task waits, and the arrays it fills are returned as sequences.
- A task takes a step of its own only while it is ready, so a delay or a self-suspension with the scheduler locked is outside the run theorems; the idle task calls no service.
- Null-pointer arguments of the services, hooks, names, profiling and stack fields.
- The queue is a ring with indexes as a value inside the event block; the wide-row bitmaps are proved as values, the class is the build with OS_LOWEST_PRIO at most 63.
- The context-switch assembly: a switch makes the chosen task the current one.
- Alarms: the doubly linked list is a sequence; callbacks neither start nor stop alarms.
- The heap lock before multitasking starts (both functions return at once), and deletion or abort of its semaphore.
- File descriptors: a call runs to its end before the next one; the private pointer of a descriptor and the list search by name are not modelled, nor are newlib's O_APPEND and O_NONBLOCK beyond their bits.
- alt_env_lock.c, CPU usage and PC-sample buckets, the rest of the printf format language, device drivers, the socket server and its tools.
- Printers.Nibble: states the masked and shifted digit as a quotient and a remainder instead of bit operations.
- SlabHeap.Heap.Sbrk: does not model the stack checks, nor a decrease below address zero.
- Alarms.SystemClock.Start: an alarm that is still registered is not covered; the second insertion would corrupt the linked list, which is a sequence here.
- CacheFlush.FlushInstructions, CacheFlush.FlushData: regions on which the C loop does not end have no result (`NeverEnds`), and regions that wrap around the address space are not covered.

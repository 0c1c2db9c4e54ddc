# LiteOS-M kernel, verified model

This project models the core of the LiteOS-M kernel in Dafny and proves what that core promises: the
priority scheduler with its ready queues, wait lists and timer list; the semaphores, mutexes, message
queues and events built on it; the tick interrupt; the shadow memory of the heap checker (LMS); the
CPU usage accounts; the cycle, nanosecond and frequency conversions of the tick and power management;
and the symbol lookup of the dynamic linker.

The scheduler and the four blocking primitives come in two layers.

* **State machines.** `Sched`, `Machine` and the protocol modules (`Semaphores`, `Mutexes`,
  `MessageQueues`, `Events`) are values, functions and steps. A step is a kernel call, an interrupt, the
  passing of time or a task switch, and a run is any sequence of enabled steps, so a statement about
  runs covers every interleaving of tasks, interrupt handlers and timeouts. The protocol modules put one
  object (or a table of mutexes) into the running system; `Other` steps are everything the rest of
  the system does in between, subject only to `Blocking.Foreign`.
* **Objects.** `SchedulerImpl.Scheduler` keeps the kernel's variables, among them the 32-bit queue bitmap,
  and updates them in place, statement by statement as `kernel/src/los_sched.c` does. Each method is
  proved to lead to the state the machine says, `Perform` for every step and `PerformAll` for every
  run. `SemaphoreObjects`, `MutexObjects`, `MessageQueueObjects` and `EventObjects` do the same for the
  control blocks, over that scheduler and, for queues, over the flat byte buffer. `LinkedLists` has
  the circular lists and the sort link with their real pointers, and `PendLists` the ready queues and wait
  lists as rings of such nodes in one memory: each operation on the rings is proved to change the lists as
  `Queues` says. `RingRuns` carries every step out on both the scheduler and the rings and proves that on every run
  from boot the rings are the scheduler's lists.

Time is a number of cycles that only `Elapse` advances: no clock ticks inside a step, except between the two readings
of a CPU usage query and of the tick timer's stop. The hardware timer is a bound `cap` on what a reload accepts;
`TickHardware` adds what that timer was last loaded with. Status words are records of booleans. A call that blocks is
two steps: up to the switch (`Pend`, `Call`, `Read`) and from the resumption on (`PendReturn`, `CallReturn`,
`ReadReturn`).

Where the code falls short of what one would expect, the model follows the code, shows the failing case
and gives the exact condition:

* `OsSchedResume` puts a task that suspended itself and has not been switched away from back into a ready queue
  while it is RUNNING (`Guarantees.ResumeExact`, `Guarantees.ResumedTooEarly`). The machine's resume step is
  therefore enabled only when that cannot happen.
* `OsSchedUpdateExpireTime`, called when a software timer is started or stopped while the running task's slice is
  already over, can subtract the current time from an earlier one; the 64-bit difference wraps and
  deadlines are lost. `TickArming.ArmExact` and `TickArming.TimerStepExact` say exactly when, and
  `LostDeadline.StoppingTimerLosesDeadline` is a run from boot that gets there.
* `OsPmTickTimerStop` computes the length of the sleep from one clock reading and starts it at a later one, so a full
  sleep ends past the deadline unless the conversions lose more than the time between the readings
  (`TimeArith.SleepEnd`, `TimeArith.SleepOvershoots`).
* With nothing counted, `LOS_AllTaskCpuUsage` leaves the usages in the caller's records as they were, so they
  can add up to anything (`CpupUsage.AllUsagesExact`, `CpupUsage.StaleUsage`). A usage is exact only while a
  thousandfold of the part fits 64 bits (`CpupUsage.TaskUsageInRange`).
* A query of the CPU usage reads the clock when it closes the running task's interval and again when it opens the
  next; the time between is charged to nobody (`Cpup.LostExactly`).
* Deleting a task that was woken by a semaphore or a queue and has not run since loses the token or the slot handed
  to it, and such a queue can never be deleted again (`Semaphores.DeletionDropsToken`,
  `MessageQueues.DeletionLosesSlot`).
* A reader woken by LOS_EventWrite finds its bits when it runs unless some step in between takes bits away
  (`EventReads.WokenReadFinds`); LOS_EventClear or another reader that clears can make it read nothing
  (`EventReads.ClearStarvesReader`, `EventReads.ReaderStarvesReader`).
* `OsTimeSliceUpdate` works on 32-bit values and charges the true time only while what is left of the slice fits
  (`Sched.ChargedExactly`).
* A deleted task that is not recycled yet and was suspended can be resumed and is then READY
  (`Suspensions.ResumeRevives`, `Suspensions.DeletedStaysDead`).
* LOS_TaskYield gives the slice up, but if the task has run for so long that the time wraps in 32 bits the switch may take it
  for unused (`SliceRounds.YieldRotates`).
* A deadline equal to the first one goes right behind the first, before later equal ones
  (`Deadlines.BehindEquals`).
* The non-strict LMS check probes the two ends of an access only, which is enough exactly for accesses that touch
  at most two words (`LmsCheck.EndsExact`).
* Converting times to another clock frequency keeps their order always, and real time only if one frequency divides
  the other (`TimeArith.ConvertExact`).
* `components/cpup/los_cpup.h:220` says that an unknown mode means "less than 1s"; the code treats it like mode 0
  (`CpupUsage.OtherModes`). The history is sampled every `g_sysClock` microseconds, which is a second
  only for a clock of 1 MHz.

## Model

| member | source | states |
|---|---|---|
| Guarantees.Reachable | kernel/src/los_sched.c:141-393 | in every state any run reaches from boot: each pendList node is on at most one list and once, a non-idle task is READY iff it is on the queue of its priority, PEND iff it is on a wait list, a task not running is on the sort link iff DELAY or PEND_TIME, each bitmap bit is set iff its queue is non-empty, the sort link is ordered |
| Guarantees.InvGuarantees | kernel/src/los_sched.c:224-311 | the invariant kept by every step implies all of the above in terms of lists and status bits |
| Guarantees.ResumeExact | kernel/src/los_sched.c:362-375 | resuming a suspended task keeps the invariant iff the task is not RUNNING or also pends or is delayed |
| Guarantees.ResumedTooEarly | kernel/src/los_sched.c:344-375 | every executing task reaches the failing case by suspending itself |
| Machine.NextKeeps | kernel/src/los_sched.c:141-617 | each of the seventeen kinds of step keeps the scheduler's invariant |
| Machine.Safety | kernel/src/los_sched.c:460-519 | the boot state, tick armed, satisfies the invariant and so does every state reachable from it by any interleaving |
| Machine.EffectAgrees | kernel/src/los_sched.c:224-393 | wait, wake, suspend, resume, priority change and exit leave the task's status word in agreement with its two nodes and touch no other task's nodes |
| Machine.TickKeeps | kernel/src/los_sched.c:588-617 | the tick handler keeps the invariant, with or without a scan and with scheduling locked or not |
| Machine.TopIsReady | kernel/src/los_sched.c:479-491 | the task chosen is READY and no READY task is more urgent; it is idle only if nothing is queued |
| Machine.Dispatch | kernel/src/los_sched.c:521-566 | a switch keeps the invariant, changes neither clock nor timers, and a non-idle task it starts has more than the minimum slice left |
| Queues.TopMostUrgent | kernel/src/los_sched.c:479-491 | the head of the queue of the first set bit is linked there and no node is on a queue of smaller number |
| Queues.PriEn | kernel/src/los_sched.c:141-162 | linking a free node keeps membership and bitmap sound and leaves the wait lists alone |
| Queues.PriDelete | kernel/src/los_sched.c:164-170 | unlinking keeps membership and bitmap sound and leaves the wait lists alone |
| Frames.ScanExact | kernel/src/los_sched.c:191-222 | a scan at time t ends exactly the waits and delays due by t and leaves every other task as it was |
| Frames.TickTask | kernel/src/los_sched.c:588-617 | what one tick does to one task: its wait ends by timeout if due, else nothing but its turn to run changes |
| Frames.SwitchFrame | kernel/src/los_sched.c:521-566 | a switch changes no wait list and nothing of a task but READY, RUNNING, slice and start time |
| Frames.EffectOthers | kernel/src/los_sched.c:224-393 | a step on one task changes no other task and none of its nodes |
| Bitmaps.WithBits | kernel/src/los_sched.c:148-149 | setting PRIQUEUE_PRIOR0_BIT shifted by a priority adds exactly that priority |
| Bitmaps.MinusBits | kernel/src/los_sched.c:167-169 | clearing that bit takes exactly that priority out |
| Bitmaps.ZeroIsEmpty | kernel/src/los_sched.c:483-489 | the word is zero iff no priority is set |
| Bitmaps.LeadingZerosClz | kernel/src/los_sched.c:484-484 | the number of leading zeros is the most urgent priority set |
| Bitmaps.LeadingZerosExact | kernel/src/los_sched.c:484-484 | cutting the word off behind the bit that is found leaves exactly that bit |
| SchedulerImpl.Scheduler.constructor | kernel/src/los_sched.c:460-519 | builds the boot state of the machine, with the tick armed as OsSchedStart does at its end |
| SchedulerImpl.Scheduler.PriQueueEn | kernel/src/los_sched.c:141-162 | node, list and bit word become what PriEn says |
| SchedulerImpl.Scheduler.PriQueueDelete | kernel/src/los_sched.c:164-170 | node, list and bit word become what PriDelete says |
| SchedulerImpl.Scheduler.TaskEnQueue | kernel/src/los_sched.c:224-242 | status, slice and queues become those of the machine; a task with slice left goes to the head, one without gets a slice and goes to the tail; no other task changes |
| SchedulerImpl.Scheduler.TaskDeQueue | kernel/src/los_sched.c:244-253 | a READY task leaves its queue, any other stays as it is |
| SchedulerImpl.Scheduler.TaskExit | kernel/src/los_sched.c:255-269 | the task leaves its queue or wait list and the sort link |
| SchedulerImpl.Scheduler.Delay | kernel/src/los_sched.c:278-282 | the running task is marked with its delay and no other task changes |
| SchedulerImpl.Scheduler.TaskWait | kernel/src/los_sched.c:284-295 | the running task joins the tail of the list, with a timeout unless it waits forever |
| SchedulerImpl.Scheduler.TaskWake | kernel/src/los_sched.c:297-311 | the task leaves wait list and sort link and becomes READY unless suspended or still running |
| SchedulerImpl.Scheduler.SuspendTask | kernel/src/los_sched.c:344-360 | a READY task leaves its queue, and the task is suspended |
| SchedulerImpl.Scheduler.ResumeTask | kernel/src/los_sched.c:362-375 | the task is READY again unless it waits or is delayed, and the result says which |
| SchedulerImpl.Scheduler.ModifyTaskSchedParam | kernel/src/los_sched.c:377-393 | a READY task moves to the queue of its new priority; the result asks for a switch iff it is READY or running |
| SchedulerImpl.Scheduler.DeleteNodeSortLink | kernel/include/los_sortlink.h:78-82 | the deadline is invalid and the node off the list |
| SchedulerImpl.Scheduler.DeleteSortLinkOf | kernel/src/los_sortlink.c:99-109 | a valid deadline leaves the list, and opens the tick if it was the one awaited |
| SchedulerImpl.Scheduler.Add2SortLink | kernel/src/los_sortlink.c:78-97 | start plus ticks in cycles goes to its place in the order |
| SchedulerImpl.Scheduler.WakePendTimeTask | kernel/src/los_sched.c:172-189 | a pending task gets TIMEOUT and leaves its list; it becomes READY unless suspended |
| SchedulerImpl.Scheduler.ScanTimerList | kernel/src/los_sched.c:191-222 | the loop ends in the state of the machine's scan; a switch is asked for iff some task became READY |
| SchedulerImpl.Scheduler.TimeSliceUpdate | kernel/src/los_sched.c:76-85 | the 32-bit time since the start is taken off the 32-bit slice of every task but idle |
| Sched.ChargedExactly | kernel/src/los_sched.c:76-85 | the charge is the true time since the start iff what is then left of the slice fits 32 bits |
| Slices.RestExactly | kernel/src/los_sched.c:76-85 | the slice of every task after every step, exactly: the running task is charged the time that passes, once, and ticks and switches charge it no more; a yield gives it up; a task is refilled exactly when it enters a ready queue with no more than the shortest slice |
| Slices.SliceSpent | kernel/src/los_sched.c:76-85 | on every run, however often it is ticked, switched away and resumed, a task is charged exactly the time it runs, as long as 32 bits suffice |
| Slices.WordsOnRuns | kernel/src/los_sched.c:76-85 | slices are 32-bit words on every run from boot |
| SliceRounds.JoinsQueue | kernel/src/los_sched.c:224-242 | a task that is woken, resumed or re-prioritised goes in front of its queue with more than the shortest slice left and behind it otherwise |
| SliceRounds.ExpiredJoins | kernel/src/los_sched.c:191-242 | so does a task whose wait a scan ends |
| SchedulerImpl.Scheduler.SetNextExpireTime | kernel/src/los_sched.c:87-117 | response time and owner become those of SetNextExpire, or stay if the tick is early enough |
| SchedulerImpl.Scheduler.UpdateExpireTime | kernel/src/los_sched.c:119-139 | the tick is armed for the rest of the running task's slice, a full one if it is used up |
| SchedulerImpl.Scheduler.TickHandler | kernel/src/los_sched.c:588-617 | the state becomes that of the machine's tick; a switch is asked for iff scheduling is not locked |
| SchedulerImpl.Scheduler.GetTopTask | kernel/src/los_sched.c:479-491 | returns the head of the queue of the first set bit, idle for an empty word |
| SchedulerImpl.Scheduler.TaskSwitch | kernel/src/los_sched.c:521-566 | the state becomes that of the machine's switch; the result says whether another task runs |
| SchedulerImpl.Scheduler.Perform | kernel/src/los_sched.c:76-617 | every step carried out in place leads to the machine's next state and keeps the invariant |
| SchedulerImpl.Scheduler.PerformAll | kernel/src/los_sched.c:76-617 | so does every run |
| LinkedLists.Node.constructor | utils/los_list.h:75-79 | a head alone is a ring of one |
| LinkedLists.ListAdd | utils/los_list.h:122-128 | the ring with the node inserted behind the given one is a ring; no other link changes |
| LinkedLists.TailInsert | utils/los_list.h:149-152 | the new node becomes the last member |
| LinkedLists.ListDelete | utils/los_list.h:198-204 | the rest of the ring is a ring in the same order and the node has null links |
| LinkedLists.ListEmpty | utils/los_list.h:227-230 | true iff the ring has no member |
| PendLists.RingsApart | kernel/src/los_sched.c:141-170 | rings of different lists have no node in common |
| PendLists.PendLists.constructor | kernel/src/los_sched.c:460-466 | heads and nodes in memory, every list empty |
| PendLists.PendLists.PriQueueEn | kernel/src/los_sched.c:141-162 | linking a task node at the head or tail of a priority ring makes the rings and the bit word those of PriEn; every other list stays the ring it was |
| PendLists.PendLists.PriQueueDelete | kernel/src/los_sched.c:164-170 | unlinking it, without being told its list, makes them those of PriDelete |
| PendLists.PendLists.ListTailInsert | kernel/src/los_sched.c:284-290 | the node joins the tail of a wait ring and no other ring changes |
| PendLists.PendLists.ListDelete | kernel/src/los_sched.c:297-299 | the node leaves whatever wait ring it is on and no other ring changes |
| PendLists.PendLists.TopNode | kernel/src/los_sched.c:479-491 | the node behind the head of the first non-empty ring is that of the task the machine chooses |
| RingRuns.StepOn | kernel/src/los_sched.c:141-566 | every step of the machine, carried out on the rings, turns them into the lists of the next state |
| RingRuns.Start | kernel/src/los_sched.c:460-519 | scheduler and rings start with the same lists |
| RingRuns.PerformAll | kernel/src/los_sched.c:76-617 | on every run carried out in place on both, the rings are the scheduler's lists |
| LinkedLists.WalkBack | kernel/src/los_sortlink.c:66-75 | the backward loop stops at the last member not later than the deadline, before the head |
| LinkedLists.AddNode | kernel/src/los_sortlink.c:48-76 | exactly the new node is linked in, at the position InsertPos says, all deadlines unchanged |
| LinkedLists.DeleteNode | kernel/include/los_sortlink.h:78-82 | exactly that node leaves, the other deadlines stay in order, its own becomes invalid |
| LinkedLists.TimeUpdate | kernel/src/los_sortlink.c:111-125 | every member's deadline is converted once and no link changes |
| LinkedLists.ConvertedSorted | kernel/src/los_sortlink.c:111-136 | converting every deadline keeps the list ordered |
| Deadlines.InsertPos | kernel/src/los_sortlink.c:48-76 | in an ordered list everything before the position is not later and everything after it not earlier |
| Deadlines.InsertKeepsSorted | kernel/src/los_sortlink.c:48-76 | the list stays ordered |
| Deadlines.BehindEquals | kernel/src/los_sortlink.c:57-75 | a deadline goes behind all equal ones iff not both of the first two equal it |
| SortLinks.AddKeeps | kernel/src/los_sortlink.c:78-97 | the ordered list then holds exactly the tasks with a valid deadline |
| SortLinks.DropKeeps | kernel/include/los_sortlink.h:78-82 | and still does after a deletion |
| Timeouts.TimeoutsOnce | kernel/src/los_sched.c:172-222 | one scan sets TIMEOUT for a task once if it pends and is due, else never |
| Timeouts.WakeEndsWait | kernel/src/los_sched.c:297-311 | a wake takes the task off wait list and sort link and leaves TIMEOUT clear, even if the task is still RUNNING |
| Timeouts.StepBalances | kernel/src/los_sched.c:172-311 | every step keeps: waits begun are waits ended by wake, timeout or exit plus the one in progress, and TIMEOUT is set iff a timeout ended the last one |
| Timeouts.WaitsEndOnce | kernel/src/los_sched.c:172-311 | so on every run from boot each wait is resolved exactly once |
| Timeouts.NeverEarly | kernel/src/los_sched.c:191-222 | on every run a task held until d is neither READY nor timed out before d, unless woken or deleted |
| Timeouts.DelayNeverEarly | kernel/src/los_sched.c:278-295 | a task that delays or waits n ticks from s is not READY before s + n*clock/ticksPerSecond |
| Bookings.WaitsExactly | kernel/src/los_sched.c:278-295 | on every run after a delay or timed wait of n ticks on which nobody wakes or deletes the task: it is booked for the time of its switch plus n*clock/ticksPerSecond cycles, waits until a tick scans at or after that time, and that tick ends the wait by timeout |
| Bookings.PhaseExactly | kernel/src/los_sched.c:191-222 | every step moves such a wait on as the clock alone says |
| Bookings.WaitsForever | kernel/src/los_sched.c:284-295 | a wait without timeout has no deadline and goes on until the task is woken or deleted |
| Suspensions.SuspendedUntilResumed | kernel/src/los_sched.c:344-375 | on every run a suspended task is not READY, whatever wakes it or times out, and once switched away does not run, until it is resumed or deleted |
| Suspensions.ParksAndResumes | kernel/src/los_sched.c:344-375 | suspending parks a task; resuming readies it iff it neither waits nor is delayed |
| Suspensions.CreatedParked | kernel/src/los_task.c:717-745 | a created task is suspended at the priority asked for, with no slice and nothing pending |
| Suspensions.DeletedStaysDead | kernel/src/los_sched.c:255-269 | a deleted task is on no list and on every run neither READY nor, once switched away, running, until it is created again or resumed |
| Suspensions.ResumeRevives | kernel/src/los_task.c:866-903 | a deleted task that was suspended becomes READY when it is resumed |
| TickTimer.TicksToCyclesExact | kernel/include/los_tick.h:160-160 | ticks become the whole cycles in them |
| TickTimer.TimeBaseValid | kernel/src/los_sched.c:442-450 | the time base is usable iff the shortest tick has two cycles or more and a slice is longer than the shortest slice |
| TickTimer.TimeBaseExact | kernel/src/los_sched.c:442-450 | the values are the whole cycles in a slice, in 50 microseconds and in the shortest tick, and three quarters of the last |
| TickArming.ArmServes | kernel/src/los_sched.c:87-117 | unless the 64-bit difference wraps, the response time is then at most max(deadline, now + precision) + precision for every deadline of both sort links and is what the hardware timer was loaded with |
| TickArming.ArmExact | kernel/src/los_sched.c:87-117 | with a deadline pending, whatever the tick was and whenever the slice ends: every deadline is served on every timer hardware iff the call does not re-arm for a slice already over |
| TickArming.SliceTickMissesNone | kernel/src/los_sched.c:87-117 | when the tick is armed for the end of a slice every deadline is later than the armed time |
| TickArming.SwitchArms | kernel/src/los_sched.c:521-566 | after every switch the response time serves every deadline of both sort links, whatever it was before, and a tick armed for a slice is earlier than all of them |
| TickArming.TimerStepExact | kernel/src/los_sched.c:119-139 | with a deadline pending, starting or stopping a software timer serves every deadline on every timer hardware iff it does not wrap |
| TickArming.TimerStepArms | kernel/src/los_sched.c:119-139 | then the response time serves every deadline, whatever it was before |
| TickArming.LockedTickArms | kernel/src/los_sched.c:588-617 | so it does after a tick with scheduling locked |
| TickHardware.TimerKeeps | kernel/src/los_sched.c:69-139 | every step that does not wrap keeps: unless a tick has fired and the switch is pending, the hardware timer fires in time for every deadline, and a finite response time is what it was loaded with |
| TickHardware.BootOk | kernel/src/los_sched.c:503-519 | the timer armed at boot does |
| TickHardware.NoDeadlineForgotten | kernel/src/los_sched.c:69-139 | so on every such run from boot |
| TickHardware.RemovalOpens | kernel/src/los_sortlink.c:99-109 | ending a wait or a task keeps no tick armed for its deadline or a later time and touches no other |
| SliceTicks.ArmEndsSlice | kernel/src/los_sched.c:87-117 | however the tick was armed before, it then comes before the end of the slice plus the shortest period plus the precision |
| SliceTicks.OpenTickExactly | kernel/src/los_sched.c:87-117 | an open tick is armed for the slice iff every deadline can only be served later than its end plus the shortest period; it comes at that end, else at the earliest deadline, as near as the hardware allows and no earlier |
| SliceTicks.SwitchEndsSlice | kernel/src/los_sched.c:521-566 | both after every switch |
| SliceTicks.SliceKeeps | kernel/src/los_sched.c:87-139 | every step keeps: unless a switch is pending after a tick or a yield, the hardware timer fires by the end of the running task's slice, the shortest period and the precision |
| SliceTicks.NoSliceForgotten | kernel/src/los_sched.c:87-139 | so on every run from boot on which no arming wraps |
| SliceTicks.BootFresh | kernel/src/los_sched.c:493-519 | boot starts the idle task now and no other task exists |
| LostDeadline.StoppingTimerLosesDeadline | kernel/src/los_sched.c:119-139 | a run from boot to a state in which stopping a timer arms the tick far past a pending deadline |
| RoundRobin.KeepsRunning | kernel/src/los_sched.c:521-566 | a running task with slice left and nothing more urgent READY is selected again, whatever is at the head of its queue, and no queue changes |
| RoundRobin.TurnRotates | kernel/src/los_sched.c:224-242 | a used-up turn moves the ring of equals on by one |
| RoundRobin.LegsAreRun | kernel/src/los_sched.c:521-566 | the parts between the switches, put together, are a run of the machine |
| RoundRobin.EachOnce | kernel/src/los_sched.c:521-566 | whatever happens between the switches that leaves the tasks of the top priority and their order as they are, ticks and other tasks included: the n-th switch at a used-up slice brings task n modulo k of the k, each once a round, and every round leaves the queue as it was |
| Turns.StaysExactly | kernel/src/los_sched.c:141-617 | the exact condition for each kind of step to leave a round as it is: it blocks nobody in it, readies nobody at its priority or above, and is no switch at a used-up slice with others waiting |
| Turns.CalmUse | kernel/src/los_sched.c:521-617 | every run of such steps, among them ticks and switches with slice left, that uses up the slice is one leg of a round |
| SliceRounds.UseExactly | kernel/src/los_sched.c:588-617 | such a run without a yield or a new slice is one leg of a round iff the time that passes brings the slice down to the shortest one, however many ticks and switches there are |
| SliceRounds.YieldRotates | kernel/src/los_sched.c:271-276 | a yield and the switch behind it move the round on by one, and exactly when the 32-bit time spoils that |
| Blocking.ForeignKeeps | kernel/src/los_sched.c:172-393 | steps of the rest of the system, deletions of any task included, keep the account of who is inside a blocking call and how its wait ended |
| Blocking.BlockKeeps | kernel/src/los_sched.c:284-295 | blocking puts the caller last on the list and changes no other list |
| Blocking.GrantKeeps | kernel/src/los_sched.c:297-311 | waking the first of a list wakes the task that blocked first, and only it |
| Blocking.FinishKeeps | kernel/src/los_sem.c:258-266 | a resumed call finds TIMEOUT set iff its wait expired and not if it was granted |
| Semaphores.PostKeeps | kernel/src/los_sem.c:280-316 | a post gives the token to the waiter that arrived first, or adds it to the count |
| Semaphores.PendOutcome | kernel/src/los_sem.c:189-256 | LOS_OK at once takes one token and overtakes no waiter; a pend waits, last on the list, iff no token is left and its timeout is not 0; every refused pend changes nothing; the exact condition of every code |
| Semaphores.PostOutcome | kernel/src/los_sem.c:280-316 | a post succeeds iff the semaphore is in use and below its maximum, so always if somebody waits and the maximum is positive; it serves the longest waiter and leaves the count, or raises it by one; a refused post changes nothing |
| Semaphores.DeleteOutcome | kernel/src/los_sem.c:157-187 | deleted iff in use and nobody waits, else nothing changes |
| Semaphores.FinishReturns | kernel/src/los_sem.c:253-270 | a pend that blocked returns LOS_OK iff it was handed a token |
| Semaphores.SemKeeps | kernel/src/los_sem.c:219-316 | every step keeps the token balance, the bound, and that tokens and waiters exclude each other |
| Semaphores.Conservation | kernel/src/los_sem.c:87-316 | on every run from creation: initial count + posts = count + tokens taken, returned, handed over or dropped with a deleted task; count at most the maximum; a positive count means no waiters |
| Semaphores.DeletionDropsToken | kernel/src/los_sem.c:253-316 | in every state a task handed a token can be deleted before it runs, and exactly that token is gone |
| SemaphoreObjects.Semaphore.Create | kernel/src/los_sem.c:87-124 | refuses a count above the maximum, else a fresh semaphore |
| SemaphoreObjects.Semaphore.Pend | kernel/src/los_sem.c:219-256 | return code and new state are those of the protocol step, the invariant is kept |
| SemaphoreObjects.Semaphore.PendReturn | kernel/src/los_sem.c:258-270 | LOS_OK iff the caller was handed a token |
| SemaphoreObjects.Semaphore.Post | kernel/src/los_sem.c:280-316 | return code and new state are those of the protocol step; a switch is asked for iff a waiter was woken |
| SemaphoreObjects.Semaphore.Delete | kernel/src/los_sem.c:157-187 | refused while tasks wait |
| Mutexes.ReprioritiseKeeps | kernel/src/los_sched.c:377-393 | changing a priority keeps wait lists, calls and all other tasks |
| Mutexes.MutexKeeps | kernel/src/los_mux.c:88-326 | every step keeps, for every mutex: count 0 iff no owner, the count is the owner's net acquisitions, a free mutex has no waiters, an owner is not on its own list |
| Mutexes.MutexSafety | kernel/src/los_mux.c:195-326 | so on every run |
| Mutexes.PendOutcome | kernel/src/los_mux.c:165-243 | after LOS_OK the caller owns the mutex once more than before and has overtaken no waiter; a pend waits, last on the list and with the owner at least as urgent, iff another task owns the mutex and its timeout is not 0; every refused pend changes nothing; the exact condition of every code |
| Mutexes.PostOutcome | kernel/src/los_mux.c:271-326 | a post succeeds iff the caller owns the mutex and is no interrupt; it undoes exactly one acquisition, keeps the mutex until the last and then hands it to the longest waiter or frees it; a refused post changes nothing |
| Mutexes.DeleteOutcome | kernel/src/los_mux.c:129-163 | deleted iff in use and nobody owns it, else nothing changes |
| Mutexes.HandsToLongestWaiter | kernel/src/los_mux.c:307-315 | the last post hands ownership to the task that has waited longest, with count 1 |
| Inheritance.FlatKeeps | kernel/src/los_mux.c:195-326 | runs without nested mutexes keep: an owner is at least as urgent as everyone who joined during its ownership, and its own priority is remembered |
| Inheritance.AllFreeFlat | kernel/src/los_mux.c:52-80 | free mutexes and every task at its own priority satisfy these facts |
| Inheritance.BoundedInversion | kernel/src/los_mux.c:235-237 | on every such run from free mutexes, while the owner is READY the scheduler picks nobody less urgent than such a waiter, and whoever owns nothing has its own priority |
| Inheritance.PendBlocksEffect | kernel/src/los_mux.c:235-239 | a pend that blocks makes the owner at least as urgent as the caller and changes no other priority |
| Inheritance.PriorityRestored | kernel/src/los_mux.c:303-305 | the last post gives the owner its own priority back |
| Inheritance.TopUrgent | kernel/src/los_sched.c:479-491 | the chosen task is never less urgent than a READY one |
| MutexObjects.MutexTable.constructor | kernel/src/los_mux.c:52-80 | a table of unused mutexes, every task at its own priority, is where the inheritance results start |
| MutexObjects.MutexTable.WaitFor | kernel/src/los_mux.c:235-239 | the owner inherits, then the caller joins the list |
| MutexObjects.MutexTable.Pend | kernel/src/los_mux.c:195-243 | return code and new state are those of the protocol step, for every handle; the invariant is kept |
| MutexObjects.MutexTable.PendReturn | kernel/src/los_mux.c:245-261 | LOS_OK iff the caller was made owner |
| MutexObjects.MutexTable.Release | kernel/src/los_mux.c:297-323 | priority restored, then the first waiter owns the mutex or nobody |
| MutexObjects.MutexTable.Post | kernel/src/los_mux.c:271-326 | return code and new state are those of the protocol step, for every handle; the invariant is kept; a switch is asked for iff the last post handed the mutex to a waiter |
| MutexObjects.MutexTable.Create | kernel/src/los_mux.c:88-121 | a free mutex without owner, invariant kept |
| MutexObjects.MutexTable.Delete | kernel/src/los_mux.c:129-163 | refused while owned or waited for |
| Rings.LengthRoundTrip | kernel/src/los_queue.c:343-353 | the length word read back is the length written |
| Rings.StoreLoad | kernel/src/los_queue.c:342-359 | a copy read with room for it returns exactly the bytes written |
| Rings.OperateRefines | kernel/src/los_queue.c:303-361 | the ring refines a double-ended queue: tail write appends, head write prepends, read takes the front and delivers as much as there is room for, and tail is head plus the filled slots |
| QueueBuffers.BlitSlot | kernel/src/los_queue.c:333-333 | copying inside one slot of the flat buffer changes that slot and no other |
| QueueBuffers.CopyIn | kernel/src/los_queue.c:354-354 | the bytes land at the offset and nowhere else |
| QueueBuffers.QueueBuffer.constructor | kernel/src/los_queue.c:110-160 | a buffer of len slots, each with room for a message and its length, empty |
| QueueBuffers.QueueBuffer.Write | kernel/src/los_queue.c:353-354 | length word and bytes go into the slot, inside len*queueSize |
| QueueBuffers.QueueBuffer.ReadOut | kernel/src/los_queue.c:343-351 | the message in the slot, cut to the room, read inside len*queueSize |
| QueueBuffers.QueueBuffer.Operate | kernel/src/los_queue.c:303-361 | positions, buffer and delivered bytes are those of the ring operation |
| MessageQueues.PerformKeeps | kernel/src/los_queue.c:422-432 | using a taken slot restores the slot balance and does to the messages what the operation says |
| MessageQueues.TakeHandedClaims | kernel/src/los_queue.c:408-422 | a resumed call that was handed a slot still finds it |
| MessageQueues.DeleteWaitsForGrants | kernel/src/los_queue.c:672-709 | deletion succeeds only if nobody has still to use a slot handed to it and no slot was lost |
| MessageQueues.QueueKeeps | kernel/src/los_queue.c:380-437 | every step keeps: readable + writable + handed-over + lost slots = queueLen, a side with slots left has no waiters, the ring holds the messages |
| MessageQueues.CallOutcome | kernel/src/los_queue.c:258-437 | LOS_OK at once does the operation on the messages and overtakes no task that waits for the same; a call waits, last on its list, iff no slot is left for it, its timeout is not 0 and scheduling is not locked; every refused call changes nothing; which calls are accepted |
| MessageQueues.RefusedExactly | kernel/src/los_queue.c:258-301 | which code refuses a call, by the first reason that holds |
| MessageQueues.DeleteOutcome | kernel/src/los_queue.c:672-715 | deleted iff in use, nobody waits, nobody has still to use a slot and none is lost, else nothing changes |
| MessageQueues.SlotConservation | kernel/src/los_queue.c:110-437 | so on every run of readers, writers, interrupt callers, timeouts and deletions from creation |
| MessageQueues.DeletionLosesSlot | kernel/src/los_queue.c:408-437 | in every state a task handed a slot can be deleted before it uses it; the slot is lost and on every continuation the queue can never be deleted |
| MessageQueueObjects.MessageQueue.Create | kernel/src/los_queue.c:125-142 | refuses a zero length or size and a size or buffer too big, else an empty queue |
| MessageQueueObjects.MessageQueue.constructor | kernel/src/los_queue.c:110-160 | all slots writable, invariant holds |
| MessageQueueObjects.MessageQueue.UseSlot | kernel/src/los_queue.c:422-432 | buffer, counters and woken task are those of the protocol; a read delivers the front message; a switch is asked for iff a task of the opposite side waited |
| MessageQueueObjects.MessageQueue.Call | kernel/src/los_queue.c:380-437 | return code, delivered bytes and new state are those of the protocol step; the invariant is kept |
| MessageQueueObjects.MessageQueue.CallReturn | kernel/src/los_queue.c:408-434 | a resumed call times out iff it was not handed a slot, else it operates on that slot |
| MessageQueueObjects.MessageQueue.Delete | kernel/src/los_queue.c:672-715 | refused while tasks wait or hold a slot, with the code for each case |
| Events.FoundIffHolds | kernel/src/los_event.c:50-73 | a poll returns bits iff the AND or OR condition holds |
| Events.LeftRest | kernel/src/los_event.c:68-70 | the bits left and the bits returned are together the event word |
| Events.LeftCleared | kernel/src/los_event.c:68-70 | with the clear flag no returned bit is left, without it nothing changes |
| Events.CheckedExactly | kernel/src/los_event.c:75-95 | the checks pass exactly the masks with bits and without the error bit in the four modes OR and AND, each with or without clearing, and which code refuses the others |
| EventObjects.ReadParamCheck | kernel/src/los_event.c:75-95 | the error codes in the order of the checks |
| Events.NewBitsDecide | kernel/src/los_event.c:171-173 | for a waiter, testing the new bits alone (OR) or all bits (AND) finds exactly the conditions that now hold |
| Events.ClearingKeeps | kernel/src/los_event.c:211-222 | taking bits away satisfies no waiter |
| Events.WakeHitsExact | kernel/src/los_event.c:165-179 | the loop wakes exactly the waiters that are hit |
| Events.WriteWakesExactly | kernel/src/los_event.c:148-190 | a write wakes exactly the waiters whose condition then holds |
| Events.EventKeeps | kernel/src/los_event.c:97-222 | every step keeps: no task waits whose condition holds |
| Events.NoLostWakeUp | kernel/src/los_event.c:97-222 | so on every run |
| EventWords.WordExactly | kernel/src/los_event.c:148-222 | every step leaves exactly the bits that were there or are written and that it does not take; a write stores its bits whoever waits; only clearing reads that return them and LOS_EventClear take bits |
| EventWords.BitsStay | kernel/src/los_event.c:148-222 | on every run bits stay set until a step takes one of them |
| EventWords.WrittenIsRead | kernel/src/los_event.c:97-190 | a read after a write, with nothing taking the bits in between, returns at once with those it asks for |
| EventWords.ReadOutcome | kernel/src/los_event.c:97-132 | a read returns its bits at once iff its condition holds, nothing at once iff it does not and the timeout is 0, and else waits with its mask and mode recorded, unless scheduling is locked; the condition of every other code |
| EventReads.CallKeepsWish | kernel/src/los_event.c:127-142 | from the time it blocks to the time it runs again a reader asks for what its call asked for |
| EventReads.WokenReadFinds | kernel/src/los_event.c:134-190 | a reader that a write wakes finds its bits when it runs, on every run in between in which no step takes bits away |
| EventReads.ClearStarvesReader | kernel/src/los_event.c:148-222 | in every state with a reader waiting, a write of its bits and LOS_EventClear wake it to find nothing |
| EventReads.ReaderStarvesReader | kernel/src/los_event.c:50-73 | so does a woken reader that clears and runs first, for every other woken reader of no more than the bits it takes |
| EventObjects.EventPoll | kernel/src/los_event.c:50-73 | bits found and word left |
| EventObjects.EventBlock.constructor | kernel/src/los_event.c:39-48 | an empty word and no waiters satisfy the invariant |
| EventObjects.EventBlock.Poll | kernel/src/los_event.c:50-73 | the same on the control block |
| EventObjects.EventBlock.WaitFor | kernel/src/los_event.c:127-130 | mask and mode are recorded before the task joins the list |
| EventObjects.EventBlock.Read | kernel/src/los_event.c:97-132 | return code and new state are those of the protocol step; the invariant is kept |
| EventObjects.EventBlock.ReadReturn | kernel/src/los_event.c:134-145 | a granted reader polls again, with what that finds; an expired one gets the timeout code |
| EventObjects.EventBlock.WakeAll | kernel/src/los_event.c:165-179 | the loop that unlinks waiters as it walks ends as WakeHits says; the flag is set iff some waiter was hit |
| EventObjects.EventBlock.Write | kernel/src/los_event.c:148-190 | return code and new state are those of the protocol step; the invariant is kept; a switch is asked for iff some waiter's condition then holds |
| EventObjects.EventBlock.Clear | kernel/src/los_event.c:211-222 | the bits outside the mask go, nobody needs waking |
| Lms.ShadowFits | components/lms/los_lms.c:68-71 | for every pool size the shadow byte of every usable address lies in the reserved area |
| Lms.ResizeMaximal | components/lms/los_lms.c:68-71 | a pool of n units of 64 bytes fits with its shadow iff it is no larger than the usable size chosen |
| Lms.BlendSpan | components/lms/los_lms.c:241-291 | a masked write sets exactly the cells of the mask |
| Lms.ShadowOfCell | components/lms/los_lms.c:209-222 | the computed byte and offset are those of the address's four-byte cell |
| Lms.SetShadowValue | components/lms/los_lms.c:241-291 | exactly the cells from that of start to that of end-1 get the mark, across the same-byte, edge and fill cases; nothing changes if either end is outside the pool |
| Lms.MarkReadsBack | components/lms/los_lms.c:293-302 | an address reads back the mark iff its cell overlaps the range, else its old mark |
| Lms.MallocMark | components/lms/los_lms.c:329-346 | for a heap node on cell boundaries: its payload becomes accessible, its header and the one behind it do not, nothing else changes |
| Lms.FreeMark | components/lms/los_lms.c:363-400 | a payload not in use, such as one freed before, is refused with nothing changed; else payload and merged headers, and nothing else, read as freed |
| LmsCheck.Lookup | components/lms/los_lms.c:93-115 | the loop returns what LookupFrom says |
| LmsCheck.LookupInnermost | components/lms/los_lms.c:93-115 | of nested pools the innermost one around the address is found |
| LmsCheck.CheckedMark | components/lms/los_lms.c:430-451 | an address outside all pools is accessible, one inside has the mark of its pool's shadow |
| LmsCheck.CheckStrict | components/lms/los_lms.c:453-463 | true iff every byte of the access is accessible |
| LmsCheck.EndsSuffice | components/lms/los_lms.c:465-473 | for an access within two words the two ends decide as every byte does |
| LmsCheck.EndsMissMiddle | components/lms/los_lms.c:465-473 | for every longer access some marking is missed |
| LmsCheck.EndsExact | components/lms/los_lms.c:453-473 | both checks agree for all markings iff the access stays within two words, as all accesses of 1 to 5 bytes do |
| TimeArith.CycleToNsExact | kernel/include/los_tick.h:154-155 | the split form is the floor of cycle*10^9/freq |
| TimeArith.NsToCycleExact | kernel/include/los_tick.h:157-158 | the split form is the floor of ns*freq/10^9 |
| TimeArith.CycleToNsFits | kernel/include/los_tick.h:154-155 | no intermediate value leaves 64 bits unless the result does |
| TimeArith.RoundTrip | kernel/include/los_tick.h:154-158 | to nanoseconds and back nothing is gained and at most one cycle lost, for freq up to 10^9 |
| TimeArith.NeverLonger | components/power/los_pm.c:148-149 | the rescaled time is never longer than the original |
| TimeArith.AlmostAsLong | components/power/los_pm.c:148-149 | and it is shorter by less than one count and the counts of one nanosecond |
| TimeArith.SleepEnd | components/power/los_pm.c:129-163 | a sleep of the whole programmed time ends at most the time between the two clock readings past the deadline, and not past it iff the conversions lose that much |
| TimeArith.SleepOvershoots | components/power/los_pm.c:147-157 | with readings 1000 and 1010, a deadline of 2000 and equal clocks the sleep ends at 2010 |
| TimeArith.PowerManager.TickTimerStop | components/power/los_pm.c:129-163 | the low-power timer is programmed for no more than the time from the first clock reading to the deadline, so it ends at most the time between the readings past it; when the call refuses or only locks the tick |
| TimeArith.PowerManager.TickTimerStart | components/power/los_pm.c:92-127 | the clock goes on from the sleep's start by no more than the time slept, and the scheduler's response time is reset |
| TimeArith.ConvertMonotone | kernel/include/los_tick.h:268-275 | conversion keeps the order of times |
| TimeArith.ConvertExact | kernel/include/los_tick.h:268-275 | it keeps real time for all times iff one frequency divides the other |
| Cpup.CpupKeeps | components/cpup/los_cpup.c:188-282 | switches, queries, creations and deletions keep the time balance and the age order of the history ring; no 64-bit charge wraps |
| Cpup.TimeConserved | components/cpup/los_cpup.c:188-282 | on every run from boot charged time + open interval + time gone = time since boot |
| Cpup.LostExactly | components/cpup/los_cpup.c:188-337 | once a switch has happened, a step that deletes no task loses exactly the time between the two clock readings of a query |
| CpupLedger.EachCharged | components/cpup/los_cpup.c:188-282 | on every run from boot each task is charged exactly the time it ran by the clock, less the open interval |
| CpupLedger.SamplesOnTime | components/cpup/los_cpup.c:266-281 | a switch samples iff more than the period has passed, so the last sample is then at most a period old; a sample is every task's charge |
| CpupLedger.StartsAccount | components/cpup/los_cpup.c:188-282 | after a switch or a query the running task's account carries its id and starts now |
| CpupLedger.ClockBehind | components/cpup/los_cpup.c:209-233 | a clock behind the start by no more than a tick charges what is left of one tick |
| CpupUsage.DeltaExact | components/cpup/los_cpup.c:289-305 | no subtraction of a query wraps |
| CpupUsage.TotalFits | components/cpup/los_cpup.c:313-392 | no 64-bit total of a query, over all time or a history mode, wraps or exceeds the time since boot |
| CpupUsage.TaskUsageInRange | components/cpup/los_cpup.c:400-499 | in every reachable state a task usage is in 0..1000, and is the exact share iff a thousandfold of the part fits 64 bits |
| CpupUsage.AllUsagesSum | components/cpup/los_cpup.c:501-559 | with something counted all usages add up to at most 1000, and to no less than rounding explains while a thousandfold of the time since boot fits 64 bits |
| CpupUsage.AllUsagesExact | components/cpup/los_cpup.c:501-559 | in every reachable state: the usages add up to at most 1000 whatever the caller's records held iff something was counted or no task is in use |
| CpupUsage.StaleUsage | components/cpup/los_cpup.c:541-551 | from every boot state, after the creation of a task with any status in use, a record with a usage above 1000 keeps it |
| CpupUsage.PositionsAge | components/cpup/los_cpup.c:284-305 | mode 0 compares with the oldest record, mode 1 the two newest, mode 2 with the newest |
| CpupUsage.SysUsageInRange | components/cpup/los_cpup.c:313-392 | in every reachable state the system usage is in 0..1000, and with such an idle part it is the share of the time not idle, rounded up |
| CpupUsage.OtherModes | components/cpup/los_cpup.c:289-305 | an unknown mode looks back as far as mode 0 |
| CpupUsage.Monitor.CycleStart | components/cpup/los_cpup.c:188-201 | the accounts become those of Start, or stay before initialisation |
| CpupUsage.Monitor.CycleEnd | components/cpup/los_cpup.c:209-233 | the accounts become those of End |
| CpupUsage.Monitor.CycleEndStart | components/cpup/los_cpup.c:241-282 | the accounts become those of EndStart, with a snapshot when the period is over |
| CpupUsage.Monitor.SysUsage | components/cpup/los_cpup.c:313-392 | the 64-bit share not idle, over all time or a history mode; the running task's interval ends at the first clock reading and starts again at the second |
| CpupUsage.Monitor.TaskUsage | components/cpup/los_cpup.c:400-499 | the task's 64-bit share among tasks in use, or the error code, with the same two readings |
| CpupUsage.Monitor.AllUsages | components/cpup/los_cpup.c:501-559 | one record for every task in use and no other, with the same two readings; its usage stays if nothing was counted |
| CpupUsage.FilledRecord | components/cpup/los_cpup.c:537-552 | a record is written iff its task is in use, with that task's status |
| CpupUsage.TaskRetOutcome | components/cpup/los_cpup.c:400-499 | the exact condition of each code of a task query |
| CpupUsage.InUseExactly | components/cpup/los_cpup.c:415-417 | a status is in use iff it is even and not 0 |
| DynLink.HashLate | components/dynlink/los_dynlink.c:483-501 | the hash stays below 2^28 and equals the hash that masks only at the end |
| DynLink.RoundExactly | components/dynlink/los_dynlink.c:483-501 | a round is sixteen times the hash plus the byte, with what leaves 28 bits folded back in above the lowest four |
| DynLink.GetHashVal | components/dynlink/los_dynlink.c:483-501 | the loop computes the hash function of the System V ABI, chapter 5, "Hash Table" |
| DynLink.FindSymInDso | components/dynlink/los_dynlink.c:503-528 | on ending chains the walk terminates with the first match of the name's bucket, if defined |
| DynLink.AlongFirst | components/dynlink/los_dynlink.c:503-528 | the match is the first on the chain; nothing is found iff no symbol on it has the name |
| DynLink.LookupIsScan | components/dynlink/los_dynlink.c:503-528 | with distinct names it finds what a scan of the symbol table finds, for every name, iff every defined symbol is on its bucket's chain |
| DynLink.FindSymInTable | components/dynlink/los_dynlink.c:530-557 | on a sorted table a name is found iff it is there, at an entry with that name |
| DynLink.StrCmpExactly | components/dynlink/los_dynlink.c:530-557 | the first byte where two names differ, or the end of one, decides their order |

## Left out

- Power management in the scheduler (`OsSchedFreezeTask`, `OsSchedUnfreezeTask`, PM mode in `OsSchedUpdateExpireTime`): an expired frozen wait ends without TIMEOUT, so the laws above do not extend to it.
- Frequency changes of the running scheduler (`OsSchedTimeConvertFreq`): the conversion of the sort link is modelled on its own, not as a step of the machine.
- Nested and transitive priority inheritance: the code does not boost a new owner for waiters that queued earlier nor pass a boost on, so the inheritance results are about runs in which a mutex owner neither takes nor awaits another.
- Deleting a task that owns a mutex, of which `kernel/include/los_task.h` warns, is not a step of `Mutexes`.
- Mutex nesting to 65535 and beyond, where the 16-bit count wraps.
- Pointer-mode and mail calls of the message queues, the `memList` of waiting mail allocations, and static queue memory.
- Handle tables, free lists and memory allocation of semaphores, queues and events; `MutexObjects` has the handle check.
- The debugging fields `taskSem` and `taskMux`, hooks, traces, printing and assertions that only report.
- Times at the end of the 64-bit cycle counter: statements about the tick keep away from it (`Machine.DeadlineFits`, `TickArming.Clear`).
- Task creation and deletion in `kernel/src/los_task.c` beyond their effect on status and lists: stacks, joining, the shadow control block of a task that deletes itself, and recycling.
- Software timers: a sorted list of deadlines that the tick handler's scan may replace by any sorted list.
- The idle task never blocks, delays, is suspended or is re-prioritised.
- LOS_EventDestroy, LOS_SemGetValue, LOS_QueueInfoGet and LOS_MuxCreate's search of the free list would only add easy members.
- LMS pool records (`LOS_LmsCheckPoolAdd`, `LOS_LmsCheckPoolDel`), the marks of reallocation and alignment, the recursion guard of the check and the error reports.
- Interrupt CPU accounting, whose totals are reset.
- ELF loading and relocation, and the strings and symbol addresses behind a lookup.

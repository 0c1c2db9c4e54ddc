/** The scheduler as it changes its variables in place, proved against the state machine. */
module SchedulerImpl {
  import opened Basics
  import opened TickTimer
  import opened Deadlines
  import opened Lists
  import opened Queues
  import SortLinks
  import opened Bitmaps
  import opened Sched
  import Machine

  class Scheduler {
    const cfg: Config
    const tasks: array<Task>              // g_taskCBArray
    const idle: nat                       // g_idleTaskID
    var links: seq<Link>                  // the pendList nodes
    var lists: map<ListId, seq<nat>>      // g_priQueueList and the wait lists
    var bitmap: bv32                      // g_queueBitmap
    var due: seq<nat>                     // the response times of the sortList nodes
    var order: seq<nat>                   // g_taskSortLink
    var run: nat                          // g_losTask.runTask
    var timers: seq<nat>                  // g_swtmrSortLink
    var now: nat
    var tick: Tick                        // g_schedResponseTime and g_schedResponseID

    /** The state OsSchedStart leaves when only the idle task exists. */
    constructor (cfg: Config, n: nat, idle: nat, waits: set<nat>, now: nat, cap: nat)
      requires cfg.Valid() && idle < n
      ensures State() == Machine.Boot(cfg, n, idle, waits, now, cap) && Inv(State()) && fresh(tasks)
    {
      var free := Machine.FreeTask(0);
      this.cfg, this.idle, run, this.now, timers := cfg, idle, idle, now, [];
      tasks := new Task[n](t => if t == idle then free.(unused := false, running := true, startTime := now) else free);
      links, bitmap := seq(n, t => Unlinked), 0;
      lists := (map p | 0 <= p < PRIORITIES :: ReadyQ(p) := []) + (map w | w in waits :: WaitQ(w) := []);
      due, order := seq(n, t => MAX_TIME), [];
      tick := Tick(MAX_TIME, None);
      new;
      ZeroIsEmpty(bitmap);
      hide Inv, Bits, NextExpire, SetNextExpire, Machine.Run;
      assert tasks[..] == Machine.Boot(cfg, n, idle, waits, now, cap).tasks;
      assert lists == Machine.Boot(cfg, n, idle, waits, now, cap).q.lists;
      assert SortLinks.Times(SortLinks.SortLink(due, order)) == [];
      SetNextExpireTime(idle, tasks[idle].startTime + tasks[idle].timeSlice, cap);
      Machine.Safety(cfg, n, idle, waits, now, cap, [], State());
    }

    ghost function Q(): (q: Queues)
      reads this
    {
      Queues(links, lists, Bits(bitmap))
    }

    ghost function State(): (k: Kernel)
      reads this, tasks
    {
      Kernel(cfg, tasks[..], Q(), SortLinks.SortLink(due, order), idle, run, timers, now, tick)
    }

    /** What the operations on one task see and change. */
    ghost function At(t: nat): (f: Focus)
      requires t < tasks.Length
      reads this, tasks
    {
      Focus(tasks[t], Q(), SortLinks.SortLink(due, order), tick)
    }

    // ---------------------------------------------------------- ready queues

    /** OsSchedPriQueueEnHead and OsSchedPriQueueEnTail. */
    method PriQueueEn(t: nat, p: nat, head: bool)
      requires QueuesOk(Q()) && t < |links| && links[t].Unlinked? && p < PRIORITIES
      modifies this`links, this`lists, this`bitmap
      ensures Q() == PriEn(old(Q()), t, p, head)
    {
      var l := ReadyQ(p);
      if lists[l] == [] {
        WithBits(bitmap, p);
        bitmap := With(bitmap, Mask(p));
      }
      lists := lists[l := if head then [t] + lists[l] else lists[l] + [t]];
      links := links[t := LinkedTo(l)];
    }

    /** OsSchedPriQueueDelete. */
    method PriQueueDelete(t: nat, p: nat)
      requires QueuesOk(Q()) && t < |links| && links[t] == LinkedTo(ReadyQ(p)) && p < PRIORITIES
      modifies this`links, this`lists, this`bitmap
      ensures Q() == PriDelete(old(Q()), t, p)
    {
      var l := ReadyQ(p);
      lists := lists[l := Without(lists[l], t)];
      links := links[t := Unlinked];
      if lists[l] == [] {
        MinusBits(bitmap, p);
        bitmap := Minus(bitmap, Mask(p));
      }
    }

    /** LOS_ListDelete on a node that waits. */
    method ListDelete(t: nat)
      requires QueuesOk(Q()) && t < |links| && links[t].LinkedTo? && links[t].l.WaitQ?
      modifies this`links, this`lists
      ensures Q() == Delete(old(Q()), t)
    {
      var l := links[t].l;
      lists := lists[l := Without(lists[l], t)];
      links := links[t := Unlinked];
    }

    /** The queue part of OsSchedTaskEnQueue; `slice` is what the task then has left. */
    method LinkReady(t: nat) returns (slice: int)
      requires t < tasks.Length && CanEnQueue(At(t), t) && t != idle
      modifies this`links, this`lists, this`bitmap
      ensures var x := tasks[t];
        && Q() == PriEn(old(Q()), t, x.priority, x.timeSlice > cfg.sliceMin)
        && slice == if x.timeSlice > cfg.sliceMin then x.timeSlice else cfg.slice
    {
      hide QueuesOk, SortLinks.Valid, PriEn, Bits;
      slice := tasks[t].timeSlice;
      if slice > cfg.sliceMin {
        PriQueueEn(t, tasks[t].priority, true);
      } else {
        slice := cfg.slice;
        PriQueueEn(t, tasks[t].priority, false);
      }
    }

    /** OsSchedTaskEnQueue. */
    method TaskEnQueue(t: nat)
      requires t < tasks.Length && CanEnQueue(At(t), t)
      modifies this`links, this`lists, this`bitmap, tasks
      ensures At(t) == EnQueue(old(At(t)), t, t == idle, cfg)
      ensures forall u :: 0 <= u < tasks.Length && u != t ==> tasks[u] == old(tasks[u])
    {
      hide QueuesOk, SortLinks.Valid, PriEn, Bits;
      if t != idle {
        var slice := LinkReady(t);
        tasks[t] := tasks[t].(timeSlice := slice);
      }
      tasks[t] := tasks[t].(pend := false, suspend := false, delay := false, pendTime := false);
      tasks[t] := tasks[t].(ready := true);
    }

    /** OsSchedTaskDeQueue. */
    method TaskDeQueue(t: nat)
      requires t < tasks.Length && Queued(At(t), t, t == idle)
      modifies this`links, this`lists, this`bitmap, tasks
      ensures At(t) == DeQueue(old(At(t)), t, t == idle)
      ensures forall u :: 0 <= u < tasks.Length && u != t ==> tasks[u] == old(tasks[u])
    {
      if tasks[t].ready {
        if t != idle {
          PriQueueDelete(t, tasks[t].priority);
        }
        tasks[t] := tasks[t].(ready := false);
      }
    }

    // ---------------------------------------------------------- deadlines

    /** OsDeleteNodeSortLink. */
    method DeleteNodeSortLink(t: nat)
      requires t < |due|
      modifies this`due, this`order
      ensures SortLinks.SortLink(due, order) == SortLinks.Drop(SortLinks.SortLink(old(due), old(order)), t)
    {
      order := Without(order, t);
      due := due[t := MAX_TIME];
    }

    /** OsDeleteSortLink. */
    method DeleteSortLinkOf(t: nat)
      requires t < tasks.Length && FocusOk(At(t), t)
      modifies this`due, this`order, this`tick
      ensures At(t) == DeleteSortLink(old(At(t)), t)
    {
      if due[t] != MAX_TIME {
        if due[t] <= tick.time {
          tick := tick.(time := MAX_TIME);
        }
        DeleteNodeSortLink(t);
      }
    }

    // ---------------------------------------------------------- one task

    /** OsSchedTaskWait. */
    method TaskWait(w: nat, ticks: nat)
      requires run < tasks.Length && FocusOk(At(run), run) && links[run].Unlinked? && WaitQ(w) in lists
      modifies this`links, this`lists, tasks
      ensures At(run) == Wait(old(At(run)), run, w, ticks)
      ensures forall u :: 0 <= u < tasks.Length && u != run ==> tasks[u] == old(tasks[u])
    {
      tasks[run] := tasks[run].(pend := true);
      lists := lists[WaitQ(w) := lists[WaitQ(w)] + [run]];
      links := links[run := LinkedTo(WaitQ(w))];
      if ticks != WAIT_FOREVER {
        tasks[run] := tasks[run].(pendTime := true);
        tasks[run] := tasks[run].(waitTicks := ticks);
      }
    }

    /** OsSchedTaskWake. */
    method TaskWake(t: nat)
      requires t < tasks.Length && Waiting(At(t), t) && !tasks[t].ready
      modifies this`links, this`lists, this`bitmap, this`due, this`order, this`tick, tasks
      ensures At(t) == Wake(old(At(t)), t, t == idle, cfg)
      ensures forall u :: 0 <= u < tasks.Length && u != t ==> tasks[u] == old(tasks[u])
    {
      hide QueuesOk, SortLinks.Valid, PriEn, Delete;
      ListDelete(t);
      tasks[t] := tasks[t].(pend := false);
      if tasks[t].pendTime {
        DeleteSortLinkOf(t);
        tasks[t] := tasks[t].(pendTime := false);
      }
      if !tasks[t].suspend && !tasks[t].running {
        TaskEnQueue(t);
      }
    }

    /** OsSchedTaskExit. */
    method TaskExit(t: nat)
      requires t < tasks.Length && Queued(At(t), t, t == idle) && (tasks[t].pend ==> Waiting(At(t), t))
      modifies this`links, this`lists, this`bitmap, this`due, this`order, this`tick, tasks
      ensures At(t) == Exit(old(At(t)), t, t == idle)
      ensures forall u :: 0 <= u < tasks.Length && u != t ==> tasks[u] == old(tasks[u])
    {
      hide QueuesOk, SortLinks.Valid, PriDelete, Delete, Bits, OnlyNodesOf, SameWaitLists;
      hide Depart, Sound;
      Leave(t);
      DepartOk(old(At(t)), At(t), t);
      if tasks[t].delay || tasks[t].pendTime {
        DeleteSortLinkOf(t);
        tasks[t] := tasks[t].(delay := false, pendTime := false);
      }
      tasks[t] := tasks[t].(exit := true);
    }

    /** The first half of OsSchedTaskExit. */
    method Leave(t: nat)
      requires t < tasks.Length && Queued(At(t), t, t == idle) && (tasks[t].pend ==> Waiting(At(t), t))
      modifies this`links, this`lists, this`bitmap, tasks
      ensures At(t) == Depart(old(At(t)), t, t == idle)
      ensures forall u :: 0 <= u < tasks.Length && u != t ==> tasks[u] == old(tasks[u])
    {
      hide QueuesOk, SortLinks.Valid, PriDelete, Delete, Bits, OnlyNodesOf, SameWaitLists;
      if tasks[t].ready {
        TaskDeQueue(t);
      } else if tasks[t].pend {
        ListDelete(t);
        tasks[t] := tasks[t].(pend := false);
      }
    }

    /** OsSchedSuspend without power management. */
    method SuspendTask(t: nat)
      requires t < tasks.Length && Queued(At(t), t, t == idle)
      modifies this`links, this`lists, this`bitmap, tasks
      ensures At(t) == Suspend(old(At(t)), t, t == idle)
      ensures forall u :: 0 <= u < tasks.Length && u != t ==> tasks[u] == old(tasks[u])
    {
      if tasks[t].ready {
        TaskDeQueue(t);
      }
      tasks[t] := tasks[t].(suspend := true);
    }

    /** OsSchedResume without power management. */
    method ResumeTask(t: nat) returns (needSched: bool)
      requires t < tasks.Length && FocusOk(At(t), t) && !tasks[t].ready
      requires !tasks[t].delay && !tasks[t].pend ==> links[t].Unlinked?
      modifies this`links, this`lists, this`bitmap, tasks
      ensures At(t) == Resume(old(At(t)), t, t == idle, cfg)
      ensures forall u :: 0 <= u < tasks.Length && u != t ==> tasks[u] == old(tasks[u])
      ensures needSched == tasks[t].ready
    {
      tasks[t] := tasks[t].(suspend := false);
      if !tasks[t].delay && !tasks[t].pend {
        TaskEnQueue(t);
        return true;
      }
      return false;
    }

    /** OsSchedModifyTaskSchedParam. */
    method ModifyTaskSchedParam(t: nat, p: nat) returns (needSched: bool)
      requires t < tasks.Length && Queued(At(t), t, false) && t != idle && p < PRIORITIES
      modifies this`links, this`lists, this`bitmap, tasks
      ensures At(t) == SetPriority(old(At(t)), t, p, false, cfg)
      ensures forall u :: 0 <= u < tasks.Length && u != t ==> tasks[u] == old(tasks[u])
      ensures needSched == (tasks[t].ready || tasks[t].running)
    {
      hide QueuesOk, SortLinks.Valid;
      if tasks[t].ready {
        TaskDeQueue(t);
        tasks[t] := tasks[t].(priority := p);
        TaskEnQueue(t);
        return true;
      }
      tasks[t] := tasks[t].(priority := p);
      needSched := tasks[t].running;
    }

    // ---------------------------------------------------------- the timer scan

    /** OsSchedWakePendTimeTask on a task whose deadline has left the sort link. */
    method WakePendTimeTask(t: nat) returns (needSched: bool)
      requires t < tasks.Length && FocusOk(At(t), t) && !tasks[t].ready
      requires if tasks[t].pend then Waiting(At(t), t) else links[t].Unlinked?
      modifies this`links, this`lists, this`bitmap, tasks
      ensures At(t) == Expire(old(At(t)), t, t == idle, cfg)
      ensures forall u :: 0 <= u < tasks.Length && u != t ==> tasks[u] == old(tasks[u])
      ensures needSched == tasks[t].ready
    {
      hide QueuesOk, SortLinks.Valid, PriEn, Delete;
      var temp := tasks[t];
      needSched := false;
      if temp.pend || temp.delay {
        tasks[t] := tasks[t].(pend := false, pendTime := false, delay := false);
        if temp.pend {
          tasks[t] := tasks[t].(timeout := true);
          ListDelete(t);
        }
        if !temp.suspend {
          TaskEnQueue(t);
          needSched := true;
        }
      }
    }

    /** One turn of the loop in OsSchedScanTimerList: the first deadline has passed. */
    method ScanFirst() returns (needSched: bool)
      requires Inv(State()) && order != []
      modifies this`links, this`lists, this`bitmap, this`due, this`order, tasks
      ensures State() == Machine.ScanOne(old(State()))
      ensures var t := old(order)[0];
        && t < tasks.Length && !old(tasks[..])[t].ready && needSched == tasks[t].ready
        && forall u :: 0 <= u < tasks.Length && u != t ==> tasks[u] == old(tasks[u])
    {
      var t := order[0];
      assert t in order;
      assert TaskOk(State(), t);
      ghost var k := State();
      SortLinks.DropKeeps(k.s, t);
      hide QueuesOk, SortLinks.Valid, Bits, Expire;
      DeleteNodeSortLink(t);
      needSched := WakePendTimeTask(t);
      Assemble(k, State(), t, At(t));
    }

    /** OsSchedScanTimerList. */
    method ScanTimerList() returns (needSched: bool)
      requires Inv(State())
      modifies this`links, this`lists, this`bitmap, this`due, this`order, tasks
      ensures State() == Machine.Scan(old(State()))
      ensures needSched <==> BecameReady(old(tasks[..]), tasks[..])
    {
      hide QueuesOk, SortLinks.Valid, Machine.ScanOne;
      needSched := false;
      if order == [] {
        return;
      }
      var first := order[0];
      while SortLinks.DueOf(due, first) <= now
        invariant Inv(State()) && order != [] && first == order[0]
        invariant Machine.Scan(State()) == Machine.Scan(old(State()))
        invariant StayReady(old(tasks[..]), tasks[..])
        invariant needSched <==> BecameReady(old(tasks[..]), tasks[..])
        decreases |order|
      {
        Machine.ScanOneKeeps(State());
        ghost var was := tasks[..];
        var woken := ScanFirst();
        OneMore(old(tasks[..]), was, tasks[..], first);
        needSched := needSched || woken;
        if order == [] {
          break;
        }
        first := order[0];
      }
    }

    // ---------------------------------------------------------- the tick

    /** OsTimeSliceUpdate. */
    method TimeSliceUpdate(t: nat, time: nat)
      requires t < tasks.Length
      modifies tasks
      ensures tasks[t] == SliceUpdate(old(tasks[t]), time, t == idle)
      ensures forall u :: 0 <= u < tasks.Length && u != t ==> tasks[u] == old(tasks[u])
    {
      var inc := Int32(time - tasks[t].startTime);
      if t != idle {
        tasks[t] := tasks[t].(timeSlice := Int32(tasks[t].timeSlice - inc));
      }
      tasks[t] := tasks[t].(startTime := time);
    }

    /** OsSchedSetNextExpireTime. */
    method SetNextExpireTime(id: nat, end: int, cap: nat)
      modifies this`tick
      ensures tick == SetNextExpire(old(tick), id, end,
                                    NextExpire(SortLinks.Times(SortLinks.SortLink(due, order)), timers, now, cfg.precision),
                                    now, cfg, cap)
    {
      var slice := false;
      var next := NextExpire(SortLinks.Times(SortLinks.SortLink(due, order)), timers, now, cfg.precision);
      if next > end && next - end > cfg.minPeriod {
        next := end;
        slice := true;
      }
      if tick.time <= next || tick.time - next < cfg.precision {
        return;
      }
      var owner := if slice then Some(id) else None;
      var period := (next - now) % U64;
      if period < cfg.precision {
        period := cfg.precision;
      }
      tick := Tick((now + Reload(period, cap)) % U64, owner);
    }

    /** OsSchedUpdateExpireTime, with the scheduler started and the tick not locked. */
    method UpdateExpireTime(cap: nat)
      requires run < tasks.Length
      modifies this`tick
      ensures State() == UpdateExpire(old(State()), cap)
    {
      hide Bits, SetNextExpire, NextExpire;
      var end;
      if run != idle {
        var slice := if tasks[run].timeSlice <= cfg.sliceMin then cfg.slice else tasks[run].timeSlice;
        end := tasks[run].startTime + slice;
      } else {
        end := MAX_TIME - cfg.precision;
      }
      SetNextExpireTime(run, end, cap);
    }

    /** The first part of LOS_SchedTickHandler; `scanned` are the software timers left by their scan. */
    method ScanExpired(scanned: seq<nat>)
      requires Inv(State())
      modifies this`links, this`lists, this`bitmap, this`due, this`order, this`timers, tasks
      ensures State() == if old(tick).owner.None? then Machine.Scan(old(State())).(timers := scanned) else old(State())
    {
      hide Inv, Machine.Scan, Bits;
      if tick.owner.None? {
        var woken := ScanTimerList();
        timers := scanned;
      }
    }

    /** The running task is charged for its time and the tick is open. */
    method ChargeRun(start: nat)
      requires run < tasks.Length && start == now
      modifies this`tick, tasks
      ensures State() == Machine.OnTask(old(State()), run, SliceUpdate(old(tasks[run]), now, run == idle))
                         .(tick := old(tick).(time := MAX_TIME))
    {
      TimeSliceUpdate(run, start);
      tasks[run] := tasks[run].(startTime := now);
      tick := tick.(time := MAX_TIME);
      assert tasks[..] == old(tasks[..])[run := SliceUpdate(old(tasks[run]), now, run == idle)];
    }

    /** LOS_SchedTickHandler; a switch is requested unless scheduling is locked. */
    method TickHandler(locked: bool, scanned: seq<nat>, cap: nat) returns (needSched: bool)
      requires Inv(State())
      modifies this`links, this`lists, this`bitmap, this`due, this`order, this`timers, this`tick, tasks
      ensures State() == Machine.HandleTick(old(State()), locked, scanned, cap)
      ensures needSched == !locked
    {
      assert run < tasks.Length;
      hide Inv, Machine.Scan, UpdateExpire, Machine.OnTask, SliceUpdate, Q;
      var start := now;
      ScanExpired(scanned);
      ChargeRun(start);
      if !locked {
        return true;
      }
      UpdateExpireTime(cap);
      needSched := false;
    }

    // ---------------------------------------------------------- switching

    /** OsGetTopTask. */
    method GetTopTask() returns (t: nat)
      requires QueuesOk(Q())
      ensures t == Top(Q(), idle)
    {
      ZeroIsEmpty(bitmap);
      if bitmap != 0 {
        var p := LeadingZeros(bitmap, 0);
        LeadingZerosClz(bitmap, 0);
        TopMostUrgent(Q(), idle);
        t := lists[ReadyQ(p)][0];
      } else {
        t := idle;
      }
    }

    /** OsAdd2SortLink. */
    method Add2SortLink(t: nat, start: nat, ticks: nat)
      requires t < |due| && cfg.ticksPerSecond > 0
      modifies this`due, this`order
      ensures SortLinks.SortLink(due, order) ==
                SortLinks.Add(SortLinks.SortLink(old(due), old(order)), t, start + cfg.TicksToCycles(ticks))
    {
      var d := start + cfg.TicksToCycles(ticks);
      var pos := InsertPos(SortLinks.Times(SortLinks.SortLink(due, order)), d);
      due := due[t := d];
      order := order[..pos] + [t] + order[pos..];
    }

    /** The first half of OsSchedTaskSwitch. */
    method PutAwayRun()
      requires run < tasks.Length && FocusOk(At(run), run) && !tasks[run].ready && cfg.Valid()
      requires if tasks[run].Timed() then due[run] == MAX_TIME && now + cfg.TicksToCycles(tasks[run].waitTicks) < MAX_TIME
               else !tasks[run].Blocked() ==> links[run].Unlinked?
      modifies this`links, this`lists, this`bitmap, this`due, this`order, tasks
      ensures At(run) == PutAway(old(At(run)), run, now, run == idle, cfg)
      ensures forall u :: 0 <= u < tasks.Length && u != run ==> tasks[u] == old(tasks[u])
    {
      hide QueuesOk, SortLinks.Valid, SortLinks.Add, EnQueue;
      TimeSliceUpdate(run, now);
      if tasks[run].pendTime || tasks[run].delay {
        Add2SortLink(run, tasks[run].startTime, tasks[run].waitTicks);
      } else if !tasks[run].Blocked() {
        TaskEnQueue(run);
      }
    }

    /** The running task hands over to `next`. */
    method Swap(next: nat)
      requires run < tasks.Length && next < tasks.Length && tasks[run].running
      modifies tasks
      ensures tasks[..] == SwappedTasks(old(tasks[..]), run, next)
    {
      if run != next {
        tasks[run] := tasks[run].(running := false);
        tasks[next] := tasks[next].(running := true);
        tasks[next] := tasks[next].(startTime := tasks[run].startTime);
      }
    }

    /** The second half of OsSchedTaskSwitch, up to the arming of the tick; `l` is the state with
        the RUNNING bit of the old task off. */
    method TakeOver(ghost l: Kernel) returns (switched: bool)
      requires Machine.Between(l) && run < tasks.Length == |l.tasks|
      requires State() == Machine.OnTask(l, run, l.tasks[run].(running := true))
      modifies this`links, this`lists, this`bitmap, this`run, tasks
      ensures State() == Machine.Enter(l)
      ensures run < tasks.Length && tasks[run].startTime == now
      ensures switched == (run != old(run))
    {
      hide QueuesOk, SortLinks.Valid, Machine.Between, Machine.Enter, Bits, DeQueue, SwappedTasks;
      TakeOverFacts(l);
      var next := GetTopTask();
      switched := run != next;
      Swap(next);
      assert At(next) == FocusOn(l, next).(x := l.tasks[next].(running := true, startTime := l.now));
      TaskDeQueue(next);
      assert At(next) == PickUp(FocusOn(l, next), next, l.now, next == idle);
      Assemble(l, State(), next, At(next));
      run := next;
    }

    /** OsSchedTaskSwitch up to the arming of the tick. */
    method Handover() returns (switched: bool)
      requires Inv(State()) && Machine.DeadlineFits(State())
      modifies this`links, this`lists, this`bitmap, this`due, this`order, this`run, tasks
      ensures State() == Machine.Enter(Machine.Leave(old(State())))
      ensures run < tasks.Length && tasks[run].startTime == now
      ensures switched == (run != old(run))
    {
      ghost var k := State();
      assert TaskOk(k, run);
      hide QueuesOk, SortLinks.Valid, Inv, Machine.Between, Machine.Enter, Bits, PutAway;
      PutAwayRun();
      ghost var l := Machine.Leave(k);
      Assemble(l, State(), run, At(run));
      switched := TakeOver(l);
    }

    /** OsSchedTaskSwitch. */
    method TaskSwitch(cap: nat) returns (switched: bool)
      requires Inv(State()) && Machine.DeadlineFits(State())
      modifies this, tasks
      ensures State() == Machine.SwitchTask(old(State()), cap)
      ensures switched == (run != old(run))
    {
      hide Inv, Machine.Enter, Machine.Leave, Bits, Arm;
      var before := run;
      switched := Handover();
      ArmFor(before, cap);
    }

    /** The end of OsSchedTaskSwitch: the tick of the task that stops is open again, and is armed for
        the task that starts. */
    method ArmFor(before: nat, cap: nat)
      requires run < tasks.Length && tasks[run].startTime == now
      modifies this`tick
      ensures State() == Arm(old(State()).(tick := Machine.OpenTick(old(tick), before)), now + tasks[run].timeSlice, cap)
    {
      var end;
      if run != idle {
        end := tasks[run].startTime + tasks[run].timeSlice;
      } else {
        end := MAX_TIME - cfg.precision;
      }
      if tick.owner == Some(before) {
        tick := tick.(time := MAX_TIME);
      }
      SetNextExpireTime(run, end, cap);
    }

    // ---------------------------------------------------------- every step

    /** OsSchedDelay. */
    method Delay(ticks: nat)
      requires run < tasks.Length
      modifies tasks
      ensures tasks[run] == old(tasks[run]).(delay := true, waitTicks := ticks)
      ensures forall u :: 0 <= u < tasks.Length && u != run ==> tasks[u] == old(tasks[u])
    {
      tasks[run] := tasks[run].(delay := true);
      tasks[run] := tasks[run].(waitTicks := ticks);
    }

    /** The steps that call the scheduler for one task. */
    method PerformCall(e: Machine.Step, t: nat)
      requires Inv(State()) && Machine.Enabled(State(), e) && Machine.Actor(State(), e) == Some(t) && t < tasks.Length
      requires !WritesBlock(e)
      modifies this`links, this`lists, this`bitmap, this`due, this`order, this`tick, tasks
      ensures At(t) == Machine.Effect(old(State()), t, e)
      ensures forall u :: 0 <= u < tasks.Length && u != t ==> tasks[u] == old(tasks[u])
    {
      assert TaskOk(State(), t);
      hide QueuesOk, SortLinks.Valid, Bits, Wait, Wake, Suspend, Resume, SetPriority, Exit, Sound, SameIdentity, SameWaitLists;
      if e.WaitOn? {
        TaskWait(e.w, e.ticks);
      } else if e.WakeUp? {
        TaskWake(t);
      } else if e.SuspendTask? {
        SuspendTask(t);
      } else if e.ResumeTask? {
        var _ := ResumeTask(t);
      } else if e.ChangePriority? {
        var _ := ModifyTaskSchedParam(t, e.p);
      } else {
        TaskExit(t);
      }
    }

    /** The steps that write one control block. */
    method PerformWrite(e: Machine.Step, t: nat)
      requires Inv(State()) && Machine.Enabled(State(), e) && Machine.Actor(State(), e) == Some(t) && t < tasks.Length
      requires WritesBlock(e)
      modifies tasks
      ensures At(t) == Machine.Effect(old(State()), t, e)
      ensures forall u :: 0 <= u < tasks.Length && u != t ==> tasks[u] == old(tasks[u])
    {
      hide QueuesOk, SortLinks.Valid, Bits, TaskOk;
      match e
      case DelayFor(ticks) => Delay(ticks);
      case Yield => tasks[t] := tasks[t].(timeSlice := 0);
      case Create(_, p) => tasks[t] := Machine.FreshTask(p);
      case Recycle(_) => tasks[t] := Machine.FreeTask(tasks[t].priority);
      case Return => tasks[t] := tasks[t].(timeout := false);
      case SetEvent(mask, mode) => tasks[t] := tasks[t].(eventMask := mask, eventMode := mode);
    }

    /** The other steps. */
    method PerformOther(e: Machine.Step)
      requires Inv(State()) && Machine.Enabled(State(), e) && Machine.Actor(State(), e).None?
      modifies this, tasks
      ensures State() == Machine.Next(old(State()), e)
    {
      assert run < tasks.Length;
      hide Inv, Bits, Machine.Effect, Machine.HandleTick, Machine.SwitchTask, UpdateExpire;
      if e.Elapse? {
        now := now + e.cycles;
      } else if e.TickInterrupt? {
        var _ := TickHandler(e.locked, e.timers, e.cap);
      } else if e.TimerStart? {
        var pos := InsertPos(timers, e.d);
        timers := timers[..pos] + [e.d] + timers[pos..];
        UpdateExpireTime(e.cap);
      } else if e.TimerStop? {
        tick := Reset(tick, timers[e.i]);
        timers := timers[..e.i] + timers[e.i + 1..];
        UpdateExpireTime(e.cap);
      } else {
        var _ := TaskSwitch(e.cap);
      }
    }

    /** Every step of the machine, carried out in place, leads to the state the machine says and
        keeps its invariant. */
    method Perform(e: Machine.Step)
      requires Inv(State()) && Machine.Enabled(State(), e)
      modifies this, tasks
      ensures State() == Machine.Next(old(State()), e) && Inv(State())
    {
      hide Inv, Bits, Machine.Target, Machine.Effect, Machine.Next, Machine.Enabled;
      ghost var k := State();
      Machine.NextKeeps(k, e);
      var actor := Machine.Target(run, e);
      if actor.Some? {
        Machine.NextIsEffect(k, e);
        if WritesBlock(e) {
          PerformWrite(e, actor.value);
        } else {
          PerformCall(e, actor.value);
        }
        Assemble(k, State(), actor.value, At(actor.value));
      } else {
        PerformOther(e);
      }
    }

    /** Any run of the machine, carried out in place. */
    method PerformAll(es: seq<Machine.Step>, ghost r: Kernel)
      requires Inv(State()) && Machine.Run(State(), es, r)
      modifies this, tasks
      ensures State() == r && Inv(r)
    {
      hide Inv, Machine.Next, Machine.Enabled, Q;
      for i := 0 to |es|
        invariant Inv(State()) && Machine.Run(State(), es[i..], r)
      {
        assert es[i..][0] == es[i] && es[i..][1..] == es[i + 1..];
        Perform(es[i]);
      }
    }
  }

  lemma {:induction false} DepartOk(f: Focus, g: Focus, t: nat)
    requires Sound(f, g, t)
    ensures FocusOk(g, t)
  {
  }

  /** A state that differs in one task and the parts an operation on it can change. */
  lemma {:induction false} Assemble(k: Kernel, r: Kernel, t: nat, g: Focus)
    requires t < |k.tasks| == |r.tasks| && r.tasks[t] == g.x
    requires r == k.(tasks := r.tasks, q := g.q, s := g.s, tick := g.tick)
    requires forall u :: 0 <= u < |k.tasks| && u != t ==> r.tasks[u] == k.tasks[u]
    ensures r == Apply(k, t, g)
  {
    assert r.tasks == k.tasks[t := g.x];
  }

  /** Some task became READY. */
  ghost predicate BecameReady(was: seq<Task>, now: seq<Task>) {
    exists t :: 0 <= t < |was| && t < |now| && !was[t].ready && now[t].ready
  }

  ghost predicate StayReady(was: seq<Task>, now: seq<Task>) {
    |was| == |now| && forall t :: 0 <= t < |was| && was[t].ready ==> now[t].ready
  }

  lemma {:induction false} OneMore(first: seq<Task>, was: seq<Task>, now: seq<Task>, t: nat)
    requires StayReady(first, was) && |now| == |was| && t < |was| && !was[t].ready
    requires forall u :: 0 <= u < |was| && u != t ==> now[u] == was[u]
    ensures StayReady(first, now) && (BecameReady(first, now) <==> BecameReady(first, was) || now[t].ready)
  {
    if BecameReady(first, was) {
      var u :| 0 <= u < |first| && u < |was| && !first[u].ready && was[u].ready;
      assert now[u].ready;
    }
  }

  /** The steps that only write the control block of a task. */
  predicate WritesBlock(e: Machine.Step) {
    e.DelayFor? || e.Yield? || e.Create? || e.Recycle? || e.Return? || e.SetEvent?
  }

  function SwappedTasks(tasks: seq<Task>, run: nat, next: nat): (r: seq<Task>)
    requires run < |tasks| && next < |tasks|
  {
    if run == next then tasks
    else tasks[run := tasks[run].(running := false)][next := tasks[next].(running := true, startTime := tasks[run].startTime)]
  }

  lemma {:induction false} TakeOverFacts(l: Kernel)
    requires Machine.Between(l)
    ensures QueuesOk(l.q) && l.run < |l.tasks| && Top(l.q, l.idle) < |l.tasks|
    ensures var next := Top(l.q, l.idle);
      var x := l.tasks[next].(running := true, startTime := l.now);
      && SwappedTasks(Machine.OnTask(l, l.run, l.tasks[l.run].(running := true)).tasks, l.run, next) == l.tasks[next := x]
      && Queued(FocusOn(l, next).(x := x), next, next == l.idle)
      && Machine.Enter(l) == Apply(l, next, PickUp(FocusOn(l, next), next, l.now, next == l.idle)).(run := next)
  {
    hide QueuesOk, SortLinks.Valid, PickUp;
    Machine.TopIsReady(l);
    Machine.EnterOk(l);
    assert !l.tasks[l.run].running;
  }
}

/** What task switches and timer scans leave alone. */
module Frames {
  import opened Lists
  import opened Basics
  import opened TickTimer
  import opened Queues
  import SortLinks
  import opened Sched
  import opened Machine

  /** Only who runs, who is ready and the time accounting differ. */
  ghost predicate Quiet(x: Task, y: Task) {
    y == x.(ready := y.ready, running := y.running, timeSlice := y.timeSlice, startTime := y.startTime)
  }

  /** The wait lists and everything about the tasks but their turn to run are the same. */
  ghost predicate SameWaits(k: Kernel, r: Kernel) {
    && |r.tasks| == |k.tasks| && |r.q.links| == |k.q.links| == |k.tasks|
    && (forall t :: 0 <= t < |k.tasks| ==> Quiet(k.tasks[t], r.tasks[t]))
    && (forall w :: WaitQ(w) in k.q.lists <==> WaitQ(w) in r.q.lists)
    && (forall w :: WaitQ(w) in k.q.lists ==> r.q.lists[WaitQ(w)] == k.q.lists[WaitQ(w)])
  }

  lemma {:induction false} LeaveFrame(k: Kernel)
    requires Inv(k) && DeadlineFits(k)
    ensures SameWaits(k, Leave(k))
    ensures forall t :: 0 <= t < |k.tasks| && t != k.run ==> Leave(k).tasks[t] == k.tasks[t]
  {
    hide QueuesOk, SortLinks.Valid;
    assert TaskOk(k, k.run);
  }

  lemma {:induction false} EnterFrame(k: Kernel)
    requires Between(k)
    ensures SameWaits(k, Enter(k))
    ensures Enter(k).s == k.s
    ensures forall t :: 0 <= t < |k.tasks| && t != Enter(k).run ==> Enter(k).tasks[t] == k.tasks[t]
  {
    hide QueuesOk, SortLinks.Valid;
    TopIsReady(k);
  }

  /** A task switch changes no wait list and no status but READY and RUNNING. */
  lemma {:induction false} SwitchFrame(k: Kernel, cap: nat)
    requires Inv(k) && DeadlineFits(k)
    ensures SameWaits(k, SwitchTask(k, cap))
  {
    hide QueuesOk, SortLinks.Valid;
    LeaveFrame(k);
    EnterFrame(Leave(k));
    SameWaitsTrans(k, Leave(k), Enter(Leave(k)));
    SameWaitsTrans(k, Enter(Leave(k)), SwitchTask(k, cap));
  }

  lemma {:induction false} SameWaitsTrans(a: Kernel, b: Kernel, c: Kernel)
    requires SameWaits(a, b) && (SameWaits(b, c) || (c.tasks == b.tasks && c.q == b.q))
    ensures SameWaits(a, c)
  {
  }

  // ------------------------------------------------------------ timer scan

  /** The deadline of `t` has come. */
  ghost predicate Due(k: Kernel, t: nat) {
    t < |k.s.due| && k.s.due[t] != MAX_TIME && k.s.due[t] <= k.now
  }

  ghost predicate SameTask(k: Kernel, r: Kernel, t: nat) {
    && t < |k.tasks| && t < |r.tasks| && t < |k.q.links| && t < |r.q.links| && t < |k.s.due| && t < |r.s.due|
    && r.tasks[t] == k.tasks[t] && r.q.links[t] == k.q.links[t] && r.s.due[t] == k.s.due[t]
  }

  /** The wait or delay of `t` ended by timeout: off both lists, TIMEOUT set if it waited, and
      ready unless suspended. */
  ghost predicate TimedOut(k: Kernel, r: Kernel, t: nat) {
    && t < |k.tasks| && t < |r.tasks| && t < |r.s.due| && t < |r.q.links|
    && r.s.due[t] == MAX_TIME
    && r.tasks[t] == k.tasks[t].(pend := false, delay := false, pendTime := false,
                                 timeout := k.tasks[t].timeout || k.tasks[t].pend,
                                 ready := !k.tasks[t].suspend, timeSlice := r.tasks[t].timeSlice)
  }

  lemma {:induction false} ScanOneEffect(k: Kernel)
    requires Inv(k) && k.s.order != []
    ensures k.s.order[0] < |k.tasks|
    ensures TimedOut(k, ScanOne(k), k.s.order[0])
    ensures forall t :: 0 <= t < |k.tasks| && t != k.s.order[0] ==> SameTask(k, ScanOne(k), t)
    ensures forall w :: WaitQ(w) in ScanOne(k).q.lists <==> WaitQ(w) in k.q.lists
    ensures forall w :: WaitQ(w) in k.q.lists ==>
              ScanOne(k).q.lists[WaitQ(w)] == Without(k.q.lists[WaitQ(w)], k.s.order[0])
  {
    var t := k.s.order[0];
    assert t in k.s.order;
    assert TaskOk(k, t);
    assert forall w :: WaitQ(w) in k.q.lists && k.q.links[t] != LinkedTo(WaitQ(w)) ==> t !in k.q.lists[WaitQ(w)];
  }

  /** A scan ends exactly the waits and delays whose deadline has come and touches no other task. */
  lemma {:induction false} ScanExact(k: Kernel)
    requires Inv(k)
    ensures forall t :: 0 <= t < |k.tasks| ==>
              if Due(k, t) then TimedOut(k, Scan(k), t) else SameTask(k, Scan(k), t)
    decreases |k.s.order|
  {
    if k.s.order == [] || SortLinks.DueOf(k.s.due, k.s.order[0]) > k.now {
      assert forall i :: 0 <= i < |k.s.order| ==> SortLinks.DueOf(k.s.due, k.s.order[i]) > k.now;
    } else {
      var h := k.s.order[0];
      var k1 := ScanOne(k);
      assert h in k.s.order;
      ScanOneKeeps(k);
      ScanOneEffect(k);
      ScanExact(k1);
      forall t | 0 <= t < |k.tasks|
        ensures if Due(k, t) then TimedOut(k, Scan(k), t) else SameTask(k, Scan(k), t)
      {
        if t != h {
          assert SameTask(k, k1, t);
          assert Due(k, t) == Due(k1, t);
        } else {
          assert !Due(k1, t);
          assert SameTask(k1, Scan(k), t);
        }
      }
    }
  }

  /** A scan takes waiters out of the wait lists but never in, and keeps the order of the rest. */
  lemma {:induction false} ScanLists(k: Kernel, w: nat, rank: seq<nat>)
    requires Inv(k)
    ensures WaitQ(w) in Scan(k).q.lists <==> WaitQ(w) in k.q.lists
    ensures WaitQ(w) in k.q.lists ==>
              && (forall t :: t in Scan(k).q.lists[WaitQ(w)] ==> t in k.q.lists[WaitQ(w)])
              && (Increasing(k.q.lists[WaitQ(w)], rank) ==> Increasing(Scan(k).q.lists[WaitQ(w)], rank))
    decreases |k.s.order|
  {
    if k.s.order != [] && SortLinks.DueOf(k.s.due, k.s.order[0]) <= k.now {
      ScanOneKeeps(k);
      ScanOneEffect(k);
      if WaitQ(w) in k.q.lists && Increasing(k.q.lists[WaitQ(w)], rank) {
        WithoutKeepsOrder(k.q.lists[WaitQ(w)], k.s.order[0], rank);
      }
      ScanLists(ScanOne(k), w, rank);
    }
  }

  /** A tick interrupt is a scan, unless it was armed for the end of a time slice, plus time
      accounting for the running task. */
  lemma {:induction false} TickFrame(k: Kernel, locked: bool, timers: seq<nat>, cap: nat)
    requires Inv(k)
    ensures var r := HandleTick(k, locked, timers, cap); var m := if k.tick.owner.None? then Scan(k) else k;
      SameWaits(m, r) && r.s == m.s && r.q == m.q
  {
    hide QueuesOk, SortLinks.Valid, Scan, UpdateExpire, TaskOk;
  }

  /** The wait or delay of a task ended by timeout, and nothing else about it changed but its
      turn to run. */
  ghost predicate EndedByTimeout(x: Task, y: Task) {
    Quiet(x.(pend := false, delay := false, pendTime := false, timeout := x.timeout || x.pend), y)
  }

  lemma {:induction false} TickTask(k: Kernel, locked: bool, timers: seq<nat>, cap: nat, t: nat)
    requires Inv(k) && t < |k.tasks|
    ensures var r := HandleTick(k, locked, timers, cap);
      && |r.tasks| == |k.tasks| && |r.q.links| == |k.tasks| && |r.s.due| == |k.tasks|
      && (if k.tick.owner.None? && Due(k, t) then EndedByTimeout(k.tasks[t], r.tasks[t])
          else Quiet(k.tasks[t], r.tasks[t]) && r.q.links[t] == k.q.links[t] && r.s.due[t] == k.s.due[t])
  {
    hide QueuesOk, SortLinks.Valid, UpdateExpire;
    TickFrame(k, locked, timers, cap);
    if k.tick.owner.None? {
      ScanExact(k);
      assert if Due(k, t) then TimedOut(k, Scan(k), t) else SameTask(k, Scan(k), t);
      assert Quiet(Scan(k).tasks[t], HandleTick(k, locked, timers, cap).tasks[t]);
    }
  }

  // ------------------------------------------------------------ steps on one task

  /** What a step on one task does to the parts of its control block that waits depend on. */
  lemma {:induction false} EffectBits(k: Kernel, t: nat, e: Step)
    requires Inv(k) && Enabled(k, e) && t < |k.tasks| && Actor(k, e) == Some(t)
    ensures var x := k.tasks[t]; var y := Effect(k, t, e).x;
      && (y.pend <==> e.WaitOn? || (x.pend && !e.WakeUp? && !e.ExitTask?))
      && (y.timeout <==> x.timeout && !e.Return? && !e.Create? && !e.Recycle?)
      && (!e.Create? && !e.Recycle? ==>
            && y.unused == x.unused && (y.exit <==> x.exit || e.ExitTask?)
            && (!e.SetEvent? ==> y.eventMask == x.eventMask && y.eventMode == x.eventMode)
            && (!e.ChangePriority? ==> y.priority == x.priority))
  {
    hide QueuesOk, SortLinks.Valid, SetPriority, Exit, Depart;
    assert TaskOk(k, t);
    match e
    case ExitTask(_) => ExitBits(FocusOn(k, t), t);
    case ChangePriority(_, p) => PriorityBits(FocusOn(k, t), t, p, k.cfg);
    case _ =>
  }

  lemma {:induction false} ExitBits(f: Focus, t: nat)
    requires Queued(f, t, false) && (f.x.pend ==> Waiting(f, t)) && !(f.x.ready && f.x.pend)
    ensures var y := Exit(f, t, false).x; y == f.x.(pend := false, ready := false, delay := false, pendTime := false, exit := true)
  {
    hide QueuesOk, SortLinks.Valid, Depart, OnlyNodesOf, SameWaitLists;
    DepartBits(f, t);
  }

  lemma {:induction false} DepartBits(f: Focus, t: nat)
    requires Queued(f, t, false) && (f.x.pend ==> Waiting(f, t)) && !(f.x.ready && f.x.pend)
    ensures Depart(f, t, false).x == f.x.(pend := false, ready := false)
  {
    hide QueuesOk, SortLinks.Valid, PriDelete, Delete, OnlyNodesOf, SameWaitLists;
  }

  lemma {:induction false} PriorityBits(f: Focus, t: nat, p: nat, cfg: Config)
    requires Queued(f, t, false) && p < PRIORITIES
    ensures var y := SetPriority(f, t, p, false, cfg).x;
      y.pend == (f.x.pend && !f.x.ready) && y.timeout == f.x.timeout && y.unused == f.x.unused && y.exit == f.x.exit
      && y.eventMask == f.x.eventMask && y.eventMode == f.x.eventMode
  {
    hide QueuesOk, SortLinks.Valid, PriDelete, PriEn;
  }

  /** A step on one task leaves the other tasks alone. */
  lemma {:induction false} EffectOthers(k: Kernel, e: Step, u: nat)
    requires Inv(k) && Enabled(k, e) && Actor(k, e).Some? && u < |k.tasks| && u != Actor(k, e).value
    ensures SameTask(k, Next(k, e), u)
  {
    hide QueuesOk, SortLinks.Valid, Effect, Next, StatusOk;
    NextIsEffect(k, e);
    EffectAgrees(k, Actor(k, e).value, e);
  }

  /** The control block that a step leaves task `t`, by the kind of step. */
  lemma {:induction false} StepTask(k: Kernel, e: Step, t: nat)
    requires Inv(k) && Enabled(k, e) && t < |k.tasks|
    ensures |Next(k, e).tasks| == |k.tasks|
    ensures e.TickInterrupt? ==> Next(k, e) == HandleTick(k, e.locked, e.timers, e.cap)
    ensures e.Switch? ==> DeadlineFits(k) && Next(k, e) == SwitchTask(k, e.cap)
    ensures !e.TickInterrupt? && !e.Switch? ==>
              Next(k, e).tasks[t] == if Actor(k, e) == Some(t) then Effect(k, t, e).x else k.tasks[t]
  {
    hide QueuesOk, SortLinks.Valid, Effect, HandleTick, SwitchTask, UpdateExpire, TaskOk;
  }

  lemma {:induction false} NextSize(k: Kernel, e: Step)
    requires Inv(k) && Enabled(k, e)
    ensures |Next(k, e).tasks| == |k.tasks| && Next(k, e).idle == k.idle && Next(k, e).cfg == k.cfg
    ensures e.Elapse? || e.TimerStart? || e.TimerStop? ==> Next(k, e).tasks == k.tasks
  {
    hide QueuesOk, SortLinks.Valid, Effect, HandleTick, SwitchTask, UpdateExpire, TaskOk;
  }

  /** A task that a step does not delete, create or re-prioritise stays the task it was. */
  lemma {:induction false} StepKeepsTask(k: Kernel, e: Step, t: nat)
    requires Inv(k) && Enabled(k, e) && t < |k.tasks|
    requires (e.ExitTask? || e.Recycle? || e.Create? || e.ChangePriority?) ==> e.t != t
    ensures t < |Next(k, e).tasks|
    ensures var x := k.tasks[t]; var y := Next(k, e).tasks[t];
      y.priority == x.priority && y.unused == x.unused && y.exit == x.exit
  {
    hide Inv, Enabled, Effect, HandleTick, SwitchTask, Next;
    StepTask(k, e, t);
    if e.TickInterrupt? {
      TickTask(k, e.locked, e.timers, e.cap, t);
    } else if e.Switch? {
      SwitchFrame(k, e.cap);
    } else if Actor(k, e) == Some(t) {
      EffectBits(k, t, e);
    }
  }
}

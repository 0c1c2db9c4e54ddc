/** A suspended task does not run until it is resumed, and a deleted one does not run again. */
module Suspensions {
  import opened Basics
  import opened TickTimer
  import opened Queues
  import SortLinks
  import opened Sched
  import opened Machine
  import opened Frames

  ghost predicate Suspended(k: Kernel, t: nat) { t < |k.tasks| && k.tasks[t].suspend }

  predicate Spares(e: Step, t: nat) { e != ResumeTask(t) && e != ExitTask(t) }

  lemma {:induction false} SuspendedActor(k: Kernel, e: Step, t: nat)
    requires Inv(k) && Enabled(k, e) && t < |k.tasks| && k.tasks[t].suspend && !k.tasks[t].exit && !k.tasks[t].unused
    requires Spares(e, t) && Actor(k, e) == Some(t)
    ensures var y := Effect(k, t, e).x; y.suspend && !y.exit && !y.unused
  {
    hide QueuesOk, SortLinks.Valid;
    assert TaskOk(k, t);
  }

  /** Suspended, and neither deleted nor unused. */
  ghost predicate Parked(k: Kernel, t: nat) { Suspended(k, t) && !k.tasks[t].exit && !k.tasks[t].unused }

  lemma {:induction false} ParkedStays(k: Kernel, e: Step, t: nat)
    requires Inv(k) && Enabled(k, e) && Parked(k, t) && Spares(e, t)
    ensures Parked(Next(k, e), t) && (t != k.run ==> t != Next(k, e).run)
  {
    hide QueuesOk, SortLinks.Valid, Effect, HandleTick, SwitchTask, UpdateExpire;
    StepTask(k, e, t);
    assert TaskOk(k, t);
    if Actor(k, e) == Some(t) {
      SuspendedActor(k, e, t);
    } else if e.TickInterrupt? {
      TickTask(k, e.locked, e.timers, e.cap, t);
    } else if e.Switch? {
      SwitchFrame(k, e.cap);
      assert Quiet(k.tasks[t], SwitchTask(k, e.cap).tasks[t]);
      ParkedNotChosen(k, e.cap, t);
    }
  }

  lemma {:induction false} ParkedNotChosen(k: Kernel, cap: nat, t: nat)
    requires Inv(k) && DeadlineFits(k) && Suspended(k, t)
    ensures t != SwitchTask(k, cap).run
  {
    hide QueuesOk, SortLinks.Valid;
    LeaveFrame(k);
    var l := Leave(k);
    TopIsReady(l);
    assert Quiet(k.tasks[t], l.tasks[t]);
    assert StatusOk(l.tasks[t], l.q.links[t], l.s.due[t], false, t == l.idle, l.cfg.sliceMin);
  }

  /** On every run on which nobody resumes or deletes it, a suspended task is not READY, whatever wakes it or
      times out, and once it has been switched away it does not run. */
  lemma {:induction false} SuspendedUntilResumed(k: Kernel, t: nat, es: seq<Step>, r: Kernel)
    requires Inv(k) && Parked(k, t) && Run(k, es, r) && ResumeTask(t) !in es && ExitTask(t) !in es
    ensures Inv(r) && Parked(r, t) && !r.tasks[t].ready && (t != k.run ==> t != r.run)
    decreases |es|
  {
    if es == [] {
      assert TaskOk(k, t);
    } else {
      NextKeeps(k, es[0]);
      ParkedStays(k, es[0], t);
      hide Inv, Enabled, Next, Parked;
      SuspendedUntilResumed(Next(k, es[0]), t, es[1..], r);
    }
  }

  /** LOS_TaskSuspend parks a task, and a suspended task becomes READY on LOS_TaskResume exactly if it neither
      waits nor is delayed; otherwise it is as before but for the suspension. */
  lemma {:induction false} ParksAndResumes(k: Kernel, e: Step, t: nat)
    requires Inv(k) && Enabled(k, e)
    ensures e == SuspendTask(t) && !k.tasks[t].exit ==> Parked(Next(k, e), t)
    ensures e == ResumeTask(t) ==>
      var r := Next(k, e);
      && t < |r.tasks| && !r.tasks[t].suspend
      && (r.tasks[t].ready <==> !k.tasks[t].pend && !k.tasks[t].delay)
      && (k.tasks[t].pend || k.tasks[t].delay ==> r == OnTask(k, t, k.tasks[t].(suspend := false)))
  {
    hide QueuesOk, SortLinks.Valid;
    if e == SuspendTask(t) || e == ResumeTask(t) {
      assert TaskOk(k, t);
    }
  }

  /** A created task is suspended at the priority asked for, with no slice and nothing pending. */
  lemma {:induction false} CreatedParked(k: Kernel, t: nat, p: nat)
    requires Inv(k) && Enabled(k, Create(t, p))
    ensures var r := Next(k, Create(t, p)); var y := r.tasks[t];
      && Parked(r, t) && y.priority == p && y.timeSlice == 0 && !y.timeout && !y.ready && !y.pend && !y.Timed()
      && r == OnTask(k, t, y)
  {
    hide QueuesOk, SortLinks.Valid;
    assert TaskOk(k, t);
  }

  // ------------------------------------------------------------ deletion

  /** Deleted, and in no ready queue. */
  ghost predicate Dead(k: Kernel, t: nat) {
    t < |k.tasks| && (k.tasks[t].exit || k.tasks[t].unused) && !k.tasks[t].ready
  }

  predicate Revives(e: Step, t: nat) { e == ResumeTask(t) || (e.Create? && e.t == t) }

  lemma {:induction false} DeadActor(k: Kernel, e: Step, t: nat)
    requires Inv(k) && Enabled(k, e) && Dead(k, t) && !Revives(e, t) && Actor(k, e) == Some(t)
    ensures var y := Effect(k, t, e).x; (y.exit || y.unused) && !y.ready
  {
    hide QueuesOk, SortLinks.Valid;
    assert TaskOk(k, t);
  }

  lemma {:induction false} DeadStays(k: Kernel, e: Step, t: nat)
    requires Inv(k) && Enabled(k, e) && Dead(k, t) && !Revives(e, t)
    ensures Dead(Next(k, e), t) && (t != k.run ==> t != Next(k, e).run)
  {
    hide QueuesOk, SortLinks.Valid, Effect, HandleTick, SwitchTask, UpdateExpire;
    StepTask(k, e, t);
    assert TaskOk(k, t);
    NextKeeps(k, e);
    assert TaskOk(Next(k, e), t);
    if Actor(k, e) == Some(t) {
      DeadActor(k, e, t);
    } else if e.TickInterrupt? {
      TickTask(k, e.locked, e.timers, e.cap, t);
    } else if e.Switch? {
      DeadNotQueued(k, e.cap, t);
    }
  }

  lemma {:induction false} DeadNotQueued(k: Kernel, cap: nat, t: nat)
    requires Inv(k) && DeadlineFits(k) && Dead(k, t)
    ensures var r := SwitchTask(k, cap); t != r.run && Dead(r, t)
  {
    hide QueuesOk, SortLinks.Valid;
    assert TaskOk(k, t);
    LeaveFrame(k);
    var l := Leave(k);
    TopIsReady(l);
    EnterFrame(l);
    assert Quiet(k.tasks[t], l.tasks[t]);
    assert StatusOk(l.tasks[t], l.q.links[t], l.s.due[t], false, t == l.idle, l.cfg.sliceMin);
  }

  /** LOS_TaskDelete: the task is on no list, and on every run on which its control block is neither reused nor
      resumed it is not READY and, once it has been switched away, does not run. */
  lemma {:induction false} DeletedStaysDead(k: Kernel, t: nat, es: seq<Step>, r: Kernel)
    requires Inv(k) && Enabled(k, ExitTask(t)) && forall e <- es :: !Revives(e, t)
    ensures var d := Next(k, ExitTask(t)); Inv(d) && Dead(d, t) && d.q.links[t].Unlinked? && d.s.due[t] == MAX_TIME
    ensures Run(Next(k, ExitTask(t)), es, r) ==> Dead(r, t) && (t != k.run ==> t != r.run)
  {
    NextKeeps(k, ExitTask(t));
    var d := Next(k, ExitTask(t));
    DeadAtOnce(k, t);
    assert TaskOk(d, t);
    hide Inv, Enabled, Next, Run, Dead;
    if Run(d, es, r) {
      DeadRun(d, t, es, r);
    }
  }

  lemma {:induction false} DeadAtOnce(k: Kernel, t: nat)
    requires Inv(k) && Enabled(k, ExitTask(t))
    ensures var d := Next(k, ExitTask(t));
      && Dead(d, t) && d.run == k.run && t != d.idle && t < |d.tasks| && d.tasks[t].exit && !d.tasks[t].pend && !d.tasks[t].Timed()
  {
    hide QueuesOk, SortLinks.Valid;
    assert TaskOk(k, t);
  }

  lemma {:induction false} DeadRun(k: Kernel, t: nat, es: seq<Step>, r: Kernel)
    requires Inv(k) && Dead(k, t) && Run(k, es, r) && forall e <- es :: !Revives(e, t)
    ensures Dead(r, t) && (t != k.run ==> t != r.run)
    decreases |es|
  {
    if es != [] {
      NextKeeps(k, es[0]);
      DeadStays(k, es[0], t);
      hide Inv, Enabled, Next, Dead;
      DeadRun(Next(k, es[0]), t, es[1..], r);
    }
  }

  /** A deleted task that was suspended can still be resumed, and is then READY. */
  lemma {:induction false} ResumeRevives(k: Kernel, t: nat)
    requires Inv(k) && Created(k, t) && k.tasks[t].exit && k.tasks[t].suspend && !k.tasks[t].running
    ensures Enabled(k, ResumeTask(t)) && t < |Next(k, ResumeTask(t)).tasks| && Next(k, ResumeTask(t)).tasks[t].ready
  {
    hide QueuesOk, SortLinks.Valid;
    assert TaskOk(k, t);
  }
}

/** Timed waits and delays end exactly when they should: the deadline that is booked, and that it is kept. */
module Bookings {
  import opened Basics
  import opened TickTimer
  import opened Queues
  import SortLinks
  import opened Sched
  import opened Machine
  import opened Frames

  /** Where a wait or delay of `n` ticks stands: asked for by a task still running, booked on the sort link for
      a time, or ended by timeout. */
  datatype Phase = Asked | Booked(at: nat) | Ended

  /** The clock alone says how the wait goes on. */
  ghost function After(p: Phase, n: nat, k: Kernel, e: Step): (q: Phase)
    requires Inv(k)
  {
    if p.Asked? && e.Switch? then Booked(k.now + n * k.cfg.sysClock / k.cfg.ticksPerSecond)
    else if p.Booked? && e.TickInterrupt? && k.tick.owner.None? && p.at <= k.now then Ended
    else p
  }

  /** The task is where the phase says. */
  ghost predicate Stands(p: Phase, n: nat, k: Kernel, t: nat) {
    match p
    case Asked => t == k.run && t < |k.tasks| && k.tasks[t].Timed() && k.tasks[t].waitTicks == n
    case Booked(at) => t != k.run && t < |k.tasks| && t < |k.s.due| && k.tasks[t].Timed() && k.s.due[t] == at
    case Ended => true
  }

  /** The tick at which a wait ends: the task is off both lists, has TIMEOUT exactly if it waited, and is ready
      unless suspended. */
  ghost predicate TimesOut(k: Kernel, r: Kernel, t: nat) {
    && t < |k.tasks| && t < |r.tasks| && t < |r.s.due|
    && !r.tasks[t].pend && !r.tasks[t].delay && !r.tasks[t].pendTime && r.s.due[t] == MAX_TIME
    && (r.tasks[t].timeout <==> k.tasks[t].timeout || k.tasks[t].pend)
    && (r.tasks[t].ready <==> !k.tasks[t].suspend)
  }

  /** Nobody ends the wait of `t` before its time. */
  predicate LeavesAlone(e: Step, t: nat) { e != WakeUp(t) && e != ExitTask(t) }

  // ------------------------------------------------------------ asking

  /** What LOS_TaskDelay and a timed wait ask for is exactly the number of ticks given. */
  lemma {:induction false} AsksExactly(k: Kernel, e: Step, n: nat)
    requires Inv(k) && Enabled(k, e) && (e == DelayFor(n) || (e.WaitOn? && e.ticks == n && n != WAIT_FOREVER))
    ensures Stands(Asked, n, Next(k, e), k.run)
  {
    hide QueuesOk, SortLinks.Valid;
  }

  lemma {:induction false} AskedActor(k: Kernel, e: Step, t: nat, n: nat)
    requires Inv(k) && Enabled(k, e) && Stands(Asked, n, k, t) && LeavesAlone(e, t) && Actor(k, e) == Some(t)
    ensures Effect(k, t, e).x.Timed() && Effect(k, t, e).x.waitTicks == n
  {
    hide QueuesOk, SortLinks.Valid;
    assert TaskOk(k, t);
  }

  lemma {:induction false} AskedStays(k: Kernel, e: Step, t: nat, n: nat)
    requires Inv(k) && Enabled(k, e) && Stands(Asked, n, k, t) && LeavesAlone(e, t) && !e.Switch?
    ensures Stands(Asked, n, Next(k, e), t)
  {
    hide QueuesOk, SortLinks.Valid, Effect, HandleTick, UpdateExpire;
    StepTask(k, e, t);
    assert TaskOk(k, t);
    if Actor(k, e) == Some(t) {
      AskedActor(k, e, t, n);
    } else if e.TickInterrupt? {
      TickTask(k, e.locked, e.timers, e.cap, t);
    }
  }

  /** The switch books the time of the switch plus the ticks, in cycles. */
  lemma {:induction false} SwitchBooks(k: Kernel, cap: nat, t: nat, n: nat)
    requires Inv(k) && DeadlineFits(k) && Stands(Asked, n, k, t)
    ensures Stands(Booked(k.now + n * k.cfg.sysClock / k.cfg.ticksPerSecond), n, SwitchTask(k, cap), t)
  {
    hide QueuesOk, SortLinks.Valid;
    assert TaskOk(k, t);
    SwitchFrame(k, cap);
    EnterFrame(Leave(k));
    TopIsReady(Leave(k));
  }

  // ------------------------------------------------------------ keeping the deadline

  lemma {:induction false} BookedActor(k: Kernel, e: Step, t: nat)
    requires Inv(k) && Enabled(k, e) && t < |k.tasks| && Actor(k, e) == Some(t) && LeavesAlone(e, t)
    requires t != k.run && k.tasks[t].Timed()
    ensures Effect(k, t, e).x.Timed() && Effect(k, t, e).s.due[t] == k.s.due[t]
  {
    hide QueuesOk, SortLinks.Valid;
    assert TaskOk(k, t);
  }

  /** A booked deadline stays what it is until the tick that keeps it. */
  lemma {:induction false} BookedStays(k: Kernel, e: Step, t: nat, n: nat, at: nat)
    requires Inv(k) && Enabled(k, e) && Stands(Booked(at), n, k, t) && LeavesAlone(e, t)
    requires !(e.TickInterrupt? && k.tick.owner.None? && at <= k.now)
    ensures Stands(Booked(at), n, Next(k, e), t)
  {
    hide QueuesOk, SortLinks.Valid, Effect, HandleTick, SwitchTask, UpdateExpire;
    StepTask(k, e, t);
    assert TaskOk(k, t);
    if Actor(k, e) == Some(t) {
      BookedActor(k, e, t);
      NextIsEffect(k, e);
      EffectAgrees(k, t, e);
    } else if Actor(k, e).Some? {
      EffectOthers(k, e, t);
    } else if e.TickInterrupt? {
      TickTask(k, e.locked, e.timers, e.cap, t);
    } else if e.Switch? {
      SwitchKeepsDue(k, e.cap, t);
    }
  }

  lemma {:induction false} SwitchKeepsDue(k: Kernel, cap: nat, t: nat)
    requires Inv(k) && DeadlineFits(k) && t < |k.tasks| && t != k.run && k.tasks[t].Timed()
    ensures var r := SwitchTask(k, cap);
      t != r.run && t < |r.tasks| && t < |r.s.due| && r.tasks[t].Timed() && r.s.due[t] == k.s.due[t]
  {
    hide QueuesOk, SortLinks.Valid;
    assert TaskOk(k, t);
    SwitchFrame(k, cap);
    assert Quiet(k.tasks[t], SwitchTask(k, cap).tasks[t]);
    LeaveFrame(k);
    EnterFrame(Leave(k));
    TopIsReady(Leave(k));
  }

  /** A scanning tick at or after the booked time ends the wait. */
  lemma {:induction false} TickEnds(k: Kernel, e: Step, t: nat, n: nat, at: nat)
    requires Inv(k) && Enabled(k, e) && Stands(Booked(at), n, k, t)
    requires e.TickInterrupt? && k.tick.owner.None? && at <= k.now
    ensures TimesOut(k, Next(k, e), t)
  {
    assert TaskOk(k, t);
    assert Due(k, t);
    ScanExact(k);
    assert TimedOut(k, Scan(k), t);
    hide Inv, Scan, UpdateExpire;
  }

  /** Every step moves the wait on as the clock says, and the step that ends it ends it by timeout. */
  lemma {:induction false} PhaseExactly(p: Phase, n: nat, k: Kernel, e: Step, t: nat)
    requires Inv(k) && Enabled(k, e) && Stands(p, n, k, t) && LeavesAlone(e, t)
    ensures Stands(After(p, n, k, e), n, Next(k, e), t)
    ensures p.Booked? && After(p, n, k, e).Ended? ==> TimesOut(k, Next(k, e), t)
  {
    hide QueuesOk, SortLinks.Valid, Next, SwitchTask, HandleTick, TimesOut;
    match p
    case Asked =>
      if e.Switch? {
        SwitchStep(k, e);
        SwitchBooks(k, e.cap, t, n);
      } else {
        AskedStays(k, e, t, n);
      }
    case Booked(at) =>
      if After(p, n, k, e).Ended? {
        TickEnds(k, e, t, n, at);
      } else {
        BookedStays(k, e, t, n, at);
      }
    case Ended =>
  }

  // ------------------------------------------------------------ runs

  /** A run during which nobody wakes or deletes `t`, with the phase of its wait. */
  ghost predicate WaitRun(p: Phase, n: nat, k: Kernel, es: seq<Step>, q: Phase, r: Kernel, t: nat)
    requires Inv(k)
    decreases |es|
  {
    if es == [] then q == p && r == k
    else
      && Enabled(k, es[0]) && LeavesAlone(es[0], t)
      && (NextKeeps(k, es[0]); WaitRun(After(p, n, k, es[0]), n, Next(k, es[0]), es[1..], q, r, t))
  }

  lemma {:induction false} WaitRunStands(p: Phase, n: nat, k: Kernel, es: seq<Step>, q: Phase, r: Kernel, t: nat)
    requires Inv(k) && Stands(p, n, k, t) && WaitRun(p, n, k, es, q, r, t)
    ensures Inv(r) && Stands(q, n, r, t)
    decreases |es|
  {
    hide Inv, Stands, Enabled, Next, After;
    if es != [] {
      NextKeeps(k, es[0]);
      PhaseExactly(p, n, k, es[0], t);
      WaitRunStands(After(p, n, k, es[0]), n, Next(k, es[0]), es[1..], q, r, t);
    }
  }

  /** On every run after a delay or timed wait of `n` ticks: the task is booked for the time of its switch plus
      `n` ticks in cycles, waits until a tick scans at or after that time, and that tick ends the wait. */
  lemma {:induction false} WaitsExactly(k: Kernel, e: Step, n: nat, es: seq<Step>, q: Phase, r: Kernel, tick: Step)
    requires Inv(k) && Enabled(k, e) && (e == DelayFor(n) || (e.WaitOn? && e.ticks == n && n != WAIT_FOREVER))
    ensures Inv(Next(k, e))
    ensures WaitRun(Asked, n, Next(k, e), es, q, r, k.run) ==>
      && Inv(r) && Stands(q, n, r, k.run)
      && (q.Booked? && tick.TickInterrupt? && Enabled(r, tick) && r.tick.owner.None? && q.at <= r.now ==>
            TimesOut(r, Next(r, tick), k.run))
  {
    NextKeeps(k, e);
    AsksExactly(k, e, n);
    hide Inv, Stands, Enabled, Next, TimesOut, WaitRun;
    if WaitRun(Asked, n, Next(k, e), es, q, r, k.run) {
      WaitRunStands(Asked, n, Next(k, e), es, q, r, k.run);
      if q.Booked? && tick.TickInterrupt? && Enabled(r, tick) && r.tick.owner.None? && q.at <= r.now {
        TickEnds(r, tick, k.run, n, q.at);
      }
    }
  }

  // ------------------------------------------------------------ waiting forever

  /** A wait without a deadline. */
  ghost predicate Forever(k: Kernel, t: nat) {
    t < |k.tasks| && t < |k.s.due| && k.tasks[t].pend && !k.tasks[t].Timed() && k.s.due[t] == MAX_TIME
  }

  lemma {:induction false} AsksForever(k: Kernel, e: Step)
    requires Inv(k) && Enabled(k, e) && e.WaitOn? && e.ticks == WAIT_FOREVER
    ensures Forever(Next(k, e), k.run)
  {
    hide QueuesOk, SortLinks.Valid;
    assert TaskOk(k, k.run);
  }

  lemma {:induction false} ForeverActor(k: Kernel, e: Step, t: nat)
    requires Inv(k) && Enabled(k, e) && Forever(k, t) && LeavesAlone(e, t) && Actor(k, e) == Some(t)
    ensures var g := Effect(k, t, e); g.x.pend && !g.x.Timed() && g.s.due[t] == MAX_TIME
  {
    hide QueuesOk, SortLinks.Valid;
    assert TaskOk(k, t);
  }

  lemma {:induction false} ForeverStays(k: Kernel, e: Step, t: nat)
    requires Inv(k) && Enabled(k, e) && Forever(k, t) && LeavesAlone(e, t)
    ensures Forever(Next(k, e), t)
  {
    hide QueuesOk, SortLinks.Valid, Effect, HandleTick, SwitchTask, UpdateExpire;
    NextKeeps(k, e);
    StepTask(k, e, t);
    assert TaskOk(k, t);
    assert TaskOk(Next(k, e), t);
    if Actor(k, e) == Some(t) {
      ForeverActor(k, e, t);
    } else if Actor(k, e).Some? {
      EffectOthers(k, e, t);
    } else if e.TickInterrupt? {
      TickTask(k, e.locked, e.timers, e.cap, t);
    } else if e.Switch? {
      SwitchFrame(k, e.cap);
      assert Quiet(k.tasks[t], Next(k, e).tasks[t]);
    }
  }

  /** A wait without a timeout goes on, without a deadline, on every run on which nobody wakes or deletes the task. */
  lemma {:induction false} WaitsForever(k: Kernel, e: Step, es: seq<Step>, r: Kernel)
    requires Inv(k) && Enabled(k, e) && e.WaitOn? && e.ticks == WAIT_FOREVER
    requires WakeUp(k.run) !in es && ExitTask(k.run) !in es
    ensures Inv(Next(k, e))
    ensures Run(Next(k, e), es, r) ==> Forever(r, k.run)
  {
    NextKeeps(k, e);
    AsksForever(k, e);
    hide Inv, Enabled, Next, Run, Forever;
    if Run(Next(k, e), es, r) {
      ForeverRun(Next(k, e), es, r, k.run);
    }
  }

  lemma {:induction false} ForeverRun(k: Kernel, es: seq<Step>, r: Kernel, t: nat)
    requires Inv(k) && Forever(k, t) && Run(k, es, r) && WakeUp(t) !in es && ExitTask(t) !in es
    ensures Forever(r, t)
    decreases |es|
  {
    hide Inv, Forever, Enabled, Next;
    if es != [] {
      NextKeeps(k, es[0]);
      ForeverStays(k, es[0], t);
      ForeverRun(Next(k, es[0]), es[1..], r, t);
    }
  }
}

/** The rings in memory and the scheduler's variables go through every run in step. */
module RingRuns {
  import opened Lists
  import opened Basics
  import opened TickTimer
  import opened Queues
  import SortLinks
  import opened Sched
  import opened Machine
  import opened PendLists
  import opened SchedulerImpl

  /** OsSchedTaskEnQueue on the rings. */
  method EnQueueOn(rings: PendLists, f: Focus, t: nat, isIdle: bool, cfg: Config)
    requires rings.Valid() && rings.q == f.q && CanEnQueue(f, t)
    modifies rings, rings.at.All()
    ensures rings.Valid() && rings.q == EnQueue(f, t, isIdle, cfg).q
  {
    hide QueuesOk, SortLinks.Valid;
    if !isIdle {
      rings.PriQueueEn(t, f.x.priority, f.x.timeSlice > cfg.sliceMin);
    }
  }

  /** OsSchedTaskDeQueue on the rings. */
  method DeQueueOn(rings: PendLists, f: Focus, t: nat, isIdle: bool)
    requires rings.Valid() && rings.q == f.q && Queued(f, t, isIdle)
    modifies rings, rings.at.All()
    ensures rings.Valid() && rings.q == DeQueue(f, t, isIdle).q
  {
    hide QueuesOk, SortLinks.Valid;
    if f.x.ready && !isIdle {
      rings.PriQueueDelete(t, f.x.priority);
    }
  }

  /** OsSchedTaskWake on the rings. */
  method WakeOn(rings: PendLists, f: Focus, t: nat, isIdle: bool, cfg: Config)
    requires rings.Valid() && rings.q == f.q && Waiting(f, t) && !f.x.ready
    modifies rings, rings.at.All()
    ensures rings.Valid() && rings.q == Wake(f, t, isIdle, cfg).q
  {
    hide QueuesOk, SortLinks.Valid;
    rings.ListDelete(t);
    var f1 := f.(x := f.x.(pend := false), q := Delete(f.q, t));
    var f2 := if !f1.x.pendTime then f1 else DeleteSortLink(f1, t).(x := f1.x.(pendTime := false));
    if !f2.x.suspend && !f2.x.running {
      EnQueueOn(rings, f2, t, isIdle, cfg);
    }
  }

  /** OsSchedWakePendTimeTask on the rings. */
  method ExpireOn(rings: PendLists, f: Focus, t: nat, isIdle: bool, cfg: Config)
    requires rings.Valid() && rings.q == f.q
    requires FocusOk(f, t) && !f.x.ready && (if f.x.pend then Waiting(f, t) else f.q.links[t].Unlinked?)
    modifies rings, rings.at.All()
    ensures rings.Valid() && rings.q == Expire(f, t, isIdle, cfg).q
  {
    hide QueuesOk, SortLinks.Valid;
    if !f.x.pend && !f.x.delay {
      return;
    }
    var y := f.x.(pend := false, pendTime := false, delay := false);
    var f1 := f.(x := y);
    if f.x.pend {
      rings.ListDelete(t);
      f1 := f.(x := y.(timeout := true), q := Delete(f.q, t));
    }
    if !f.x.suspend {
      EnQueueOn(rings, f1, t, isIdle, cfg);
    }
  }

  /** OsSchedResume on the rings. */
  method ResumeOn(rings: PendLists, f: Focus, t: nat, isIdle: bool, cfg: Config)
    requires rings.Valid() && rings.q == f.q && FocusOk(f, t) && !f.x.ready
    requires !f.x.delay && !f.x.pend ==> f.q.links[t].Unlinked?
    modifies rings, rings.at.All()
    ensures rings.Valid() && rings.q == Resume(f, t, isIdle, cfg).q
  {
    hide QueuesOk, SortLinks.Valid;
    if !f.x.delay && !f.x.pend {
      EnQueueOn(rings, f.(x := f.x.(suspend := false)), t, isIdle, cfg);
    }
  }

  /** OsSchedModifyTaskSchedParam on the rings. */
  method SetPriorityOn(rings: PendLists, f: Focus, t: nat, p: nat, cfg: Config)
    requires rings.Valid() && rings.q == f.q && Queued(f, t, false) && p < PRIORITIES
    modifies rings, rings.at.All()
    ensures rings.Valid() && rings.q == SetPriority(f, t, p, false, cfg).q
  {
    hide QueuesOk, SortLinks.Valid;
    if f.x.ready {
      DeQueueOn(rings, f, t, false);
      var d := DeQueue(f, t, false);
      EnQueueOn(rings, d.(x := d.x.(priority := p)), t, false, cfg);
    }
  }

  /** OsSchedTaskExit on the rings. */
  method ExitOn(rings: PendLists, f: Focus, t: nat)
    requires rings.Valid() && rings.q == f.q && Queued(f, t, false) && (f.x.pend ==> Waiting(f, t))
    modifies rings, rings.at.All()
    ensures rings.Valid() && rings.q == Exit(f, t, false).q
  {
    hide QueuesOk, SortLinks.Valid;
    if f.x.ready {
      DeQueueOn(rings, f, t, false);
    } else if f.x.pend {
      rings.ListDelete(t);
    }
  }

  /** The queue part of a step that acts on one task. */
  method TaskStepOn(rings: PendLists, k: Kernel, e: Step, t: nat)
    requires rings.Valid() && rings.q == k.q
    requires Inv(k) && Enabled(k, e) && t < |k.tasks| && Actor(k, e) == Some(t)
    modifies rings, rings.at.All()
    ensures rings.Valid() && rings.q == Effect(k, t, e).q
  {
    hide QueuesOk, SortLinks.Valid, SetPriority, Exit, Wake, Resume, Layout.Fits, InMemory;
    assert TaskOk(k, t);
    var f := FocusOn(k, t);
    match e
    case WaitOn(w, ticks) => rings.ListTailInsert(t, w);
    case WakeUp(_) => WakeOn(rings, f, t, t == k.idle, k.cfg);
    case SuspendTask(_) => DeQueueOn(rings, f, t, t == k.idle);
    case ResumeTask(_) => ResumeOn(rings, f, t, t == k.idle, k.cfg);
    case ChangePriority(_, p) => SetPriorityOn(rings, f, t, p, k.cfg);
    case ExitTask(_) => ExitOn(rings, f, t);
    case _ =>
  }

  /** OsSchedScanTimerList on the rings. */
  method ScanOn(rings: PendLists, k: Kernel)
    requires rings.Valid() && rings.q == k.q && Inv(k)
    modifies rings, rings.at.All()
    ensures rings.Valid() && rings.q == Scan(k).q
  {
    var m := k;
    while m.s.order != [] && SortLinks.DueOf(m.s.due, m.s.order[0]) <= m.now
      invariant Inv(m) && rings.Valid() && rings.q == m.q && Scan(m) == Scan(k)
      decreases |m.s.order|
    {
      var t := m.s.order[0];
      assert t in m.s.order;
      assert TaskOk(m, t);
      ScanOneKeeps(m);
      SortLinks.DropKeeps(m.s, t);
      hide QueuesOk, SortLinks.Valid;
      var f := FocusOn(m, t);
      ExpireOn(rings, f.(s := SortLinks.Drop(f.s, t)), t, t == m.idle, m.cfg);
      m := ScanOne(m);
    }
  }

  /** OsSchedTaskSwitch on the rings. */
  method SwitchOn(rings: PendLists, k: Kernel)
    requires rings.Valid() && rings.q == k.q && Inv(k) && DeadlineFits(k)
    modifies rings, rings.at.All()
    ensures rings.Valid() && rings.q == Enter(Leave(k)).q
  {
    var isIdle := k.run == k.idle;
    assert TaskOk(k, k.run);
    LeaveOk(k);
    EnterOk(Leave(k));
    hide QueuesOk, SortLinks.Valid, Between;
    var f := FocusOn(k, k.run);
    if !f.x.Timed() && !f.x.Blocked() {
      EnQueueOn(rings, f.(x := SliceUpdate(f.x, k.now, isIdle)), k.run, isIdle, k.cfg);
    }
    var l := Leave(k);
    var next := Top(l.q, l.idle);
    var g := FocusOn(l, next);
    DeQueueOn(rings, g.(x := g.x.(running := true, startTime := l.now)), next, next == l.idle);
  }

  /** Every step of the machine on the rings. */
  method StepOn(rings: PendLists, k: Kernel, e: Step)
    requires rings.Valid() && rings.q == k.q && Inv(k) && Enabled(k, e)
    modifies rings, rings.at.All()
    ensures rings.Valid() && rings.q == Next(k, e).q
  {
    hide QueuesOk, SortLinks.Valid, Effect, Scan, Enter, Leave;
    var actor := Target(k.run, e);
    if actor.Some? {
      NextIsEffect(k, e);
      TaskStepOn(rings, k, e, actor.value);
    } else if e.TickInterrupt? {
      if k.tick.owner.None? {
        ScanOn(rings, k);
      }
    } else if e.Switch? {
      SwitchOn(rings, k);
    }
  }

  // ------------------------------------------------------------ in step with the scheduler

  method Copy(sched: Scheduler) returns (k: Kernel)
    ensures k == sched.State()
  {
    k := Kernel(sched.cfg, sched.tasks[..], Queues(sched.links, sched.lists, Bitmaps.Bits(sched.bitmap)),
                SortLinks.SortLink(sched.due, sched.order), sched.idle, sched.run, sched.timers, sched.now, sched.tick);
  }

  /** A step carried out by the scheduler and on the rings: the rings are again the scheduler's lists. */
  method Perform(sched: Scheduler, rings: PendLists, e: Step)
    requires Inv(sched.State()) && Enabled(sched.State(), e) && rings.Valid() && rings.q == sched.Q()
    modifies sched, sched.tasks, rings, rings.at.All()
    ensures Inv(sched.State()) && sched.State() == Next(old(sched.State()), e)
    ensures rings.Valid() && rings.q == sched.Q()
  {
    hide Inv, Enabled, Next, Bitmaps.Bits, PendLists.Valid;
    var k := Copy(sched);
    StepOn(rings, k, e);
    sched.Perform(e);
  }

  method PerformAll(sched: Scheduler, rings: PendLists, es: seq<Step>, ghost r: Kernel)
    requires Inv(sched.State()) && Run(sched.State(), es, r) && rings.Valid() && rings.q == sched.Q()
    modifies sched, sched.tasks, rings, rings.at.All()
    ensures Inv(r) && sched.State() == r && rings.Valid() && rings.q == r.q
  {
    hide Inv, Enabled, Next;
    for i := 0 to |es|
      invariant Inv(sched.State()) && Run(sched.State(), es[i..], r) && rings.Valid() && rings.q == sched.Q()
    {
      assert es[i..][0] == es[i] && es[i..][1..] == es[i + 1..];
      Perform(sched, rings, es[i]);
    }
  }

  function Ids(waits: seq<nat>): (ids: seq<ListId>) {
    seq(PRIORITIES, p requires 0 <= p < PRIORITIES => ReadyQ(p)) + seq(|waits|, i requires 0 <= i < |waits| => WaitQ(waits[i]))
  }

  function WaitSet(waits: seq<nat>): (s: set<nat>) { set w <- waits }

  lemma {:induction false} IdsCover(waits: seq<nat>, l: ListId)
    ensures l in Ids(waits) <==> if l.ReadyQ? then l.p < PRIORITIES else l.w in waits
  {
    var ids := Ids(waits);
    if l.ReadyQ? && l.p < PRIORITIES {
      assert ids[l.p] == l;
    } else if l.WaitQ? && l.w in waits {
      var i :| 0 <= i < |waits| && waits[i] == l.w;
      assert ids[PRIORITIES + i] == l;
    }
  }

  lemma {:induction false} IdsOk(waits: seq<nat>, n: nat)
    requires NoDup(waits)
    ensures NoDup(Ids(waits)) && forall p :: 0 <= p < PRIORITIES ==> ReadyQ(p) in Ids(waits)
    ensures NoMembers(n, Ids(waits)).lists ==
              (map p | 0 <= p < PRIORITIES :: ReadyQ(p) := []) + (map w | w in WaitSet(waits) :: WaitQ(w) := [])
  {
    forall l: ListId ensures l in Ids(waits) <==> if l.ReadyQ? then l.p < PRIORITIES else l.w in waits {
      IdsCover(waits, l);
    }
    assert NoDup(Ids(waits));
    hide Ids, NoDup;
  }

  /** The scheduler and the rings after OsSchedStart. */
  method Start(cfg: Config, n: nat, idle: nat, waits: seq<nat>, now: nat, cap: nat) returns (sched: Scheduler, rings: PendLists)
    requires cfg.Valid() && idle < n && NoDup(waits)
    ensures fresh(sched) && fresh(sched.tasks) && fresh(rings) && fresh(rings.at.All())
    ensures sched.State() == Boot(cfg, n, idle, WaitSet(waits), now, cap) && Inv(sched.State())
    ensures rings.Valid() && rings.q == sched.Q()
  {
    hide Inv, Bitmaps.Bits, NoDup, Ids, PendLists.Valid;
    IdsOk(waits, n);
    sched := new Scheduler(cfg, n, idle, WaitSet(waits), now, cap);
    rings := new PendLists(n, Ids(waits));
  }
}

/** Which steps leave a round as it is: the exact condition, step by step. */
module Turns {
  import opened Lists
  import opened Basics
  import opened TickTimer
  import opened Queues
  import SortLinks
  import opened Sched
  import opened Machine
  import opened Frames
  import opened RoundRobin

  function Level(k: Kernel): (p: nat)
    requires k.run < |k.tasks|
  {
    k.tasks[k.run].priority
  }

  /** The same tasks are in turn, in the same order and at the same priority. */
  ghost predicate Stays(k: Kernel, r: Kernel)
    requires InTurn(k)
  {
    InTurn(r) && Level(r) == Level(k) && Ring(r) == Ring(k)
  }

  /** A task that could only become ready below the round. */
  ghost predicate Below(k: Kernel, t: nat)
    requires k.run < |k.tasks| && t < |k.tasks|
  {
    k.tasks[t].priority > Level(k)
  }

  /** The step blocks nobody in the round, readies nobody at its level or above, and does not move it on. */
  ghost predicate Undisturbed(k: Kernel, e: Step)
    requires InTurn(k) && Enabled(k, e)
  {
    match e
    case WaitOn(_, _) => false
    case DelayFor(_) => false
    case WakeUp(t) => k.tasks[t].suspend || Below(k, t)
    case ResumeTask(t) => k.tasks[t].pend || k.tasks[t].delay || Below(k, t)
    case SuspendTask(t) => t !in Ring(k)
    case ExitTask(t) => t !in Ring(k)
    case ChangePriority(t, q) =>
      if t == k.run then q == Level(k)
      else if t in Mates(k) then q == Level(k) && t == Mates(k)[0]
      else k.tasks[t].ready ==> q > Level(k)
    case TickInterrupt(_, _, _) =>
      k.tick.owner.Some? || forall t: nat | t < |k.tasks| && Due(k, t) && !k.tasks[t].suspend :: Below(k, t)
    case Switch(_) => SliceLeft(k) > k.cfg.sliceMin || Mates(k) == []
    case _ => true
  }

  // ------------------------------------------------------------ who is in the round

  /** The queues down to that of the round say who is in turn. */
  lemma {:induction false} StaysIf(k: Kernel, r: Kernel)
    requires InTurn(k) && Inv(r) && Executing(r) && r.run == k.run && r.idle == k.idle && Level(r) == Level(k)
    requires forall q :: 0 <= q <= Level(k) ==> r.q.lists[ReadyQ(q)] == k.q.lists[ReadyQ(q)]
    requires forall t :: t in Ring(k) ==> t < |r.tasks| && !r.tasks[t].exit
    ensures Stays(k, r)
  {
    forall t: nat | t < |r.tasks| && t != r.idle && r.tasks[t].ready ensures Level(r) <= r.tasks[t].priority {
      assert TaskOk(r, t);
      var q := r.tasks[t].priority;
      assert t in r.q.lists[ReadyQ(q)];
      if q < Level(r) {
        MoreUrgentEmpty(k, q);
      }
    }
  }

  /** Whoever is ready at the level of the round or above it is in the round. */
  lemma {:induction false} ReadyIsIn(k: Kernel, t: nat)
    requires InTurn(k) && t < |k.tasks| && t != k.idle && k.tasks[t].ready
    ensures k.tasks[t].priority == Level(k) <==> t in Mates(k)
    ensures k.tasks[t].priority >= Level(k)
  {
    assert TaskOk(k, t);
    if t in Mates(k) {
      assert k.q.links[t] == LinkedTo(ReadyQ(Level(k)));
    }
  }

  lemma {:induction false} MateIsReady(k: Kernel, t: nat)
    requires InTurn(k) && t in Mates(k)
    ensures t < |k.tasks| && t != k.idle && t != k.run && k.tasks[t].ready && k.tasks[t].priority == Level(k)
    ensures k.q.links[t] == LinkedTo(ReadyQ(Level(k))) && !Due(k, t)
  {
    assert k.q.links[t] == LinkedTo(ReadyQ(Level(k)));
    assert TaskOk(k, t);
  }

  /** A task outside the round is not queued at its level or above. */
  lemma {:induction false} OutsideLink(k: Kernel, t: nat, q: nat)
    requires InTurn(k) && t < |k.tasks| && t !in Ring(k) && q <= Level(k)
    ensures k.q.links[t] != LinkedTo(ReadyQ(q))
  {
    if k.q.links[t] == LinkedTo(ReadyQ(q)) {
      assert t in k.q.lists[ReadyQ(q)];
      if q < Level(k) {
        MoreUrgentEmpty(k, q);
      }
    }
  }

  // ------------------------------------------------------------ steps on one task

  /** A step on a task changes no list that the task is on neither before nor after it. */
  lemma {:induction false} OtherListsStay(k: Kernel, t: nat, e: Step, l: ListId)
    requires Inv(k) && Enabled(k, e) && t < |k.tasks| && Actor(k, e) == Some(t) && t != k.idle && l in k.q.lists
    requires k.q.links[t] != LinkedTo(l) && Effect(k, t, e).q.links[t] != LinkedTo(l)
    ensures l in Effect(k, t, e).q.lists && Effect(k, t, e).q.lists[l] == k.q.lists[l]
  {
    hide QueuesOk, SortLinks.Valid, Wake, Exit, SetPriority;
    assert TaskOk(k, t);
    var f := FocusOn(k, t);
    match e
    case WakeUp(_) => WakeLists(f, t, k.cfg, l);
    case ExitTask(_) => ExitLists(f, t, l);
    case ChangePriority(_, p) => PriorityLists(f, t, p, k.cfg, l);
    case _ =>
  }

  lemma {:induction false} WakeLists(f: Focus, t: nat, cfg: Config, l: ListId)
    requires Waiting(f, t) && !f.x.ready && l in f.q.lists && f.q.links[t] != LinkedTo(l)
    requires Wake(f, t, false, cfg).q.links[t] != LinkedTo(l)
    ensures l in Wake(f, t, false, cfg).q.lists && Wake(f, t, false, cfg).q.lists[l] == f.q.lists[l]
  {
    hide QueuesOk, SortLinks.Valid;
  }

  lemma {:induction false} ExitLists(f: Focus, t: nat, l: ListId)
    requires Queued(f, t, false) && (f.x.pend ==> Waiting(f, t)) && l in f.q.lists && f.q.links[t] != LinkedTo(l)
    ensures l in Exit(f, t, false).q.lists && Exit(f, t, false).q.lists[l] == f.q.lists[l]
  {
    hide QueuesOk, SortLinks.Valid;
  }

  lemma {:induction false} PriorityLists(f: Focus, t: nat, p: nat, cfg: Config, l: ListId)
    requires Queued(f, t, false) && p < PRIORITIES && l in f.q.lists && f.q.links[t] != LinkedTo(l)
    requires SetPriority(f, t, p, false, cfg).q.links[t] != LinkedTo(l)
    ensures l in SetPriority(f, t, p, false, cfg).q.lists && SetPriority(f, t, p, false, cfg).q.lists[l] == f.q.lists[l]
  {
    hide QueuesOk, SortLinks.Valid;
  }

  /** Which steps leave their task ready, and at which priority. */
  lemma {:induction false} ReadyAfter(k: Kernel, t: nat, e: Step)
    requires Inv(k) && Enabled(k, e) && t < |k.tasks| && Actor(k, e) == Some(t) && t != k.idle
    ensures var x := k.tasks[t]; var y := Effect(k, t, e).x;
      && (y.ready <==>
            match e
            case WakeUp(_) => !x.suspend && !x.running
            case ResumeTask(_) => !x.pend && !x.delay
            case ChangePriority(_, _) => x.ready
            case _ => false)
      && y.priority == if e.ChangePriority? || e.Create? then e.p else x.priority
  {
    hide QueuesOk, SortLinks.Valid;
    assert TaskOk(k, t);
  }

  lemma {:induction false} NotIdle(k: Kernel, e: Step)
    requires InTurn(k) && Enabled(k, e) && Actor(k, e).Some?
    ensures Actor(k, e).value < |k.tasks| && Actor(k, e).value != k.idle
  {
    hide QueuesOk, SortLinks.Valid;
    assert TaskOk(k, k.idle);
  }

  lemma {:induction false} OutsiderLists(k: Kernel, e: Step, t: nat, q: nat)
    requires InTurn(k) && Enabled(k, e) && Actor(k, e) == Some(t) && t < |k.tasks| && t != k.idle && t !in Ring(k)
    requires Effect(k, t, e).x.ready ==> Effect(k, t, e).x.priority > Level(k)
    requires q <= Level(k)
    ensures Next(k, e).q.lists[ReadyQ(q)] == k.q.lists[ReadyQ(q)]
  {
    hide Membership, SortLinks.Valid, Effect, Next;
    NextIsEffect(k, e);
    OutsideLink(k, t, q);
    EffectAgrees(k, t, e);
    OtherListsStay(k, t, e, ReadyQ(q));
  }

  /** A step on a task outside the round that does not ready it at the level of the round or above. */
  lemma {:induction false} OutsiderStays(k: Kernel, e: Step, t: nat)
    requires InTurn(k) && Enabled(k, e) && Actor(k, e) == Some(t) && t < |k.tasks| && t != k.idle && t !in Ring(k)
    requires Effect(k, t, e).x.ready ==> Effect(k, t, e).x.priority > Level(k)
    ensures Stays(k, Next(k, e))
  {
    hide Membership, SortLinks.Valid, Effect, Next;
    NextKeeps(k, e);
    NextIsEffect(k, e);
    forall q: nat | q <= Level(k) ensures Next(k, e).q.lists[ReadyQ(q)] == k.q.lists[ReadyQ(q)] {
      OutsiderLists(k, e, t, q);
    }
    StaysIf(k, Next(k, e));
  }

  /** The running task's own steps that neither block it nor change its priority. */
  lemma {:induction false} RunnerStays(k: Kernel, e: Step)
    requires InTurn(k) && Enabled(k, e)
    requires e.Yield? || e.Return? || e.SetEvent? || e == ChangePriority(k.run, Level(k))
    ensures Stays(k, Next(k, e))
  {
    hide QueuesOk, SortLinks.Valid;
    NextKeeps(k, e);
    assert TaskOk(k, k.run);
    StaysIf(k, Next(k, e));
  }

  /** Setting a queued task's priority to what it is puts it at the head of its queue. */
  lemma {:induction false} Requeued(k: Kernel, t: nat)
    requires InTurn(k) && t in Mates(k)
    ensures Enabled(k, ChangePriority(t, Level(k)))
    ensures var r := Next(k, ChangePriority(t, Level(k)));
      && r.q.lists == k.q.lists[ReadyQ(Level(k)) := [t] + Without(Mates(k), t)]
      && r.run == k.run && r.idle == k.idle && |r.tasks| == |k.tasks|
      && (forall u :: 0 <= u < |k.tasks| && u != t ==> r.tasks[u] == k.tasks[u])
      && r.tasks[t].exit == k.tasks[t].exit
  {
    hide SortLinks.Valid;
    MateIsReady(k, t);
    assert TaskOk(k, t);
  }

  lemma {:induction false} RequeuedStays(k: Kernel, t: nat)
    requires InTurn(k) && t in Mates(k)
    ensures Enabled(k, ChangePriority(t, Level(k)))
    ensures Stays(k, Next(k, ChangePriority(t, Level(k)))) <==> t == Mates(k)[0]
  {
    hide QueuesOk, SortLinks.Valid, Next;
    Requeued(k, t);
    var e := ChangePriority(t, Level(k));
    NextKeeps(k, e);
    MateIsReady(k, t);
    if t == Mates(k)[0] {
      assert [t] + Without(Mates(k), t) == Mates(k);
      StaysIf(k, Next(k, e));
    } else {
      assert Mates(Next(k, e))[0] == t;
      assert Ring(Next(k, e))[1] == t && Ring(k)[1] == Mates(k)[0];
    }
  }

  // ------------------------------------------------------------ steps that disturb

  /** Somebody outside the round who is ready at its level or above, or somebody in it who is not ready. */
  lemma {:induction false} Disturbs(k: Kernel, r: Kernel, t: nat)
    requires InTurn(k) && r.run == k.run && r.idle == k.idle && t < |r.tasks| && t != k.run && t != k.idle
    requires if t in Ring(k) then !r.tasks[t].ready || r.tasks[t].priority != Level(k)
             else r.tasks[t].ready && r.tasks[t].priority <= Level(k)
    ensures !Stays(k, r)
  {
    hide QueuesOk, SortLinks.Valid, InTurn;
    if Stays(k, r) {
      if t in Ring(k) {
        assert t in Mates(r);
        MateIsReady(r, t);
      } else {
        ReadyIsIn(r, t);
      }
    }
  }

  /** Steps on a task other than the running one. */
  lemma {:induction false} OtherTask(k: Kernel, e: Step, t: nat)
    requires InTurn(k) && Enabled(k, e) && Actor(k, e) == Some(t) && t != k.run
    ensures Stays(k, Next(k, e)) <==> Undisturbed(k, e)
  {
    hide QueuesOk, SortLinks.Valid, Effect, Next;
    NotIdle(k, e);
    ReadyAfter(k, t, e);
    NextIsEffect(k, e);
    assert TaskOk(k, t);
    if t in Ring(k) {
      MateIsReady(k, t);
      if e == ChangePriority(t, Level(k)) {
        RequeuedStays(k, t);
      } else {
        Disturbs(k, Next(k, e), t);
      }
    } else if Undisturbed(k, e) {
      OutsiderStays(k, e, t);
    } else {
      Disturbs(k, Next(k, e), t);
    }
  }

  /** Steps on the running task. */
  lemma {:induction false} OwnStep(k: Kernel, e: Step)
    requires InTurn(k) && Enabled(k, e) && Actor(k, e) == Some(k.run)
    ensures Stays(k, Next(k, e)) <==> Undisturbed(k, e)
  {
    if Undisturbed(k, e) {
      RunnerStays(k, e);
    } else {
      hide QueuesOk, SortLinks.Valid;
      assert TaskOk(k, k.run);
    }
  }

  // ------------------------------------------------------------ ticks and switches

  lemma {:induction false} ScanOneQueue(k: Kernel, q: nat)
    requires Inv(k) && k.s.order != [] && q < PRIORITIES
    requires var t := k.s.order[0]; t < |k.tasks| ==> k.tasks[t].suspend || k.tasks[t].priority != q
    ensures ScanOne(k).q.lists[ReadyQ(q)] == k.q.lists[ReadyQ(q)]
  {
    var t := k.s.order[0];
    assert t in k.s.order;
    assert TaskOk(k, t);
    hide Membership, SortLinks.Valid;
  }

  /** A scan changes no ready queue at whose priority no due task becomes ready. */
  lemma {:induction false} ScanQueue(k: Kernel, q: nat)
    requires Inv(k) && q < PRIORITIES
    requires forall t: nat | t < |k.tasks| && Due(k, t) && !k.tasks[t].suspend :: k.tasks[t].priority != q
    ensures Scan(k).q.lists[ReadyQ(q)] == k.q.lists[ReadyQ(q)]
    decreases |k.s.order|
  {
    if k.s.order != [] && SortLinks.DueOf(k.s.due, k.s.order[0]) <= k.now {
      var h := k.s.order[0];
      assert h in k.s.order;
      assert Due(k, h);
      ScanOneQueue(k, q);
      ScanOneKeeps(k);
      ScanOneEffect(k);
      var m := ScanOne(k);
      hide QueuesOk, SortLinks.Valid, ScanOne;
      forall t: nat | t < |m.tasks| && Due(m, t) && !m.tasks[t].suspend ensures m.tasks[t].priority != q {
        if t != h {
          assert SameTask(k, m, t);
        }
      }
      ScanQueue(m, q);
    }
  }

  /** Nobody in the round waits for a deadline. */
  lemma {:induction false} RingNotDue(k: Kernel, t: nat)
    requires InTurn(k) && t in Ring(k)
    ensures t < |k.tasks| && !Due(k, t)
  {
    if t != k.run {
      assert t in Mates(k);
      MateIsReady(k, t);
    } else {
      assert TaskOk(k, t);
    }
  }

  /** A tick that ends no wait of a task at the level of the round or above. */
  lemma {:induction false} TickStays(k: Kernel, e: Step)
    requires InTurn(k) && e.TickInterrupt? && Enabled(k, e) && Undisturbed(k, e)
    ensures Stays(k, Next(k, e))
  {
    var r := HandleTick(k, e.locked, e.timers, e.cap);
    TickKeeps(k, e.locked, e.timers, e.cap);
    hide HandleTick, Membership, SortLinks.Valid, MostUrgent;
    forall q: nat | q <= Level(k) ensures r.q.lists[ReadyQ(q)] == k.q.lists[ReadyQ(q)] {
      TickQueue(k, e, q);
    }
    forall t | t in Ring(k) ensures t < |k.tasks| && Quiet(k.tasks[t], r.tasks[t]) {
      RingNotDue(k, t);
      TickTask(k, e.locked, e.timers, e.cap, t);
    }
    assert k.run in Ring(k);
    StaysIf(k, r);
  }

  lemma {:induction false} TickQueue(k: Kernel, e: Step, q: nat)
    requires Inv(k) && e.TickInterrupt? && q < PRIORITIES
    requires k.tick.owner.Some? || forall t: nat | t < |k.tasks| && Due(k, t) && !k.tasks[t].suspend :: k.tasks[t].priority != q
    ensures HandleTick(k, e.locked, e.timers, e.cap).q.lists[ReadyQ(q)] == k.q.lists[ReadyQ(q)]
  {
    hide Inv, HandleTick, Scan, Due, SameWaits;
    TickFrame(k, e.locked, e.timers, e.cap);
    if k.tick.owner.None? {
      ScanQueue(k, q);
    }
  }

  /** A task whose wait a tick ends is ready unless suspended. */
  lemma {:induction false} TickReadies(k: Kernel, e: Step, t: nat)
    requires Inv(k) && e.TickInterrupt? && Enabled(k, e) && k.tick.owner.None?
    requires t < |k.tasks| && Due(k, t) && !k.tasks[t].suspend
    ensures var r := HandleTick(k, e.locked, e.timers, e.cap);
      t != k.idle && t != k.run && t < |r.tasks| && r.tasks[t].ready && r.tasks[t].priority == k.tasks[t].priority
  {
    var r := HandleTick(k, e.locked, e.timers, e.cap);
    TickKeeps(k, e.locked, e.timers, e.cap);
    hide HandleTick, QueuesOk, SortLinks.Valid;
    TickTask(k, e.locked, e.timers, e.cap, t);
    assert TaskOk(k, t);
    assert TaskOk(r, t);
  }

  lemma {:induction false} TickDisturbs(k: Kernel, e: Step, t: nat)
    requires InTurn(k) && e.TickInterrupt? && Enabled(k, e) && k.tick.owner.None?
    requires t < |k.tasks| && Due(k, t) && !k.tasks[t].suspend && !Below(k, t)
    ensures !Stays(k, Next(k, e))
  {
    hide HandleTick, QueuesOk, SortLinks.Valid;
    TickReadies(k, e, t);
    if t in Ring(k) {
      RingNotDue(k, t);
    }
    Disturbs(k, HandleTick(k, e.locked, e.timers, e.cap), t);
  }

  lemma {:induction false} RotatedStays(k: Kernel, cap: nat)
    requires InTurn(k) && SliceLeft(k) <= k.cfg.sliceMin
    ensures DeadlineFits(k) && (Stays(k, SwitchTask(k, cap)) <==> Mates(k) == [])
  {
    hide SwitchTask, Inv, Executing, MostUrgent, SliceLeft;
    TurnRotates(k, cap);
    RingNoDup(k);
    var r := SwitchTask(k, cap);
    assert Ring(k)[1..] == Mates(k);
    if Mates(k) == [] {
      assert r.run == k.run;
      SwitchFrame(k, cap);
    } else {
      assert Ring(r)[0] == Ring(k)[1];
    }
  }

  lemma {:induction false} KeptStays(k: Kernel, cap: nat)
    requires InTurn(k) && SliceLeft(k) > k.cfg.sliceMin
    ensures DeadlineFits(k) && Stays(k, SwitchTask(k, cap))
  {
    hide SwitchTask, QueuesOk, SortLinks.Valid;
    KeepsRunning(k, cap);
    NextKeeps(k, Switch(cap));
    SwitchFrame(k, cap);
    StaysIf(k, SwitchTask(k, cap));
  }

  /** A step leaves the round as it is if and only if it is undisturbed. */
  lemma {:induction false} StaysExactly(k: Kernel, e: Step)
    requires InTurn(k) && Enabled(k, e)
    ensures Stays(k, Next(k, e)) <==> Undisturbed(k, e)
  {
    if Actor(k, e) == Some(k.run) {
      OwnStep(k, e);
    } else if Actor(k, e).Some? {
      OtherTask(k, e, Actor(k, e).value);
    } else if e.TickInterrupt? {
      if Undisturbed(k, e) {
        TickStays(k, e);
      } else {
        var t: nat :| t < |k.tasks| && Due(k, t) && !k.tasks[t].suspend && !Below(k, t);
        TickDisturbs(k, e, t);
      }
    } else if e.Switch? {
      if SliceLeft(k) > k.cfg.sliceMin {
        KeptStays(k, e.cap);
      } else {
        RotatedStays(k, e.cap);
      }
    } else {
      QuietStays(k, e);
    }
  }

  /** Time and software timers. */
  lemma {:induction false} QuietStays(k: Kernel, e: Step)
    requires InTurn(k) && Enabled(k, e) && (e.Elapse? || e.TimerStart? || e.TimerStop?)
    ensures Stays(k, Next(k, e))
  {
    NextKeeps(k, e);
    hide QueuesOk, SortLinks.Valid, UpdateExpire;
    StaysIf(k, Next(k, e));
  }

  // ------------------------------------------------------------ runs between two switches

  /** A run of undisturbed steps, among them switches with slice left. */
  ghost predicate Calm(k: Kernel, es: seq<Step>, m: Kernel)
    requires InTurn(k)
    decreases |es|
  {
    if es == [] then m == k
    else
      && Enabled(k, es[0]) && Undisturbed(k, es[0])
      && (StaysExactly(k, es[0]); Calm(Next(k, es[0]), es[1..], m))
  }

  lemma {:induction false} CalmStays(k: Kernel, es: seq<Step>, m: Kernel)
    requires InTurn(k) && Calm(k, es, m)
    ensures Run(k, es, m) && Stays(k, m)
    decreases |es|
  {
    hide Inv, MostUrgent, Executing, Enabled, Undisturbed, Next, Ring;
    if es != [] {
      NextKeeps(k, es[0]);
      StaysExactly(k, es[0]);
      CalmStays(Next(k, es[0]), es[1..], m);
    }
  }

  /** Such a run that uses up the slice is one leg of a round. */
  lemma {:induction false} CalmUse(k: Kernel, es: seq<Step>, m: Kernel)
    requires InTurn(k) && Calm(k, es, m)
    ensures InTurn(m) && (SliceLeft(m) <= m.cfg.sliceMin ==> Use(k, es, m))
  {
    hide Run, Calm;
    CalmStays(k, es, m);
  }
}

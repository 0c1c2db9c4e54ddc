/** What the scheduler's invariant means in the terms of its lists and status bits. */
module Guarantees {
  import opened Lists
  import opened TickTimer
  import opened Queues
  import SortLinks
  import opened Sched
  import opened Machine

  /** A `pendList` node is on at most one list, and once. */
  ghost predicate OneListEach(k: Kernel) {
    && (forall l, l2, t :: l in k.q.lists && l2 in k.q.lists && t in k.q.lists[l] && t in k.q.lists[l2] ==> l == l2)
    && (forall l :: l in k.q.lists ==> NoDup(k.q.lists[l]))
  }

  /** The status bits of a task say where its two nodes are. */
  ghost predicate BitsTell(k: Kernel, t: nat)
    requires t < |k.tasks|
  {
    var x := k.tasks[t];
    && (t != k.idle ==> (x.ready <==> ReadyQ(x.priority) in k.q.lists && t in k.q.lists[ReadyQ(x.priority)]))
    && (x.pend <==> exists w :: WaitQ(w) in k.q.lists && t in k.q.lists[WaitQ(w)])
    && (!x.running ==> (t in k.s.order <==> x.delay || x.pendTime))
    && (x.running <==> t == k.run)
    && (x.ready ==> !x.running)
  }

  /** A bit of the bitmap is set exactly when its queue is non-empty. */
  ghost predicate BitmapTells(k: Kernel) {
    forall p :: 0 <= p < PRIORITIES ==> ReadyQ(p) in k.q.lists && (p in k.q.bitmap <==> k.q.lists[ReadyQ(p)] != [])
  }

  ghost predicate Guaranteed(k: Kernel) {
    && OneListEach(k) && BitmapTells(k) && SortLinks.Ordered(k.s.due, k.s.order)
    && (forall t :: 0 <= t < |k.tasks| ==> BitsTell(k, t))
  }

  lemma {:induction false} InvBits(k: Kernel, t: nat)
    requires Inv(k) && t < |k.tasks|
    ensures BitsTell(k, t)
  {
    assert TaskOk(k, t);
    var x := k.tasks[t];
    if x.pend {
      assert WaitQ(k.q.links[t].l.w) in k.q.lists && t in k.q.lists[WaitQ(k.q.links[t].l.w)];
    }
  }

  lemma {:induction false} InvGuarantees(k: Kernel)
    requires Inv(k)
    ensures Guaranteed(k)
  {
    forall t: nat | t < |k.tasks| ensures BitsTell(k, t) {
      InvBits(k, t);
    }
    hide BitsTell, TaskOk;
  }

  /** In every state that a run of waits, wakes, timeouts, delays, suspensions, resumptions, priority
      changes, exits and switches reaches, nodes, status bits and bitmap agree. */
  lemma {:induction false} Reachable(cfg: Config, n: nat, idle: nat, waits: set<nat>, now: nat, cap: nat, es: seq<Step>, k: Kernel)
    requires cfg.Valid() && idle < n
    ensures Inv(Boot(cfg, n, idle, waits, now, cap))
    ensures Run(Boot(cfg, n, idle, waits, now, cap), es, k) ==> Guaranteed(k)
  {
    hide Guaranteed, Inv, Boot;
    Safety(cfg, n, idle, waits, now, cap, es, k);
    if Run(Boot(cfg, n, idle, waits, now, cap), es, k) {
      InvGuarantees(k);
    }
  }

  /** OsSchedResume of a suspended task keeps the invariant exactly if the task has left the processor
      or also waits or is delayed: else a running task would join a ready queue. */
  lemma {:induction false} ResumeExact(k: Kernel, t: nat)
    requires Inv(k) && Created(k, t) && k.tasks[t].suspend
    ensures var f := FocusOn(k, t);
      && FocusOk(f, t) && !f.x.ready && (!f.x.delay && !f.x.pend ==> f.q.links[t].Unlinked?)
      && (Inv(Apply(k, t, Resume(f, t, false, k.cfg))) <==> (k.tasks[t].running ==> k.tasks[t].pend || k.tasks[t].delay))
  {
    hide QueuesOk, SortLinks.Valid;
    assert TaskOk(k, t);
    var g := Resume(FocusOn(k, t), t, false, k.cfg);
    if k.tasks[t].running && !k.tasks[t].pend && !k.tasks[t].delay {
      assert g.x.ready && g.x.running;
      assert !TaskOk(Apply(k, t, g), t);
    } else {
      EffectKeeps(k, t, ResumeTask(t));
    }
  }

  /** Such a task: it suspended itself and was resumed before the switch. */
  lemma {:induction false} ResumedTooEarly(k: Kernel)
    requires Inv(k) && Executing(k)
    ensures var s := Next(k, SuspendTask(k.run));
      && Inv(s) && Created(s, k.run) && s.tasks[k.run].suspend && s.tasks[k.run].running
      && !s.tasks[k.run].pend && !s.tasks[k.run].delay
  {
    hide QueuesOk, SortLinks.Valid;
    assert TaskOk(k, k.run);
    NextKeeps(k, SuspendTask(k.run));
  }
}

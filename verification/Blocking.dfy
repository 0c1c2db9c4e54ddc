/** What the blocking primitives share: calls that block on wait lists of their own while every
    other scheduler step may happen in between. */
module Blocking {
  import opened Lists
  import opened Basics
  import opened Queues
  import SortLinks
  import opened Sched
  import opened Machine
  import opened Frames

  /** The tasks inside a blocking call of some object whose wait has ended but which have not run
      since: `granted` were woken by the object, `expired` timed out. `ticket` numbers the tasks in
      the order in which they blocked. */
  datatype Calls = Calls(granted: set<nat>, expired: set<nat>, ticket: seq<nat>, clock: nat)

  /** The tasks waiting on list `w`, in arrival order. */
  function Waiters(k: Kernel, w: nat): (s: seq<nat>) {
    if WaitQ(w) in k.q.lists then k.q.lists[WaitQ(w)] else []
  }

  /** `t` waits on one of the lists `own`. */
  ghost predicate OnOwn(k: Kernel, own: set<nat>, t: nat) {
    t < |k.q.links| && k.q.links[t].LinkedTo? && k.q.links[t].l.WaitQ? && k.q.links[t].l.w in own
  }

  ghost predicate InCall(c: Calls, t: nat) {
    t in c.granted || t in c.expired
  }

  ghost predicate LiveTask(k: Kernel, t: nat) {
    t < |k.tasks| && t != k.idle && !k.tasks[t].unused && !k.tasks[t].exit && !k.tasks[t].pend
  }

  /** The waiters of one list, longest waiting first. */
  ghost predicate InOrder(k: Kernel, w: nat, c: Calls) {
    && WaitQ(w) in k.q.lists && Increasing(k.q.lists[WaitQ(w)], c.ticket)
    && forall t :: t in k.q.lists[WaitQ(w)] && t < |c.ticket| ==> c.ticket[t] < c.clock
  }

  ghost predicate CallsOk(k: Kernel, own: set<nat>, c: Calls) {
    && Inv(k) && |c.ticket| == |k.tasks| && c.granted !! c.expired
    && (forall t :: t in c.granted ==> LiveTask(k, t) && !k.tasks[t].timeout)
    && (forall t :: t in c.expired ==> LiveTask(k, t) && k.tasks[t].timeout)
    && (forall w :: w in own ==> InOrder(k, w, c))
  }

  // ------------------------------------------------------------ steps of others

  /** A step of the rest of the system: it neither blocks on nor wakes from the lists `own`, and a
      task inside a call runs no code of its own. */
  ghost predicate Foreign(k: Kernel, own: set<nat>, c: Calls, e: Step) {
    && Enabled(k, e)
    && (e.WaitOn? ==> e.w !in own)
    && (e.WakeUp? ==> !OnOwn(k, own, e.t))
    && (e.WaitOn? || e.DelayFor? || e.Yield? || e.Return? || e.SetEvent? ==> !InCall(c, k.run))
  }

  /** The waits on the lists `own` that a step ends by timeout. */
  ghost function ExpiredBy(k: Kernel, own: set<nat>, e: Step): (s: set<nat>) {
    if e.TickInterrupt? && k.tick.owner.None? then
      set t: nat | t < |k.tasks| && OnOwn(k, own, t) && Due(k, t)
    else {}
  }

  /** The task a step deletes. */
  ghost function DeletedBy(e: Step): (s: set<nat>) { if e.ExitTask? then {e.t} else {} }

  ghost function AfterForeign(k: Kernel, own: set<nat>, c: Calls, e: Step): (r: Calls)
    ensures r == c.(granted := c.granted - DeletedBy(e), expired := r.expired)
  {
    c.(granted := c.granted - DeletedBy(e), expired := c.expired + ExpiredBy(k, own, e) - DeletedBy(e))
  }

  /** The step deletes one of the tasks `a`. */
  ghost predicate DeletesOne(a: set<nat>, e: Step) { e.ExitTask? && e.t in a }

  lemma {:induction false} OneLess(a: set<nat>, e: Step)
    ensures |a - DeletedBy(e)| == |a| - (if DeletesOne(a, e) then 1 else 0)
  {
    if !DeletesOne(a, e) {
      assert a - DeletedBy(e) == a;
    }
  }

  /** A task inside a call can be deleted. */
  lemma {:induction false} CanDelete(k: Kernel, own: set<nat>, c: Calls, t: nat)
    requires CallsOk(k, own, c) && InCall(c, t)
    ensures Foreign(k, own, c, ExitTask(t))
  {
    hide Inv;
    assert LiveTask(k, t);
  }

  /** What a step on one task does to the wait lists. */
  lemma {:induction false} EffectQueues(k: Kernel, t: nat, e: Step)
    requires Inv(k) && Enabled(k, e) && t < |k.tasks| && Actor(k, e) == Some(t)
    ensures var g := Effect(k, t, e);
      if e.WaitOn? then k.q.links[t].Unlinked? && g.q == TailInsert(k.q, t, e.w)
      else if e.WakeUp? || (e.ExitTask? && k.tasks[t].pend)
        then k.q.links[t].LinkedTo? && k.q.links[t].l.WaitQ? && SameWaitLists(Delete(k.q, t), g.q)
      else SameWaitLists(k.q, g.q)
  {
    hide QueuesOk, SortLinks.Valid, Suspend, Resume, SetPriority, Wake, Depart, DeleteSortLink;
    assert TaskOk(k, t);
  }

  /** Steps that act on one task leave the own lists alone, or take one ended task out of them. */
  lemma {:induction false} EffectLists(k: Kernel, own: set<nat>, c: Calls, e: Step, w: nat)
    requires CallsOk(k, own, c) && Foreign(k, own, c, e) && Actor(k, e).Some? && w in own
    ensures WaitQ(w) in k.q.lists && WaitQ(w) in Next(k, e).q.lists
    ensures var s := k.q.lists[WaitQ(w)];
      Next(k, e).q.lists[WaitQ(w)] == if e.ExitTask? then Without(s, e.t) else s
  {
    hide SortLinks.Valid, BitmapOk, Effect, Next;
    var t := Actor(k, e).value;
    assert InOrder(k, w, c);
    assert TaskOk(k, t);
    NextIsEffect(k, e);
    EffectQueues(k, t, e);
    assert k.q.links[t] != LinkedTo(WaitQ(w)) ==> t !in k.q.lists[WaitQ(w)];
  }

  /** Steps of others never put a task on an own list and keep the order of those that stay. */
  lemma {:induction false} ForeignLists(k: Kernel, own: set<nat>, c: Calls, e: Step, w: nat)
    requires CallsOk(k, own, c) && Foreign(k, own, c, e) && w in own
    ensures WaitQ(w) in k.q.lists && WaitQ(w) in Next(k, e).q.lists
    ensures forall t :: t in Next(k, e).q.lists[WaitQ(w)] ==> t in k.q.lists[WaitQ(w)]
    ensures Increasing(Next(k, e).q.lists[WaitQ(w)], c.ticket)
  {
    hide QueuesOk, SortLinks.Valid, Effect, HandleTick, SwitchTask, UpdateExpire;
    assert InOrder(k, w, c);
    if e.TickInterrupt? {
      TickFrame(k, e.locked, e.timers, e.cap);
      ScanLists(k, w, c.ticket);
    } else if e.Switch? {
      SwitchFrame(k, e.cap);
    } else if Actor(k, e).Some? {
      EffectLists(k, own, c, e, w);
      if e.ExitTask? {
        WithoutKeepsOrder(k.q.lists[WaitQ(w)], e.t, c.ticket);
      }
    }
  }

  /** A task inside a call: steps of others do not touch its wait. */
  lemma {:induction false} ForeignInCall(k: Kernel, own: set<nat>, c: Calls, e: Step, t: nat)
    requires CallsOk(k, own, c) && Foreign(k, own, c, e) && InCall(c, t) && e != ExitTask(t)
    ensures t < |k.tasks| && t < |Next(k, e).tasks|
    ensures var x := k.tasks[t]; var y := Next(k, e).tasks[t];
      && y.pend == x.pend && y.timeout == x.timeout && y.exit == x.exit && y.unused == x.unused
      && y.eventMask == x.eventMask && y.eventMode == x.eventMode
  {
    hide QueuesOk, SortLinks.Valid, Effect, HandleTick, SwitchTask, Next;
    assert LiveTask(k, t);
    assert TaskOk(k, t);
    StepTask(k, e, t);
    if e.TickInterrupt? {
      TickTask(k, e.locked, e.timers, e.cap, t);
    } else if e.Switch? {
      SwitchFrame(k, e.cap);
    } else if Actor(k, e) == Some(t) {
      EffectBits(k, t, e);
    }
  }

  /** What becomes of a waiter of an own list: it keeps waiting, times out, or is deleted. */
  ghost predicate WaiterAfter(x: Task, y: Task, exits: bool, expires: bool) {
    && y.unused == x.unused && y.eventMask == x.eventMask && y.eventMode == x.eventMode
    && (!exits ==> y.exit == x.exit)
    && (expires ==> !y.pend && y.timeout)
    && (!expires && !exits ==> y.pend && !y.timeout)
  }

  lemma {:induction false} ActorWaiter(k: Kernel, own: set<nat>, c: Calls, e: Step, t: nat)
    requires CallsOk(k, own, c) && Foreign(k, own, c, e) && OnOwn(k, own, t) && Actor(k, e).Some?
    ensures t < |k.tasks| && t < |Next(k, e).tasks|
    ensures WaiterAfter(k.tasks[t], Next(k, e).tasks[t], e == ExitTask(t), false)
  {
    hide Inv, Effect, Next;
    WaiterStatus(k, own, t);
    NextIsEffect(k, e);
    if Actor(k, e).value == t {
      EffectBits(k, t, e);
    } else {
      EffectOthers(k, e, t);
    }
  }

  lemma {:induction false} ForeignWaiter(k: Kernel, own: set<nat>, c: Calls, e: Step, t: nat)
    requires CallsOk(k, own, c) && Foreign(k, own, c, e) && OnOwn(k, own, t)
    ensures t < |k.tasks| && t < |Next(k, e).tasks|
    ensures WaiterAfter(k.tasks[t], Next(k, e).tasks[t], e == ExitTask(t), t in ExpiredBy(k, own, e))
  {
    hide Inv, Effect, HandleTick, SwitchTask, UpdateExpire, OnOwn;
    WaiterStatus(k, own, t);
    if e.TickInterrupt? {
      TickTask(k, e.locked, e.timers, e.cap, t);
    } else if e.Switch? {
      SwitchFrame(k, e.cap);
    } else if Actor(k, e).Some? {
      ActorWaiter(k, own, c, e, t);
    }
  }

  lemma {:induction false} WaiterStatus(k: Kernel, own: set<nat>, t: nat)
    requires Inv(k) && OnOwn(k, own, t)
    ensures t < |k.tasks| && k.tasks[t].pend && !k.tasks[t].timeout && !k.tasks[t].unused && !k.tasks[t].exit
  {
    assert TaskOk(k, t);
  }

  /** Steps of others keep the account of the calls. */
  lemma {:induction false} ForeignKeeps(k: Kernel, own: set<nat>, c: Calls, e: Step)
    requires CallsOk(k, own, c) && Foreign(k, own, c, e)
    ensures CallsOk(Next(k, e), own, AfterForeign(k, own, c, e))
  {
    hide QueuesOk, SortLinks.Valid, Effect, HandleTick, SwitchTask, UpdateExpire, Next;
    var r := Next(k, e);
    var c' := AfterForeign(k, own, c, e);
    NextKeeps(k, e);
    assert |r.tasks| == |k.tasks| && r.idle == k.idle by { NextSize(k, e); }
    forall t: nat | InCall(c, t) && e != ExitTask(t) ensures LiveTask(r, t) && r.tasks[t].timeout == k.tasks[t].timeout {
      ForeignInCall(k, own, c, e, t);
    }
    forall t | t in ExpiredBy(k, own, e) ensures LiveTask(r, t) && r.tasks[t].timeout && t !in c.granted {
      ForeignWaiter(k, own, c, e, t);
      assert TaskOk(k, t);
    }
    forall w | w in own ensures InOrder(r, w, c') {
      assert InOrder(k, w, c);
      ForeignLists(k, own, c, e, w);
    }
  }

  // ------------------------------------------------------------ the three ways a call goes on

  /** The running task may start a blocking call. */
  ghost predicate CanBlock(k: Kernel, c: Calls) {
    Executing(k) && !k.tasks[k.run].timeout && !InCall(c, k.run)
  }

  /** The running task continues a call that blocked. */
  ghost predicate CanFinish(k: Kernel, c: Calls) {
    Executing(k) && InCall(c, k.run)
  }

  ghost function Blocked(k: Kernel, c: Calls): (r: Calls)
    requires k.run < |c.ticket|
  {
    c.(ticket := c.ticket[k.run := c.clock], clock := c.clock + 1)
  }

  ghost function Granted(c: Calls, t: nat): (r: Calls) {
    c.(granted := c.granted + {t})
  }

  ghost function Finished(k: Kernel, c: Calls): (r: Calls) {
    c.(granted := c.granted - {k.run}, expired := c.expired - {k.run})
  }

  /** Only the wait list `w` changed, to `s`. */
  ghost predicate OneList(k: Kernel, r: Kernel, w: nat, s: seq<nat>) {
    && WaitQ(w) in r.q.lists && r.q.lists[WaitQ(w)] == s
    && (forall v :: WaitQ(v) in k.q.lists <==> WaitQ(v) in r.q.lists)
    && (forall v :: v != w && WaitQ(v) in k.q.lists ==> r.q.lists[WaitQ(v)] == k.q.lists[WaitQ(v)])
  }

  /** Blocking puts the running task last on the list. */
  lemma {:induction false} BlockKeeps(k: Kernel, own: set<nat>, c: Calls, w: nat, ticks: nat)
    requires CallsOk(k, own, c) && CanBlock(k, c) && w in own
    ensures InOrder(k, w, c) && Enabled(k, WaitOn(w, ticks)) && k.run < |c.ticket|
    ensures var r := Next(k, WaitOn(w, ticks));
      && CallsOk(r, own, Blocked(k, c)) && OneList(k, r, w, k.q.lists[WaitQ(w)] + [k.run])
      && OnOwn(r, own, k.run) && r.run == k.run && r.tasks[k.run].priority == k.tasks[k.run].priority
  {
    hide QueuesOk, SortLinks.Valid, Next, Effect;
    assert InOrder(k, w, c);
    var e := WaitOn(w, ticks);
    var r := Next(k, e);
    NextKeeps(k, e);
    NextIsEffect(k, e);
    EffectQueues(k, k.run, e);
    EffectBits(k, k.run, e);
    assert TaskOk(k, k.run);
    RunNotWaiting(k);
    forall v | v in own ensures InOrder(r, v, Blocked(k, c)) {
      assert InOrder(k, v, c);
    }
    forall t: nat | InCall(c, t) ensures LiveTask(r, t) && r.tasks[t] == k.tasks[t] {
      EffectOthers(k, e, t);
    }
  }

  /** A task that is not waiting is on no wait list. */
  lemma {:induction false} RunNotWaiting(k: Kernel)
    requires Inv(k) && Executing(k)
    ensures k.q.links[k.run].Unlinked?
    ensures forall w :: WaitQ(w) in k.q.lists ==> k.run !in k.q.lists[WaitQ(w)]
  {
    assert TaskOk(k, k.run);
  }

  /** Waking a waiter takes it out of its list and changes no other task. */
  lemma {:induction false} WakeKeepsCalls(k: Kernel, own: set<nat>, c: Calls, w: nat, t: nat)
    requires CallsOk(k, own, c) && w in own && WaitQ(w) in k.q.lists && t in k.q.lists[WaitQ(w)]
    ensures OnOwn(k, own, t) && t < |k.tasks| && Enabled(k, WakeUp(t)) && t !in c.granted && t !in c.expired
    ensures var r := Next(k, WakeUp(t));
      && CallsOk(r, own, Granted(c, t)) && OneList(k, r, w, Without(k.q.lists[WaitQ(w)], t))
      && r.run == k.run && |r.tasks| == |k.tasks| && r.tasks[t].priority == k.tasks[t].priority
      && (forall u :: 0 <= u < |k.tasks| && u != t ==> r.tasks[u] == k.tasks[u])
  {
    hide SortLinks.Valid, BitmapOk, Next, Effect;
    assert InOrder(k, w, c);
    assert TaskOk(k, t);
    var e := WakeUp(t);
    var r := Next(k, e);
    NextKeeps(k, e);
    NextIsEffect(k, e);
    EffectQueues(k, t, e);
    EffectBits(k, t, e);
    WithoutKeepsOrder(k.q.lists[WaitQ(w)], t, c.ticket);
    forall v | v in own ensures InOrder(r, v, Granted(c, t)) {
      assert InOrder(k, v, c);
    }
    forall u: nat | u < |k.tasks| && u != t ensures r.tasks[u] == k.tasks[u] {
      EffectOthers(k, e, u);
    }
  }

  /** Waking the first waiter: it has waited longest. */
  lemma {:induction false} GrantKeeps(k: Kernel, own: set<nat>, c: Calls, w: nat)
    requires CallsOk(k, own, c) && w in own && WaitQ(w) in k.q.lists && k.q.lists[WaitQ(w)] != []
    ensures var s := k.q.lists[WaitQ(w)]; var t := s[0];
      && OnOwn(k, own, t) && Enabled(k, WakeUp(t)) && t < |k.tasks| && t !in c.granted && t !in c.expired
      && var r := Next(k, WakeUp(t));
      && CallsOk(r, own, Granted(c, t)) && OneList(k, r, w, s[1..])
      && r.run == k.run && |r.tasks| == |k.tasks| && r.tasks[t].priority == k.tasks[t].priority
      && (forall u :: 0 <= u < |k.tasks| && u != t ==> r.tasks[u] == k.tasks[u])
      && (forall u :: u in s && u != t ==> t < |c.ticket| && u < |c.ticket| && c.ticket[t] < c.ticket[u])
  {
    hide Inv, Next;
    var s := k.q.lists[WaitQ(w)];
    assert InOrder(k, w, c);
    assert s[0] in s;
    WakeKeepsCalls(k, own, c, w, s[0]);
    assert Without(s, s[0]) == s[1..];
  }

  /** The resumed call learns from its TIMEOUT bit, and only from it, how its wait ended. */
  lemma {:induction false} FinishKeeps(k: Kernel, own: set<nat>, c: Calls)
    requires CallsOk(k, own, c) && CanFinish(k, c)
    ensures k.tasks[k.run].timeout <==> k.run in c.expired
    ensures Enabled(k, Return)
    ensures var r := Next(k, Return);
      && CallsOk(r, own, Finished(k, c)) && r.q == k.q && r.run == k.run && r.s == k.s && |r.tasks| == |k.tasks|
      && (forall u :: 0 <= u < |k.tasks| ==> r.tasks[u] == if u == k.run then k.tasks[u].(timeout := false) else k.tasks[u])
  {
    hide QueuesOk, SortLinks.Valid;
    assert LiveTask(k, k.run);
    var r := Next(k, Return);
    NextKeeps(k, Return);
    forall v | v in own ensures InOrder(r, v, Finished(k, c)) {
      assert InOrder(k, v, c);
    }
  }
}

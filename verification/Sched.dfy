/** The scheduler's state and its operations on task control blocks. */
module Sched {
  import opened Basics
  import opened TickTimer
  import opened Queues
  import SortLinks

  const WAIT_FOREVER: nat := 0xFFFF_FFFF

  /** A task control block; the booleans are the bits of `taskStatus`. Its `pendList` node is
      kept with the queues and its `sortList` node with the sort link. */
  datatype Task = Task(
    unused: bool, suspend: bool, ready: bool, pend: bool, running: bool,
    delay: bool, timeout: bool, pendTime: bool, exit: bool,
    priority: nat, timeSlice: int, startTime: nat, waitTicks: nat,
    eventMask: bv32, eventMode: bv32)
  {
    predicate Timed() { delay || pendTime }

    /** OS_TASK_BLOCKED_STATUS. */
    predicate Blocked() { pend || suspend || exit || unused }
  }

  datatype Kernel = Kernel(
    cfg: Config, tasks: seq<Task>, q: Queues, s: SortLinks.SortLink,
    idle: nat, run: nat, timers: seq<nat>, now: nat, tick: Tick)

  // ---------------------------------------------------------------- invariant

  /** The queues and the sort link are sound and there is a node of each for every task. */
  ghost predicate Shape(k: Kernel) {
    && k.cfg.Valid() && QueuesOk(k.q) && SortLinks.Valid(k.s)
    && |k.q.links| == |k.s.due| == |k.tasks|
    && k.idle < |k.tasks| && k.run < |k.tasks|
    && (forall t :: 0 <= t < |k.tasks| ==> k.tasks[t].priority < PRIORITIES)
  }

  /** The status word of a task agrees with the lists its nodes are on. */
  ghost predicate StatusOk(x: Task, link: Link, due: nat, isRun: bool, isIdle: bool, sliceMin: int) {
    && (x.running <==> isRun)
    && (isIdle ==> link.Unlinked? && !x.Blocked() && !x.Timed() && (x.ready <==> !isRun))
    && (!isIdle ==> (x.ready <==> link == LinkedTo(ReadyQ(x.priority))))
    && (link.LinkedTo? && link.l.ReadyQ? ==> x.ready)
    && (x.pend <==> link.LinkedTo? && link.l.WaitQ?)
    && (x.ready ==> !x.running && !x.suspend && !x.Timed() && !x.unused)
    && (x.ready && !isIdle ==> x.timeSlice > sliceMin)
    && (x.pendTime ==> x.pend) && !(x.pend && x.delay) && !(x.pend && x.timeout)
    && (due != MAX_TIME <==> !x.running && x.Timed())
    && (!x.running && !x.ready ==> x.Blocked() || x.delay)
    && (x.unused || x.exit ==> !x.pend && !x.delay)
  }

  ghost predicate TaskOk(k: Kernel, t: nat)
    requires t < |k.tasks| && |k.q.links| == |k.s.due| == |k.tasks|
  {
    StatusOk(k.tasks[t], k.q.links[t], k.s.due[t], t == k.run, t == k.idle, k.cfg.sliceMin)
  }

  /** What every step of the scheduler keeps. */
  ghost predicate Inv(k: Kernel) {
    && Shape(k)
    && (forall t :: 0 <= t < |k.tasks| ==> TaskOk(k, t))
    && k.tasks[k.run].startTime <= k.now
  }

  // ---------------------------------------------------------------- one task at a time

  /** What an operation on one task can change: its control block, the queues, the sort link
      and the tick. */
  datatype Focus = Focus(x: Task, q: Queues, s: SortLinks.SortLink, tick: Tick)

  function FocusOn(k: Kernel, t: nat): (f: Focus)
    requires t < |k.tasks|
  {
    Focus(k.tasks[t], k.q, k.s, k.tick)
  }

  function Apply(k: Kernel, t: nat, f: Focus): (r: Kernel)
    requires t < |k.tasks|
  {
    k.(tasks := k.tasks[t := f.x], q := f.q, s := f.s, tick := f.tick)
  }

  ghost predicate FocusOk(f: Focus, t: nat) {
    && QueuesOk(f.q) && SortLinks.Valid(f.s)
    && t < |f.q.links| && |f.q.links| == |f.s.due|
    && f.x.priority < PRIORITIES
  }

  /** The nodes of the other tasks stay where they are. */
  ghost predicate OnlyNodesOf(f: Focus, g: Focus, t: nat)
    requires t < |f.q.links| && t < |f.s.due|
  {
    && |g.q.links| == |f.q.links| && |g.s.due| == |f.s.due|
    && (forall u :: 0 <= u < |g.q.links| && u != t ==> g.q.links[u] == f.q.links[u])
    && (forall u :: 0 <= u < |g.s.due| && u != t ==> g.s.due[u] == f.s.due[u])
  }

  ghost predicate Sound(f: Focus, g: Focus, t: nat) {
    FocusOk(f, t) && FocusOk(g, t) && OnlyNodesOf(f, g, t)
  }

  /** An operation on one task that leaves that task's status in agreement with its nodes
      keeps the invariant. */
  lemma {:induction false} ApplyKeeps(k: Kernel, t: nat, g: Focus)
    requires Inv(k) && t < |k.tasks| && Sound(FocusOn(k, t), g, t)
    requires StatusOk(g.x, g.q.links[t], g.s.due[t], t == k.run, t == k.idle, k.cfg.sliceMin)
    requires t == k.run ==> g.x.startTime <= k.now
    ensures Inv(Apply(k, t, g))
  {
    var r := Apply(k, t, g);
    forall u | 0 <= u < |k.tasks| ensures TaskOk(r, u) {
      assert TaskOk(k, u);
    }
  }

  /** The parts of a control block that no queue operation touches. */
  ghost predicate SameIdentity(x: Task, y: Task) {
    && y.timeout == x.timeout && y.exit == x.exit && y.unused == x.unused && y.running == x.running
    && y.priority == x.priority && y.eventMask == x.eventMask && y.eventMode == x.eventMode
    && y.startTime == x.startTime
  }

  /** A task that OsSchedTaskEnQueue may be called for: its assertion holds and its node is free. */
  ghost predicate CanEnQueue(f: Focus, t: nat) {
    FocusOk(f, t) && !f.x.ready && f.q.links[t].Unlinked?
  }

  /** A READY bit that can be taken back: the node is on the queue of the task's priority. */
  ghost predicate Queued(f: Focus, t: nat, isIdle: bool) {
    FocusOk(f, t) && (f.x.ready && !isIdle ==> f.q.links[t] == LinkedTo(ReadyQ(f.x.priority)))
  }

  /** A node on a wait list. */
  ghost predicate Waiting(f: Focus, t: nat) {
    FocusOk(f, t) && f.q.links[t].LinkedTo? && f.q.links[t].l.WaitQ?
  }

  // ---------------------------------------------------------------- ready queues

  /** OsSchedTaskEnQueue: a task with slice left goes to the head of its queue, one without
      gets a new slice and goes to the tail; the idle task goes to no queue. */
  function EnQueue(f: Focus, t: nat, isIdle: bool, cfg: Config): (g: Focus)
    requires CanEnQueue(f, t)
    ensures Sound(f, g, t) && g.s == f.s
    ensures SameIdentity(f.x, g.x) && !g.x.pend && g.x.ready && SameWaitLists(f.q, g.q)
  {
    var head := f.x.timeSlice > cfg.sliceMin;
    var x := f.x.(pend := false, suspend := false, delay := false, pendTime := false, ready := true,
                  timeSlice := if head || isIdle then f.x.timeSlice else cfg.slice);
    f.(x := x, q := if isIdle then f.q else PriEn(f.q, t, x.priority, head))
  }

  /** OsSchedTaskDeQueue. */
  function DeQueue(f: Focus, t: nat, isIdle: bool): (g: Focus)
    requires Queued(f, t, isIdle)
    ensures Sound(f, g, t) && g.s == f.s && g.tick == f.tick
    ensures SameIdentity(f.x, g.x) && g.x.pend == f.x.pend && !g.x.ready && SameWaitLists(f.q, g.q)
  {
    if !f.x.ready then f
    else f.(x := f.x.(ready := false), q := if isIdle then f.q else PriDelete(f.q, t, f.x.priority))
  }

  // ---------------------------------------------------------------- deadlines

  /** OsDeleteSortLink. */
  function DeleteSortLink(f: Focus, t: nat): (g: Focus)
    requires FocusOk(f, t)
    ensures Sound(f, g, t) && g.q == f.q && g.x == f.x && g.s.due[t] == MAX_TIME
  {
    if f.s.due[t] == MAX_TIME then f
    else
      SortLinks.DropKeeps(f.s, t);
      f.(tick := Reset(f.tick, f.s.due[t]), s := SortLinks.Drop(f.s, t))
  }

  // ---------------------------------------------------------------- operations

  /** OsSchedTaskWait, called by the running task. */
  function Wait(f: Focus, t: nat, w: nat, ticks: nat): (g: Focus)
    requires FocusOk(f, t) && f.q.links[t].Unlinked? && WaitQ(w) in f.q.lists
    ensures Sound(f, g, t) && g.s == f.s
    ensures SameIdentity(f.x, g.x) && g.x.pend
  {
    var x := f.x.(pend := true);
    f.(x := if ticks == WAIT_FOREVER then x else x.(pendTime := true, waitTicks := ticks),
       q := TailInsert(f.q, t, w))
  }

  /** OsSchedTaskWake. */
  function Wake(f: Focus, t: nat, isIdle: bool, cfg: Config): (g: Focus)
    requires Waiting(f, t) && !f.x.ready
    ensures Sound(f, g, t)
    ensures SameIdentity(f.x, g.x) && !g.x.pend && SameWaitLists(Delete(f.q, t), g.q)
  {
    var f1 := f.(x := f.x.(pend := false), q := Delete(f.q, t));
    var f2 := if !f1.x.pendTime then f1 else DeleteSortLink(f1, t).(x := f1.x.(pendTime := false));
    if !f2.x.suspend && !f2.x.running then EnQueue(f2, t, isIdle, cfg) else f2
  }

  /** OsSchedWakePendTimeTask on a task whose deadline has left the sort link. */
  function Expire(f: Focus, t: nat, isIdle: bool, cfg: Config): (g: Focus)
    requires FocusOk(f, t) && !f.x.ready && (if f.x.pend then Waiting(f, t) else f.q.links[t].Unlinked?)
    ensures Sound(f, g, t) && g.s == f.s
  {
    if !f.x.pend && !f.x.delay then f
    else
      var y := f.x.(pend := false, pendTime := false, delay := false);
      var f1 := if f.x.pend then f.(x := y.(timeout := true), q := Delete(f.q, t)) else f.(x := y);
      if f.x.suspend then f1 else EnQueue(f1, t, isIdle, cfg)
  }

  /** The deadline of `t` leaves the sort link and its wait ends. */
  function WakeExpired(f: Focus, t: nat, isIdle: bool, cfg: Config): (g: Focus)
    requires FocusOk(f, t) && !f.x.ready && (if f.x.pend then Waiting(f, t) else f.q.links[t].Unlinked?)
    ensures Sound(f, g, t) && g.s == SortLinks.Drop(f.s, t)
  {
    SortLinks.DropKeeps(f.s, t);
    Expire(f.(s := SortLinks.Drop(f.s, t)), t, isIdle, cfg)
  }

  /** OsSchedSuspend without power management. */
  function Suspend(f: Focus, t: nat, isIdle: bool): (g: Focus)
    requires Queued(f, t, isIdle)
    ensures Sound(f, g, t) && g.s == f.s
    ensures SameIdentity(f.x, g.x) && g.x.pend == f.x.pend && SameWaitLists(f.q, g.q)
  {
    var d := DeQueue(f, t, isIdle);
    d.(x := d.x.(suspend := true))
  }

  /** OsSchedResume without power management. */
  function Resume(f: Focus, t: nat, isIdle: bool, cfg: Config): (g: Focus)
    requires FocusOk(f, t) && !f.x.ready
    requires !f.x.delay && !f.x.pend ==> f.q.links[t].Unlinked?
    ensures Sound(f, g, t) && g.s == f.s
    ensures SameIdentity(f.x, g.x) && g.x.pend == f.x.pend && SameWaitLists(f.q, g.q)
  {
    var f1 := f.(x := f.x.(suspend := false));
    if f1.x.delay || f1.x.pend then f1 else EnQueue(f1, t, isIdle, cfg)
  }

  /** OsSchedModifyTaskSchedParam. */
  function SetPriority(f: Focus, t: nat, p: nat, isIdle: bool, cfg: Config): (g: Focus)
    requires Queued(f, t, isIdle) && !isIdle && p < PRIORITIES
    ensures Sound(f, g, t) && g.s == f.s && SameWaitLists(f.q, g.q)
  {
    if f.x.ready then
      var d := DeQueue(f, t, isIdle);
      EnQueue(d.(x := d.x.(priority := p)), t, isIdle, cfg)
    else f.(x := f.x.(priority := p))
  }

  /** The first half of OsSchedTaskExit: the task leaves its ready queue or its wait list. */
  function Depart(f: Focus, t: nat, isIdle: bool): (g: Focus)
    requires Queued(f, t, isIdle) && (f.x.pend ==> Waiting(f, t))
    ensures Sound(f, g, t) && g.s == f.s && g.tick == f.tick
    ensures SameWaitLists(if !f.x.ready && f.x.pend then Delete(f.q, t) else f.q, g.q)
  {
    if f.x.ready then DeQueue(f, t, isIdle)
    else if f.x.pend then f.(x := f.x.(pend := false), q := Delete(f.q, t))
    else f
  }

  /** OsSchedTaskExit. */
  function Exit(f: Focus, t: nat, isIdle: bool): (g: Focus)
    requires Queued(f, t, isIdle) && (f.x.pend ==> Waiting(f, t))
    ensures Sound(f, g, t)
  {
    hide QueuesOk, SortLinks.Valid, Depart;
    var f1 := Depart(f, t, isIdle);
    var f2 := if !f1.x.Timed() then f1
              else DeleteSortLink(f1, t).(x := f1.x.(delay := false, pendTime := false));
    f2.(x := f2.x.(exit := true))
  }

  /** OsTimeSliceUpdate. */
  function SliceUpdate(x: Task, now: nat, isIdle: bool): (y: Task)
  {
    x.(timeSlice := if isIdle then x.timeSlice else Int32(x.timeSlice - Int32(now - x.startTime)), startTime := now)
  }

  /** A task is charged exactly the time since its start, exactly if what is then left of its slice
      fits 32 bits. */
  lemma {:induction false} ChargedExactly(x: Task, now: nat)
    ensures SliceUpdate(x, now, false).timeSlice == x.timeSlice - (now - x.startTime) <==>
            -0x8000_0000 <= x.timeSlice - (now - x.startTime) < 0x8000_0000
  {
    var e: int := now - x.startTime;
    assert Int32(e) % U32 == e % U32;
    assert (x.timeSlice - Int32(e)) % U32 == (x.timeSlice - e) % U32;
  }

  /** The first half of OsSchedTaskSwitch: the running task goes to the sort link, to its
      ready queue, or to neither when it is blocked without a timeout. */
  function PutAway(f: Focus, t: nat, now: nat, isIdle: bool, cfg: Config): (g: Focus)
    requires FocusOk(f, t) && !f.x.ready && cfg.Valid()
    requires if f.x.Timed() then f.s.due[t] == MAX_TIME && now + cfg.TicksToCycles(f.x.waitTicks) < MAX_TIME
             else !f.x.Blocked() ==> f.q.links[t].Unlinked?
    ensures Sound(f, g, t)
  {
    var u := f.(x := SliceUpdate(f.x, now, isIdle));
    if f.x.Timed() then
      var d := now + cfg.TicksToCycles(f.x.waitTicks);
      SortLinks.AddKeeps(f.s, t, d);
      u.(s := SortLinks.Add(f.s, t, d))
    else if f.x.Blocked() then u
    else EnQueue(u, t, isIdle, cfg)
  }

  /** The second half of OsSchedTaskSwitch: the chosen task starts to run. */
  function PickUp(f: Focus, t: nat, now: nat, isIdle: bool): (g: Focus)
    requires Queued(f, t, isIdle)
    ensures Sound(f, g, t) && g.s == f.s
  {
    DeQueue(f.(x := f.x.(running := true, startTime := now)), t, isIdle)
  }

  /** OsSchedSetNextExpireTime for the task that runs until `end`. */
  function Arm(k: Kernel, end: int, cap: nat): (r: Kernel)
    ensures r == k.(tick := r.tick)
  {
    var e := if k.run == k.idle then MAX_TIME - k.cfg.precision else end;
    k.(tick := SetNextExpire(k.tick, k.run, e,
                             NextExpire(SortLinks.Times(k.s), k.timers, k.now, k.cfg.precision),
                             k.now, k.cfg, cap))
  }

  /** OsSchedUpdateExpireTime, with the scheduler started and the tick not locked. */
  function UpdateExpire(k: Kernel, cap: nat): (r: Kernel)
    requires k.run < |k.tasks|
    ensures r == k.(tick := r.tick)
  {
    var x := k.tasks[k.run];
    Arm(k, x.startTime + if x.timeSlice <= k.cfg.sliceMin then k.cfg.slice else x.timeSlice, cap)
  }
}

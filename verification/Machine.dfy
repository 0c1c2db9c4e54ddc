/** The scheduler as a state machine: its steps, and the invariant they keep on every run. */
module Machine {
  import opened Basics
  import opened TickTimer
  import opened Deadlines
  import opened Queues
  import SortLinks
  import opened Sched

  datatype Step =
    | WaitOn(w: nat, ticks: nat)
    | WakeUp(t: nat)
    | DelayFor(ticks: nat)
    | Yield
    | SuspendTask(t: nat)
    | ResumeTask(t: nat)
    | ChangePriority(t: nat, p: nat)
    | ExitTask(t: nat)
    | Create(t: nat, p: nat)
    | Recycle(t: nat)
    | Return
    | SetEvent(mask: bv32, mode: bv32)
    | Elapse(cycles: nat)
    | TickInterrupt(locked: bool, timers: seq<nat>, cap: nat)
    | TimerStart(d: nat, cap: nat)
    | TimerStop(i: nat, cap: nat)
    | Switch(cap: nat)

  /** The running task is executing its own code: it has not asked for a switch. */
  ghost predicate Executing(k: Kernel) {
    && k.run < |k.tasks| && k.run != k.idle
    && !k.tasks[k.run].Blocked() && !k.tasks[k.run].Timed()
  }

  /** A created task other than the idle task. */
  ghost predicate Created(k: Kernel, t: nat) {
    t < |k.tasks| && t != k.idle && !k.tasks[t].unused
  }

  /** LOS_TaskResume may be called: the task is suspended, and if it is still running it also
      waits or is delayed. */
  ghost predicate CanResume(k: Kernel, t: nat) {
    && Created(k, t) && k.tasks[t].suspend
    && (k.tasks[t].running ==> k.tasks[t].pend || k.tasks[t].delay)
  }

  /** The deadline the running task asks for fits a 64-bit cycle count. */
  ghost predicate DeadlineFits(k: Kernel) {
    k.run < |k.tasks| && k.cfg.ticksPerSecond > 0 && k.tasks[k.run].Timed() ==>
      k.now + k.cfg.TicksToCycles(k.tasks[k.run].waitTicks) < MAX_TIME
  }

  ghost predicate Enabled(k: Kernel, e: Step) {
    match e
    case WaitOn(w, _) => Executing(k) && !k.tasks[k.run].timeout && WaitQ(w) in k.q.lists
    case WakeUp(t) => t < |k.tasks| && k.tasks[t].pend
    case DelayFor(_) => Executing(k)
    case Yield => Executing(k)
    case SuspendTask(t) => Created(k, t) && !k.tasks[t].suspend
    case ResumeTask(t) => CanResume(k, t)
    case ChangePriority(t, p) => Created(k, t) && p < PRIORITIES
    case ExitTask(t) => Created(k, t) && !k.tasks[t].exit
    case Create(t, p) => t < |k.tasks| && k.tasks[t].unused && !k.tasks[t].running && p < PRIORITIES
    case Recycle(t) => Created(k, t) && k.tasks[t].exit && !k.tasks[t].running && !k.tasks[t].ready
                       && !k.tasks[t].pend && !k.tasks[t].delay
    case Return => Executing(k)
    case SetEvent(_, _) => Executing(k)
    case Elapse(_) => true
    case TickInterrupt(_, timers, _) => Sorted(timers)
    case TimerStart(_, _) => true
    case TimerStop(i, _) => i < |k.timers|
    case Switch(_) => DeadlineFits(k)
  }

  // ------------------------------------------------------------ operations on one task

  function OnTask(k: Kernel, t: nat, x: Task): (r: Kernel)
    requires t < |k.tasks|
  {
    k.(tasks := k.tasks[t := x])
  }

  lemma {:induction false} OnTaskKeeps(k: Kernel, t: nat, x: Task)
    requires Inv(k) && t < |k.tasks| && x.priority < PRIORITIES
    requires StatusOk(x, k.q.links[t], k.s.due[t], t == k.run, t == k.idle, k.cfg.sliceMin)
    requires t == k.run ==> x.startTime <= k.now
    ensures Inv(OnTask(k, t, x))
  {
    ApplyKeeps(k, t, FocusOn(k, t).(x := x));
    assert OnTask(k, t, x) == Apply(k, t, FocusOn(k, t).(x := x));
  }

  /** The control block LOS_TaskCreateOnly leaves. */
  function FreshTask(p: nat): (x: Task) {
    Task(false, true, false, false, false, false, false, false, false, p, 0, 0, 0, 0, 0)
  }

  /** A control block on the free list. */
  function FreeTask(p: nat): (x: Task) {
    FreshTask(p).(unused := true, suspend := false)
  }

  /** The changed part of the state, for a step that acts on task `t` alone. */
  function Effect(k: Kernel, t: nat, e: Step): (g: Focus)
    requires Inv(k) && Enabled(k, e) && t < |k.tasks| && Actor(k, e) == Some(t)
  {
    assert TaskOk(k, t);
    var f := FocusOn(k, t);
    var isIdle := t == k.idle;
    match e
    case WaitOn(w, ticks) => Wait(f, t, w, ticks)
    case WakeUp(_) => Wake(f, t, isIdle, k.cfg)
    case DelayFor(ticks) => f.(x := f.x.(delay := true, waitTicks := ticks))
    case Yield => f.(x := f.x.(timeSlice := 0))
    case SuspendTask(_) => Suspend(f, t, isIdle)
    case ResumeTask(_) => Resume(f, t, isIdle, k.cfg)
    case ChangePriority(_, p) => SetPriority(f, t, p, isIdle, k.cfg)
    case ExitTask(_) => Exit(f, t, isIdle)
    case Create(_, p) => f.(x := FreshTask(p))
    case Recycle(_) => f.(x := FreeTask(f.x.priority))
    case Return => f.(x := f.x.(timeout := false))
    case SetEvent(mask, mode) => f.(x := f.x.(eventMask := mask, eventMode := mode))
    case _ => f
  }

  /** The task a step acts on, when there is only one. */
  function Target(run: nat, e: Step): (t: Option<nat>) {
    match e
    case WakeUp(t) => Some(t)
    case SuspendTask(t) => Some(t)
    case ResumeTask(t) => Some(t)
    case ChangePriority(t, _) => Some(t)
    case ExitTask(t) => Some(t)
    case Create(t, _) => Some(t)
    case Recycle(t) => Some(t)
    case WaitOn(_, _) => Some(run)
    case DelayFor(_) => Some(run)
    case Yield => Some(run)
    case Return => Some(run)
    case SetEvent(_, _) => Some(run)
    case _ => None
  }

  function Actor(k: Kernel, e: Step): (t: Option<nat>) { Target(k.run, e) }

  /** The status of `t` agrees with its nodes after an operation on it. */
  ghost predicate Agrees(k: Kernel, t: nat, g: Focus) {
    && t < |k.tasks| && Sound(FocusOn(k, t), g, t)
    && StatusOk(g.x, g.q.links[t], g.s.due[t], t == k.run, t == k.idle, k.cfg.sliceMin)
    && (t == k.run ==> g.x.startTime <= k.now)
  }

  /** The status of `t` agrees with its nodes. */
  ghost predicate Consistent(f: Focus, t: nat, isRun: bool, isIdle: bool, cfg: Config) {
    FocusOk(f, t) && StatusOk(f.x, f.q.links[t], f.s.due[t], isRun, isIdle, cfg.sliceMin)
  }

  lemma {:induction false} WakeAgrees(f: Focus, t: nat, isRun: bool, isIdle: bool, cfg: Config)
    requires Consistent(f, t, isRun, isIdle, cfg) && f.x.pend && cfg.Valid()
    ensures Consistent(Wake(f, t, isIdle, cfg), t, isRun, isIdle, cfg)
  {
    hide QueuesOk, SortLinks.Valid;
  }

  lemma {:induction false} ExitAgrees(f: Focus, t: nat, isRun: bool, cfg: Config)
    requires Consistent(f, t, isRun, false, cfg)
    ensures Consistent(Exit(f, t, false), t, isRun, false, cfg)
  {
    hide QueuesOk, SortLinks.Valid;
  }

  lemma {:induction false} SetPriorityAgrees(f: Focus, t: nat, p: nat, isRun: bool, cfg: Config)
    requires Consistent(f, t, isRun, false, cfg) && p < PRIORITIES && cfg.Valid()
    ensures Consistent(SetPriority(f, t, p, false, cfg), t, isRun, false, cfg)
  {
    hide QueuesOk, SortLinks.Valid;
  }

  lemma {:induction false} ResumeAgrees(f: Focus, t: nat, isRun: bool, cfg: Config)
    requires Consistent(f, t, isRun, false, cfg) && f.x.suspend && cfg.Valid()
    requires f.x.running ==> f.x.pend || f.x.delay
    requires !f.x.unused
    ensures Consistent(Resume(f, t, false, cfg), t, isRun, false, cfg)
  {
    hide QueuesOk, SortLinks.Valid;
  }

  /** A step on one task leaves that task's status in agreement with its nodes. */
  lemma {:induction false} EffectAgrees(k: Kernel, t: nat, e: Step)
    requires Inv(k) && Enabled(k, e) && t < |k.tasks| && Actor(k, e) == Some(t)
    ensures Agrees(k, t, Effect(k, t, e))
  {
    hide QueuesOk, SortLinks.Valid;
    assert TaskOk(k, t);
    match e
    case WakeUp(_) => WakeAgrees(FocusOn(k, t), t, t == k.run, t == k.idle, k.cfg);
    case ExitTask(_) => ExitAgrees(FocusOn(k, t), t, t == k.run, k.cfg);
    case ChangePriority(_, p) => SetPriorityAgrees(FocusOn(k, t), t, p, t == k.run, k.cfg);
    case ResumeTask(_) => ResumeAgrees(FocusOn(k, t), t, t == k.run, k.cfg);
    case _ =>
  }

  lemma {:induction false} EffectKeeps(k: Kernel, t: nat, e: Step)
    requires Inv(k) && Enabled(k, e) && t < |k.tasks| && Actor(k, e) == Some(t)
    ensures Inv(Apply(k, t, Effect(k, t, e)))
  {
    hide QueuesOk, SortLinks.Valid;
    EffectAgrees(k, t, e);
    ApplyKeeps(k, t, Effect(k, t, e));
  }

  // ------------------------------------------------------------ timer scan

  /** One turn of the loop in OsSchedScanTimerList. */
  function ScanOne(k: Kernel): (r: Kernel)
    requires Inv(k) && k.s.order != []
  {
    var t := k.s.order[0];
    assert t in k.s.order;
    assert TaskOk(k, t);
    Apply(k, t, WakeExpired(FocusOn(k, t), t, t == k.idle, k.cfg))
  }

  lemma {:induction false} ScanOneKeeps(k: Kernel)
    requires Inv(k) && k.s.order != []
    ensures Inv(ScanOne(k)) && |ScanOne(k).s.order| < |k.s.order|
  {
    var t := k.s.order[0];
    assert t in k.s.order;
    assert TaskOk(k, t);
    ApplyKeeps(k, t, WakeExpired(FocusOn(k, t), t, t == k.idle, k.cfg));
  }

  /** OsSchedScanTimerList at the current time. */
  function Scan(k: Kernel): (r: Kernel)
    requires Inv(k)
    ensures Inv(r) && r.now == k.now && r.run == k.run && r.idle == k.idle
    ensures r.tick == k.tick && r.cfg == k.cfg && r.timers == k.timers && |r.tasks| == |k.tasks|
    decreases |k.s.order|
  {
    if k.s.order == [] || SortLinks.DueOf(k.s.due, k.s.order[0]) > k.now then k
    else
      ScanOneKeeps(k);
      Scan(ScanOne(k))
  }

  /** LOS_SchedTickHandler; the software timers keep deadlines of their own. */
  function HandleTick(k: Kernel, locked: bool, timers: seq<nat>, cap: nat): (r: Kernel)
    requires Inv(k)
    ensures r.now == k.now && r.run == k.run && r.idle == k.idle && r.cfg == k.cfg && |r.tasks| == |k.tasks|
  {
    var k1 := if k.tick.owner.None? then Scan(k).(timers := timers) else k;
    var k2 := OnTask(k1, k.run, SliceUpdate(k1.tasks[k.run], k.now, k.run == k.idle))
              .(tick := k1.tick.(time := MAX_TIME));
    if locked then UpdateExpire(k2, cap) else k2
  }

  lemma {:induction false} TickKeeps(k: Kernel, locked: bool, timers: seq<nat>, cap: nat)
    requires Inv(k)
    ensures Inv(HandleTick(k, locked, timers, cap))
  {
    hide QueuesOk, SortLinks.Valid;
    var k1 := if k.tick.owner.None? then Scan(k) else k;
    assert TaskOk(k1, k.run);
    var x := SliceUpdate(k1.tasks[k.run], k.now, k.run == k.idle);
    OnTaskKeeps(k1, k.run, x);
    SameLists(OnTask(k1, k.run, x), HandleTick(k, locked, timers, cap));
  }

  /** The tick, the software timers and the passing of time are not part of the invariant. */
  lemma {:induction false} SameLists(a: Kernel, b: Kernel)
    requires Inv(a) && a.now <= b.now
    requires b == a.(tick := b.tick, timers := b.timers, now := b.now)
    ensures Inv(b)
  {
    hide QueuesOk, SortLinks.Valid;
    forall t | 0 <= t < |b.tasks| ensures TaskOk(b, t) {
      assert TaskOk(a, t);
    }
  }

  // ------------------------------------------------------------ task switch

  /** After the running task was put away it is an ordinary task: apart from its RUNNING bit
      its status agrees with its nodes. */
  ghost predicate Between(k: Kernel) {
    && Shape(k)
    && k.tasks[k.run].startTime == k.now
    && (forall t :: 0 <= t < |k.tasks| ==>
          StatusOk(k.tasks[t], k.q.links[t], k.s.due[t], false, t == k.idle, k.cfg.sliceMin))
  }

  /** The state in the middle of OsSchedTaskSwitch, with the RUNNING bit of the old task off. */
  function Leave(k: Kernel): (r: Kernel)
    requires Inv(k) && DeadlineFits(k)
    ensures Between(r) && r.run == k.run && r.now == k.now && r.idle == k.idle && r.cfg == k.cfg
    ensures r.tick == k.tick && r.timers == k.timers && |r.tasks| == |k.tasks|
  {
    assert TaskOk(k, k.run);
    var g := PutAway(FocusOn(k, k.run), k.run, k.now, k.run == k.idle, k.cfg);
    LeaveOk(k);
    Apply(k, k.run, g.(x := g.x.(running := false)))
  }

  lemma {:induction false} LeaveOk(k: Kernel)
    requires Inv(k) && DeadlineFits(k)
    ensures TaskOk(k, k.run)
    ensures var g := PutAway(FocusOn(k, k.run), k.run, k.now, k.run == k.idle, k.cfg);
      Between(Apply(k, k.run, g.(x := g.x.(running := false))))
  {
    hide QueuesOk, SortLinks.Valid;
    assert TaskOk(k, k.run);
    var g := PutAway(FocusOn(k, k.run), k.run, k.now, k.run == k.idle, k.cfg);
    var r := Apply(k, k.run, g.(x := g.x.(running := false)));
    forall t | 0 <= t < |k.tasks|
      ensures StatusOk(r.tasks[t], r.q.links[t], r.s.due[t], false, t == r.idle, r.cfg.sliceMin)
    {
      assert TaskOk(k, t);
    }
  }

  /** OsGetTopTask returns a ready task, and no ready task is more urgent. */
  lemma {:induction false} TopIsReady(k: Kernel)
    requires Between(k)
    ensures var top := Top(k.q, k.idle);
      && top < |k.tasks| && k.tasks[top].ready
      && (top != k.idle ==> k.q.links[top] == LinkedTo(ReadyQ(k.tasks[top].priority)))
      && forall t :: 0 <= t < |k.tasks| && t != k.idle && k.tasks[t].ready ==>
           top != k.idle && k.tasks[top].priority <= k.tasks[t].priority
  {
    TopMostUrgent(k.q, k.idle);
    var top := Top(k.q, k.idle);
    assert StatusOk(k.tasks[top], k.q.links[top], k.s.due[top], false, top == k.idle, k.cfg.sliceMin);
    forall t | 0 <= t < |k.tasks| && t != k.idle && k.tasks[t].ready
      ensures top != k.idle && k.tasks[top].priority <= k.tasks[t].priority
    {
      assert k.q.links[t] == LinkedTo(ReadyQ(k.tasks[t].priority));
    }
  }

  /** The chosen task starts to run. */
  function Enter(k: Kernel): (r: Kernel)
    requires Between(k)
    ensures Inv(r) && r.run == Top(k.q, k.idle) && r.now == k.now && r.idle == k.idle && r.cfg == k.cfg
    ensures r.tick == k.tick && r.timers == k.timers && |r.tasks| == |k.tasks|
    ensures r.run != r.idle ==> r.tasks[r.run].timeSlice > r.cfg.sliceMin
  {
    TopIsReady(k);
    EnterOk(k);
    var next := Top(k.q, k.idle);
    Apply(k, next, PickUp(FocusOn(k, next), next, k.now, next == k.idle)).(run := next)
  }

  lemma {:induction false} EnterOk(k: Kernel)
    requires Between(k)
    ensures var next := Top(k.q, k.idle);
      && next < |k.tasks| && Queued(FocusOn(k, next), next, next == k.idle)
      && Inv(Apply(k, next, PickUp(FocusOn(k, next), next, k.now, next == k.idle)).(run := next))
  {
    hide QueuesOk, SortLinks.Valid;
    TopIsReady(k);
    var next := Top(k.q, k.idle);
    var r := Apply(k, next, PickUp(FocusOn(k, next), next, k.now, next == k.idle)).(run := next);
    forall t | 0 <= t < |k.tasks| ensures TaskOk(r, t) {
      assert StatusOk(k.tasks[t], k.q.links[t], k.s.due[t], false, t == k.idle, k.cfg.sliceMin);
    }
  }

  /** A tick that was armed for the slice of the task that stops running is open again. */
  function OpenTick(tick: Tick, run: nat): (r: Tick) {
    if tick.owner == Some(run) then tick.(time := MAX_TIME) else tick
  }

  /** OsSchedTaskSwitch up to the arming of the tick. */
  function Dispatch(k: Kernel): (r: Kernel)
    requires Inv(k) && DeadlineFits(k)
    ensures Inv(r) && r.now == k.now && r.idle == k.idle && r.cfg == k.cfg && r.timers == k.timers
    ensures |r.tasks| == |k.tasks| && r.tick == OpenTick(k.tick, k.run)
    ensures r.run != r.idle ==> r.tasks[r.run].timeSlice > r.cfg.sliceMin
  {
    var n := Enter(Leave(k));
    SameLists(n, n.(tick := OpenTick(k.tick, k.run)));
    n.(tick := OpenTick(k.tick, k.run))
  }

  /** OsSchedTaskSwitch. */
  function SwitchTask(k: Kernel, cap: nat): (r: Kernel)
    requires Inv(k) && DeadlineFits(k)
    ensures r == Dispatch(k).(tick := r.tick)
  {
    var n := Dispatch(k);
    Arm(n, n.now + n.tasks[n.run].timeSlice, cap)
  }

  // ------------------------------------------------------------ the machine

  function Next(k: Kernel, e: Step): (r: Kernel)
    requires Inv(k) && Enabled(k, e)
  {
    match e
    case Elapse(cycles) => k.(now := k.now + cycles)
    case TickInterrupt(locked, timers, cap) => HandleTick(k, locked, timers, cap)
    case TimerStart(d, cap) =>
      var pos := InsertPos(k.timers, d);
      UpdateExpire(k.(timers := k.timers[..pos] + [d] + k.timers[pos..]), cap)
    case TimerStop(i, cap) =>
      UpdateExpire(k.(tick := Reset(k.tick, k.timers[i]), timers := k.timers[..i] + k.timers[i + 1..]), cap)
    case Switch(cap) => SwitchTask(k, cap)
    case _ => Apply(k, Actor(k, e).value, Effect(k, Actor(k, e).value, e))
  }

  lemma {:induction false} NextIsEffect(k: Kernel, e: Step)
    requires Inv(k) && Enabled(k, e) && Actor(k, e).Some?
    ensures Actor(k, e).value < |k.tasks|
    ensures Next(k, e) == Apply(k, Actor(k, e).value, Effect(k, Actor(k, e).value, e))
  {
    hide QueuesOk, SortLinks.Valid, Effect, Apply;
  }

  lemma {:induction false} SwitchStep(k: Kernel, e: Step)
    requires Inv(k) && e.Switch?
    ensures Enabled(k, e) <==> DeadlineFits(k)
    ensures Enabled(k, e) ==> Next(k, e) == SwitchTask(k, e.cap)
  {
    hide Inv, SwitchTask, DeadlineFits;
  }

  /** Every step keeps the invariant. */
  lemma {:induction false} NextKeeps(k: Kernel, e: Step)
    requires Inv(k) && Enabled(k, e)
    ensures Inv(Next(k, e))
  {
    hide QueuesOk, SortLinks.Valid, Effect, HandleTick, SwitchTask, Dispatch, UpdateExpire;
    if e.TickInterrupt? {
      TickKeeps(k, e.locked, e.timers, e.cap);
    } else if e.Switch? {
      SameLists(Dispatch(k), Next(k, e));
    } else if Actor(k, e).Some? {
      EffectKeeps(k, Actor(k, e).value, e);
    } else {
      SameLists(k, Next(k, e));
    }
  }

  /** The state OsSchedStart leaves when only the idle task exists. */
  function Boot(cfg: Config, n: nat, idle: nat, waits: set<nat>, now: nat, cap: nat): (k: Kernel)
    requires idle < n
  {
    var free := FreeTask(0);
    Kernel(cfg, seq(n, t => free)[idle := free.(unused := false, running := true, startTime := now)],
           Queues(seq(n, t => Unlinked),
                  (map p | 0 <= p < PRIORITIES :: ReadyQ(p) := []) + (map w | w in waits :: WaitQ(w) := []), {}),
           SortLinks.SortLink(seq(n, t => MAX_TIME), []), idle, idle, [], now,
           SetNextExpire(Tick(MAX_TIME, None), idle, now, NextExpire([], [], now, cfg.precision), now, cfg, cap))
  }

  ghost predicate Run(k: Kernel, es: seq<Step>, r: Kernel)
    requires Inv(k)
    decreases |es|
  {
    if es == [] then r == k
    else
      && Enabled(k, es[0])
      && (NextKeeps(k, es[0]); Run(Next(k, es[0]), es[1..], r))
  }

  /** Every state reachable from the boot state, by any interleaving of the steps, satisfies
      the invariant. */
  lemma {:induction false} Safety(cfg: Config, n: nat, idle: nat, waits: set<nat>, now: nat, cap: nat, es: seq<Step>, r: Kernel)
    requires cfg.Valid() && idle < n
    ensures Inv(Boot(cfg, n, idle, waits, now, cap))
    ensures Run(Boot(cfg, n, idle, waits, now, cap), es, r) ==> Inv(r)
  {
    var k := Boot(cfg, n, idle, waits, now, cap);
    forall t | 0 <= t < n ensures TaskOk(k, t) {
    }
    if Run(k, es, r) {
      RunKeeps(k, es, r);
    }
  }

  lemma {:induction false} RunKeeps(k: Kernel, es: seq<Step>, r: Kernel)
    requires Inv(k) && Run(k, es, r)
    ensures Inv(r)
    decreases |es|
  {
    if es != [] {
      NextKeeps(k, es[0]);
      RunKeeps(Next(k, es[0]), es[1..], r);
    }
  }

  /** Two runs in a row are a run. */
  lemma {:induction false} RunConcat(k: Kernel, es: seq<Step>, m: Kernel, fs: seq<Step>, r: Kernel)
    requires Inv(k) && Run(k, es, m) && Inv(m) && Run(m, fs, r)
    ensures Run(k, es + fs, r)
    decreases |es|
  {
    hide Inv, Enabled, Next;
    if es == [] {
      assert es + fs == fs;
    } else {
      NextKeeps(k, es[0]);
      RunConcat(Next(k, es[0]), es[1..], m, fs, r);
      assert (es + fs)[1..] == es[1..] + fs;
    }
  }
}

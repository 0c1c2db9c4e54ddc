/** The hardware tick timer over whole runs: it is never loaded past a pending deadline. */
module TickHardware {
  import opened Basics
  import opened Lists
  import opened TickTimer
  import opened Queues
  import SortLinks
  import opened Sched
  import opened Machine
  import opened TickArming

  /** `at` is the time for which OsTickTimerReload was last called; `fired` that a tick has come since and
      the switch it asked for has not. */
  datatype Timer = Timer(at: nat, fired: bool)

  /** The load a step gives the hardware timer. */
  ghost function LoadOf(k: Kernel, e: Step): (at: Option<nat>)
    requires Inv(k) && Enabled(k, e)
  {
    if e.Switch? then
      var n := Dispatch(k);
      LoadedAt(n, n.now + n.tasks[n.run].timeSlice, e.cap)
    else if e.TimerStart? || e.TimerStop? then LoadedAt(BeforeArm(k, e), SliceEnd(BeforeArm(k, e)), e.cap)
    else if e.TickInterrupt? && e.locked then
      var m := HandleTick(k, false, e.timers, e.cap);
      LoadedAt(m, SliceEnd(m), e.cap)
    else None
  }

  ghost function After(h: Timer, k: Kernel, e: Step): (r: Timer)
    requires Inv(k) && Enabled(k, e)
  {
    if LoadOf(k, e).Some? then Timer(LoadOf(k, e).value, false)
    else if e.TickInterrupt? then h.(fired := true)
    else h
  }

  /** g_schedResponseTime is the load or open; unless a tick has fired and the switch is pending, the
      hardware timer fires in time for every deadline of both sort links. */
  ghost predicate TimerOk(k: Kernel, h: Timer) {
    && Sorted(k.timers)
    && (k.tick.owner == None || k.tick.owner == Some(k.run))
    && (k.tick.time != MAX_TIME ==> h == Timer(k.tick.time, false))
    && (!h.fired ==> Served(h.at, k))
  }

  lemma {:induction false} DropServes(s: SortLinks.SortLink, t: nat, time: int, now: nat, precision: nat)
    requires SortLinks.Valid(s) && t < |s.due| && ServesAll(time, SortLinks.Times(s), now, precision)
    ensures ServesAll(time, SortLinks.Times(SortLinks.Drop(s, t)), now, precision)
  {
    hide Serves, SortLinks.Drop, SortLinks.Ordered;
    var d := SortLinks.Drop(s, t);
    forall i | 0 <= i < |d.order| ensures Serves(time, SortLinks.Times(d)[i], now, precision) {
      SortLinks.DropAt(s, t, i);
      var j := if i < IndexOf(s.order, t) then i else i + 1;
      assert Serves(time, SortLinks.Times(s)[j], now, precision);
    }
  }

  lemma {:induction false} EffectTick(k: Kernel, t: nat, e: Step)
    requires Inv(k) && Enabled(k, e) && t < |k.tasks| && Actor(k, e) == Some(t)
    ensures var g := Effect(k, t, e);
      || (g.tick == k.tick && g.s == k.s)
      || (g.s == SortLinks.Drop(k.s, t) && g.tick == Reset(k.tick, k.s.due[t]))
  {
    hide QueuesOk, SortLinks.Valid, PriEn, PriDelete, TailInsert, Delete;
    assert TaskOk(k, t);
  }

  /** Ending a wait or a task that is on the sort link keeps no tick armed for that deadline or a later time,
      and no other tick is touched. */
  lemma {:induction false} RemovalOpens(k: Kernel, e: Step, t: nat)
    requires Inv(k) && Enabled(k, e) && t < |k.tasks| && (e == WakeUp(t) || e == ExitTask(t)) && k.s.due[t] != MAX_TIME
    ensures var r := Next(k, e);
      && t < |r.s.due| && r.s.due[t] == MAX_TIME && r.tick.owner == k.tick.owner
      && r.tick.time == if k.s.due[t] <= k.tick.time then MAX_TIME else k.tick.time
  {
    hide QueuesOk, SortLinks.Valid;
    assert TaskOk(k, t);
  }

  lemma {:induction false} EffectOk(k: Kernel, h: Timer, t: nat, e: Step)
    requires Inv(k) && Enabled(k, e) && t < |k.tasks| && Actor(k, e) == Some(t) && TimerOk(k, h)
    ensures TimerOk(Apply(k, t, Effect(k, t, e)), h)
  {
    hide QueuesOk, Effect, Enabled, SortLinks.Times, Serves;
    EffectTick(k, t, e);
    if !h.fired {
      DropServes(k.s, t, h.at, k.now, k.cfg.precision);
    }
  }

  lemma {:induction false} SwitchOk(k: Kernel, h: Timer, e: Step)
    requires Inv(k) && Enabled(k, e) && e.Switch? && TimerOk(k, h) && Clear(Next(k, e))
    ensures TimerOk(Next(k, e), After(h, k, e)) && !After(h, k, e).fired
  {
    hide Inv, Next, Dispatch, Served, Arm, LoadedAt, Clear, WrapsAt, Sorted;
    SwitchIsArm(k, e);
    var n := Dispatch(k);
    ArmOk(n, n.now + n.tasks[n.run].timeSlice, e.cap);
  }

  lemma {:induction false} SwitchIsArm(k: Kernel, e: Step)
    requires Inv(k) && Enabled(k, e) && e.Switch? && Clear(Next(k, e))
    ensures var n := Dispatch(k);
      && Inv(n) && n.run < |n.tasks| && n.timers == k.timers && n.tick == OpenTick(k.tick, k.run) && Clear(n)
      && var end := n.now + n.tasks[n.run].timeSlice;
      && !WrapsAt(n, end) && Next(k, e) == Arm(n, end, e.cap)
  {
    hide QueuesOk, SortLinks.Valid, Dispatch, SortLinks.Times, Arm, Wraps;
    var n := Dispatch(k);
    assert Clear(n);
    NotWrapped(n, n.now + n.tasks[n.run].timeSlice);
  }

  lemma {:induction false} TimerStepOk(k: Kernel, h: Timer, e: Step)
    requires Inv(k) && Enabled(k, e) && (e.TimerStart? || e.TimerStop?) && TimerOk(k, h)
    requires Clear(Next(k, e)) && !StepWraps(k, e)
    ensures TimerOk(Next(k, e), After(h, k, e)) && !After(h, k, e).fired
  {
    hide Inv, Next, BeforeArm, NextExpire, SetNextExpire, SortLinks.Times, ServesAll, Wraps, Loaded, Sorted, Clear;
    BeforeArmOk(k, e);
    var m := BeforeArm(k, e);
    assert Clear(m) by { ClearUpdate(m, e.cap); }
    ArmOk(m, SliceEnd(m), e.cap);
  }

  lemma {:induction false} ClearUpdate(k: Kernel, cap: nat)
    requires k.run < |k.tasks|
    ensures Clear(UpdateExpire(k, cap)) <==> Clear(k)
  {
  }

  lemma {:induction false} TickOk(k: Kernel, h: Timer, e: Step)
    requires Inv(k) && Enabled(k, e) && e.TickInterrupt? && TimerOk(k, h) && Clear(Next(k, e))
    ensures TimerOk(Next(k, e), After(h, k, e))
  {
    hide Inv, NextExpire, SetNextExpire, SortLinks.Times, ServesAll, Wraps, Loaded, Scan, UpdateExpire;
    if e.locked {
      hide HandleTick;
      LockedTick(k, e.timers, e.cap);
      var m := HandleTick(k, false, e.timers, e.cap);
      ArmOk(m, SliceEnd(m), e.cap);
      ClearUpdate(m, e.cap);
      assert UpdateExpire(m, e.cap) == Arm(m, SliceEnd(m), e.cap) by { UpdateIsArm(m, e.cap); }
    }
  }

  lemma {:induction false} UpdateIsArm(k: Kernel, cap: nat)
    requires k.run < |k.tasks|
    ensures UpdateExpire(k, cap) == Arm(k, SliceEnd(k), cap)
  {
  }

  /** Every step keeps the timer in time for every deadline, if it does not start or stop a software timer
      in the exact case in which that loses deadlines. */
  lemma {:induction false} TimerKeeps(k: Kernel, h: Timer, e: Step)
    requires Inv(k) && Enabled(k, e) && TimerOk(k, h) && Clear(Next(k, e)) && !StepWraps(k, e)
    ensures TimerOk(Next(k, e), After(h, k, e))
  {
    if e.TickInterrupt? {
      TickOk(k, h, e);
    } else if e.TimerStart? || e.TimerStop? {
      TimerStepOk(k, h, e);
    } else if e.Switch? {
      SwitchOk(k, h, e);
    } else if Actor(k, e).Some? {
      hide Inv, Effect, SortLinks.Times;
      NextIsEffect(k, e);
      EffectOk(k, h, Actor(k, e).value, e);
    } else {
      hide Inv, SortLinks.Times;
    }
  }

  /** A run that stays far from the end of the cycle counter and has no step of that kind. */
  ghost predicate ArmedRun(k: Kernel, h: Timer, es: seq<Step>, r: Kernel, h': Timer)
    requires Inv(k)
    decreases |es|
  {
    if es == [] then r == k && h' == h
    else
      && Enabled(k, es[0]) && Clear(Next(k, es[0])) && !StepWraps(k, es[0])
      && (NextKeeps(k, es[0]); ArmedRun(Next(k, es[0]), After(h, k, es[0]), es[1..], r, h'))
  }

  lemma {:induction false} ArmedRunKeeps(k: Kernel, h: Timer, es: seq<Step>, r: Kernel, h': Timer)
    requires Inv(k) && TimerOk(k, h) && ArmedRun(k, h, es, r, h')
    ensures Inv(r) && TimerOk(r, h')
    decreases |es|
  {
    hide Inv, TimerOk, Next, Enabled, Clear, StepWraps, After;
    if es != [] {
      NextKeeps(k, es[0]);
      TimerKeeps(k, h, es[0]);
      ArmedRunKeeps(Next(k, es[0]), After(h, k, es[0]), es[1..], r, h');
    }
  }

  /** OsSchedStart loads the timer. */
  lemma {:induction false} BootOk(cfg: Config, n: nat, idle: nat, waits: set<nat>, now: nat, cap: nat)
    requires cfg.Valid() && idle < n && now + 2 * cfg.precision < MAX_TIME
    ensures var k := Boot(cfg, n, idle, waits, now, cap);
      k.tick.time < MAX_TIME && TimerOk(k, Timer(k.tick.time, false))
  {
    var k := Boot(cfg, n, idle, waits, now, cap);
    assert k.timers == [] && SortLinks.Times(k.s) == [];
    ArmServes(Tick(MAX_TIME, None), idle, now, [], [], now, cfg, cap);
  }

  /** On every such run from boot: unless a tick has fired and the switch is pending, the hardware timer
      fires in time for every deadline of both sort links. */
  lemma {:induction false} NoDeadlineForgotten(cfg: Config, n: nat, idle: nat, waits: set<nat>, now: nat, cap: nat,
                                               es: seq<Step>, r: Kernel, h: Timer)
    requires cfg.Valid() && idle < n && now + 2 * cfg.precision < MAX_TIME
    ensures Inv(Boot(cfg, n, idle, waits, now, cap))
    ensures var k := Boot(cfg, n, idle, waits, now, cap);
      ArmedRun(k, Timer(k.tick.time, false), es, r, h) ==> Inv(r) && TimerOk(r, h)
  {
    hide Inv, Boot, TimerOk, ArmedRun;
    var k := Boot(cfg, n, idle, waits, now, cap);
    Safety(cfg, n, idle, waits, now, cap, [], k);
    BootOk(cfg, n, idle, waits, now, cap);
    if ArmedRun(k, Timer(k.tick.time, false), es, r, h) {
      ArmedRunKeeps(k, Timer(k.tick.time, false), es, r, h);
    }
  }
}

/** The tick comes at the end of the running task's slice, or at a deadline shortly behind it. */
module SliceTicks {
  import opened Basics
  import opened TickTimer
  import opened Queues
  import SortLinks
  import opened Sched
  import opened Machine
  import opened TickArming
  import opened TickHardware

  /** A time by which a tick must come that ends a slice at `end`. */
  ghost predicate Ends(time: int, end: int, now: nat, cfg: Config) {
    time < Max(end, now + cfg.precision) + cfg.minPeriod + cfg.precision
  }

  // ------------------------------------------------------------ OsSchedSetNextExpireTime

  lemma {:induction false} ArmEnds(tick: Tick, id: nat, end: int, e: int, now: nat, cfg: Config, cap: nat)
    requires cfg.Valid() && now + cfg.precision <= e <= MAX_TIME - cfg.precision && now + 2 * cfg.precision < MAX_TIME
    requires !Wraps(tick, end, e, now, cfg)
    ensures Ends(SetNextExpire(tick, id, end, e, now, cfg, cap).time, end, now, cfg)
  {
    if Rearms(tick, end, e, cfg) {
      var next := NextOf(end, e, cfg);
      assert now <= next <= e && (next - now) % U64 == next - now;
    }
  }

  /** However the tick was armed before: it then comes by the end of the slice, the shortest period and
      the precision. */
  lemma {:induction false} ArmEndsSlice(tick: Tick, id: nat, end: int, tasks: seq<nat>, timers: seq<nat>,
                                        now: nat, cfg: Config, cap: nat)
    requires Settled(tasks, timers, now, cfg) && now <= end
    ensures var r := SetNextExpire(tick, id, end, NextExpire(tasks, timers, now, cfg.precision), now, cfg, cap);
      r.time < Max(end, now + cfg.precision) + cfg.minPeriod + cfg.precision
  {
    NextExpireBound(tasks, timers, now, cfg);
    hide NextExpire, SetNextExpire, Settled;
    ArmEnds(tick, id, end, NextExpire(tasks, timers, now, cfg.precision), now, cfg, cap);
  }

  /** The time at which a deadline can be served. */
  function Asked(d: int, now: nat, cfg: Config): (t: int) { Max(d, now + cfg.precision) }

  ghost predicate AllBehind(times: seq<nat>, limit: int, now: nat, cfg: Config) {
    forall i :: 0 <= i < |times| ==> Asked(times[i], now, cfg) > limit
  }

  /** What the hardware makes of a wish to be called at `t`. */
  function Granted(t: int, now: nat, cfg: Config, cap: nat): (r: int) {
    var p := if t - now < cfg.precision then cfg.precision else t - now;
    now + if p < cap then p else cap
  }

  ghost predicate Earliest(d: int, tasks: seq<nat>, timers: seq<nat>) {
    && (d in tasks || d in timers)
    && (forall i :: 0 <= i < |tasks| ==> d <= tasks[i]) && (forall i :: 0 <= i < |timers| ==> d <= timers[i])
  }

  lemma {:induction false} NextExpireIs(tasks: seq<nat>, timers: seq<nat>, now: nat, cfg: Config)
    requires Settled(tasks, timers, now, cfg)
    ensures var e := NextExpire(tasks, timers, now, cfg.precision);
      if tasks + timers == [] then e == MAX_TIME - cfg.precision
      else
        var d := if timers == [] || (tasks != [] && tasks[0] <= timers[0]) then tasks[0] else timers[0];
        Earliest(d, tasks, timers) && e == Asked(d, now, cfg)
  {
    assert tasks != [] ==> forall i :: 0 <= i < |tasks| ==> tasks[0] <= tasks[i];
    assert timers != [] ==> forall i :: 0 <= i < |timers| ==> timers[0] <= timers[i];
  }

  /** An open tick is armed for the slice exactly if every deadline can only be served later than the end of
      the slice and the shortest period; it then comes at that end, and otherwise at the earliest deadline,
      as near as the hardware allows and no earlier. */
  lemma {:induction false} OpenTickExactly(tick: Tick, id: nat, end: int, tasks: seq<nat>, timers: seq<nat>,
                                           now: nat, cfg: Config, cap: nat, d: nat)
    requires Settled(tasks, timers, now, cfg) && tick.time == MAX_TIME
    requires now <= end && end + cfg.minPeriod + cfg.precision < MAX_TIME
    ensures var r := SetNextExpire(tick, id, end, NextExpire(tasks, timers, now, cfg.precision), now, cfg, cap);
      var limit := end + cfg.minPeriod;
      && (r.owner == Some(id) <==> AllBehind(tasks, limit, now, cfg) && AllBehind(timers, limit, now, cfg))
      && (r.owner == Some(id) || r.owner == None)
      && (r.owner == Some(id) ==> r.time == Granted(end, now, cfg, cap))
      && (r.owner == None && Earliest(d, tasks, timers) ==> r.time == Granted(d, now, cfg, cap))
  {
    NextExpireIs(tasks, timers, now, cfg);
    NextExpireBound(tasks, timers, now, cfg);
    var e := NextExpire(tasks, timers, now, cfg.precision);
    BehindIff(tasks, timers, end + cfg.minPeriod, now, cfg, e);
    hide NextExpire, SetNextExpire, Settled, AllBehind, Granted;
    ArmOpen(tick, id, end, e, now, cfg, cap);
    if Earliest(d, tasks, timers) {
      SameEarliest(tasks, timers, d);
      AskedGranted(d, now, cfg, cap);
    }
  }

  lemma {:induction false} ArmOpen(tick: Tick, id: nat, end: int, e: int, now: nat, cfg: Config, cap: nat)
    requires cfg.Valid() && now + cfg.precision <= e <= MAX_TIME - cfg.precision && tick.time == MAX_TIME
    requires now <= end && end + cfg.minPeriod + cfg.precision < MAX_TIME
    ensures var r := SetNextExpire(tick, id, end, e, now, cfg, cap);
      && (r.owner == Some(id) <==> e > end + cfg.minPeriod) && (r.owner == Some(id) || r.owner == None)
      && r.time == Granted(if r.owner == None then e else end, now, cfg, cap)
  {
    var next := if e > end + cfg.minPeriod then end else e;
    assert (next - now) % U64 == next - now;
    var p := if next - now < cfg.precision then cfg.precision else next - now;
    assert (now + (if p < cap then p else cap)) % U64 == now + if p < cap then p else cap;
  }

  lemma {:induction false} SameEarliest(tasks: seq<nat>, timers: seq<nat>, d: nat)
    requires Earliest(d, tasks, timers)
    ensures tasks + timers != []
    ensures forall c: nat :: Earliest(c, tasks, timers) ==> c == d
  {
  }

  lemma {:induction false} AskedGranted(d: nat, now: nat, cfg: Config, cap: nat)
    ensures Granted(Asked(d, now, cfg), now, cfg, cap) == Granted(d, now, cfg, cap)
  {
  }

  lemma {:induction false} BehindIff(tasks: seq<nat>, timers: seq<nat>, limit: int, now: nat, cfg: Config, e: int)
    requires limit + cfg.precision < MAX_TIME
    requires if tasks + timers == [] then e == MAX_TIME - cfg.precision
             else exists d: nat :: Earliest(d, tasks, timers) && e == Asked(d, now, cfg)
    ensures AllBehind(tasks, limit, now, cfg) && AllBehind(timers, limit, now, cfg) <==> e > limit
  {
  }

  // ------------------------------------------------------------ after a switch

  /** After every switch to a task other than idle the tick comes by the end of that task's slice, the shortest
      period and the precision; an open tick is armed for the slice exactly if no deadline can be served by
      that end and the shortest period. */
  lemma {:induction false} SwitchEndsSlice(k: Kernel, cap: nat)
    requires Inv(k) && DeadlineFits(k) && Sorted(k.timers) && Clear(SwitchTask(k, cap))
    ensures var r := SwitchTask(k, cap);
      && r.run < |r.tasks|
      && var end := r.now + r.tasks[r.run].timeSlice; var limit := end + r.cfg.minPeriod;
      && (r.run != r.idle ==> r.tick.time < Max(end, r.now + r.cfg.precision) + r.cfg.minPeriod + r.cfg.precision)
      && (r.run != r.idle && (k.tick.time == MAX_TIME || k.tick.owner == Some(k.run)) && limit + r.cfg.precision < MAX_TIME ==>
            (r.tick.owner == Some(r.run) <==>
               AllBehind(SortLinks.Times(r.s), limit, r.now, r.cfg) && AllBehind(r.timers, limit, r.now, r.cfg)))
  {
    hide QueuesOk, SortLinks.Valid, Dispatch, SortLinks.Times;
    var n := Dispatch(k);
    var end := n.now + n.tasks[n.run].timeSlice;
    assert Clear(n);
    TimesSorted(n);
    hide Inv, Settled, SetNextExpire, NextExpire, AllBehind, Clear;
    if n.run != n.idle {
      ArmEndsSlice(n.tick, n.run, end, SortLinks.Times(n.s), n.timers, n.now, n.cfg, cap);
      if n.tick.time == MAX_TIME && end + n.cfg.minPeriod + n.cfg.precision < MAX_TIME {
        OpenTickExactly(n.tick, n.run, end, SortLinks.Times(n.s), n.timers, n.now, n.cfg, cap, 0);
      }
    }
  }

  // ------------------------------------------------------------ over runs

  /** Unless a switch is pending after a tick or a yield, the hardware timer fires by the end of the running
      task's slice, the shortest period and the precision; the idle task has no slice. */
  ghost predicate SliceOk(k: Kernel, h: Timer, yielded: bool) {
    k.run < |k.tasks| && k.run != k.idle && !h.fired && !yielded ==> Ends(h.at, SliceEnd(k), k.now, k.cfg)
  }

  predicate Yielded(yielded: bool, e: Step) { e.Yield? || (yielded && !e.Switch?) }

  /** Only a yield, a tick and a switch touch the running task's slice. */
  lemma {:induction false} OwnSlice(k: Kernel, e: Step)
    requires Inv(k) && Enabled(k, e) && Actor(k, e).Some? && !e.Yield?
    ensures var r := Next(k, e);
      && r.run == k.run && r.run < |r.tasks| && r.now == k.now && r.cfg == k.cfg && r.idle == k.idle
      && r.tasks[k.run].timeSlice == k.tasks[k.run].timeSlice && r.tasks[k.run].startTime == k.tasks[k.run].startTime
  {
    hide QueuesOk, SortLinks.Valid;
    assert TaskOk(k, k.run);
  }

  /** Arming keeps to the slice unless it wraps. */
  lemma {:induction false} ArmKeepsSlice(k: Kernel, end: int, cap: nat)
    requires Inv(k) && Clear(k) && Sorted(k.timers) && !WrapsAt(k, end) && k.run != k.idle
    ensures Ends(Arm(k, end, cap).tick.time, end, k.now, k.cfg)
  {
    TimesSorted(k);
    NextExpireBound(SortLinks.Times(k.s), k.timers, k.now, k.cfg);
    hide Inv, Clear, SetNextExpire, NextExpire, Wraps, Sorted, SortLinks.Times, Ends;
    ArmEnds(k.tick, k.run, end, Expires(k), k.now, k.cfg, cap);
  }

  lemma {:induction false} TimerStepSlice(k: Kernel, h: Timer, e: Step)
    requires Inv(k) && Enabled(k, e) && (e.TimerStart? || e.TimerStop?) && TimerOk(k, h)
    requires Clear(Next(k, e)) && !StepWraps(k, e)
    ensures SliceOk(Next(k, e), After(h, k, e), false)
  {
    hide Inv, Next, BeforeArm, NextExpire, SetNextExpire, SortLinks.Times, ServesAll, Wraps, Loaded, Sorted, Clear, Ends;
    BeforeArmOk(k, e);
    TimerStepOk(k, h, e);
    TimerStepArms(k, e);
    var m := BeforeArm(k, e);
    assert Clear(m) by { ClearUpdate(m, e.cap); }
    if m.run != m.idle {
      ArmKeepsSlice(m, SliceEnd(m), e.cap);
    }
  }

  lemma {:induction false} LockedTickSlice(k: Kernel, h: Timer, e: Step)
    requires Inv(k) && Enabled(k, e) && e.TickInterrupt? && e.locked && TimerOk(k, h) && Clear(Next(k, e))
    ensures SliceOk(Next(k, e), After(h, k, e), false)
  {
    TickOk(k, h, e);
    LockedTickArms(k, e.timers, e.cap);
    LockedTick(k, e.timers, e.cap);
    hide Inv, HandleTick, Clear, SetNextExpire, NextExpire, Sorted, SortLinks.Times, ServesAll, Loaded, Ends;
    var m := HandleTick(k, false, e.timers, e.cap);
    if m.run != m.idle {
      ArmKeepsSlice(m, SliceEnd(m), e.cap);
      UpdateIsArm(m, e.cap);
    }
  }

  lemma {:induction false} SwitchSlice(k: Kernel, h: Timer, e: Step)
    requires Inv(k) && Enabled(k, e) && e.Switch? && TimerOk(k, h) && Clear(Next(k, e))
    ensures SliceOk(Next(k, e), After(h, k, e), false)
  {
    hide Inv, SwitchTask, Clear, Sorted, Served, AllBehind, LoadOf, Next, Enabled, DeadlineFits, After;
    SwitchStep(k, e);
    SwitchOk(k, h, e);
    SwitchEndsSlice(k, e.cap);
    SwitchArms(k, e.cap);
    StartsFresh(k, e.cap);
  }

  /** A switch starts its task now, with more than the shortest slice. */
  lemma {:induction false} StartsFresh(k: Kernel, cap: nat)
    requires Inv(k) && DeadlineFits(k)
    ensures var r := SwitchTask(k, cap);
      && r.run < |r.tasks| && r.now == k.now && r.tasks[r.run].startTime == r.now
      && (r.run != r.idle ==> r.tasks[r.run].timeSlice > r.cfg.sliceMin)
  {
    hide QueuesOk, SortLinks.Valid, Leave, Top;
    EnterOk(Leave(k));
  }

  /** So does the boot, for the idle task, and no other task exists yet. */
  lemma {:induction false} BootFresh(cfg: Config, n: nat, idle: nat, waits: set<nat>, now: nat, cap: nat, t: nat)
    requires cfg.Valid() && idle < n && t < n
    ensures var k := Boot(cfg, n, idle, waits, now, cap);
      && |k.tasks| == n && k.run == idle && k.now == now && k.tasks[idle].startTime == now
      && (t != idle ==> k.tasks[t].unused)
  {
  }

  lemma {:induction false} SliceKeeps(k: Kernel, h: Timer, yielded: bool, e: Step)
    requires Inv(k) && Enabled(k, e) && TimerOk(k, h) && SliceOk(k, h, yielded) && Clear(Next(k, e)) && !StepWraps(k, e)
    ensures SliceOk(Next(k, e), After(h, k, e), Yielded(yielded, e))
  {
    if e.TickInterrupt? {
      if e.locked {
        LockedTickSlice(k, h, e);
      }
    } else if e.TimerStart? || e.TimerStop? {
      TimerStepSlice(k, h, e);
    } else if e.Switch? {
      SwitchSlice(k, h, e);
    } else if Actor(k, e).Some? {
      if !e.Yield? {
        OwnSlice(k, e);
      }
    } else {
      hide Inv;
    }
  }

  ghost predicate SliceRun(k: Kernel, h: Timer, yielded: bool, es: seq<Step>, r: Kernel, h': Timer, yielded': bool)
    requires Inv(k)
    decreases |es|
  {
    if es == [] then r == k && h' == h && yielded' == yielded
    else
      && Enabled(k, es[0]) && Clear(Next(k, es[0])) && !StepWraps(k, es[0])
      && (NextKeeps(k, es[0]);
          SliceRun(Next(k, es[0]), After(h, k, es[0]), Yielded(yielded, es[0]), es[1..], r, h', yielded'))
  }

  lemma {:induction false} SliceRunKeeps(k: Kernel, h: Timer, yielded: bool, es: seq<Step>, r: Kernel, h': Timer, yielded': bool)
    requires Inv(k) && TimerOk(k, h) && SliceOk(k, h, yielded) && SliceRun(k, h, yielded, es, r, h', yielded')
    ensures Inv(r) && TimerOk(r, h') && SliceOk(r, h', yielded')
    decreases |es|
  {
    hide Inv, TimerOk, SliceOk, Next, Enabled, Clear, StepWraps, After;
    if es != [] {
      NextKeeps(k, es[0]);
      TimerKeeps(k, h, es[0]);
      SliceKeeps(k, h, yielded, es[0]);
      SliceRunKeeps(Next(k, es[0]), After(h, k, es[0]), Yielded(yielded, es[0]), es[1..], r, h', yielded');
    }
  }

  /** On every such run from boot no slice is forgotten. */
  lemma {:induction false} NoSliceForgotten(cfg: Config, n: nat, idle: nat, waits: set<nat>, now: nat, cap: nat,
                                            es: seq<Step>, r: Kernel, h: Timer, yielded: bool)
    requires cfg.Valid() && idle < n && now + 2 * cfg.precision < MAX_TIME
    ensures Inv(Boot(cfg, n, idle, waits, now, cap))
    ensures var k := Boot(cfg, n, idle, waits, now, cap);
      SliceRun(k, Timer(k.tick.time, false), false, es, r, h, yielded) ==>
        && Inv(r)
        && (r.run != r.idle && !h.fired && !yielded ==>
              h.at < Max(SliceEnd(r), r.now + r.cfg.precision) + r.cfg.minPeriod + r.cfg.precision)
  {
    var k := Boot(cfg, n, idle, waits, now, cap);
    Safety(cfg, n, idle, waits, now, cap, [], k);
    BootOk(cfg, n, idle, waits, now, cap);
    assert k.run == k.idle;
    hide Boot, TimerOk, SliceRun;
    if SliceRun(k, Timer(k.tick.time, false), false, es, r, h, yielded) {
      SliceRunKeeps(k, Timer(k.tick.time, false), false, es, r, h, yielded);
    }
  }
}

/** The tick interrupt is never armed past a pending deadline by more than the precision. */
module TickArming {
  import opened Basics
  import opened TickTimer
  import opened Deadlines
  import opened Queues
  import SortLinks
  import opened Sched
  import opened Machine

  function Max(a: int, b: int): (m: int) { if a < b then b else a }

  /** A response time that serves deadline `d` as early as the precision allows. */
  ghost predicate Serves(time: int, d: int, now: nat, precision: nat) {
    time < Max(d, now + precision) + precision
  }

  ghost predicate ServesAll(time: int, times: seq<nat>, now: nat, precision: nat) {
    forall i :: 0 <= i < |times| ==> Serves(time, times[i], now, precision)
  }

  ghost predicate Later(time: int, times: seq<nat>) {
    forall i :: 0 <= i < |times| ==> time < times[i]
  }

  /** The cycle counter is far from its end. */
  ghost predicate Horizon(times: seq<nat>, now: nat, precision: nat) {
    && now + 2 * precision < MAX_TIME
    && forall i :: 0 <= i < |times| ==> times[i] + precision < MAX_TIME
  }

  lemma {:induction false} LinkExpireBound(times: seq<nat>, now: nat, precision: nat)
    requires Sorted(times) && Horizon(times, now, precision)
    ensures var e := LinkExpire(times, now, precision);
      && now + precision <= e <= MAX_TIME - precision
      && (forall i :: 0 <= i < |times| ==> e <= Max(times[i], now + precision))
      && (e > now + precision ==> forall i :: 0 <= i < |times| ==> e <= times[i])
  {
  }

  // ------------------------------------------------------------ OsSchedSetNextExpireTime

  function NextOf(end: int, expire: int, cfg: Config): (n: int) {
    if ForSlice(expire, end, cfg) then end else expire
  }

  /** The call does not return early. */
  predicate Rearms(tick: Tick, end: int, expire: int, cfg: Config) {
    var next := NextOf(end, expire, cfg);
    tick.time > next && tick.time - next >= cfg.precision
  }

  /** The tick is re-armed for a slice that is already over: the subtraction of the current time wraps. */
  predicate Wraps(tick: Tick, end: int, expire: int, now: nat, cfg: Config) {
    end < now && ForSlice(expire, end, cfg) && Rearms(tick, end, expire, cfg)
  }

  /** The time for which the hardware timer is loaded, if it is. */
  function Loaded(tick: Tick, end: int, expire: int, now: nat, cfg: Config, cap: nat): (at: Option<nat>) {
    if !Rearms(tick, end, expire, cfg) then None
    else
      var delta := (NextOf(end, expire, cfg) - now) % U64;
      Some(now + Reload(if delta < cfg.precision then cfg.precision else delta, cap))
  }

  ghost predicate Settled(tasks: seq<nat>, timers: seq<nat>, now: nat, cfg: Config) {
    && cfg.Valid() && Sorted(tasks) && Sorted(timers)
    && Horizon(tasks, now, cfg.precision) && Horizon(timers, now, cfg.precision)
  }

  lemma {:induction false} NextExpireBound(tasks: seq<nat>, timers: seq<nat>, now: nat, cfg: Config)
    requires Settled(tasks, timers, now, cfg)
    ensures var e := NextExpire(tasks, timers, now, cfg.precision);
      && now + cfg.precision <= e <= MAX_TIME - cfg.precision
      && (forall i :: 0 <= i < |tasks| ==> e <= Max(tasks[i], now + cfg.precision))
      && (forall i :: 0 <= i < |timers| ==> e <= Max(timers[i], now + cfg.precision))
      && (e > now + cfg.precision ==>
            (forall i :: 0 <= i < |tasks| ==> e <= tasks[i]) && (forall i :: 0 <= i < |timers| ==> e <= timers[i]))
  {
    LinkExpireBound(tasks, now, cfg.precision);
    LinkExpireBound(timers, now, cfg.precision);
    hide LinkExpire, Horizon, Sorted;
  }

  /** Unless the subtraction wraps: the response time serves every deadline of both sort links, is what
      the hardware timer was loaded with if it was loaded, and the tick then belongs to nobody or to
      the given task. */
  lemma {:induction false} ArmServes(tick: Tick, id: nat, end: int, tasks: seq<nat>, timers: seq<nat>,
                                     now: nat, cfg: Config, cap: nat)
    requires Settled(tasks, timers, now, cfg)
    requires !Wraps(tick, end, NextExpire(tasks, timers, now, cfg.precision), now, cfg)
    ensures var e := NextExpire(tasks, timers, now, cfg.precision);
      var r := SetNextExpire(tick, id, end, e, now, cfg, cap);
      && ServesAll(r.time, tasks, now, cfg.precision) && ServesAll(r.time, timers, now, cfg.precision)
      && r.time < MAX_TIME
      && (if Loaded(tick, end, e, now, cfg, cap).Some?
          then r.time == Loaded(tick, end, e, now, cfg, cap).value && (r.owner == None || r.owner == Some(id))
          else r == tick)
      && (tick.time == MAX_TIME ==> Loaded(tick, end, e, now, cfg, cap).Some?)
  {
    NextExpireBound(tasks, timers, now, cfg);
    hide NextExpire, Settled, SetNextExpire, Loaded, Wraps;
    ArmLoads(tick, id, end, NextExpire(tasks, timers, now, cfg.precision), now, cfg, cap);
  }

  lemma {:induction false} ArmLoads(tick: Tick, id: nat, end: int, e: int, now: nat, cfg: Config, cap: nat)
    requires cfg.Valid() && now + cfg.precision <= e <= MAX_TIME - cfg.precision && now + 2 * cfg.precision < MAX_TIME
    requires !Wraps(tick, end, e, now, cfg)
    ensures var r := SetNextExpire(tick, id, end, e, now, cfg, cap);
      && r.time < e + cfg.precision && r.time < MAX_TIME
      && (if Loaded(tick, end, e, now, cfg, cap).Some?
          then r.time == Loaded(tick, end, e, now, cfg, cap).value && (r.owner == None || r.owner == Some(id))
          else r == tick)
      && (tick.time == MAX_TIME ==> Loaded(tick, end, e, now, cfg, cap).Some?)
  {
    if Rearms(tick, end, e, cfg) {
      var next := NextOf(end, e, cfg);
      assert now <= next <= e && (next - now) % U64 == next - now;
    }
  }

  /** When the tick is armed for the end of a slice, every deadline lies behind the armed time:
      the tick that skips the scan misses none. */
  lemma {:induction false} SliceTickMissesNone(tick: Tick, id: nat, end: int, tasks: seq<nat>, timers: seq<nat>,
                                               now: nat, cfg: Config, cap: nat)
    requires Settled(tasks, timers, now, cfg) && now <= end
    requires Rearms(tick, end, NextExpire(tasks, timers, now, cfg.precision), cfg)
    ensures var r := SetNextExpire(tick, id, end, NextExpire(tasks, timers, now, cfg.precision), now, cfg, cap);
      r.owner.Some? ==> Later(r.time, tasks) && Later(r.time, timers)
  {
    NextExpireBound(tasks, timers, now, cfg);
    var e := NextExpire(tasks, timers, now, cfg.precision);
    hide NextExpire, Settled;
    assert ForSlice(e, end, cfg) ==> (end - now) % U64 == end - now;
  }

  /** With a deadline pending, the call serves every deadline on every timer hardware exactly if it does
      not re-arm the tick for a slice that is already over. */
  lemma {:induction false} ArmExact(tick: Tick, id: nat, end: int, tasks: seq<nat>, timers: seq<nat>,
                                    now: nat, cfg: Config)
    requires Settled(tasks, timers, now, cfg) && 0 <= end && tasks + timers != []
    ensures var e := NextExpire(tasks, timers, now, cfg.precision);
      (forall cap: nat :: var r := SetNextExpire(tick, id, end, e, now, cfg, cap);
                          ServesAll(r.time, tasks, now, cfg.precision) && ServesAll(r.time, timers, now, cfg.precision))
      <==> !Wraps(tick, end, e, now, cfg)
  {
    var e := NextExpire(tasks, timers, now, cfg.precision);
    if Wraps(tick, end, e, now, cfg) {
      WrapLoses(tick, id, end, tasks, timers, now, cfg);
    } else {
      forall cap: nat ensures var r := SetNextExpire(tick, id, end, e, now, cfg, cap);
          ServesAll(r.time, tasks, now, cfg.precision) && ServesAll(r.time, timers, now, cfg.precision)
      {
        ArmServes(tick, id, end, tasks, timers, now, cfg, cap);
      }
    }
  }

  /** With a timer that accepts long periods a wrapped one serves no deadline at all. */
  lemma {:induction false} WrapLoses(tick: Tick, id: nat, end: int, tasks: seq<nat>, timers: seq<nat>,
                                     now: nat, cfg: Config)
    requires Settled(tasks, timers, now, cfg) && 0 <= end && tasks + timers != []
    requires Wraps(tick, end, NextExpire(tasks, timers, now, cfg.precision), now, cfg)
    ensures var e := NextExpire(tasks, timers, now, cfg.precision);
      var r := SetNextExpire(tick, id, end, e, now, cfg, MAX_TIME - 1 - now);
      !(ServesAll(r.time, tasks, now, cfg.precision) && ServesAll(r.time, timers, now, cfg.precision))
  {
    var e := NextExpire(tasks, timers, now, cfg.precision);
    var r := SetNextExpire(tick, id, end, e, now, cfg, MAX_TIME - 1 - now);
    hide NextExpire, Sorted;
    assert (end - now) % U64 == end - now + U64;
    assert r.time == MAX_TIME - 1;
    if tasks != [] {
      assert !Serves(r.time, tasks[0], now, cfg.precision);
    } else {
      assert !Serves(r.time, timers[0], now, cfg.precision);
    }
  }

  // ------------------------------------------------------------ in the machine

  ghost predicate Clear(k: Kernel) {
    && Horizon(SortLinks.Times(k.s), k.now, k.cfg.precision)
    && Horizon(k.timers, k.now, k.cfg.precision)
  }

  /** The response time serves every deadline of both sort links. */
  ghost predicate Served(time: int, k: Kernel) {
    && ServesAll(time, SortLinks.Times(k.s), k.now, k.cfg.precision)
    && ServesAll(time, k.timers, k.now, k.cfg.precision)
  }

  function Expires(k: Kernel): (t: int) { NextExpire(SortLinks.Times(k.s), k.timers, k.now, k.cfg.precision) }

  /** The end that OsSchedTaskSwitch and OsSchedUpdateExpireTime pass on; the idle task has none. */
  function EndOf(k: Kernel, end: int): (e: int) { if k.run == k.idle then MAX_TIME - k.cfg.precision else end }

  /** The end of the running task's slice, a full one if it is used up. */
  function SliceEnd(k: Kernel): (e: int)
    requires k.run < |k.tasks|
  {
    var x := k.tasks[k.run];
    x.startTime + if x.timeSlice <= k.cfg.sliceMin then k.cfg.slice else x.timeSlice
  }

  predicate WrapsAt(k: Kernel, end: int) { Wraps(k.tick, EndOf(k, end), Expires(k), k.now, k.cfg) }

  function LoadedAt(k: Kernel, end: int, cap: nat): (at: Option<nat>) {
    Loaded(k.tick, EndOf(k, end), Expires(k), k.now, k.cfg, cap)
  }

  lemma {:induction false} TimesSorted(k: Kernel)
    requires Inv(k) && Clear(k) && Sorted(k.timers)
    ensures Settled(SortLinks.Times(k.s), k.timers, k.now, k.cfg)
  {
  }

  lemma {:induction false} ArmOk(k: Kernel, end: int, cap: nat)
    requires Inv(k) && Clear(k) && Sorted(k.timers) && !WrapsAt(k, end)
    ensures var r := Arm(k, end, cap);
      && Served(r.tick.time, r) && r.tick.time < MAX_TIME
      && (if LoadedAt(k, end, cap).Some?
          then r.tick.time == LoadedAt(k, end, cap).value && (r.tick.owner == None || r.tick.owner == Some(k.run))
          else r.tick == k.tick)
      && (k.tick.time == MAX_TIME ==> LoadedAt(k, end, cap).Some?)
  {
    TimesSorted(k);
    hide Inv, Clear, SetNextExpire, NextExpire, ServesAll, Loaded, Wraps, Sorted, Settled, SortLinks.Times;
    ArmServes(k.tick, k.run, EndOf(k, end), SortLinks.Times(k.s), k.timers, k.now, k.cfg, cap);
  }

  lemma {:induction false} ArmLater(k: Kernel, end: int, cap: nat)
    requires Inv(k) && Clear(k) && Sorted(k.timers) && k.now <= EndOf(k, end)
    requires k.tick.time == MAX_TIME || k.tick.owner == None
    ensures var r := Arm(k, end, cap);
      r.tick.owner.Some? ==> Later(r.tick.time, SortLinks.Times(r.s)) && Later(r.tick.time, r.timers)
  {
    TimesSorted(k);
    NextExpireBound(SortLinks.Times(k.s), k.timers, k.now, k.cfg);
    hide Inv, Clear, NextExpire, Sorted, Settled, SortLinks.Times, Later;
    if Rearms(k.tick, EndOf(k, end), Expires(k), k.cfg) {
      SliceTickMissesNone(k.tick, k.run, EndOf(k, end), SortLinks.Times(k.s), k.timers, k.now, k.cfg, cap);
    }
  }

  /** The state in which starting or stopping a software timer arms the tick. */
  function BeforeArm(k: Kernel, e: Step): (m: Kernel)
    requires e.TimerStart? || (e.TimerStop? && e.i < |k.timers|)
  {
    if e.TimerStart? then
      var pos := InsertPos(k.timers, e.d);
      k.(timers := k.timers[..pos] + [e.d] + k.timers[pos..])
    else k.(tick := Reset(k.tick, k.timers[e.i]), timers := k.timers[..e.i] + k.timers[e.i + 1..])
  }

  lemma {:induction false} BeforeArmOk(k: Kernel, e: Step)
    requires Inv(k) && Enabled(k, e) && Sorted(k.timers) && (e.TimerStart? || e.TimerStop?)
    ensures var m := BeforeArm(k, e);
      && Inv(m) && Sorted(m.timers) && m == k.(tick := m.tick, timers := m.timers)
      && m.run < |m.tasks| && m.cfg.Valid()
      && Next(k, e) == UpdateExpire(m, e.cap)
      && (m.tick == k.tick || m.tick == k.tick.(time := MAX_TIME))
  {
    hide QueuesOk, SortLinks.Valid, UpdateExpire;
    if e.TimerStart? {
      InsertKeepsSorted(k.timers, e.d);
    } else {
      RemoveKeepsSorted(k.timers, e.i);
    }
    SameLists(k, BeforeArm(k, e));
  }

  /** A step that re-arms the tick for a slice that is already over. */
  ghost predicate StepWraps(k: Kernel, e: Step)
    requires Inv(k) && Enabled(k, e)
  {
    (e.TimerStart? || e.TimerStop?) && WrapsAt(BeforeArm(k, e), SliceEnd(BeforeArm(k, e)))
  }

  /** What starting or stopping a timer does to the tick, for any timer hardware. */
  lemma {:induction false} TimerStepExact(k: Kernel, e: Step)
    requires Inv(k) && Enabled(k, e) && Sorted(k.timers) && (e.TimerStart? || e.TimerStop?)
    requires Clear(BeforeArm(k, e)) && SortLinks.Times(k.s) + BeforeArm(k, e).timers != []
    ensures (forall cap: nat :: var r := UpdateExpire(BeforeArm(k, e), cap); Served(r.tick.time, r)) <==> !StepWraps(k, e)
  {
    hide Inv, Next, BeforeArm, NextExpire, SetNextExpire, Sorted, SortLinks.Times, ServesAll, Settled, Wraps;
    BeforeArmOk(k, e);
    var m := BeforeArm(k, e);
    TimesSorted(m);
    ArmExact(m.tick, m.run, EndOf(m, SliceEnd(m)), SortLinks.Times(m.s), m.timers, m.now, m.cfg);
    forall cap: nat ensures UpdateExpire(m, cap).tick == SetNextExpire(m.tick, m.run, EndOf(m, SliceEnd(m)), Expires(m), m.now, m.cfg, cap) {
    }
  }

  /** OsSchedTaskSwitch leaves the response time serving every deadline, whatever it was before, and if
      the tick is then armed for the new task's slice, every deadline is later than the armed time. */
  lemma {:induction false} SwitchArms(k: Kernel, cap: nat)
    requires Inv(k) && DeadlineFits(k) && Sorted(k.timers) && Clear(SwitchTask(k, cap))
    ensures var r := SwitchTask(k, cap);
      && Served(r.tick.time, r) && r.tick.time < MAX_TIME
      && (k.tick.owner == None || k.tick.owner == Some(k.run) ==>
            (r.tick.owner == None || r.tick.owner == Some(r.run)) &&
            (r.tick.owner.Some? ==> Later(r.tick.time, SortLinks.Times(r.s)) && Later(r.tick.time, r.timers)))
  {
    hide QueuesOk, SortLinks.Valid, Dispatch, SortLinks.Times, Serves, Arm, Wraps, Loaded;
    var n := Dispatch(k);
    var end := n.now + n.tasks[n.run].timeSlice;
    assert Clear(n);
    NotWrapped(n, end);
    ArmOk(n, end, cap);
    if k.tick.owner == None || k.tick.owner == Some(k.run) {
      ArmLater(n, end, cap);
    }
  }

  lemma {:induction false} NotWrapped(k: Kernel, end: int)
    requires Clear(k) && (k.run != k.idle ==> k.now <= end)
    ensures k.now <= EndOf(k, end) && !WrapsAt(k, end)
  {
  }

  /** So do starting and stopping a software timer, unless the slice is over, and a tick with scheduling
      locked. */
  lemma {:induction false} TimerStepArms(k: Kernel, e: Step)
    requires Inv(k) && Enabled(k, e) && Sorted(k.timers) && (e.TimerStart? || e.TimerStop?)
    requires Clear(Next(k, e)) && !StepWraps(k, e)
    ensures Served(Next(k, e).tick.time, Next(k, e)) && Next(k, e).tick.time < MAX_TIME
  {
    hide Inv, Next, BeforeArm, NextExpire, SetNextExpire, Sorted, SortLinks.Times, ServesAll, Wraps, Loaded;
    BeforeArmOk(k, e);
    var m := BeforeArm(k, e);
    ArmOk(m, SliceEnd(m), e.cap);
  }

  /** The state in which a tick with scheduling locked arms the tick again. */
  lemma {:induction false} LockedTick(k: Kernel, timers: seq<nat>, cap: nat)
    requires Inv(k) && Sorted(k.timers) && Sorted(timers) && Clear(HandleTick(k, true, timers, cap))
    ensures var m := HandleTick(k, false, timers, cap);
      && Inv(m) && Sorted(m.timers) && Clear(m) && m.tick.time == MAX_TIME && m.tick.owner == k.tick.owner && m.run == k.run
      && m.run < |m.tasks|
      && !WrapsAt(m, SliceEnd(m)) && HandleTick(k, true, timers, cap) == UpdateExpire(m, cap)
  {
    hide QueuesOk, SortLinks.Valid, Scan, SortLinks.Times;
    TickKeeps(k, false, timers, cap);
  }

  lemma {:induction false} LockedTickArms(k: Kernel, timers: seq<nat>, cap: nat)
    requires Inv(k) && Sorted(k.timers) && Sorted(timers) && Clear(HandleTick(k, true, timers, cap))
    ensures var r := HandleTick(k, true, timers, cap); Served(r.tick.time, r) && r.tick.time < MAX_TIME
  {
    hide Inv, HandleTick, Clear, SetNextExpire, NextExpire, Sorted, SortLinks.Times, ServesAll, Loaded;
    LockedTick(k, timers, cap);
    var m := HandleTick(k, false, timers, cap);
    ArmOk(m, SliceEnd(m), cap);
  }
}

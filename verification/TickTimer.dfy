/** Arming the tick interrupt from the earliest deadline and the running task's slice. */
module TickTimer {
  import opened Basics

  /** OS_SORT_LINK_INVALID_TIME, OS_SORT_LINK_UINT64_MAX and OS_SCHED_MAX_RESPONSE_TIME. */
  const MAX_TIME := 0xFFFF_FFFF_FFFF_FFFF

  /** Time base of the scheduler, in cycles. */
  datatype Config = Config(slice: int, sliceMin: int, minPeriod: nat, precision: nat,
                           sysClock: nat, ticksPerSecond: nat)
  {
    /** What SchedTimeBaseInit establishes for every usable clock. */
    ghost predicate Valid() {
      && 0 <= sliceMin < slice
      && 0 < precision <= minPeriod
      && 0 < sysClock && 0 < ticksPerSecond
    }

    function TicksToCycles(ticks: nat): (c: nat)
      requires ticksPerSecond > 0
    {
      (ticks * sysClock) / ticksPerSecond
    }
  }

  /** OS_SYS_TICK_TO_CYCLE counts the whole cycles in that many ticks. */
  lemma {:induction false} TicksToCyclesExact(cfg: Config, ticks: nat)
    requires cfg.ticksPerSecond > 0
    ensures var c := cfg.TicksToCycles(ticks);
      c * cfg.ticksPerSecond <= ticks * cfg.sysClock < (c + 1) * cfg.ticksPerSecond
  {
    var n := ticks * cfg.sysClock;
    assert n == n / cfg.ticksPerSecond * cfg.ticksPerSecond + n % cfg.ticksPerSecond;
  }

  /** SchedTimeBaseInit for a clock, with the configured shortest tick, slice and tick rate. */
  function TimeBase(sysClock: nat, mini: nat, sliceUs: nat, ticksPerSecond: nat): (cfg: Config)
    requires mini > 0
  {
    Config(sysClock * sliceUs / 1_000_000, sysClock * 50 / 1_000_000, sysClock / mini, sysClock / mini * 75 / 100,
           sysClock, ticksPerSecond)
  }

  /** The time base is usable exactly if the shortest tick has at least two cycles and a slice is, in
      cycles, longer than the shortest slice of 50 microseconds. */
  lemma {:induction false} TimeBaseValid(sysClock: nat, mini: nat, sliceUs: nat, ticksPerSecond: nat)
    requires mini > 0 && ticksPerSecond > 0
    ensures TimeBase(sysClock, mini, sliceUs, ticksPerSecond).Valid() <==>
            sysClock / mini >= 2 && sysClock * 50 / 1_000_000 < sysClock * sliceUs / 1_000_000
  {
    var m := sysClock / mini;
    assert m * 75 / 100 > 0 <==> m >= 2;
    assert m * 75 / 100 <= m;
    assert sysClock == 0 ==> m == 0;
  }

  /** What the values are: the whole cycles in a slice, in 50 microseconds and in the shortest tick, and three
      quarters of the last as the precision. */
  lemma {:induction false} TimeBaseExact(sysClock: nat, mini: nat, sliceUs: nat, ticksPerSecond: nat)
    requires mini > 0
    ensures var c := TimeBase(sysClock, mini, sliceUs, ticksPerSecond);
      && c.slice * 1_000_000 <= sysClock * sliceUs < (c.slice + 1) * 1_000_000
      && c.sliceMin * 1_000_000 <= sysClock * 50 < (c.sliceMin + 1) * 1_000_000
      && c.minPeriod * mini <= sysClock < (c.minPeriod + 1) * mini
      && c.precision * 4 <= c.minPeriod * 3 < (c.precision + 1) * 4
      && c.sysClock == sysClock && c.ticksPerSecond == ticksPerSecond
  {
    var m := sysClock / mini;
    assert sysClock == m * mini + sysClock % mini;
    assert (m + 1) * mini == m * mini + mini;
    assert m * 75 / 100 == m * 3 / 4;
  }

  /** g_schedResponseTime and g_schedResponseID; `None` is OS_INVALID. */
  datatype Tick = Tick(time: nat, owner: Option<nat>)

  ghost predicate Sorted(times: seq<nat>) {
    forall i, j :: 0 <= i < j < |times| ==> times[i] <= times[j]
  }

  /** The next time the deadlines in one sort link ask for. */
  function LinkExpire(times: seq<nat>, now: nat, precision: nat): (t: int)
  {
    if times == [] then MAX_TIME - precision
    else if times[0] <= now + precision then now + precision
    else times[0]
  }

  function NextExpire(tasks: seq<nat>, timers: seq<nat>, now: nat, precision: nat): (t: int)
  {
    var a := LinkExpire(tasks, now, precision);
    var b := LinkExpire(timers, now, precision);
    if a < b then a else b
  }

  /** The hardware timer accepts at most `cap` cycles and reports what it was loaded with. */
  function Reload(period: nat, cap: nat): (p: nat)
    ensures p <= period
  {
    if period < cap then period else cap
  }

  predicate ForSlice(next: int, end: int, cfg: Config) {
    next > end && next - end > cfg.minPeriod
  }

  /** OsSchedSetNextExpireTime; times are 64-bit words. */
  function SetNextExpire(tick: Tick, id: nat, end: int, expire: int, now: nat, cfg: Config, cap: nat): (r: Tick)
  {
    var slice := ForSlice(expire, end, cfg);
    var next := if slice then end else expire;
    if tick.time <= next || tick.time - next < cfg.precision then tick
    else
      var delta := (next - now) % U64;
      Tick((now + Reload(if delta < cfg.precision then cfg.precision else delta, cap)) % U64,
           if slice then Some(id) else None)
  }

  /** OsSchedResetSchedResponseTime. */
  function Reset(tick: Tick, time: nat): (r: Tick)
  {
    if time <= tick.time then tick.(time := MAX_TIME) else tick
  }
}

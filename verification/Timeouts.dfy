/** A wait ends once, and no wait or delay ends early. */
module Timeouts {
  import opened TickTimer
  import opened Queues
  import SortLinks
  import opened Sched
  import opened Machine
  import opened Frames

  // ------------------------------------------------------------ a wait ends once

  /** How often OsSchedWakePendTimeTask sets TIMEOUT for `t` during one scan. */
  function TimeoutsOf(k: Kernel, t: nat): (n: nat)
    requires Inv(k)
    decreases |k.s.order|
  {
    if k.s.order == [] || SortLinks.DueOf(k.s.due, k.s.order[0]) > k.now then 0
    else
      ScanOneKeeps(k);
      ScanOneEffect(k);
      (if k.s.order[0] == t && k.tasks[t].pend then 1 else 0) + TimeoutsOf(ScanOne(k), t)
  }

  lemma {:induction false} TimeoutsOnce(k: Kernel, t: nat)
    requires Inv(k) && t < |k.tasks|
    ensures TimeoutsOf(k, t) == if Due(k, t) && k.tasks[t].pend then 1 else 0
    decreases |k.s.order|
  {
    if k.s.order == [] || SortLinks.DueOf(k.s.due, k.s.order[0]) > k.now {
      assert forall i :: 0 <= i < |k.s.order| ==> SortLinks.DueOf(k.s.due, k.s.order[i]) > k.now;
    } else {
      var k1 := ScanOne(k);
      assert k.s.order[0] in k.s.order;
      ScanOneKeeps(k);
      ScanOneEffect(k);
      TimeoutsOnce(k1, t);
      if t != k.s.order[0] {
        assert SameTask(k, k1, t);
      }
    }
  }

  datatype End = NotEnded | Woken | Expired

  /** How often a task waited and how its waits ended; `last` is how the latest wait ended, until
      the blocking call has returned. */
  datatype Ledger = Ledger(waits: nat, wakes: nat, timeouts: nat, exits: nat, last: End)

  function Account(k: Kernel, e: Step, led: seq<Ledger>): (r: seq<Ledger>)
    requires Inv(k) && Enabled(k, e) && |led| == |k.tasks|
    ensures |r| == |led|
  {
    match e
    case WaitOn(_, _) => led[k.run := led[k.run].(waits := led[k.run].waits + 1, last := NotEnded)]
    case WakeUp(t) => led[t := led[t].(wakes := led[t].wakes + 1, last := Woken)]
    case ExitTask(t) => if k.tasks[t].pend then led[t := led[t].(exits := led[t].exits + 1)] else led
    case Create(t, _) => led[t := led[t].(last := NotEnded)]
    case Recycle(t) => led[t := led[t].(last := NotEnded)]
    case Return => led[k.run := led[k.run].(last := NotEnded)]
    case TickInterrupt(_, _, _) =>
      if k.tick.owner.Some? then led
      else seq(|led|, t requires 0 <= t < |led| =>
                 var n := TimeoutsOf(k, t);
                 led[t].(timeouts := led[t].timeouts + n, last := if n > 0 then Expired else led[t].last))
    case _ => led
  }

  /** Every wait so far has ended exactly once, by a wake, a timeout or the end of the task,
      except the one in progress; and TIMEOUT is set exactly when a timeout ended it. */
  ghost predicate Balanced(x: Task, l: Ledger) {
    && l.waits == l.wakes + l.timeouts + l.exits + (if x.pend then 1 else 0)
    && (x.timeout <==> l.last == Expired)
  }

  ghost predicate AllBalanced(k: Kernel, led: seq<Ledger>) {
    |led| == |k.tasks| && forall t :: 0 <= t < |led| ==> Balanced(k.tasks[t], led[t])
  }

  lemma {:induction false} TickBalancesAt(k: Kernel, locked: bool, timers: seq<nat>, cap: nat, led: seq<Ledger>, t: nat)
    requires Inv(k) && |led| == |k.tasks| && t < |k.tasks| && Balanced(k.tasks[t], led[t]) && Sorted(timers)
    requires k.tick.owner.None?
    ensures t < |HandleTick(k, locked, timers, cap).tasks|
    ensures Balanced(HandleTick(k, locked, timers, cap).tasks[t], Account(k, TickInterrupt(locked, timers, cap), led)[t])
  {
    hide QueuesOk, SortLinks.Valid, HandleTick;
    TimeoutsOnce(k, t);
    assert TaskOk(k, t);
    TickTask(k, locked, timers, cap, t);
  }

  lemma {:induction false} ActorBalances(k: Kernel, e: Step, led: seq<Ledger>)
    requires Inv(k) && Enabled(k, e) && AllBalanced(k, led) && Actor(k, e).Some?
    ensures AllBalanced(Next(k, e), Account(k, e, led))
  {
    hide QueuesOk, SortLinks.Valid, Effect, Next;
    var t := Actor(k, e).value;
    NextIsEffect(k, e);
    assert TaskOk(k, t);
    EffectBits(k, t, e);
    assert Balanced(k.tasks[t], led[t]);
  }

  lemma {:induction false} TickBalances(k: Kernel, locked: bool, timers: seq<nat>, cap: nat, led: seq<Ledger>)
    requires Inv(k) && Sorted(timers) && AllBalanced(k, led)
    ensures AllBalanced(HandleTick(k, locked, timers, cap), Account(k, TickInterrupt(locked, timers, cap), led))
  {
    var e := TickInterrupt(locked, timers, cap);
    var r := HandleTick(k, locked, timers, cap);
    forall t | 0 <= t < |led| ensures t < |r.tasks| == |led| && Balanced(r.tasks[t], Account(k, e, led)[t]) {
      hide Inv, HandleTick;
      TickTask(k, locked, timers, cap, t);
      if k.tick.owner.None? {
        TickBalancesAt(k, locked, timers, cap, led, t);
      }
    }
  }

  lemma {:induction false} SwitchBalances(k: Kernel, cap: nat, led: seq<Ledger>)
    requires Inv(k) && DeadlineFits(k) && AllBalanced(k, led)
    ensures AllBalanced(SwitchTask(k, cap), led)
  {
    hide Inv, SwitchTask;
    SwitchFrame(k, cap);
  }

  lemma {:induction false} StepBalances(k: Kernel, e: Step, led: seq<Ledger>)
    requires Inv(k) && Enabled(k, e) && AllBalanced(k, led)
    ensures AllBalanced(Next(k, e), Account(k, e, led))
  {
    hide Inv, Effect, UpdateExpire, SwitchTask, HandleTick;
    if e.TickInterrupt? {
      TickBalances(k, e.locked, e.timers, e.cap, led);
    } else if e.Switch? {
      SwitchBalances(k, e.cap, led);
    } else if Actor(k, e).Some? {
      ActorBalances(k, e, led);
    }
  }

  ghost predicate CountedRun(k: Kernel, led: seq<Ledger>, es: seq<Step>, r: Kernel, led': seq<Ledger>)
    requires Inv(k) && |led| == |k.tasks|
    decreases |es|
  {
    if es == [] then r == k && led' == led
    else
      && Enabled(k, es[0])
      && (NextKeeps(k, es[0]); StepSize(k, es[0]);
          CountedRun(Next(k, es[0]), Account(k, es[0], led), es[1..], r, led'))
  }

  lemma {:induction false} StepSize(k: Kernel, e: Step)
    requires Inv(k) && Enabled(k, e)
    ensures |Next(k, e).tasks| == |k.tasks|
  {
  }

  lemma {:induction false} CountedRunKeeps(k: Kernel, led: seq<Ledger>, es: seq<Step>, r: Kernel, led': seq<Ledger>)
    requires Inv(k) && AllBalanced(k, led) && CountedRun(k, led, es, r, led')
    ensures Inv(r) && AllBalanced(r, led')
    decreases |es|
  {
    if es != [] {
      NextKeeps(k, es[0]);
      StepSize(k, es[0]);
      StepBalances(k, es[0], led);
      CountedRunKeeps(Next(k, es[0]), Account(k, es[0], led), es[1..], r, led');
    }
  }

  /** On every run from boot each wait is resolved exactly once. */
  lemma {:induction false} WaitsEndOnce(cfg: Config, n: nat, idle: nat, waits: set<nat>, now: nat, cap: nat,
                                        es: seq<Step>, r: Kernel, led: seq<Ledger>)
    requires cfg.Valid() && idle < n
    ensures Inv(Boot(cfg, n, idle, waits, now, cap))
    ensures CountedRun(Boot(cfg, n, idle, waits, now, cap), seq(n, _ => Ledger(0, 0, 0, 0, NotEnded)), es, r, led) ==>
              Inv(r) && AllBalanced(r, led)
  {
    var k := Boot(cfg, n, idle, waits, now, cap);
    var blank := seq(n, _ => Ledger(0, 0, 0, 0, NotEnded));
    Safety(cfg, n, idle, waits, now, cap, [], k);
    assert AllBalanced(k, blank);
    hide Inv, AllBalanced, Boot, CountedRun;
    if CountedRun(k, blank, es, r, led) {
      CountedRunKeeps(k, blank, es, r, led);
    }
  }

  /** A wake takes the task off its wait list and off the sort link and leaves TIMEOUT clear,
      whether or not the task had been switched away from. */
  lemma {:induction false} WakeEndsWait(k: Kernel, t: nat)
    requires Inv(k) && t < |k.tasks| && k.tasks[t].pend
    ensures Inv(Next(k, WakeUp(t)))
    ensures var r := Next(k, WakeUp(t));
      && |r.tasks| == |k.tasks|
      && !r.tasks[t].pend && !r.tasks[t].timeout && t !in r.s.order
      && (forall w :: WaitQ(w) in r.q.lists ==> t !in r.q.lists[WaitQ(w)])
      && (r.tasks[t].ready <==> !k.tasks[t].suspend && !k.tasks[t].running)
  {
    NextKeeps(k, WakeUp(t));
    assert TaskOk(k, t);
    assert TaskOk(Next(k, WakeUp(t)), t);
  }

  // ------------------------------------------------------------ nothing ends early

  /** Until time `d`, task `t` is delayed or in a timed wait that is not due before `d`. */
  ghost predicate HeldUntil(k: Kernel, t: nat, d: nat) {
    || k.now >= d
    || (&& t < |k.tasks| && t < |k.s.due| && k.cfg.ticksPerSecond > 0 && k.tasks[t].Timed()
        && (if k.tasks[t].running then k.now + k.cfg.TicksToCycles(k.tasks[t].waitTicks) >= d
            else k.s.due[t] >= d))
  }

  lemma {:induction false} SwitchHolds(k: Kernel, cap: nat, t: nat, d: nat)
    requires Inv(k) && DeadlineFits(k) && HeldUntil(k, t, d)
    ensures HeldUntil(SwitchTask(k, cap), t, d)
  {
    hide QueuesOk, SortLinks.Valid;
    if k.now < d {
      SwitchFrame(k, cap);
      EnterFrame(Leave(k));
      assert TaskOk(k, t);
      assert Quiet(k.tasks[t], SwitchTask(k, cap).tasks[t]);
      assert TaskOk(Enter(Leave(k)), t);
      if t == k.run {
        assert SwitchTask(k, cap).s.due[t] == k.now + k.cfg.TicksToCycles(k.tasks[t].waitTicks);
      }
    }
  }

  lemma {:induction false} TickHolds(k: Kernel, locked: bool, timers: seq<nat>, cap: nat, t: nat, d: nat)
    requires Inv(k) && HeldUntil(k, t, d)
    ensures HeldUntil(HandleTick(k, locked, timers, cap), t, d)
  {
    hide QueuesOk, SortLinks.Valid, UpdateExpire;
    if k.now < d {
      assert TaskOk(k, t);
      TickTask(k, locked, timers, cap, t);
      TickKeeps(k, locked, timers, cap);
      assert TaskOk(HandleTick(k, locked, timers, cap), t);
    }
  }

  lemma {:induction false} StepHolds(k: Kernel, e: Step, t: nat, d: nat)
    requires Inv(k) && Enabled(k, e) && HeldUntil(k, t, d)
    requires e != ExitTask(t) && e != WakeUp(t)
    ensures HeldUntil(Next(k, e), t, d)
  {
    hide QueuesOk, SortLinks.Valid, SwitchTask, HandleTick, UpdateExpire;
    if k.now < d {
      if e.Switch? {
        SwitchHolds(k, e.cap, t, d);
      } else if e.TickInterrupt? {
        TickHolds(k, e.locked, e.timers, e.cap, t, d);
      } else {
        EffectHolds(k, e, t, d);
      }
    }
  }

  lemma {:induction false} EffectHolds(k: Kernel, e: Step, t: nat, d: nat)
    requires Inv(k) && Enabled(k, e) && HeldUntil(k, t, d) && k.now < d && !e.Switch? && !e.TickInterrupt?
    requires e != ExitTask(t) && e != WakeUp(t)
    ensures HeldUntil(Next(k, e), t, d)
  {
    hide QueuesOk, SortLinks.Valid, UpdateExpire;
    assert TaskOk(k, t);
  }

  /** A task held until `d` is not ready before `d`, whatever else happens, unless its wait is
      ended by a wake or the task itself is ended. */
  lemma {:induction false} NeverEarly(k: Kernel, t: nat, d: nat, es: seq<Step>, r: Kernel)
    requires Inv(k) && HeldUntil(k, t, d) && Run(k, es, r)
    requires ExitTask(t) !in es && WakeUp(t) !in es
    ensures Inv(r) && HeldUntil(r, t, d)
    ensures t < |r.tasks| && (r.tasks[t].ready || !r.tasks[t].Timed()) ==> r.now >= d
    decreases |es|
  {
    hide QueuesOk, SortLinks.Valid;
    if es == [] {
      if k.now < d {
        assert TaskOk(k, t);
      }
    } else {
      NextKeeps(k, es[0]);
      StepHolds(k, es[0], t, d);
      NeverEarly(Next(k, es[0]), t, d, es[1..], r);
    }
  }

  /** A task that delays itself for `ticks` at time `k.now` is not ready before that many ticks
      have passed; a timed wait does not time out before. */
  lemma {:induction false} DelayNeverEarly(k: Kernel, e: Step, ticks: nat, es: seq<Step>, r: Kernel)
    requires Inv(k) && Enabled(k, e)
    requires e == DelayFor(ticks) || (e.WaitOn? && e.ticks == ticks != WAIT_FOREVER)
    requires Inv(Next(k, e)) && Run(Next(k, e), es, r)
    requires ExitTask(k.run) !in es && WakeUp(k.run) !in es
    ensures k.cfg.ticksPerSecond > 0 && k.run < |r.tasks|
    ensures r.tasks[k.run].ready || !r.tasks[k.run].Timed() ==> r.now >= k.now + k.cfg.TicksToCycles(ticks)
  {
    hide QueuesOk, SortLinks.Valid;
    assert TaskOk(k, k.run);
    NeverEarly(Next(k, e), k.run, k.now + k.cfg.TicksToCycles(ticks), es, r);
    RunSize(Next(k, e), es, r);
  }

  lemma {:induction false} RunSize(k: Kernel, es: seq<Step>, r: Kernel)
    requires Inv(k) && Run(k, es, r)
    ensures |r.tasks| == |k.tasks|
    decreases |es|
  {
    if es != [] {
      NextKeeps(k, es[0]);
      StepSize(k, es[0]);
      RunSize(Next(k, es[0]), es[1..], r);
    }
  }
}

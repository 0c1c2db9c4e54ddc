/** An event control block updated in place over the scheduler, proved against the event protocol. */
module EventObjects {
  import opened Lists
  import opened Queues
  import opened Sched
  import Machine
  import opened Blocking
  import opened Events
  import opened SchedulerImpl
  import Bitmaps

  /** LOS_EventPoll: the bits found and the event word left. */
  method EventPoll(id: bv32, mask: bv32, mode: bv32) returns (ret: bv32, left: bv32)
    ensures ret == Found(id, mask, mode) && left == Left(id, mask, mode)
  {
    hide AnyOf, AllOf, Has, Both, Sans;
    ret := 0;
    if Has(mode, WAITMODE_OR) {
      if AnyOf(id, mask) {
        ret := Both(id, mask);
      }
    } else {
      if mask != 0 && AllOf(id, mask) {
        ret := Both(id, mask);
      }
    }
    left := if ret != 0 && Has(mode, WAITMODE_CLR) then Sans(id, ret) else id;
  }

  /** OsEventReadParamCheck on an initialised control block. */
  method ReadParamCheck(mask: bv32, mode: bv32) returns (ret: Ret)
    ensures ret == CheckRet(mask, mode)
  {
    hide Has;
    if mask == 0 {
      return MaskInvalid;
    }
    if mask & ERRTYPE_ERROR != 0 {
      return SetbitInvalid;
    }
    if Has(mode, WAITMODE_OR) && Has(mode, WAITMODE_AND) {
      return FlagsInvalid;
    }
    if Has(mode, !(WAITMODE_OR | WAITMODE_AND | WAITMODE_CLR)) || !Has(mode, WAITMODE_OR | WAITMODE_AND) {
      return FlagsInvalid;
    }
    return Value(0);
  }

  class EventBlock {
    const sched: Scheduler
    const w: nat              // stEventList
    var id: bv32              // uwEventID
    ghost var calls: Calls    // who is inside a read

    ghost function Sys(): (s: System)
      reads this, sched, sched.tasks
    {
      System(sched.State(), calls, w, id)
    }

    /** LOS_EventInit. */
    constructor (sched: Scheduler, w: nat)
      requires Inv(sched.State()) && WaitQ(w) in sched.lists && sched.lists[WaitQ(w)] == []
      ensures this.sched == sched && this.w == w && id == 0 && EventInv(Sys())
    {
      this.sched, this.w, id := sched, w, 0;
      calls := Calls({}, {}, seq(sched.tasks.Length, _ => 0), 0);
    }

    method Poll(mask: bv32, mode: bv32) returns (ret: bv32)
      modifies this`id
      ensures ret == Found(old(id), mask, mode) && id == Left(old(id), mask, mode)
    {
      hide Found, Left;
      var left;
      ret, left := EventPoll(id, mask, mode);
      id := left;
    }

    /** The running task records what it waits for and joins the list. */
    method WaitFor(mask: bv32, mode: bv32, ticks: nat)
      requires EventInv(Sys()) && CanBlock(sched.State(), calls)
      modifies this`calls, sched, sched.tasks
      ensures Sys() == BlockRead(old(Sys()), mask, mode, ticks)
    {
      hide EventInv, Inv, Machine.Next, Machine.Enabled, Bitmaps.Bits, CanBlock;
      ReadFacts(Sys(), mask, mode, ticks);
      sched.Perform(Machine.SetEvent(mask, mode));
      calls := Blocked(sched.State(), calls);
      sched.Perform(Machine.WaitOn(w, ticks));
    }

    /** LOS_EventRead, up to the switch if it blocks. */
    method Read(mask: bv32, mode: bv32, ticks: nat, ctx: Context) returns (ret: Ret)
      requires EventInv(Sys()) && EventEnabled(Sys(), Step.Read(mask, mode, ticks, ctx))
      modifies this`id, this`calls, sched, sched.tasks
      ensures ret == ReadRet(old(id), mask, mode, ticks, ctx)
      ensures Sys() == EventNext(old(Sys()), Step.Read(mask, mode, ticks, ctx)) && EventInv(Sys())
    {
      hide EventInv, CheckRet, Found, Left, BlockRead, Bitmaps.Bits, CanBlock;
      EventKeeps(Sys(), Step.Read(mask, mode, ticks, ctx));
      NothingFound(id, mask, mode);
      CheckOnly(mask, mode);
      ret := ReadParamCheck(mask, mode);
      if ret != Value(0) {
        return;
      }
      if ctx.inInterrupt {
        return ReadInInterrupt;
      }
      if ctx.systemTask {
        return ReadInSystemTask;
      }
      var bits := Poll(mask, mode);
      if bits == 0 {
        if ticks == 0 {
          return Value(0);
        }
        if ctx.locked {
          return ReadInLock;
        }
        WaitFor(mask, mode, ticks);
        return Blocks;
      }
      ret := Value(bits);
    }

    /** LOS_EventRead, from the switch on. */
    method ReadReturn() returns (ret: Ret)
      requires EventInv(Sys()) && CanFinish(sched.State(), calls)
      modifies this`id, this`calls, sched, sched.tasks
      ensures var x := old(sched.tasks[sched.run]);
        ret == if old(sched.run in calls.granted) then Value(Found(old(id), x.eventMask, x.eventMode)) else ReadTimeout
      ensures Sys() == EventNext(old(Sys()), Finish) && EventInv(Sys())
    {
      hide EventInv, Inv, Found, Left, Machine.Next, Machine.Enabled, Bitmaps.Bits, CanFinish;
      ghost var s := Sys();
      ReturnFacts(s);
      EventKeeps(s, Finish);
      var x := sched.tasks[sched.run];
      calls := Finished(s.k, calls);
      sched.Perform(Machine.Return);
      if x.timeout {
        return ReadTimeout;
      }
      var bits := Poll(x.eventMask, x.eventMode);
      ret := Value(bits);
    }

    /** The loop of LOS_EventWrite over the waiters. */
    method WakeAll(events: bv32) returns (exitFlag: bool)
      requires WaitQ(w) in sched.lists && Loop(sched.State(), calls, w, sched.lists[WaitQ(w)])
      modifies this`calls, sched, sched.tasks
      ensures (sched.State(), calls) == WakeHits(old(sched.State()), old(calls), w, old(sched.lists[WaitQ(w)]), events, id)
      ensures exitFlag <==> AnyHit(old(sched.State()).tasks, old(sched.lists[WaitQ(w)]), events, id)
    {
      hide Inv, CallsOk, Machine.Next, Machine.Enabled, Hit, Bitmaps.Bits, AnyHit;
      var ts := sched.lists[WaitQ(w)];
      exitFlag := false;
      for i := 0 to |ts|
        invariant Loop(sched.State(), calls, w, ts[i..])
        invariant WakeHits(sched.State(), calls, w, ts[i..], events, id)
               == WakeHits(old(sched.State()), old(calls), w, ts, events, id)
        invariant exitFlag || AnyHit(sched.State().tasks, ts[i..], events, id) <==> AnyHit(old(sched.State()).tasks, ts, events, id)
      {
        var t := ts[i];
        assert ts[i..][0] == t && ts[i..][1..] == ts[i + 1..];
        LoopStep(sched.State(), calls, w, ts[i..], events, id);
        if Hit(sched.tasks[t], events, id) {
          exitFlag := true;
          sched.Perform(Machine.WakeUp(t));
          calls := Granted(calls, t);
        }
      }
      assert !AnyHit(sched.State().tasks, ts[|ts|..], events, id) by { NoneHit(sched.State().tasks, events, id); }
    }

    /** LOS_EventWrite; `needSched` asks for a switch. */
    method Write(events: bv32) returns (ret: Ret, needSched: bool)
      requires EventInv(Sys())
      modifies this`id, this`calls, sched, sched.tasks
      ensures ret == if Has(events, ERRTYPE_ERROR) then SetbitInvalid else Value(0)
      ensures Sys() == EventNext(old(Sys()), Step.Write(events)) && EventInv(Sys())
      ensures needSched <==> ret == Value(0) && AnyHolds(old(Sys()), Plus(old(id), events))
    {
      hide EventInv, Bitmaps.Bits, Has, WakeHits, Plus, AnyHit, AnyHolds;
      EventKeeps(Sys(), Step.Write(events));
      if Has(events, ERRTYPE_ERROR) {
        return SetbitInvalid, false;
      }
      WriteFacts(Sys());
      HitsHold(Sys(), events);
      id := Plus(id, events);
      needSched := false;
      if sched.lists[WaitQ(w)] != [] {
        needSched := WakeAll(events);
      } else {
        NoWaiters(sched.State(), calls, w, events, id);
        NoneHit(sched.State().tasks, events, id);
      }
      ret := Value(0);
    }

    /** LOS_EventClear: `mask` says which bits stay. */
    method Clear(mask: bv32)
      requires EventInv(Sys())
      modifies this`id
      ensures Sys() == EventNext(old(Sys()), Step.Clear(mask)) && EventInv(Sys())
    {
      hide EventInv, Bitmaps.Bits, Both;
      EventKeeps(Sys(), Step.Clear(mask));
      id := Both(id, mask);
    }
  }

  ghost predicate Loop(k: Kernel, c: Calls, w: nat, ts: seq<nat>) {
    && CallsOk(k, {w}, c) && WaitQ(w) in k.q.lists && NoDup(ts)
    && forall t :: t in ts ==> t in k.q.lists[WaitQ(w)]
  }

  /** Some of the tasks `ts` is hit. */
  ghost predicate AnyHit(tasks: seq<Task>, ts: seq<nat>, events: bv32, id: bv32) {
    exists t :: t in ts && t < |tasks| && Hit(tasks[t], events, id)
  }

  /** The condition of some waiter holds in the event word `id`. */
  ghost predicate AnyHolds(s: System, id: bv32) {
    exists t :: t in Waiters(s.k, s.w) && t < |s.k.tasks| && Holds(id, s.k.tasks[t].eventMask, s.k.tasks[t].eventMode)
  }

  lemma {:induction false} NoneHit(tasks: seq<Task>, events: bv32, id: bv32)
    ensures !AnyHit(tasks, [], events, id)
  {
  }

  lemma {:induction false} HitsHold(s: System, events: bv32)
    requires EventInv(s)
    ensures AnyHit(s.k.tasks, Waiters(s.k, s.w), events, Plus(s.id, events)) <==> AnyHolds(s, Plus(s.id, events))
  {
    hide CallsOk, Hit, Holds, Plus, Unsatisfied;
    HitIffHolds(s, events, Plus(s.id, events));
  }

  /** One turn of the loop. */
  lemma {:induction false} LoopStep(k: Kernel, c: Calls, w: nat, ts: seq<nat>, events: bv32, id: bv32)
    requires Loop(k, c, w, ts) && ts != []
    ensures var t := ts[0];
      && Inv(k) && t < |k.tasks| && Machine.Enabled(k, Machine.WakeUp(t)) && Loop(k, c, w, ts[1..])
      && var k' := Machine.Next(k, Machine.WakeUp(t));
      && Loop(k', Granted(c, t), w, ts[1..])
      && WakeHits(k, c, w, ts, events, id) ==
           (if Hit(k.tasks[t], events, id) then WakeHits(k', Granted(c, t), w, ts[1..], events, id)
            else WakeHits(k, c, w, ts[1..], events, id))
      && (AnyHit(k.tasks, ts, events, id) <==> Hit(k.tasks[t], events, id) || AnyHit(k.tasks, ts[1..], events, id))
      && (AnyHit(k'.tasks, ts[1..], events, id) <==> AnyHit(k.tasks, ts[1..], events, id))
  {
    hide Inv, Machine.Next, Hit, InOrder;
    var t := ts[0];
    assert t in ts && t !in ts[1..];
    WakeKeepsCalls(k, {w}, c, w, t);
  }

  lemma {:induction false} ReadFacts(s: System, mask: bv32, mode: bv32, ticks: nat)
    requires EventInv(s) && CanBlock(s.k, s.c)
    ensures Inv(s.k) && Machine.Enabled(s.k, Machine.SetEvent(mask, mode))
    ensures var k1 := Machine.Next(s.k, Machine.SetEvent(mask, mode));
      Inv(k1) && k1.run < |s.c.ticket| && Machine.Enabled(k1, Machine.WaitOn(s.w, ticks))
  {
    hide Inv, Machine.Next, Unsatisfied;
    SetEventKeeps(s, mask, mode);
    BlockKeeps(Machine.Next(s.k, Machine.SetEvent(mask, mode)), {s.w}, s.c, s.w, ticks);
  }

  lemma {:induction false} ReturnFacts(s: System)
    requires EventInv(s) && CanFinish(s.k, s.c)
    ensures Inv(s.k) && s.k.run < |s.k.tasks| && Machine.Enabled(s.k, Machine.Return)
    ensures s.k.tasks[s.k.run].timeout <==> s.k.run !in s.c.granted
  {
    hide Inv, Unsatisfied;
    FinishKeeps(s.k, {s.w}, s.c);
  }

  lemma {:induction false} NothingFound(id: bv32, mask: bv32, mode: bv32)
    ensures Found(id, mask, mode) == 0 ==> Left(id, mask, mode) == id
  {
    hide Found, Has;
  }

  lemma {:induction false} WriteFacts(s: System)
    requires EventInv(s)
    ensures WaitQ(s.w) in s.k.q.lists && Loop(s.k, s.c, s.w, s.k.q.lists[WaitQ(s.w)])
  {
    hide Inv, Unsatisfied;
    WaitersNoDup(s);
  }

  lemma {:induction false} CheckOnly(mask: bv32, mode: bv32)
    ensures CheckRet(mask, mode).Value? ==> CheckRet(mask, mode) == Value(0)
    ensures CheckRet(mask, mode) != Blocks
  {
    hide Has;
  }

  lemma {:induction false} NoWaiters(k: Kernel, c: Calls, w: nat, events: bv32, id: bv32)
    requires CallsOk(k, {w}, c) && WaitQ(w) in k.q.lists
    ensures WakeHits(k, c, w, [], events, id) == (k, c)
  {
    hide CallsOk;
  }
}

/** The table of mutex control blocks updated in place over the scheduler, proved against the mutex
    protocol. */
module MutexObjects {
  import opened Basics
  import opened Queues
  import opened Sched
  import Machine
  import opened Blocking
  import opened Mutexes
  import Inheritance
  import opened SchedulerImpl
  import Bitmaps

  class MutexTable {
    const sched: Scheduler
    const mux: array<Mux>            // g_allMux
    const wl: seq<nat>               // the lists muxList
    ghost var calls: Calls           // who is inside a pend
    ghost var net: seq<seq<nat>>     // acquisitions not yet released
    ghost var late: seq<set<nat>>    // who joined under the present owner
    ghost var base: seq<nat>

    ghost function Sys(): (s: System)
      reads this, sched, sched.tasks, mux
    {
      System(sched.State(), calls, wl, mux[..], net, late, base)
    }

    /** All control blocks unused, as OsMuxInit leaves them. */
    constructor (sched: Scheduler, wl: seq<nat>)
      requires Inv(sched.State())
      requires forall i, j :: 0 <= i < j < |wl| ==> wl[i] != wl[j]
      requires forall i :: 0 <= i < |wl| ==> WaitQ(wl[i]) in sched.lists && sched.lists[WaitQ(wl[i])] == []
      ensures this.sched == sched && this.wl == wl && fresh(mux) && Inheritance.AllFree(Sys())
      ensures forall x <- Sys().mux :: !x.used
    {
      this.sched, this.wl := sched, wl;
      mux := new Mux[|wl|](_ => Mux(false, 0, None, 0));
      calls := Calls({}, {}, seq(sched.tasks.Length, _ => 0), 0);
      net := seq(|wl|, _ => seq(sched.tasks.Length, _ => 0));
      late := seq(|wl|, _ => {});
      base := seq(sched.tasks.Length, t requires 0 <= t < sched.tasks.Length reads sched.tasks => sched.tasks[t].priority);
      new;
      hide Inv;
    }

    /** OsMuxValidCheck. */
    method ValidCheck(m: nat, ctx: Context) returns (ret: Ret)
      requires m < mux.Length
      ensures ret == if !mux[m].used then Invalid else if ctx.inInterrupt then InInterrupt
                     else if ctx.locked then PendInLock else if ctx.systemTask then PendInSystemTask else Ok
    {
      if !mux[m].used {
        return Invalid;
      }
      if ctx.inInterrupt {
        return InInterrupt;
      }
      if ctx.locked {
        return PendInLock;
      }
      if ctx.systemTask {
        return PendInSystemTask;
      }
      return Ok;
    }

    /** The mutex is free or the caller's own. */
    method TakeFree(m: nat, run: nat, priority: nat)
      requires m < mux.Length
      requires mux[m].count == 0 || mux[m].owner == Some(run)
      modifies mux
      ensures mux[..] == old(mux[..])[m := Acquire(old(mux[m]), run, priority)]
    {
      if mux[m].count == 0 {
        mux[m] := mux[m].(count := 1, owner := Some(run), priority := priority);
      } else {
        mux[m] := mux[m].(count := mux[m].count + 1);
      }
    }

    /** The owner inherits the caller's urgency and the caller joins the list. */
    method WaitFor(m: nat, ticks: nat)
      requires MutexInv(Sys()) && m < mux.Length && mux[m].owner.Some? && mux[m].owner != Some(sched.run)
      requires CanBlock(sched.State(), calls)
      modifies this, sched, sched.tasks
      ensures Sys() == PendBlocks(old(Sys()), m, ticks)
    {
      hide MutexInv, Inv, Machine.Next, Machine.Enabled, Bitmaps.Bits, CanBlock;
      ghost var s := Sys();
      var owner := mux[m].owner.value;
      BlockFacts(s, m, ticks);
      if sched.tasks[owner].priority > sched.tasks[sched.run].priority {
        sched.Perform(Machine.ChangePriority(owner, sched.tasks[sched.run].priority));
      }
      calls := Blocked(sched.State(), calls);
      late := late[m := late[m] + {sched.run}];
      sched.Perform(Machine.WaitOn(wl[m], ticks));
    }

    /** LOS_MuxPend, up to the switch if it blocks. */
    method Pend(m: nat, ticks: nat, ctx: Context) returns (ret: Ret)
      requires MutexInv(Sys()) && MutexEnabled(Sys(), Step.Pend(m, ticks, ctx))
      modifies this, mux, sched, sched.tasks
      ensures ret == if m < mux.Length then PendRet(old(mux[m]), old(sched.run), ticks, ctx) else Invalid
      ensures Sys() == MutexNext(old(Sys()), Step.Pend(m, ticks, ctx)) && MutexInv(Sys())
    {
      hide MutexInv, PendBlocks, Bitmaps.Bits, CanBlock;
      ghost var s := Sys();
      MutexKeeps(s, Step.Pend(m, ticks, ctx));
      if m >= mux.Length {
        return Invalid;
      }
      ret := ValidCheck(m, ctx);
      if ret != Ok {
        return;
      }
      PendFacts(s, m);
      var run := sched.run;
      if mux[m].count == 0 || mux[m].owner == Some(run) {
        if mux[m].count == 0 {
          late := late[m := {}];
        }
        TakeFree(m, run, sched.tasks[run].priority);
        net := Bump(net, m, run, net[m][run] + 1);
        return Ok;
      }
      if ticks == 0 {
        return Unavailable;
      }
      WaitFor(m, ticks);
      ret := Blocks;
    }

    /** LOS_MuxPend, from the switch on. */
    method PendReturn() returns (ret: Ret)
      requires MutexInv(Sys()) && CanFinish(sched.State(), calls)
      modifies this, sched, sched.tasks
      ensures ret == if old(sched.run in calls.granted) then Ok else Timeout
      ensures Sys() == MutexNext(old(Sys()), Finish) && MutexInv(Sys())
    {
      ghost var s := Sys();
      ReturnFacts(s);
      MutexKeeps(s, Finish);
      hide MutexInv, Inv, Machine.Next, Machine.Enabled, Bitmaps.Bits, CanFinish;
      ret := if sched.tasks[sched.run].timeout then Timeout else Ok;
      calls := Finished(s.k, calls);
      sched.Perform(Machine.Return);
    }

    /** The priority of `t` becomes `p`, if it is another. */
    method Restore(t: nat, p: nat)
      requires Inv(sched.State()) && Machine.Enabled(sched.State(), Machine.ChangePriority(t, p))
      modifies sched, sched.tasks
      ensures sched.State() == Reprioritise(old(sched.State()), t, p)
    {
      hide Inv, Machine.Next, Bitmaps.Bits;
      if sched.tasks[t].priority != p {
        sched.Perform(Machine.ChangePriority(t, p));
      }
    }

    /** The mutex goes to its first waiter. */
    method HandOn(m: nat, t: nat)
      requires m < mux.Length == |net| == |late| && t < sched.tasks.Length == |net[m]|
      requires Inv(sched.State()) && Machine.Enabled(sched.State(), Machine.WakeUp(t))
      modifies this, mux, sched, sched.tasks
      ensures var s := old(Sys());
        Sys() == s.(k := Machine.Next(s.k, Machine.WakeUp(t)), c := Granted(s.c, t),
                    mux := s.mux[m := s.mux[m].(count := 1, owner := Some(t), priority := s.k.tasks[t].priority)],
                    net := Bump(s.net, m, t, 1), late := s.late[m := {}])
    {
      hide Inv, Machine.Next, Machine.Enabled, Bitmaps.Bits;
      mux[m] := mux[m].(count := 1, owner := Some(t), priority := sched.tasks[t].priority);
      calls := Granted(calls, t);
      net := Bump(net, m, t, 1);
      late := late[m := {}];
      sched.Perform(Machine.WakeUp(t));
    }

    /** The last post of an owner. */
    method Release(m: nat) returns (needSched: bool)
      requires MutexInv(Sys()) && m < mux.Length && mux[m].owner == Some(sched.run) && mux[m].count == 1
      requires Machine.Executing(sched.State())
      modifies this, mux, sched, sched.tasks
      ensures Sys() == Released(old(Sys()), m)
      ensures needSched <==> old(sched.lists)[WaitQ(wl[m])] != []
    {
      hide MutexInv, Inv, Reprioritise, Machine.Next, Machine.Enabled, Bitmaps.Bits, Machine.Executing;
      ghost var s := Sys();
      var run := sched.run;
      ReleaseFacts(s, m);
      mux[m] := mux[m].(count := mux[m].count - 1);
      Restore(run, mux[m].priority);
      net := Bump(net, m, run, 0);
      needSched := sched.lists[WaitQ(wl[m])] != [];
      if needSched {
        HandOn(m, sched.lists[WaitQ(wl[m])][0]);
      } else {
        mux[m] := mux[m].(owner := None);
      }
      assert mux[..] == Released(s, m).mux;
    }

    /** LOS_MuxPost; `needSched` asks for a switch. */
    method Post(m: nat, inInterrupt: bool) returns (ret: Ret, needSched: bool)
      requires MutexInv(Sys()) && MutexEnabled(Sys(), Step.Post(m, inInterrupt))
      modifies this, mux, sched, sched.tasks
      ensures ret == if m < mux.Length then PostRet(old(mux[m]), old(sched.run), inInterrupt) else Invalid
      ensures Sys() == MutexNext(old(Sys()), Step.Post(m, inInterrupt)) && MutexInv(Sys())
      ensures needSched <==> ret == Ok && old(mux[m].count) == 1 && old(Waiters(sched.State(), wl[m])) != []
    {
      hide MutexInv, Released, Bitmaps.Bits, Machine.Executing;
      ghost var s := Sys();
      MutexKeeps(s, Step.Post(m, inInterrupt));
      needSched := false;
      if m >= mux.Length || !mux[m].used {
        return Invalid, false;
      }
      if inInterrupt {
        return InInterrupt, false;
      }
      var run := sched.run;
      if mux[m].count == 0 || mux[m].owner != Some(run) {
        return Invalid, false;
      }
      PendFacts(s, m);
      ret := Ok;
      if mux[m].count > 1 {
        HoldsNet(s, m);
        mux[m] := mux[m].(count := mux[m].count - 1);
        net := Bump(net, m, run, net[m][run] - 1);
        return;
      }
      needSched := Release(m);
    }

    /** LOS_MuxCreate on an unused control block. */
    method Create(m: nat)
      requires MutexInv(Sys()) && m < mux.Length && !mux[m].used
      modifies mux
      ensures Sys() == MutexNext(old(Sys()), Step.Create(m)) && MutexInv(Sys())
    {
      hide MutexInv, Bitmaps.Bits;
      MutexKeeps(Sys(), Step.Create(m));
      mux[m] := Mux(true, 0, None, 0);
    }

    /** LOS_MuxDelete. */
    method Delete(m: nat) returns (ret: Ret)
      requires MutexInv(Sys())
      modifies mux
      ensures ret == if m < mux.Length then DeleteRet(old(mux[m]), Waiters(sched.State(), wl[m])) else Invalid
      ensures Sys() == MutexNext(old(Sys()), Step.Delete(m)) && MutexInv(Sys())
    {
      ghost var s := Sys();
      MutexKeeps(s, Step.Delete(m));
      if m >= mux.Length || !mux[m].used {
        return Invalid;
      }
      PendFacts(s, m);
      hide MutexInv, Bitmaps.Bits;
      if sched.lists[WaitQ(wl[m])] != [] || mux[m].count != 0 {
        return Pended;
      }
      mux[m] := mux[m].(used := false);
      ret := Ok;
    }
  }

  /** What the code of a pend relies on. */
  lemma {:induction false} PendFacts(s: System, m: nat)
    requires MutexInv(s) && m < |s.mux|
    ensures s.k.run < |s.k.tasks| && |s.late| == |s.net| == |s.mux| && |s.net[m]| == |s.k.tasks|
    ensures s.mux[m].count != 0 ==> s.mux[m].owner.Some?
    ensures |s.wl| == |s.mux| && WaitQ(s.wl[m]) in s.k.q.lists
  {
    hide CallsOk;
    assert MuxOk(s.mux[m], Waiters(s.k, s.wl[m]), s.k, s.net[m]);
    assert Inv(s.k) by { CallsInv(s.k, Own(s.wl), s.c); }
  }

  lemma {:induction false} CallsInv(k: Kernel, own: set<nat>, c: Calls)
    requires CallsOk(k, own, c)
    ensures Inv(k)
  {
  }

  lemma {:induction false} BlockFacts(s: System, m: nat, ticks: nat)
    requires MutexInv(s) && m < |s.mux| && s.mux[m].owner.Some? && s.mux[m].owner != Some(s.k.run) && CanBlock(s.k, s.c)
    ensures Inv(s.k) && |s.late| == |s.mux| == |s.wl|
    ensures var owner := s.mux[m].owner.value;
      && owner < |s.k.tasks| && s.k.run < |s.k.tasks|
      && Machine.Enabled(s.k, Machine.ChangePriority(owner, s.k.tasks[s.k.run].priority))
      && var k1 := Boosted(s.k, owner);
      && Inv(k1) && k1.run == s.k.run && k1.run < |s.c.ticket| && Machine.Enabled(k1, Machine.WaitOn(s.wl[m], ticks))
  {
    hide Inv, Machine.Next;
    var owner := s.mux[m].owner.value;
    assert MuxOk(s.mux[m], Waiters(s.k, s.wl[m]), s.k, s.net[m]);
    assert s.wl[m] in Own(s.wl);
    RunPriority(s.k);
    BoostedKeeps(s.k, Own(s.wl), s.c, owner);
    BlockKeeps(Boosted(s.k, owner), Own(s.wl), s.c, s.wl[m], ticks);
  }

  lemma {:induction false} ReturnFacts(s: System)
    requires MutexInv(s) && CanFinish(s.k, s.c)
    ensures Inv(s.k) && s.k.run < |s.k.tasks| && Machine.Enabled(s.k, Machine.Return)
    ensures s.k.tasks[s.k.run].timeout <==> s.k.run !in s.c.granted
  {
    hide Inv;
    FinishKeeps(s.k, Own(s.wl), s.c);
  }

  lemma {:induction false} HoldsNet(s: System, m: nat)
    requires MutexInv(s) && m < |s.mux| && s.mux[m].owner == Some(s.k.run)
    ensures s.k.run < |s.net[m]| && s.net[m][s.k.run] == s.mux[m].count
  {
    hide CallsOk;
    assert MuxOk(s.mux[m], Waiters(s.k, s.wl[m]), s.k, s.net[m]);
  }

  lemma {:induction false} ReleaseFacts(s: System, m: nat)
    requires MutexInv(s) && m < |s.mux| && s.mux[m].owner == Some(s.k.run) && Machine.Executing(s.k)
    ensures Inv(s.k) && s.k.run < |s.k.tasks| == |s.net[m]| && |s.late| == |s.net| == |s.mux| == |s.wl|
    ensures s.mux[m].count > 0 && Machine.Enabled(s.k, Machine.ChangePriority(s.k.run, s.mux[m].priority))
    ensures var k1 := Reprioritise(s.k, s.k.run, s.mux[m].priority);
      && Inv(k1) && WaitQ(s.wl[m]) in k1.q.lists && WaitQ(s.wl[m]) in s.k.q.lists
      && k1.q.lists[WaitQ(s.wl[m])] == s.k.q.lists[WaitQ(s.wl[m])]
      && (k1.q.lists[WaitQ(s.wl[m])] != [] ==>
            var t := k1.q.lists[WaitQ(s.wl[m])][0];
            t < |k1.tasks| == |s.k.tasks| && Machine.Enabled(k1, Machine.WakeUp(t)))
  {
    hide Inv, Machine.Next;
    var own, x := Own(s.wl), s.mux[m];
    assert MuxOk(x, Waiters(s.k, s.wl[m]), s.k, s.net[m]);
    assert s.wl[m] in own;
    ReprioritiseKeeps(s.k, own, s.c, s.k.run, x.priority);
    var k1 := Reprioritise(s.k, s.k.run, x.priority);
    if k1.q.lists[WaitQ(s.wl[m])] != [] {
      GrantKeeps(k1, own, s.c, s.wl[m]);
    }
  }
}

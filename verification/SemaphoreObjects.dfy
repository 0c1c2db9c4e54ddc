/** A semaphore control block updated in place over the scheduler, proved against the semaphore
    protocol. */
module SemaphoreObjects {
  import opened Queues
  import opened Sched
  import Machine
  import opened Blocking
  import opened Semaphores
  import opened SchedulerImpl
  import Bitmaps

  class Semaphore {
    const sched: Scheduler
    const w: nat               // the list semList
    var used: bool             // semStat
    var count: nat
    var max: nat
    ghost var calls: Calls     // who is inside a pend
    ghost var tokens: Tokens   // where the tokens went

    ghost function Sys(): (s: System)
      reads this, sched, sched.tasks
    {
      System(sched.State(), calls, w, Sem(used, count, max), tokens)
    }

    /** OsSemCreate on a control block whose list is `w`; it refuses a count above the maximum. */
    static method Create(sched: Scheduler, w: nat, count: nat, max: nat) returns (sem: Semaphore?)
      requires Inv(sched.State()) && WaitQ(w) in sched.lists && sched.lists[WaitQ(w)] == []
      ensures sem == null <==> count > max
      ensures sem != null ==> fresh(sem) && sem.sched == sched && sem.w == w && Fresh(sem.Sys())
      ensures sem != null ==> sem.count == count && sem.max == max
    {
      if count > max {
        return null;
      }
      sem := new Semaphore(sched, w, count, max);
    }

    constructor (sched: Scheduler, w: nat, count: nat, max: nat)
      requires Inv(sched.State()) && WaitQ(w) in sched.lists && sched.lists[WaitQ(w)] == [] && count <= max
      ensures this.sched == sched && this.w == w && this.count == count && this.max == max && Fresh(Sys())
    {
      this.sched, this.w, used, this.count, this.max := sched, w, true, count, max;
      calls := Calls({}, {}, seq(sched.tasks.Length, _ => 0), 0);
      tokens := Tokens(count, 0, 0, 0, 0, 0);
    }

    /** OsSemValidCheck. */
    method ValidCheck(ctx: Context) returns (ret: Ret)
      ensures ret == if !used then Invalid else if ctx.inInterrupt then PendInInterrupt
                     else if ctx.locked then PendInLock else if ctx.systemTask then PendInSystemTask else Ok
    {
      if !used {
        return Invalid;
      }
      if ctx.inInterrupt {
        return PendInInterrupt;
      }
      if ctx.locked {
        return PendInLock;
      }
      if ctx.systemTask {
        return PendInSystemTask;
      }
      return Ok;
    }

    /** LOS_SemPend, up to the switch if it blocks. */
    method Pend(ticks: nat, ctx: Context) returns (ret: Ret)
      requires SemInv(Sys()) && SemEnabled(Sys(), Step.Pend(ticks, ctx))
      modifies this, sched, sched.tasks
      ensures ret == PendRet(old(Sys()).sem, ticks, ctx)
      ensures Sys() == SemNext(old(Sys()), Step.Pend(ticks, ctx)) && SemInv(Sys())
    {
      hide Inv, Machine.Next, Machine.Enabled, Bitmaps.Bits;
      SemKeeps(Sys(), Step.Pend(ticks, ctx));
      ghost var s := Sys();
      ret := ValidCheck(ctx);
      if ret != Ok {
        return;
      }
      if count > 0 {
        count := count - 1;
        tokens := tokens.(taken := tokens.taken + 1);
        return Ok;
      }
      if ticks == 0 {
        return Unavailable;
      }
      BlockKeeps(s.k, {w}, calls, w, ticks);
      calls := Blocked(s.k, calls);
      sched.Perform(Machine.WaitOn(w, ticks));
      ret := Blocks;
    }

    /** LOS_SemPend, from the switch on. */
    method PendReturn() returns (ret: Ret)
      requires SemInv(Sys()) && CanFinish(Sys().k, calls)
      modifies this, sched, sched.tasks
      ensures ret == if old(sched.run in calls.granted) then Ok else Timeout
      ensures Sys() == SemNext(old(Sys()), Finish) && SemInv(Sys())
    {
      hide Inv, Machine.Next, Machine.Enabled, Bitmaps.Bits;
      ghost var s := Sys();
      SemKeeps(s, Finish);
      FinishKeeps(s.k, {w}, calls);
      var run := sched.run;
      ret := if sched.tasks[run].timeout then Timeout else Ok;
      calls := Finished(s.k, calls);
      tokens := if ret == Timeout then tokens else tokens.(returned := tokens.returned + 1);
      sched.Perform(Machine.Return);
    }

    /** The first waiter gets the token. */
    method HandToFirst()
      requires SemInv(Sys()) && PostRet(Sys().sem) == Ok && sched.lists[WaitQ(w)] != []
      modifies this, sched, sched.tasks
      ensures Sys() == SemNext(old(Sys()), Step.Post)
    {
      hide SemInv, Machine.Next, Machine.Enabled, Bitmaps.Bits;
      ghost var s := Sys();
      FirstWaits(s);
      var t := sched.lists[WaitQ(w)][0];
      sched.Perform(Machine.WakeUp(t));
      calls := Granted(calls, t);
      tokens := tokens.(posts := tokens.posts + 1, handed := tokens.handed + 1);
    }

    /** LOS_SemPost; `needSched` asks for a switch. */
    method Post() returns (ret: Ret, needSched: bool)
      requires SemInv(Sys())
      modifies this, sched, sched.tasks
      ensures ret == PostRet(old(Sys()).sem)
      ensures Sys() == SemNext(old(Sys()), Step.Post) && SemInv(Sys())
      ensures needSched <==> ret == Ok && old(sched.lists[WaitQ(w)]) != []
    {
      hide Inv, Machine.Next, Machine.Enabled, Bitmaps.Bits, CallsOk;
      SemKeeps(Sys(), Step.Post);
      needSched := false;
      if !used {
        return Invalid, false;
      }
      if max == count {
        return Overflow, false;
      }
      if sched.lists[WaitQ(w)] != [] {
        HandToFirst();
        needSched := true;
      } else {
        count := count + 1;
        tokens := tokens.(posts := tokens.posts + 1);
      }
      ret := Ok;
    }

    /** LOS_SemDelete. */
    method Delete() returns (ret: Ret)
      requires SemInv(Sys())
      modifies this`used
      ensures ret == DeleteRet(old(Sys()).sem, sched.lists[WaitQ(w)])
      ensures Sys() == SemNext(old(Sys()), Step.Delete) && SemInv(Sys())
    {
      hide Inv, Machine.Next, Machine.Enabled, Bitmaps.Bits;
      SemKeeps(Sys(), Step.Delete);
      if !used {
        return Invalid;
      }
      if sched.lists[WaitQ(w)] != [] {
        return Pended;
      }
      used := false;
      ret := Ok;
    }
  }

  lemma {:induction false} FirstWaits(s: System)
    requires SemInv(s)
    ensures Inv(s.k) && WaitQ(s.w) in s.k.q.lists
    ensures var waiters := s.k.q.lists[WaitQ(s.w)]; waiters != [] ==> Machine.Enabled(s.k, Machine.WakeUp(waiters[0]))
  {
    hide Inv;
    if s.k.q.lists[WaitQ(s.w)] != [] {
      GrantKeeps(s.k, {s.w}, s.c, s.w);
    }
  }
}

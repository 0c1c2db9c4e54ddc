/** Priority inheritance: a waiter is not held up by tasks less urgent than itself. */
module Inheritance {
  import opened Basics
  import opened Queues
  import SortLinks
  import opened Sched
  import opened Machine
  import opened Frames
  import opened Blocking
  import opened Mutexes

  /** Runs in which a task that holds a mutex neither takes nor waits for another, and only the mutex
      code changes priorities. */
  ghost predicate FlatEnabled(s: System, e: Mutexes.Step) {
    && MutexEnabled(s, e)
    && (e.Pend? && e.m < |s.mux| && s.mux[e.m].owner != Some(s.k.run) ==> OwnsNone(s, s.k.run))
    && (e.Other? ==> !e.e.ChangePriority?)
  }

  /** No task owns two mutexes; an owner may be more urgent than it is of its own, and its own
      priority is remembered; everyone else runs at its own priority. */
  ghost predicate Priorities(s: System) {
    && |s.base| == |s.k.tasks|
    && (forall m, n :: 0 <= m < |s.mux| && 0 <= n < |s.mux| && s.mux[m].owner.Some? && s.mux[m].owner == s.mux[n].owner ==> m == n)
    && (forall m :: 0 <= m < |s.mux| && s.mux[m].owner.Some? ==> OwnerPriority(s, s.mux[m], s.mux[m].owner.value))
    && (forall t :: 0 <= t < |s.k.tasks| && OwnsNone(s, t) ==> s.k.tasks[t].priority == s.base[t])
  }

  ghost predicate OwnerPriority(s: System, x: Mux, t: nat) {
    t < |s.k.tasks| && t < |s.base| && x.priority == s.base[t] && s.k.tasks[t].priority <= s.base[t]
  }

  /** An owner is at least as urgent as everyone who joined the list while it owned the mutex, and
      whoever waits owns nothing. */
  ghost predicate Inherits(s: System, m: nat)
    requires m < |s.mux| && m < |s.wl| && m < |s.late|
  {
    && (forall t :: t in Waiters(s.k, s.wl[m]) ==> t < |s.k.tasks| && OwnsNone(s, t))
    && (s.mux[m].owner.Some? ==> s.mux[m].owner.value < |s.k.tasks|)
    && (forall t :: s.mux[m].owner.Some? && t in Waiters(s.k, s.wl[m]) && t in s.late[m] ==>
          s.k.tasks[s.mux[m].owner.value].priority <= s.k.tasks[t].priority)
  }

  ghost predicate FlatInv(s: System) {
    MutexInv(s) && Priorities(s) && forall m :: 0 <= m < |s.mux| ==> Inherits(s, m)
  }

  lemma {:induction false} RunWaitsNowhere(s: System)
    requires MutexInv(s) && Executing(s.k)
    ensures forall i :: 0 <= i < |s.mux| ==> s.k.run !in Waiters(s.k, s.wl[i])
  {
    RunNotWaiting(s.k);
  }

  lemma {:induction false} AcquiredFlat(s: System, m: nat)
    requires FlatInv(s) && m < |s.mux| && CanBlock(s.k, s.c) && s.mux[m].used
    requires (s.mux[m].count == 0 && OwnsNone(s, s.k.run)) || s.mux[m].owner == Some(s.k.run)
    ensures FlatInv(Acquired(s, m))
  {
    hide CallsOk;
    AcquiredKeeps(s, m);
    RunWaitsNowhere(s);
    var r := Acquired(s, m);
    assert MuxOk(s.mux[m], Waiters(s.k, s.wl[m]), s.k, s.net[m]);
    forall t | 0 <= t < |s.k.tasks| && OwnsNone(r, t) ensures OwnsNone(s, t) && t != s.k.run {
      assert r.mux[m].owner == Some(s.k.run);
      forall i | 0 <= i < |s.mux| ensures s.mux[i].owner != Some(t) {
        assert r.mux[i].owner != Some(t);
      }
    }
    forall i | 0 <= i < |r.mux| ensures Inherits(r, i) {
      assert Inherits(s, i);
      forall t | t in Waiters(s.k, s.wl[i]) ensures OwnsNone(r, t) {
        assert OwnsNone(s, t) && t != s.k.run;
      }
    }
  }

  lemma {:induction false} SizesOf(s: System)
    requires MutexInv(s)
    ensures Sizes(s) && s.k.run < |s.k.tasks|
    ensures forall m :: 0 <= m < |s.mux| ==> MuxOk(s.mux[m], Waiters(s.k, s.wl[m]), s.k, s.net[m])
  {
    hide Waiters, MuxOk, InOrder;
  }

  ghost predicate WaitsNowhere(s: System, t: nat) {
    forall m :: 0 <= m < |s.mux| && m < |s.wl| ==> t !in Waiters(s.k, s.wl[m])
  }

  /** Task `t` keeps its priorities, or is a new task that holds and awaits nothing. */
  ghost predicate Retained(s: System, r: System, t: nat) {
    && t < |s.k.tasks| && t < |r.k.tasks| && t < |s.base| && t < |r.base|
    && (|| (r.k.tasks[t].priority == s.k.tasks[t].priority && r.base[t] == s.base[t])
        || (r.k.tasks[t].priority == r.base[t] && OwnsNone(s, t) && WaitsNowhere(s, t)))
  }

  ghost predicate SameOwner(x: Mux, y: Mux) {
    y.owner == x.owner && (x.owner.Some? ==> y.priority == x.priority)
  }

  /** Same owners, same priorities, no new waiters. */
  lemma {:induction false} FewerWaiters(s: System, r: System)
    requires FlatInv(s) && MutexInv(r) && r.late == s.late && r.wl == s.wl && |r.k.tasks| == |s.k.tasks| && |r.mux| == |s.mux|
    requires forall t :: 0 <= t < |s.k.tasks| ==> Retained(s, r, t)
    requires forall m :: 0 <= m < |s.mux| ==> SameOwner(s.mux[m], r.mux[m])
    requires forall m, t :: 0 <= m < |s.mux| && t in Waiters(r.k, r.wl[m]) ==> t in Waiters(s.k, s.wl[m])
    ensures FlatInv(r)
  {
    hide CallsOk, Waiters, MuxOk;
    forall t: nat ensures OwnsNone(r, t) <==> OwnsNone(s, t) {
      assert forall m :: 0 <= m < |s.mux| ==> SameOwner(s.mux[m], r.mux[m]);
    }
    forall m | 0 <= m < |r.mux| && r.mux[m].owner.Some? ensures OwnerPriority(r, r.mux[m], r.mux[m].owner.value) {
      assert OwnerPriority(s, s.mux[m], s.mux[m].owner.value);
      assert SameOwner(s.mux[m], r.mux[m]);
      assert !OwnsNone(s, s.mux[m].owner.value);
      assert Retained(s, r, s.mux[m].owner.value);
    }
    forall t | 0 <= t < |r.k.tasks| && OwnsNone(r, t) ensures r.k.tasks[t].priority == r.base[t] {
      assert Retained(s, r, t);
    }
    assert forall m :: 0 <= m < |s.mux| ==> SameOwner(s.mux[m], r.mux[m]);
    forall m | 0 <= m < |r.mux| ensures Inherits(r, m) {
      assert Inherits(s, m);
      assert SameOwner(s.mux[m], r.mux[m]);
      forall t | r.mux[m].owner.Some? && t in Waiters(r.k, r.wl[m]) && t in r.late[m]
        ensures r.k.tasks[r.mux[m].owner.value].priority <= r.k.tasks[t].priority
      {
        assert Retained(s, r, t) && Retained(s, r, s.mux[m].owner.value);
        assert !WaitsNowhere(s, t) && !OwnsNone(s, s.mux[m].owner.value);
      }
    }
  }

  /** A pend that blocks: the owner becomes at least as urgent as the caller, nobody else changes. */
  lemma {:induction false} PendBlocksEffect(s: System, m: nat, ticks: nat)
    requires MutexInv(s) && m < |s.mux| && s.mux[m].owner.Some? && s.mux[m].owner != Some(s.k.run) && CanBlock(s.k, s.c)
    ensures var r := PendBlocks(s, m, ticks); var o := s.mux[m].owner.value; var run := s.k.run;
      && |r.k.tasks| == |s.k.tasks| && r.mux == s.mux && r.wl == s.wl && r.base == s.base && o < |s.k.tasks|
      && (forall t :: 0 <= t < |s.k.tasks| && t != o ==> r.k.tasks[t].priority == s.k.tasks[t].priority)
      && r.k.tasks[o].priority <= s.k.tasks[o].priority && r.k.tasks[o].priority <= s.k.tasks[run].priority
      && Waiters(r.k, s.wl[m]) == Waiters(s.k, s.wl[m]) + [run]
      && (forall i :: 0 <= i < |s.wl| && i != m ==> Waiters(r.k, s.wl[i]) == Waiters(s.k, s.wl[i]))
      && r.late == s.late[m := s.late[m] + {run}]
  {
    hide Inv, Next, Boosted, CanBlock, InOrder, OnOwn;
    var own, o := Own(s.wl), s.mux[m].owner.value;
    assert MuxOk(s.mux[m], Waiters(s.k, s.wl[m]), s.k, s.net[m]);
    BoostedKeeps(s.k, own, s.c, o);
    var k1 := Boosted(s.k, o);
    BlockKeeps(k1, own, s.c, s.wl[m], ticks);
    var e := WaitOn(s.wl[m], ticks);
    NextSize(k1, e);
    forall t: nat | t < |k1.tasks| ensures Next(k1, e).tasks[t].priority == k1.tasks[t].priority {
      StepKeepsTask(k1, e, t);
    }
  }

  lemma {:induction false} PendBlocksFlat(s: System, m: nat, ticks: nat)
    requires FlatInv(s) && m < |s.mux| && s.mux[m].owner.Some? && s.mux[m].owner != Some(s.k.run) && CanBlock(s.k, s.c)
    requires OwnsNone(s, s.k.run)
    ensures FlatInv(PendBlocks(s, m, ticks))
  {
    hide MutexInv, CanBlock, PendBlocks, Waiters;
    SizesOf(s);
    PendBlocksKeeps(s, m, ticks);
    PendBlocksEffect(s, m, ticks);
    var r := PendBlocks(s, m, ticks);
    SizesOf(r);
    var o := s.mux[m].owner.value;
    forall t ensures OwnsNone(r, t) <==> OwnsNone(s, t) {
    }
    forall i | 0 <= i < |r.mux| ensures Inherits(r, i) {
      assert Inherits(s, i);
      assert s.mux[i].owner == Some(o) ==> i == m;
    }
  }

  /** The last post: the former owner gets the remembered priority back, nobody else changes. */
  lemma {:induction false} ReleasedEffect(s: System, m: nat)
    requires MutexInv(s) && m < |s.mux| && s.mux[m].owner == Some(s.k.run) && Executing(s.k) && s.mux[m].count == 1
    ensures var r := Released(s, m); var run := s.k.run; var ws := Waiters(s.k, s.wl[m]);
      && |r.k.tasks| == |s.k.tasks| && r.wl == s.wl && r.base == s.base && |r.mux| == |s.mux|
      && r.k.tasks[run].priority == s.mux[m].priority
      && (forall t :: 0 <= t < |s.k.tasks| && t != run ==> r.k.tasks[t].priority == s.k.tasks[t].priority)
      && (forall i :: 0 <= i < |s.mux| && i != m ==> r.mux[i] == s.mux[i] && r.late[i] == s.late[i] && Waiters(r.k, s.wl[i]) == Waiters(s.k, s.wl[i]))
      && (ws == [] ==> r.mux[m].owner == None && Waiters(r.k, s.wl[m]) == [])
      && (ws != [] ==> ws[0] < |s.k.tasks| && ws[0] != run && r.mux[m].owner == Some(ws[0]) && r.late[m] == {}
                       && r.mux[m].priority == s.k.tasks[ws[0]].priority && Waiters(r.k, s.wl[m]) == ws[1..])
  {
    hide Inv, Next, Reprioritise;
    var own, x := Own(s.wl), s.mux[m];
    assert MuxOk(x, Waiters(s.k, s.wl[m]), s.k, s.net[m]);
    ReprioritiseKeeps(s.k, own, s.c, s.k.run, x.priority);
    var k1 := Reprioritise(s.k, s.k.run, x.priority);
    if Waiters(k1, s.wl[m]) != [] {
      var t := Waiters(k1, s.wl[m])[0];
      GrantKeeps(k1, own, s.c, s.wl[m]);
      assert t in Waiters(s.k, s.wl[m]);
    }
  }

  lemma {:induction false} ReleasedOwns(s: System, m: nat, t: nat)
    requires FlatInv(s) && m < |s.mux| && s.mux[m].owner == Some(s.k.run) && Executing(s.k) && s.mux[m].count == 1
    ensures var ws := Waiters(s.k, s.wl[m]);
      OwnsNone(Released(s, m), t) <==> (t == s.k.run || OwnsNone(s, t)) && (ws != [] ==> t != ws[0])
  {
    hide MutexInv, Executing, Released, Waiters, Inherits;
    SizesOf(s);
    ReleasedEffect(s, m);
    var r := Released(s, m);
    if OwnsNone(r, t) && t != s.k.run {
      assert r.mux[m].owner != Some(t);
      assert forall i :: 0 <= i < |s.mux| ==> r.mux[i].owner != Some(t);
    }
  }

  lemma {:induction false} ReleasedPriorities(s: System, m: nat)
    requires FlatInv(s) && m < |s.mux| && s.mux[m].owner == Some(s.k.run) && Executing(s.k) && s.mux[m].count == 1
    ensures Priorities(Released(s, m))
  {
    hide MutexInv, Executing, Released, Waiters;
    SizesOf(s);
    ReleasedEffect(s, m);
    var r := Released(s, m);
    var ws, run := Waiters(s.k, s.wl[m]), s.k.run;
    forall t | 0 <= t < |r.k.tasks| && OwnsNone(r, t) ensures t == run || OwnsNone(s, t) {
      ReleasedOwns(s, m, t);
    }
    assert Inherits(s, m);
    assert ws != [] ==> ws[0] in ws;
    assert OwnerPriority(s, s.mux[m], run);
    forall i | 0 <= i < |r.mux| && r.mux[i].owner.Some? ensures OwnerPriority(r, r.mux[i], r.mux[i].owner.value) {
      if i != m {
        assert OwnerPriority(s, s.mux[i], s.mux[i].owner.value);
      }
    }
  }

  lemma {:induction false} ReleasedFlat(s: System, m: nat)
    requires FlatInv(s) && m < |s.mux| && s.mux[m].owner == Some(s.k.run) && Executing(s.k) && s.mux[m].count == 1
    ensures FlatInv(Released(s, m))
  {
    hide MutexInv, Executing, Released, Waiters, OwnerPriority, OwnsNone;
    SizesOf(s);
    ReleasedKeeps(s, m);
    ReleasedEffect(s, m);
    ReleasedPriorities(s, m);
    RunWaitsNowhere(s);
    WaitsOnce(s);
    var r := Released(s, m);
    SizesOf(r);
    var ws := Waiters(s.k, s.wl[m]);
    assert ws != [] ==> ws[0] in ws;
    forall i | 0 <= i < |r.mux| ensures Inherits(r, i) {
      assert Inherits(s, i);
      forall t | t in Waiters(r.k, r.wl[i]) ensures t in Waiters(s.k, s.wl[i]) && OwnsNone(r, t) {
        ReleasedOwns(s, m, t);
      }
    }
  }

  /** A waiter is on one list, once. */
  lemma {:induction false} WaitsOnce(s: System)
    requires MutexInv(s)
    ensures forall i, j, t :: 0 <= i < |s.wl| && 0 <= j < |s.wl| && t in Waiters(s.k, s.wl[i]) && t in Waiters(s.k, s.wl[j]) ==> i == j
    ensures forall i :: 0 <= i < |s.wl| && Waiters(s.k, s.wl[i]) != [] ==> Waiters(s.k, s.wl[i])[0] !in Waiters(s.k, s.wl[i])[1..]
  {
    forall i | 0 <= i < |s.wl| && Waiters(s.k, s.wl[i]) != [] ensures Waiters(s.k, s.wl[i])[0] !in Waiters(s.k, s.wl[i])[1..] {
      FirstNotInRest(s.k, s.wl[i]);
    }
  }

  lemma {:induction false} OtherFlat(s: System, e: Machine.Step)
    requires FlatInv(s) && FlatEnabled(s, Other(e))
    ensures FlatInv(MutexNext(s, Other(e)))
  {
    MutexKeeps(s, Other(e));
    var r := MutexNext(s, Other(e));
    NextSize(s.k, e);
    forall t: nat | t < |s.k.tasks| ensures Retained(s, r, t) {
      OtherPriority(s.k, e, t);
      if e.Create? && e.t == t {
        UnusedWaitsNowhere(s, t);
      }
    }
    forall m, t | 0 <= m < |s.mux| && t in Waiters(r.k, r.wl[m]) ensures t in Waiters(s.k, s.wl[m]) {
      ForeignLists(s.k, Own(s.wl), s.c, e, s.wl[m]);
    }
    hide MutexInv, Next, Foreign, Waiters, AfterForeign, Retained;
    FewerWaiters(s, r);
  }

  lemma {:induction false} UnusedWaitsNowhere(s: System, t: nat)
    requires MutexInv(s) && t < |s.k.tasks| && s.k.tasks[t].unused
    ensures WaitsNowhere(s, t)
  {
    assert TaskOk(s.k, t);
  }

  /** Software timers and other tasks do not touch a priority; a new task starts with its own. */
  lemma {:induction false} OtherPriority(k: Kernel, e: Machine.Step, t: nat)
    requires Inv(k) && Enabled(k, e) && !e.ChangePriority? && t < |k.tasks|
    ensures t < |Next(k, e).tasks|
    ensures Next(k, e).tasks[t].priority == if e.Create? && e.t == t then e.p else k.tasks[t].priority
  {
    hide QueuesOk, SortLinks.Valid;
    if (e.ExitTask? || e.Recycle? || e.Create?) && e.t == t {
      assert TaskOk(k, t);
    } else {
      StepKeepsTask(k, e, t);
    }
  }

  lemma {:induction false} PostFlat(s: System, m: nat, inInterrupt: bool)
    requires FlatInv(s) && FlatEnabled(s, Mutexes.Post(m, inInterrupt))
    ensures FlatInv(MutexNext(s, Mutexes.Post(m, inInterrupt)))
  {
    var e := Mutexes.Post(m, inInterrupt);
    MutexKeeps(s, e);
    if m < |s.mux| && PostRet(s.mux[m], s.k.run, inInterrupt) == Mutexes.Ok {
      assert MuxOk(s.mux[m], Waiters(s.k, s.wl[m]), s.k, s.net[m]);
      hide MutexInv, Released, Waiters, Executing;
      if s.mux[m].count == 1 {
        ReleasedFlat(s, m);
      } else {
        FewerWaiters(s, MutexNext(s, e));
      }
    }
  }

  lemma {:induction false} PendFlat(s: System, m: nat, ticks: nat, ctx: Mutexes.Context)
    requires FlatInv(s) && FlatEnabled(s, Mutexes.Pend(m, ticks, ctx))
    ensures FlatInv(MutexNext(s, Mutexes.Pend(m, ticks, ctx)))
  {
    if m < |s.mux| {
      assert MuxOk(s.mux[m], Waiters(s.k, s.wl[m]), s.k, s.net[m]);
      var ret := PendRet(s.mux[m], s.k.run, ticks, ctx);
      hide MutexInv, Acquired, PendBlocks, Waiters, CanBlock;
      if ret == Mutexes.Ok {
        AcquiredFlat(s, m);
      } else if ret == Mutexes.Blocks {
        PendBlocksFlat(s, m, ticks);
      }
    }
  }

  lemma {:induction false} FinishFlat(s: System)
    requires FlatInv(s) && CanFinish(s.k, s.c)
    ensures FlatInv(MutexNext(s, Mutexes.Finish))
  {
    MutexKeeps(s, Mutexes.Finish);
    FinishKeeps(s.k, Own(s.wl), s.c);
    hide MutexInv, CanFinish, Next;
    FewerWaiters(s, MutexNext(s, Mutexes.Finish));
  }

  /** Every step of a flat run keeps the inheritance. */
  lemma {:induction false} FlatKeeps(s: System, e: Mutexes.Step)
    requires FlatInv(s) && FlatEnabled(s, e)
    ensures FlatInv(MutexNext(s, e))
  {
    if e.Pend? {
      PendFlat(s, e.m, e.ticks, e.ctx);
    } else if e.Post? {
      PostFlat(s, e.m, e.inInterrupt);
    } else if e.Finish? {
      FinishFlat(s);
    } else if e.Other? {
      OtherFlat(s, e.e);
    } else {
      TableFlat(s, e);
    }
  }

  lemma {:induction false} TableFlat(s: System, e: Mutexes.Step)
    requires FlatInv(s) && FlatEnabled(s, e) && (e.Create? || e.Delete?)
    ensures FlatInv(MutexNext(s, e))
  {
    MutexKeeps(s, e);
    hide MutexInv, Waiters;
    FewerWaiters(s, MutexNext(s, e));
  }

  ghost predicate FlatRun(s: System, es: seq<Mutexes.Step>, r: System)
    requires FlatInv(s)
    decreases |es|
  {
    if es == [] then r == s
    else FlatEnabled(s, es[0]) && (FlatKeeps(s, es[0]); FlatRun(MutexNext(s, es[0]), es[1..], r))
  }

  /** All mutexes free and every task at its own priority. */
  ghost predicate AllFree(s: System) {
    && MutexInv(s) && |s.base| == |s.k.tasks|
    && (forall m :: 0 <= m < |s.mux| ==> s.mux[m].owner == None)
    && (forall t :: 0 <= t < |s.k.tasks| ==> s.base[t] == s.k.tasks[t].priority)
  }

  lemma {:induction false} AllFreeFlat(s: System)
    requires AllFree(s)
    ensures FlatInv(s)
  {
    SizesOf(s);
    hide MutexInv;
    forall m | 0 <= m < |s.mux| ensures Inherits(s, m) {
      assert MuxOk(s.mux[m], Waiters(s.k, s.wl[m]), s.k, s.net[m]);
    }
  }

  lemma {:induction false} FlatRunKeeps(s: System, es: seq<Mutexes.Step>, r: System)
    requires FlatInv(s) && FlatRun(s, es, r)
    ensures FlatInv(r) && |r.mux| == |s.mux|
    decreases |es|
  {
    hide MutexInv, MutexEnabled, MutexNext, Priorities, Inherits;
    if es != [] {
      FlatKeeps(s, es[0]);
      StepMutexes(s, es[0]);
      FlatRunKeeps(MutexNext(s, es[0]), es[1..], r);
    }
  }

  lemma {:induction false} StepMutexes(s: System, e: Mutexes.Step)
    requires FlatInv(s) && FlatEnabled(s, e)
    ensures |MutexNext(s, e).mux| == |s.mux|
  {
    SameMutexes(s, e);
  }

  /** On every flat run from free mutexes: while the owner of a mutex is ready, the task the scheduler
      picks is at least as urgent as anyone who joined the list during that ownership; and whoever
      owns nothing has its own priority. */
  lemma {:induction false} BoundedInversion(s: System, es: seq<Mutexes.Step>, r: System, m: nat, t: nat)
    requires AllFree(s) && m < |s.mux|
    ensures FlatInv(s)
    ensures FlatRun(s, es, r) ==> FlatInv(r) && m < |r.mux|
    ensures FlatRun(s, es, r) && r.mux[m].owner.Some? && t in Waiters(r.k, r.wl[m]) && t in r.late[m]
            && r.k.tasks[r.mux[m].owner.value].ready ==>
              var top := Top(r.k.q, r.k.idle);
              top != r.k.idle && top < |r.k.tasks| && r.k.tasks[top].priority <= r.k.tasks[t].priority
    ensures FlatRun(s, es, r) && t < |r.k.tasks| && OwnsNone(r, t) ==> r.k.tasks[t].priority == r.base[t]
  {
    AllFreeFlat(s);
    if FlatRun(s, es, r) {
      FlatRunKeeps(s, es, r);
      Uninverted(r, m, t);
    }
  }

  lemma {:induction false} Uninverted(r: System, m: nat, t: nat)
    requires FlatInv(r) && m < |r.mux|
    ensures r.mux[m].owner.Some? && t in Waiters(r.k, r.wl[m]) && t in r.late[m] && r.k.tasks[r.mux[m].owner.value].ready ==>
      var top := Top(r.k.q, r.k.idle);
      top != r.k.idle && top < |r.k.tasks| && r.k.tasks[top].priority <= r.k.tasks[t].priority
    ensures t < |r.k.tasks| && OwnsNone(r, t) ==> r.k.tasks[t].priority == r.base[t]
  {
    if r.mux[m].owner.Some? && t in Waiters(r.k, r.wl[m]) && t in r.late[m] && r.k.tasks[r.mux[m].owner.value].ready {
      assert Inherits(r, m);
      assert MuxOk(r.mux[m], Waiters(r.k, r.wl[m]), r.k, r.net[m]);
      TopUrgent(r.k, r.mux[m].owner.value);
    }
  }

  lemma {:induction false} SameMutexes(s: System, e: Mutexes.Step)
    requires MutexInv(s) && MutexEnabled(s, e)
    ensures |MutexNext(s, e).mux| == |s.mux|
  {
    hide CallsOk, Next;
  }

  /** OsGetTopTask never returns a task less urgent than a ready one. */
  lemma {:induction false} TopUrgent(k: Kernel, t: nat)
    requires Inv(k) && t < |k.tasks| && t != k.idle && k.tasks[t].ready
    ensures var top := Top(k.q, k.idle); top != k.idle && top < |k.tasks| && k.tasks[top].priority <= k.tasks[t].priority
  {
    TopMostUrgent(k.q, k.idle);
    assert TaskOk(k, t);
    var top := Top(k.q, k.idle);
    assert TaskOk(k, top);
  }

  /** The last post gives the owner back the priority it has of its own. */
  lemma {:induction false} PriorityRestored(s: System, m: nat)
    requires FlatInv(s) && m < |s.mux| && s.mux[m].owner == Some(s.k.run) && Executing(s.k) && s.mux[m].count == 1
    ensures var r := Released(s, m); s.k.run < |r.k.tasks| && s.k.run < |s.base| && r.k.tasks[s.k.run].priority == s.base[s.k.run]
  {
    ReleasedEffect(s, m);
    hide Released;
    assert OwnerPriority(s, s.mux[m], s.k.run);
  }
}

/** Recursive mutexes with hand-over and priority inheritance. */
module Mutexes {
  import opened Lists
  import opened Basics
  import opened Queues
  import SortLinks
  import opened Sched
  import opened Machine
  import opened Frames
  import opened Blocking

  /** The largest value of the 16-bit `muxCount`. */
  const MAX_COUNT: nat := 65535

  /** `owner` is `None` for NULL; `priority` is what the owner had when it took the mutex. */
  datatype Mux = Mux(used: bool, count: nat, owner: Option<nat>, priority: nat)

  datatype Context = Context(inInterrupt: bool, locked: bool, systemTask: bool)

  datatype Ret = Ok | Invalid | InInterrupt | PendInLock | PendInSystemTask | Unavailable | Timeout | Pended
               | Blocks // the caller waits; it has not returned

  /** OsMuxValidCheck and the decision LOS_MuxPend takes before it blocks. */
  function PendRet(x: Mux, run: nat, ticks: nat, ctx: Context): (r: Ret) {
    if !x.used then Invalid
    else if ctx.inInterrupt then InInterrupt
    else if ctx.locked then PendInLock
    else if ctx.systemTask then PendInSystemTask
    else if x.count == 0 || x.owner == Some(run) then Ok
    else if ticks == 0 then Unavailable
    else Blocks
  }

  function PostRet(x: Mux, run: nat, inInterrupt: bool): (r: Ret) {
    if !x.used then Invalid
    else if inInterrupt then InInterrupt
    else if x.count == 0 || x.owner != Some(run) then Invalid
    else Ok
  }

  function DeleteRet(x: Mux, waiters: seq<nat>): (r: Ret) {
    if !x.used then Invalid else if waiters != [] || x.count != 0 then Pended else Ok
  }

  /** A pend that finds the mutex free or its own. */
  function Acquire(x: Mux, run: nat, priority: nat): (y: Mux) {
    if x.count == 0 then x.(count := 1, owner := Some(run), priority := priority) else x.(count := x.count + 1)
  }

  // ------------------------------------------------------------ mutexes in a running system

  datatype Step = Pend(m: nat, ticks: nat, ctx: Context) | Post(m: nat, inInterrupt: bool) | Finish
                | Create(m: nat) | Delete(m: nat) | Other(e: Machine.Step)

  /** `wl[m]` is the wait list of mutex `m`; `net[m][t]` how often task `t` acquired it and has not
      released it; `late[m]` the tasks that joined the list while the present owner owned it;
      `base[t]` the priority task `t` has of its own. */
  datatype System = System(k: Kernel, c: Calls, wl: seq<nat>, mux: seq<Mux>, net: seq<seq<nat>>,
                           late: seq<set<nat>>, base: seq<nat>)

  ghost function Own(wl: seq<nat>): (s: set<nat>) {
    set i | 0 <= i < |wl| :: wl[i]
  }

  /** A task that can own a mutex. */
  ghost predicate Alive(k: Kernel, t: nat) {
    t < |k.tasks| && t != k.idle && !k.tasks[t].unused && !k.tasks[t].exit
  }

  /** An owner exists exactly while the count is positive, is not on its own list, and the count is
      its net number of acquisitions; a free mutex has no waiters. */
  ghost predicate MuxOk(x: Mux, waiters: seq<nat>, k: Kernel, net: seq<nat>) {
    && (x.count == 0 <==> x.owner.None?)
    && (!x.used ==> x.owner.None?)
    && (x.owner.None? ==> waiters == [])
    && (x.owner.Some? ==> Alive(k, x.owner.value) && x.owner.value !in waiters && x.priority < PRIORITIES)
    && |net| == |k.tasks|
    && (forall t :: 0 <= t < |net| ==> net[t] == if x.owner == Some(t) then x.count else 0)
  }

  ghost predicate Sizes(s: System) {
    && |s.wl| == |s.mux| == |s.net| == |s.late| && |s.base| == |s.k.tasks|
    && (forall i, j :: 0 <= i < j < |s.wl| ==> s.wl[i] != s.wl[j])
  }

  ghost predicate MutexInv(s: System) {
    && CallsOk(s.k, Own(s.wl), s.c) && Sizes(s)
    && (forall m :: 0 <= m < |s.mux| ==> WaitQ(s.wl[m]) in s.k.q.lists)
    && (forall m :: 0 <= m < |s.mux| ==> MuxOk(s.mux[m], Waiters(s.k, s.wl[m]), s.k, s.net[m]))
  }

  /** No deletion of an owner, which the interface forbids. */
  ghost predicate OwnsNone(s: System, t: nat) {
    forall m :: 0 <= m < |s.mux| ==> s.mux[m].owner != Some(t)
  }

  ghost predicate MutexEnabled(s: System, e: Step) {
    match e
    case Pend(m, ticks, ctx) => m < |s.mux| ==>
      var ret := PendRet(s.mux[m], s.k.run, ticks, ctx);
      (ret == Ok || ret == Blocks ==> CanBlock(s.k, s.c)) && (ret == Ok ==> s.mux[m].count < MAX_COUNT)
    case Post(m, inInterrupt) => !inInterrupt ==> Executing(s.k) && !InCall(s.c, s.k.run)
    case Finish => CanFinish(s.k, s.c)
    case Create(m) => m < |s.mux| && !s.mux[m].used
    case Delete(m) => true
    case Other(e) =>
      && Foreign(s.k, Own(s.wl), s.c, e)
      && (e.ExitTask? || e.Recycle? || e.Create? ==> OwnsNone(s, e.t))
  }

  // ------------------------------------------------------------ changing a priority

  /** OsSchedModifyTaskSchedParam as the mutex code calls it. */
  ghost function Reprioritise(k: Kernel, t: nat, p: nat): (r: Kernel)
    requires Inv(k)
  {
    if Enabled(k, ChangePriority(t, p)) && k.tasks[t].priority != p then Next(k, ChangePriority(t, p)) else k
  }

  /** It changes that priority, and no wait list, no call and no other task. */
  lemma {:induction false} ReprioritiseKeeps(k: Kernel, own: set<nat>, c: Calls, t: nat, p: nat)
    requires CallsOk(k, own, c) && Alive(k, t) && p < PRIORITIES
    ensures var r := Reprioritise(k, t, p);
      && CallsOk(r, own, c) && |r.tasks| == |k.tasks| && r.run == k.run && r.idle == k.idle
      && SameWaitLists(k.q, r.q)
      && (forall u :: 0 <= u < |k.tasks| && u != t ==> r.tasks[u] == k.tasks[u])
      && Alive(r, t) && r.tasks[t].priority == p && r.tasks[t].pend == k.tasks[t].pend && r.tasks[t].timeout == k.tasks[t].timeout
  {
    hide QueuesOk, SortLinks.Valid, Effect, Next;
    var e := ChangePriority(t, p);
    if k.tasks[t].priority != p {
      assert Foreign(k, own, c, e);
      ForeignKeeps(k, own, c, e);
      NextSize(k, e);
      NextIsEffect(k, e);
      EffectBits(k, t, e);
      EffectQueues(k, t, e);
      ChangedPriority(k, t, p);
      forall u: nat | u < |k.tasks| && u != t ensures Next(k, e).tasks[u] == k.tasks[u] {
        EffectOthers(k, e, u);
      }
    }
  }

  lemma {:induction false} ChangedPriority(k: Kernel, t: nat, p: nat)
    requires Inv(k) && Enabled(k, ChangePriority(t, p))
    ensures Effect(k, t, ChangePriority(t, p)).x.priority == p && Next(k, ChangePriority(t, p)).run == k.run
  {
    hide QueuesOk, SortLinks.Valid;
    assert TaskOk(k, t);
  }

  // ------------------------------------------------------------ steps

  function Bump(net: seq<seq<nat>>, m: nat, t: nat, n: nat): (r: seq<seq<nat>>)
    requires m < |net| && t < |net[m]|
  {
    var row: seq<nat> := net[m][t := n];
    net[m := row]
  }

  ghost function Acquired(s: System, m: nat): (r: System)
    requires MutexInv(s) && m < |s.mux|
  {
    var x := s.mux[m];
    s.(mux := s.mux[m := Acquire(x, s.k.run, s.k.tasks[s.k.run].priority)],
       net := Bump(s.net, m, s.k.run, s.net[m][s.k.run] + 1),
       late := if x.count == 0 then s.late[m := {}] else s.late)
  }

  /** The state in which LOS_MuxPend waits: the owner has at least the caller's urgency. */
  ghost function Boosted(k: Kernel, owner: nat): (r: Kernel)
    requires Inv(k) && owner < |k.tasks|
  {
    if k.tasks[owner].priority > k.tasks[k.run].priority then Reprioritise(k, owner, k.tasks[k.run].priority) else k
  }

  lemma {:induction false} BoostedKeeps(k: Kernel, own: set<nat>, c: Calls, t: nat)
    requires CallsOk(k, own, c) && Alive(k, t) && t != k.run && CanBlock(k, c)
    ensures var r := Boosted(k, t);
      && CallsOk(r, own, c) && CanBlock(r, c) && |r.tasks| == |k.tasks| && r.run == k.run && r.idle == k.idle
      && SameWaitLists(k.q, r.q) && (forall u :: 0 <= u < |k.tasks| && u != t ==> r.tasks[u] == k.tasks[u])
      && (forall u :: Alive(k, u) ==> Alive(r, u))
      && r.tasks[t].priority == (if k.tasks[t].priority > k.tasks[k.run].priority then k.tasks[k.run].priority else k.tasks[t].priority)
      && r.tasks[t].priority <= r.tasks[k.run].priority
  {
    if k.tasks[t].priority > k.tasks[k.run].priority {
      RunPriority(k);
      ReprioritiseKeeps(k, own, c, t, k.tasks[k.run].priority);
    }
    hide CallsOk, Inv, Reprioritise;
  }

  lemma {:induction false} RunPriority(k: Kernel)
    requires Inv(k)
    ensures k.tasks[k.run].priority < PRIORITIES
  {
  }

  ghost function PendBlocks(s: System, m: nat, ticks: nat): (r: System)
    requires MutexInv(s) && m < |s.mux| && s.mux[m].owner.Some? && s.mux[m].owner != Some(s.k.run) && CanBlock(s.k, s.c)
  {
    hide Inv;
    BoostedKeeps(s.k, Own(s.wl), s.c, s.mux[m].owner.value);
    var k1 := Boosted(s.k, s.mux[m].owner.value);
    BlockKeeps(k1, Own(s.wl), s.c, s.wl[m], ticks);
    s.(k := Next(k1, WaitOn(s.wl[m], ticks)), c := Blocked(k1, s.c), late := s.late[m := s.late[m] + {s.k.run}])
  }

  /** The last post of an owner: it gets its own priority back and the mutex goes to the waiter that
      arrived first, or is free. */
  ghost function Released(s: System, m: nat): (r: System)
    requires MutexInv(s) && m < |s.mux| && s.mux[m].owner == Some(s.k.run) && Executing(s.k)
  {
    hide Inv;
    var x := s.mux[m];
    ReprioritiseKeeps(s.k, Own(s.wl), s.c, s.k.run, x.priority);
    var k1 := Reprioritise(s.k, s.k.run, x.priority);
    var waiters := Waiters(k1, s.wl[m]);
    if waiters == [] then
      s.(k := k1, mux := s.mux[m := x.(count := 0, owner := None)], net := Bump(s.net, m, s.k.run, 0))
    else
      var t := waiters[0];
      GrantKeeps(k1, Own(s.wl), s.c, s.wl[m]);
      s.(k := Next(k1, WakeUp(t)), c := Granted(s.c, t),
         mux := s.mux[m := x.(count := 1, owner := Some(t), priority := k1.tasks[t].priority)],
         net := Bump(Bump(s.net, m, s.k.run, 0), m, t, 1), late := s.late[m := {}])
  }

  ghost function MutexNext(s: System, e: Step): (r: System)
    requires MutexInv(s) && MutexEnabled(s, e)
  {
    match e
    case Pend(m, ticks, ctx) =>
      if m >= |s.mux| then s
      else
        var ret := PendRet(s.mux[m], s.k.run, ticks, ctx);
        if ret == Ok then Acquired(s, m)
        else if ret == Blocks then PendBlocks(s, m, ticks)
        else s
    case Post(m, inInterrupt) =>
      if m >= |s.mux| || PostRet(s.mux[m], s.k.run, inInterrupt) != Ok then s
      else if s.mux[m].count > 1 then
        s.(mux := s.mux[m := s.mux[m].(count := s.mux[m].count - 1)], net := Bump(s.net, m, s.k.run, s.net[m][s.k.run] - 1))
      else Released(s, m)
    case Finish =>
      FinishKeeps(s.k, Own(s.wl), s.c);
      s.(k := Next(s.k, Return), c := Finished(s.k, s.c))
    case Create(m) => s.(mux := s.mux[m := Mux(true, 0, None, 0)])
    case Delete(m) =>
      if m >= |s.mux| || DeleteRet(s.mux[m], Waiters(s.k, s.wl[m])) != Ok then s
      else s.(mux := s.mux[m := s.mux[m].(used := false)])
    case Other(e) =>
      s.(k := Next(s.k, e), c := AfterForeign(s.k, Own(s.wl), s.c, e),
         base := if e.Create? && e.t < |s.base| then s.base[e.t := e.p] else s.base)
  }

  // ------------------------------------------------------------ safety

  /** A mutex nobody touched: fewer or the same waiters, and its owner is still alive. */
  lemma {:induction false} Untouched(x: Mux, ws: seq<nat>, k: Kernel, ws': seq<nat>, k': Kernel, net: seq<nat>)
    requires MuxOk(x, ws, k, net) && |k'.tasks| == |k.tasks|
    requires forall t :: t in ws' ==> t in ws
    requires x.owner.Some? ==> Alive(k', x.owner.value)
    ensures MuxOk(x, ws', k', net)
  {
    assert ws' != [] ==> ws'[0] in ws';
  }

  lemma {:induction false} AcquiredKeeps(s: System, m: nat)
    requires MutexInv(s) && m < |s.mux| && CanBlock(s.k, s.c) && s.mux[m].used
    requires s.mux[m].count == 0 || s.mux[m].owner == Some(s.k.run)
    ensures MutexInv(Acquired(s, m))
  {
    assert Alive(s.k, s.k.run);
    assert MuxOk(s.mux[m], Waiters(s.k, s.wl[m]), s.k, s.net[m]);
    RunPriority(s.k);
    hide CallsOk, Waiters, CanBlock;
  }

  lemma {:induction false} PendBlocksKeeps(s: System, m: nat, ticks: nat)
    requires MutexInv(s) && m < |s.mux| && s.mux[m].owner.Some? && s.mux[m].owner != Some(s.k.run) && CanBlock(s.k, s.c)
    ensures MutexInv(PendBlocks(s, m, ticks))
  {
    var own, owner := Own(s.wl), s.mux[m].owner.value;
    BoostedKeeps(s.k, own, s.c, owner);
    var k1 := Boosted(s.k, owner);
    BlockKeeps(k1, own, s.c, s.wl[m], ticks);
    var e := WaitOn(s.wl[m], ticks);
    NextSize(k1, e);
    var r := PendBlocks(s, m, ticks);
    forall u | Alive(k1, u) ensures Alive(r.k, u) {
      StepKeepsTask(k1, e, u);
    }
    hide CallsOk, Inv, Next, Boosted, CanBlock, InOrder, OnOwn, Foreign;
    forall i | 0 <= i < |s.mux| ensures WaitQ(r.wl[i]) in r.k.q.lists && MuxOk(r.mux[i], Waiters(r.k, r.wl[i]), r.k, r.net[i]) {
      assert MuxOk(s.mux[i], Waiters(s.k, s.wl[i]), s.k, s.net[i]);
      if i != m {
        assert s.wl[i] != s.wl[m];
        Untouched(s.mux[i], Waiters(s.k, s.wl[i]), s.k, Waiters(r.k, r.wl[i]), r.k, s.net[i]);
      } else {
        assert Waiters(r.k, r.wl[m]) == Waiters(s.k, s.wl[m]) + [s.k.run];
      }
    }
  }

  /** What the codes of a pend mean: after LOS_OK the caller owns the mutex once more than before and has
      overtaken no waiter; a call waits exactly if another task owns the mutex and its timeout is not 0, joins
      the list last and leaves that owner at least as urgent as itself; every refused call changes nothing. */
  lemma {:induction false} PendOutcome(s: System, m: nat, ticks: nat, ctx: Context)
    requires MutexInv(s) && MutexEnabled(s, Pend(m, ticks, ctx))
    ensures m >= |s.mux| ==> MutexNext(s, Pend(m, ticks, ctx)) == s
    ensures m < |s.mux| ==>
      var x := s.mux[m]; var ret := PendRet(x, s.k.run, ticks, ctx); var r := MutexNext(s, Pend(m, ticks, ctx));
      && (ret == Ok ==> PendTakes(s, r, m))
      && (ret == Blocks ==> PendJoins(s, r, m))
      && (ret != Ok && ret != Blocks ==> r == s)
      && var may := x.used && !ctx.inInterrupt && !ctx.locked && !ctx.systemTask;
         var free := x.owner == None || x.owner == Some(s.k.run);
      && (ret == Ok <==> may && free)
      && (ret == Unavailable <==> may && !free && ticks == 0)
      && (ret == Blocks <==> may && !free && ticks != 0)
      && (ret == Invalid <==> !x.used)
      && (ret == InInterrupt <==> x.used && ctx.inInterrupt)
      && (ret == PendInLock <==> x.used && !ctx.inInterrupt && ctx.locked)
      && (ret == PendInSystemTask <==> x.used && !ctx.inInterrupt && !ctx.locked && ctx.systemTask)
  {
    if m < |s.mux| {
      var ret := PendRet(s.mux[m], s.k.run, ticks, ctx);
      assert MuxOk(s.mux[m], Waiters(s.k, s.wl[m]), s.k, s.net[m]);
      if ret == Ok {
        RunAcquires(s, m);
      } else if ret == Blocks {
        PendBlocksJoins(s, m, ticks);
      }
      hide MutexInv, PendTakes, PendJoins, Acquired, PendBlocks;
    }
  }

  ghost predicate PendTakes(s: System, r: System, m: nat)
    requires m < |s.mux|
  {
    && m < |r.mux| && m < |s.net| && m < |r.net| && m < |s.wl| && s.k.run < |s.net[m]| && s.k.run < |r.net[m]|
    && r.mux[m].owner == Some(s.k.run) && r.net[m][s.k.run] == s.net[m][s.k.run] + 1 == r.mux[m].count
    && (s.mux[m].owner == Some(s.k.run) || Waiters(s.k, s.wl[m]) == []) && r.k == s.k && r.c == s.c
  }

  lemma {:induction false} RunAcquires(s: System, m: nat)
    requires MutexInv(s) && m < |s.mux| && (s.mux[m].count == 0 || s.mux[m].owner == Some(s.k.run))
    ensures PendTakes(s, Acquired(s, m), m)
  {
    hide QueuesOk, SortLinks.Valid;
    assert MuxOk(s.mux[m], Waiters(s.k, s.wl[m]), s.k, s.net[m]);
  }

  ghost predicate PendJoins(s: System, r: System, m: nat)
    requires m < |s.mux| == |s.wl|
  {
    && s.mux[m].owner.Some? && s.mux[m].owner.value != s.k.run && r.mux == s.mux && r.net == s.net
    && Waiters(r.k, s.wl[m]) == Waiters(s.k, s.wl[m]) + [s.k.run]
    && s.mux[m].owner.value < |r.k.tasks| && s.k.run < |r.k.tasks|
    && r.k.tasks[s.mux[m].owner.value].priority <= r.k.tasks[s.k.run].priority
  }

  lemma {:induction false} PendBlocksJoins(s: System, m: nat, ticks: nat)
    requires MutexInv(s) && m < |s.mux| && s.mux[m].owner.Some? && s.mux[m].owner != Some(s.k.run) && CanBlock(s.k, s.c)
    ensures PendJoins(s, PendBlocks(s, m, ticks), m)
  {
    var own, owner := Own(s.wl), s.mux[m].owner.value;
    assert MuxOk(s.mux[m], Waiters(s.k, s.wl[m]), s.k, s.net[m]);
    BoostedKeeps(s.k, own, s.c, owner);
    var k1 := Boosted(s.k, owner);
    BlockKeeps(k1, own, s.c, s.wl[m], ticks);
    NextSize(k1, WaitOn(s.wl[m], ticks));
    StepKeepsTask(k1, WaitOn(s.wl[m], ticks), owner);
    hide CallsOk, Inv, Next, Boosted, CanBlock, InOrder, OnOwn, Foreign;
  }

  /** What a release does to the tasks and the lists. */
  lemma {:induction false} ReleasedFrame(s: System, m: nat)
    requires MutexInv(s) && m < |s.mux| && s.mux[m].owner == Some(s.k.run) && Executing(s.k)
    ensures var r := Released(s, m); var ws := Waiters(s.k, s.wl[m]);
      && CallsOk(r.k, Own(s.wl), r.c) && |r.k.tasks| == |s.k.tasks|
      && (forall w :: WaitQ(w) in s.k.q.lists <==> WaitQ(w) in r.k.q.lists)
      && (forall w :: w != s.wl[m] ==> Waiters(r.k, w) == Waiters(s.k, w))
      && Waiters(r.k, s.wl[m]) == (if ws == [] then [] else ws[1..])
      && (ws != [] ==> r.mux[m].priority < PRIORITIES)
      && Waiters(Reprioritise(s.k, s.k.run, s.mux[m].priority), s.wl[m]) == ws
  {
    hide Inv, Next, Reprioritise;
    var own, x := Own(s.wl), s.mux[m];
    assert MuxOk(x, Waiters(s.k, s.wl[m]), s.k, s.net[m]);
    ReprioritiseKeeps(s.k, own, s.c, s.k.run, x.priority);
    var k1 := Reprioritise(s.k, s.k.run, x.priority);
    assert Waiters(k1, s.wl[m]) == Waiters(s.k, s.wl[m]);
    if Waiters(k1, s.wl[m]) != [] {
      GrantKeeps(k1, own, s.c, s.wl[m]);
      RunPriority2(k1, Waiters(k1, s.wl[m])[0]);
    }
  }

  lemma {:induction false} ReleasedAlive(s: System, m: nat)
    requires MutexInv(s) && m < |s.mux| && s.mux[m].owner == Some(s.k.run) && Executing(s.k)
    ensures var r := Released(s, m); var ws := Waiters(s.k, s.wl[m]);
      && (forall u :: Alive(s.k, u) ==> Alive(r.k, u))
      && (ws != [] ==> ws[0] !in ws[1..] && Alive(r.k, ws[0]))
  {
    hide Inv, Next, Reprioritise, Foreign;
    var own, x := Own(s.wl), s.mux[m];
    assert MuxOk(x, Waiters(s.k, s.wl[m]), s.k, s.net[m]);
    ReprioritiseKeeps(s.k, own, s.c, s.k.run, x.priority);
    var k1 := Reprioritise(s.k, s.k.run, x.priority);
    assert Waiters(k1, s.wl[m]) == Waiters(s.k, s.wl[m]);
    if Waiters(k1, s.wl[m]) != [] {
      var t := Waiters(k1, s.wl[m])[0];
      assert Enabled(k1, WakeUp(t)) by { GrantKeeps(k1, own, s.c, s.wl[m]); }
      NextSize(k1, WakeUp(t));
      forall u | Alive(k1, u) ensures Alive(Next(k1, WakeUp(t)), u) {
        StepKeepsTask(k1, WakeUp(t), u);
      }
      WaiterAlive(k1, t);
      FirstNotInRest(k1, s.wl[m]);
    }
  }

  /** The released mutex itself. */
  lemma {:induction false} ReleasedMux(s: System, m: nat)
    requires MutexInv(s) && m < |s.mux| && s.mux[m].owner == Some(s.k.run) && Executing(s.k) && s.mux[m].count == 1
    ensures var r := Released(s, m); MuxOk(r.mux[m], Waiters(r.k, r.wl[m]), r.k, r.net[m])
  {
    hide CallsOk, Inv, Next, Reprioritise, Waiters, Executing;
    ReleasedFrame(s, m);
    ReleasedAlive(s, m);
    assert MuxOk(s.mux[m], Waiters(s.k, s.wl[m]), s.k, s.net[m]);
  }

  /** The other mutexes. */
  lemma {:induction false} ReleasedOthers(s: System, m: nat, i: nat)
    requires MutexInv(s) && m < |s.mux| && s.mux[m].owner == Some(s.k.run) && Executing(s.k) && i < |s.mux| && i != m
    ensures var r := Released(s, m); r.mux[i] == s.mux[i] && MuxOk(r.mux[i], Waiters(r.k, r.wl[i]), r.k, r.net[i])
  {
    hide CallsOk, Inv, Next, Reprioritise, Waiters, Executing, Alive;
    ReleasedFrame(s, m);
    ReleasedAlive(s, m);
    var r := Released(s, m);
    assert s.wl[i] != s.wl[m];
    assert r.net[i] == s.net[i];
    Untouched(s.mux[i], Waiters(s.k, s.wl[i]), s.k, Waiters(r.k, r.wl[i]), r.k, s.net[i]);
  }

  lemma {:induction false} ReleasedKeeps(s: System, m: nat)
    requires MutexInv(s) && m < |s.mux| && s.mux[m].owner == Some(s.k.run) && Executing(s.k) && s.mux[m].count == 1
    ensures MutexInv(Released(s, m))
  {
    hide CallsOk, Inv, Next, Reprioritise, Waiters, Executing, MuxOk;
    ReleasedFrame(s, m);
    var r := Released(s, m);
    forall i: nat | i < |s.mux| ensures MuxOk(r.mux[i], Waiters(r.k, r.wl[i]), r.k, r.net[i]) {
      if i == m {
        ReleasedMux(s, m);
      } else {
        ReleasedOthers(s, m, i);
      }
    }
  }

  lemma {:induction false} WaiterAlive(k: Kernel, t: nat)
    requires Inv(k) && t < |k.tasks| && k.tasks[t].pend
    ensures Alive(k, t)
  {
    assert TaskOk(k, t);
  }

  lemma {:induction false} RunPriority2(k: Kernel, t: nat)
    requires Inv(k) && t < |k.tasks|
    ensures k.tasks[t].priority < PRIORITIES
  {
  }

  lemma {:induction false} FirstNotInRest(k: Kernel, w: nat)
    requires Inv(k) && Waiters(k, w) != []
    ensures Waiters(k, w)[0] !in Waiters(k, w)[1..]
  {
    assert NoDup(k.q.lists[WaitQ(w)]);
  }

  lemma {:induction false} FinishPendKeeps(s: System)
    requires MutexInv(s) && CanFinish(s.k, s.c)
    ensures MutexInv(MutexNext(s, Finish))
  {
    FinishKeeps(s.k, Own(s.wl), s.c);
    hide CallsOk, Inv, Next, CanFinish, InOrder;
    var r := MutexNext(s, Finish);
    forall i | 0 <= i < |s.mux| ensures MuxOk(r.mux[i], Waiters(r.k, r.wl[i]), r.k, r.net[i]) {
      Untouched(s.mux[i], Waiters(s.k, s.wl[i]), s.k, Waiters(r.k, r.wl[i]), r.k, s.net[i]);
    }
  }

  lemma {:induction false} OtherKeeps(s: System, e: Machine.Step)
    requires MutexInv(s) && MutexEnabled(s, Other(e))
    ensures MutexInv(MutexNext(s, Other(e)))
  {
    var own := Own(s.wl);
    ForeignKeeps(s.k, own, s.c, e);
    NextSize(s.k, e);
    var r := MutexNext(s, Other(e));
    forall i | 0 <= i < |s.mux| ensures WaitQ(r.wl[i]) in r.k.q.lists && MuxOk(r.mux[i], Waiters(r.k, r.wl[i]), r.k, r.net[i]) {
      OtherMux(s, e, i);
    }
    hide CallsOk, Inv, Next, InOrder, Foreign, MuxOk, AfterForeign;
  }

  lemma {:induction false} OtherMux(s: System, e: Machine.Step, i: nat)
    requires MutexInv(s) && MutexEnabled(s, Other(e)) && i < |s.mux|
    ensures WaitQ(s.wl[i]) in Next(s.k, e).q.lists && MuxOk(s.mux[i], Waiters(Next(s.k, e), s.wl[i]), Next(s.k, e), s.net[i])
  {
    hide QueuesOk, SortLinks.Valid, Next, InOrder, TaskOk;
    NextSize(s.k, e);
    ForeignLists(s.k, Own(s.wl), s.c, e, s.wl[i]);
    var x := s.mux[i];
    if x.owner.Some? {
      var t := x.owner.value;
      if e.ChangePriority? && e.t == t {
        NextIsEffect(s.k, e);
        EffectBits(s.k, t, e);
      } else {
        StepKeepsTask(s.k, e, t);
      }
    }
    Untouched(x, Waiters(s.k, s.wl[i]), s.k, Waiters(Next(s.k, e), s.wl[i]), Next(s.k, e), s.net[i]);
  }

  lemma {:induction false} PostKeeps(s: System, m: nat, inInterrupt: bool)
    requires MutexInv(s) && MutexEnabled(s, Post(m, inInterrupt))
    ensures MutexInv(MutexNext(s, Post(m, inInterrupt)))
  {
    hide CallsOk, Released, Executing;
    if m < |s.mux| && PostRet(s.mux[m], s.k.run, inInterrupt) == Ok {
      assert MuxOk(s.mux[m], Waiters(s.k, s.wl[m]), s.k, s.net[m]);
      if s.mux[m].count == 1 {
        ReleasedKeeps(s, m);
      }
    }
  }

  /** Every step keeps what MuxOk says of every mutex. */
  lemma {:induction false} MutexKeeps(s: System, e: Step)
    requires MutexInv(s) && MutexEnabled(s, e)
    ensures MutexInv(MutexNext(s, e))
  {
    hide CallsOk, Acquired, PendBlocks, Released, CanBlock, CanFinish, Executing, Foreign;
    match e
    case Pend(m, ticks, ctx) =>
      if m < |s.mux| {
        assert MuxOk(s.mux[m], Waiters(s.k, s.wl[m]), s.k, s.net[m]);
        if PendRet(s.mux[m], s.k.run, ticks, ctx) == Ok {
          AcquiredKeeps(s, m);
        } else if PendRet(s.mux[m], s.k.run, ticks, ctx) == Blocks {
          PendBlocksKeeps(s, m, ticks);
        }
      }
    case Post(m, inInterrupt) => PostKeeps(s, m, inInterrupt);
    case Finish => FinishPendKeeps(s);
    case Create(m) =>
    case Delete(m) =>
    case Other(e) => OtherKeeps(s, e);
  }

  ghost predicate MutexRun(s: System, es: seq<Step>, r: System)
    requires MutexInv(s)
    decreases |es|
  {
    if es == [] then r == s
    else MutexEnabled(s, es[0]) && (MutexKeeps(s, es[0]); MutexRun(MutexNext(s, es[0]), es[1..], r))
  }

  /** On every run, with any number of mutexes, nested or not: the count is the owner's net number of
      acquisitions and zero exactly without owner, nobody else holds the mutex, a free mutex has no
      waiters, and an owner does not wait for its own mutex. */
  lemma {:induction false} MutexSafety(s: System, es: seq<Step>, r: System)
    requires MutexInv(s) && MutexRun(s, es, r)
    ensures MutexInv(r)
    ensures forall m :: 0 <= m < |r.mux| ==> MuxOk(r.mux[m], Waiters(r.k, r.wl[m]), r.k, r.net[m])
    decreases |es|
  {
    if es != [] {
      hide MutexInv, MutexNext, MuxOk;
      MutexKeeps(s, es[0]);
      MutexSafety(MutexNext(s, es[0]), es[1..], r);
    }
  }

  /** What the codes of a post mean: it succeeds exactly for the owner, outside interrupts, and undoes exactly one
      acquisition; it keeps the mutex until the last one and then hands it on or frees it; every refused post
      changes nothing. */
  lemma {:induction false} PostOutcome(s: System, m: nat, inInterrupt: bool)
    requires MutexInv(s) && MutexEnabled(s, Post(m, inInterrupt))
    ensures m >= |s.mux| ==> MutexNext(s, Post(m, inInterrupt)) == s
    ensures m < |s.mux| ==>
      var x := s.mux[m]; var ret := PostRet(x, s.k.run, inInterrupt); var r := MutexNext(s, Post(m, inInterrupt));
      && (ret == Ok <==> x.used && !inInterrupt && x.owner == Some(s.k.run))
      && (ret == InInterrupt <==> x.used && inInterrupt)
      && (ret != Ok ==> r == s)
      && (ret == Ok ==> PostReleases(s, r, m))
  {
    if m < |s.mux| {
      assert MuxOk(s.mux[m], Waiters(s.k, s.wl[m]), s.k, s.net[m]);
      if PostRet(s.mux[m], s.k.run, inInterrupt) == Ok {
        if s.mux[m].count > 1 {
          PostsOne(s, m);
        } else {
          PostsLast(s, m);
        }
      }
      hide MutexInv, PostReleases, Released;
    }
  }

  ghost predicate PostReleases(s: System, r: System, m: nat)
    requires m < |s.mux| && m < |s.wl|
  {
    var ws := Waiters(s.k, s.wl[m]);
    && m < |r.mux| && m < |s.net| && m < |r.net| && s.k.run < |s.net[m]| && s.k.run < |r.net[m]|
    && r.net[m][s.k.run] + 1 == s.net[m][s.k.run]
    && (s.mux[m].count > 1 ==> r.k == s.k && r.c == s.c && r.mux[m] == s.mux[m].(count := s.mux[m].count - 1))
    && (s.mux[m].count == 1 ==>
          if ws == [] then r.mux[m].owner == None && r.c == s.c
          else r.mux[m].owner == Some(ws[0]) && r.mux[m].count == 1 && Waiters(r.k, s.wl[m]) == ws[1..] && ws[0] in r.c.granted)
  }

  lemma {:induction false} PostsOne(s: System, m: nat)
    requires MutexInv(s) && m < |s.mux| && s.mux[m].owner == Some(s.k.run) && s.mux[m].count > 1
    requires MutexEnabled(s, Post(m, false)) && s.mux[m].used
    ensures PostReleases(s, MutexNext(s, Post(m, false)), m)
  {
    hide QueuesOk, SortLinks.Valid, Next;
    assert MuxOk(s.mux[m], Waiters(s.k, s.wl[m]), s.k, s.net[m]);
  }

  lemma {:induction false} PostsLast(s: System, m: nat)
    requires MutexInv(s) && m < |s.mux| && s.mux[m].owner == Some(s.k.run) && s.mux[m].count == 1 && Executing(s.k)
    ensures PostReleases(s, Released(s, m), m)
  {
    hide CallsOk, Inv, Next, Reprioritise, Executing, Waiters, Released;
    assert MuxOk(s.mux[m], Waiters(s.k, s.wl[m]), s.k, s.net[m]);
    ReleasedMux(s, m);
    ReleasedParts(s, m);
    var r := Released(s, m);
    assert r.net[m][s.k.run] == 0 && s.net[m][s.k.run] == 1;
    if Waiters(s.k, s.wl[m]) != [] {
      HandsToLongestWaiter(s, m);
    }
  }

  lemma {:induction false} ReleasedParts(s: System, m: nat)
    requires MutexInv(s) && m < |s.mux| && s.mux[m].owner == Some(s.k.run) && s.mux[m].count == 1 && Executing(s.k)
    ensures var r := Released(s, m);
      && |r.mux| == |s.mux| && |r.net| == |s.net| && r.wl == s.wl && |r.k.tasks| == |s.k.tasks| && s.k.run < |s.k.tasks|
      && (r.mux[m].owner == None || (Waiters(s.k, s.wl[m]) != [] && r.mux[m].owner == Some(Waiters(s.k, s.wl[m])[0])))
      && (Waiters(s.k, s.wl[m]) == [] ==> r.mux[m].owner == None && r.c == s.c)
  {
    ReleasedFrame(s, m);
    hide CallsOk, Next, Reprioritise, Waiters, QueuesOk, SortLinks.Valid;
  }

  /** A mutex is deleted exactly if it is in use and nobody owns it; a refused deletion changes nothing. */
  lemma {:induction false} DeleteOutcome(s: System, m: nat)
    requires MutexInv(s)
    ensures m >= |s.mux| ==> MutexNext(s, Delete(m)) == s
    ensures m < |s.mux| ==>
      var ret := DeleteRet(s.mux[m], Waiters(s.k, s.wl[m])); var r := MutexNext(s, Delete(m));
      && (ret == Ok <==> s.mux[m].used && s.mux[m].owner == None)
      && r == if ret == Ok then s.(mux := s.mux[m := s.mux[m].(used := false)]) else s
  {
    hide CallsOk;
    if m < |s.mux| {
      assert MuxOk(s.mux[m], Waiters(s.k, s.wl[m]), s.k, s.net[m]);
    }
  }

  /** The last post hands the mutex to the waiter that arrived first. */
  lemma {:induction false} HandsToLongestWaiter(s: System, m: nat)
    requires MutexInv(s) && m < |s.mux| && s.mux[m].owner == Some(s.k.run) && Executing(s.k) && s.mux[m].count == 1
    requires Waiters(s.k, s.wl[m]) != []
    ensures var ws := Waiters(s.k, s.wl[m]); var r := Released(s, m);
      && r.mux[m].owner == Some(ws[0]) && r.mux[m].count == 1 && Waiters(r.k, s.wl[m]) == ws[1..]
      && ws[0] in r.c.granted
      && (forall u :: u in ws && u != ws[0] ==> u < |s.c.ticket| && ws[0] < |s.c.ticket| && s.c.ticket[ws[0]] < s.c.ticket[u])
  {
    var own, x := Own(s.wl), s.mux[m];
    ReprioritiseKeeps(s.k, own, s.c, s.k.run, x.priority);
    var k1 := Reprioritise(s.k, s.k.run, x.priority);
    GrantKeeps(k1, own, s.c, s.wl[m]);
  }
}

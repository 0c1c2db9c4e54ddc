/** Counting semaphores: no token is lost or made, and waiters are served in arrival order. */
module Semaphores {
  import opened Queues
  import opened Sched
  import opened Machine
  import opened Blocking

  datatype Sem = Sem(used: bool, count: nat, max: nat)

  /** From where LOS_SemPend is called. */
  datatype Context = Context(inInterrupt: bool, locked: bool, systemTask: bool)

  datatype Ret = Ok | Invalid | Overflow | PendInInterrupt | PendInLock | PendInSystemTask | Unavailable | Timeout | Pended
               | Blocks // the caller waits; it has not returned

  /** OsSemValidCheck and the decision LOS_SemPend takes before it blocks. */
  function PendRet(sem: Sem, ticks: nat, ctx: Context): (r: Ret) {
    if !sem.used then Invalid
    else if ctx.inInterrupt then PendInInterrupt
    else if ctx.locked then PendInLock
    else if ctx.systemTask then PendInSystemTask
    else if sem.count > 0 then Ok
    else if ticks == 0 then Unavailable
    else Blocks
  }

  /** The decision LOS_SemPost takes; `Ok` with waiters means that the first of them gets the token. */
  function PostRet(sem: Sem): (r: Ret) {
    if !sem.used then Invalid else if sem.max == sem.count then Overflow else Ok
  }

  function DeleteRet(sem: Sem, waiters: seq<nat>): (r: Ret) {
    if !sem.used then Invalid else if waiters != [] then Pended else Ok
  }

  // ------------------------------------------------------------ one semaphore in a running system

  datatype Step = Pend(ticks: nat, ctx: Context) | Post | Finish | Delete | Other(e: Machine.Step)

  /** Where the tokens went: `taken` by a pend that found one, `handed` to a waiter, `returned`
      when that waiter's pend returned LOS_OK, `dropped` if it was deleted first. */
  datatype Tokens = Tokens(initial: nat, posts: nat, taken: nat, handed: nat, returned: nat, dropped: nat)

  datatype System = System(k: Kernel, c: Calls, w: nat, sem: Sem, n: Tokens)

  ghost predicate SemInv(s: System) {
    && CallsOk(s.k, {s.w}, s.c) && InOrder(s.k, s.w, s.c)
    && s.sem.count <= s.sem.max
    && (s.sem.count > 0 || !s.sem.used ==> s.k.q.lists[WaitQ(s.w)] == [])
    && s.n.initial + s.n.posts == s.sem.count + s.n.taken + s.n.handed
    && s.n.handed == s.n.returned + s.n.dropped + |s.c.granted|
  }

  ghost predicate SemEnabled(s: System, e: Step) {
    match e
    case Pend(ticks, ctx) => PendRet(s.sem, ticks, ctx) == Blocks || PendRet(s.sem, ticks, ctx) == Ok ==> CanBlock(s.k, s.c)
    case Post => true
    case Finish => CanFinish(s.k, s.c)
    case Delete => true
    case Other(e) => Foreign(s.k, {s.w}, s.c, e)
  }

  ghost function SemNext(s: System, e: Step): (r: System)
    requires SemInv(s) && SemEnabled(s, e)
  {
    match e
    case Pend(ticks, ctx) =>
      var ret := PendRet(s.sem, ticks, ctx);
      if ret == Ok then s.(sem := s.sem.(count := s.sem.count - 1), n := s.n.(taken := s.n.taken + 1))
      else if ret == Blocks then
        BlockKeeps(s.k, {s.w}, s.c, s.w, ticks);
        s.(k := Next(s.k, WaitOn(s.w, ticks)), c := Blocked(s.k, s.c))
      else s
    case Post =>
      var waiters := s.k.q.lists[WaitQ(s.w)];
      if PostRet(s.sem) != Ok then s
      else if waiters == [] then s.(sem := s.sem.(count := s.sem.count + 1), n := s.n.(posts := s.n.posts + 1))
      else
        GrantKeeps(s.k, {s.w}, s.c, s.w);
        s.(k := Next(s.k, WakeUp(waiters[0])), c := Granted(s.c, waiters[0]),
           n := s.n.(posts := s.n.posts + 1, handed := s.n.handed + 1))
    case Finish =>
      FinishKeeps(s.k, {s.w}, s.c);
      s.(k := Next(s.k, Return), c := Finished(s.k, s.c),
         n := if s.k.tasks[s.k.run].timeout then s.n else s.n.(returned := s.n.returned + 1))
    case Delete => if DeleteRet(s.sem, s.k.q.lists[WaitQ(s.w)]) == Ok then s.(sem := s.sem.(used := false)) else s
    case Other(e) =>
      s.(k := Next(s.k, e), c := AfterForeign(s.k, {s.w}, s.c, e),
         n := if DeletesOne(s.c.granted, e) then s.n.(dropped := s.n.dropped + 1) else s.n)
  }

  lemma {:induction false} PendKeeps(s: System, ticks: nat, ctx: Context)
    requires SemInv(s) && SemEnabled(s, Pend(ticks, ctx))
    ensures SemInv(SemNext(s, Pend(ticks, ctx)))
  {
    hide Inv, Next;
    if PendRet(s.sem, ticks, ctx) == Blocks {
      BlockKeeps(s.k, {s.w}, s.c, s.w, ticks);
      OwnInOrder(Next(s.k, WaitOn(s.w, ticks)), s.w, Blocked(s.k, s.c));
    }
  }

  lemma {:induction false} OwnInOrder(k: Kernel, w: nat, c: Calls)
    requires CallsOk(k, {w}, c)
    ensures InOrder(k, w, c)
  {
  }

  /** What the codes of a pend mean: LOS_OK at once takes one token and overtakes no waiter; a call that may
      wait does so, last on the list, exactly if no token is left and its timeout is not 0; every refused call
      changes nothing. */
  lemma {:induction false} PendOutcome(s: System, ticks: nat, ctx: Context)
    requires SemInv(s) && SemEnabled(s, Pend(ticks, ctx))
    ensures var ret := PendRet(s.sem, ticks, ctx); var r := SemNext(s, Pend(ticks, ctx));
      && (ret == Ok ==> s.sem.used && s.sem.count == r.sem.count + 1 && Waiters(s.k, s.w) == [] && r.k == s.k && r.c == s.c)
      && (ret == Blocks ==> s.sem.used && s.sem.count == 0 && r.sem == s.sem && r.n == s.n
                            && Waiters(r.k, s.w) == Waiters(s.k, s.w) + [s.k.run])
      && (ret != Ok && ret != Blocks ==> r == s)
      && var may := s.sem.used && !ctx.inInterrupt && !ctx.locked && !ctx.systemTask;
      && (ret == Ok <==> may && s.sem.count > 0)
      && (ret == Unavailable <==> may && s.sem.count == 0 && ticks == 0)
      && (ret == Blocks <==> may && s.sem.count == 0 && ticks != 0)
      && (ret == Invalid <==> !s.sem.used)
      && (ret == PendInInterrupt <==> s.sem.used && ctx.inInterrupt)
      && (ret == PendInLock <==> s.sem.used && !ctx.inInterrupt && ctx.locked)
      && (ret == PendInSystemTask <==> s.sem.used && !ctx.inInterrupt && !ctx.locked && ctx.systemTask)
  {
    hide Inv, Next;
    if PendRet(s.sem, ticks, ctx) == Blocks {
      BlockKeeps(s.k, {s.w}, s.c, s.w, ticks);
    }
  }

  /** A post gives the token to the waiter that arrived first, or adds it to the count. */
  lemma {:induction false} PostKeeps(s: System)
    requires SemInv(s)
    ensures SemInv(SemNext(s, Post))
    ensures var waiters := s.k.q.lists[WaitQ(s.w)]; var r := SemNext(s, Post);
      && (PostRet(s.sem) == Ok && waiters != [] ==>
            && r.c.granted == s.c.granted + {waiters[0]} && r.k.q.lists[WaitQ(s.w)] == waiters[1..]
            && forall u :: u in waiters && u != waiters[0] ==> s.c.ticket[waiters[0]] < s.c.ticket[u])
  {
    hide Inv, Next;
    var waiters := s.k.q.lists[WaitQ(s.w)];
    if PostRet(s.sem) == Ok && waiters != [] {
      GrantKeeps(s.k, {s.w}, s.c, s.w);
      OwnInOrder(Next(s.k, WakeUp(waiters[0])), s.w, Granted(s.c, waiters[0]));
      assert |s.c.granted + {waiters[0]}| == |s.c.granted| + 1;
    }
  }

  /** What the codes of a post mean: it succeeds exactly if the semaphore is in use and below its maximum, so
      always if somebody waits and the maximum is positive; it then hands a token to the longest waiter and
      leaves the count, or raises the count by one; a refused post changes nothing. */
  lemma {:induction false} PostOutcome(s: System)
    requires SemInv(s)
    ensures var ret := PostRet(s.sem); var r := SemNext(s, Post); var ws := Waiters(s.k, s.w);
      && (ret == Ok <==> s.sem.used && s.sem.count < s.sem.max)
      && (ret == Overflow <==> s.sem.used && s.sem.count == s.sem.max)
      && (ws != [] && s.sem.max > 0 ==> ret == Ok)
      && (ret != Ok ==> r == s)
      && (ret == Ok && ws == [] ==> r.sem == s.sem.(count := s.sem.count + 1) && r.k == s.k && r.c == s.c)
      && (ret == Ok && ws != [] ==>
            && r.sem == s.sem && r.c.granted == s.c.granted + {ws[0]} && Waiters(r.k, s.w) == ws[1..]
            && forall u :: u in ws && u != ws[0] ==> s.c.ticket[ws[0]] < s.c.ticket[u])
  {
    PostKeeps(s);
    hide Inv, Next;
  }

  /** A semaphore is deleted exactly if it is in use and nobody waits; a refused deletion changes nothing. */
  lemma {:induction false} DeleteOutcome(s: System)
    requires SemInv(s)
    ensures var ret := DeleteRet(s.sem, Waiters(s.k, s.w)); var r := SemNext(s, Delete);
      && (ret == Ok <==> s.sem.used && Waiters(s.k, s.w) == [])
      && r == if ret == Ok then s.(sem := s.sem.(used := false)) else s
  {
    hide Inv;
  }

  /** A pend that blocked returns LOS_OK exactly if it was handed a token. */
  lemma {:induction false} FinishReturns(s: System)
    requires SemInv(s) && CanFinish(s.k, s.c)
    ensures SemInv(SemNext(s, Finish))
    ensures SemNext(s, Finish).n.returned == s.n.returned + if s.k.run in s.c.granted then 1 else 0
  {
    hide Inv, Next;
    FinishKeeps(s.k, {s.w}, s.c);
    OwnInOrder(Next(s.k, Return), s.w, Finished(s.k, s.c));
    if s.k.run in s.c.granted {
      assert |s.c.granted - {s.k.run}| == |s.c.granted| - 1;
    } else {
      assert s.c.granted - {s.k.run} == s.c.granted;
    }
  }

  lemma {:induction false} OtherKeeps(s: System, e: Machine.Step)
    requires SemInv(s) && SemEnabled(s, Other(e))
    ensures SemInv(SemNext(s, Other(e)))
  {
    hide Inv, Next, AfterForeign;
    ForeignKeeps(s.k, {s.w}, s.c, e);
    OneLess(s.c.granted, e);
    ForeignLists(s.k, {s.w}, s.c, e, s.w);
    OwnInOrder(Next(s.k, e), s.w, AfterForeign(s.k, {s.w}, s.c, e));
    var now := Next(s.k, e).q.lists[WaitQ(s.w)];
    assert now != [] ==> now[0] in s.k.q.lists[WaitQ(s.w)];
  }

  /** A task that is deleted after it was handed a token and before it ran takes the token with it. */
  lemma {:induction false} DeletionDropsToken(s: System, t: nat)
    requires SemInv(s) && t in s.c.granted
    ensures SemEnabled(s, Other(ExitTask(t)))
    ensures var r := SemNext(s, Other(ExitTask(t)));
      SemInv(r) && r.n.dropped == s.n.dropped + 1 && |r.c.granted| == |s.c.granted| - 1 && r.sem == s.sem
  {
    hide CallsOk, Next, AfterForeign;
    CanDelete(s.k, {s.w}, s.c, t);
    OtherKeeps(s, ExitTask(t));
    OneLess(s.c.granted, ExitTask(t));
  }

  /** Every step keeps the token balance, the bound, and that tokens and waiters exclude each other. */
  lemma {:induction false} SemKeeps(s: System, e: Step)
    requires SemInv(s) && SemEnabled(s, e)
    ensures SemInv(SemNext(s, e))
  {
    hide CallsOk, Next, AfterForeign;
    match e
    case Pend(ticks, ctx) => PendKeeps(s, ticks, ctx);
    case Post => PostKeeps(s);
    case Finish => FinishReturns(s);
    case Delete =>
    case Other(e) => OtherKeeps(s, e);
  }

  ghost predicate SemRun(s: System, es: seq<Step>, r: System)
    requires SemInv(s)
    decreases |es|
  {
    if es == [] then r == s
    else SemEnabled(s, es[0]) && (SemKeeps(s, es[0]); SemRun(SemNext(s, es[0]), es[1..], r))
  }

  /** A freshly created semaphore: OsSemCreate refuses an initial count above the maximum. */
  ghost predicate Fresh(s: System) {
    && Inv(s.k) && |s.c.ticket| == |s.k.tasks| && s.c.granted == {} && s.c.expired == {}
    && WaitQ(s.w) in s.k.q.lists && s.k.q.lists[WaitQ(s.w)] == []
    && s.sem.used && s.sem.count <= s.sem.max && s.n == Tokens(s.sem.count, 0, 0, 0, 0, 0)
  }

  /** On every run: the initial count plus the successful posts is the count plus the tokens taken
      or handed over, the count never exceeds its maximum and tokens and waiters exclude each other. */
  lemma {:induction false} Conservation(s: System, es: seq<Step>, r: System)
    requires Fresh(s)
    ensures SemInv(s)
    ensures SemRun(s, es, r) ==>
      && r.n.initial + r.n.posts == r.sem.count + r.n.taken + r.n.returned + r.n.dropped + |r.c.granted|
      && r.sem.count <= r.sem.max && WaitQ(r.w) in r.k.q.lists
      && (r.sem.count > 0 ==> r.k.q.lists[WaitQ(r.w)] == [])
  {
    if SemRun(s, es, r) {
      RunKeepsSem(s, es, r);
    }
  }

  lemma {:induction false} RunKeepsSem(s: System, es: seq<Step>, r: System)
    requires SemInv(s) && SemRun(s, es, r)
    ensures SemInv(r)
    decreases |es|
  {
    hide SemInv, SemNext;
    if es != [] {
      SemKeeps(s, es[0]);
      RunKeepsSem(SemNext(s, es[0]), es[1..], r);
    }
  }
}

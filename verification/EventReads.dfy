/** When a read that a write has woken returns its bits. */
module EventReads {
  import opened Lists
  import opened Queues
  import opened Sched
  import opened Machine
  import opened Frames
  import opened Blocking
  import opened Events

  ghost predicate SameWish(x: Task, y: Task) { y.eventMask == x.eventMask && y.eventMode == x.eventMode }

  /** What task `t` asked for holds of the event word. */
  ghost predicate Wished(s: System, t: nat) {
    t < |s.k.tasks| && Holds(s.id, s.k.tasks[t].eventMask, s.k.tasks[t].eventMode)
  }

  // ------------------------------------------------------------ what a step does to a woken reader

  lemma {:induction false} WakeWish(k: Kernel, t: nat, u: nat)
    requires Inv(k) && Enabled(k, WakeUp(t)) && u < |k.tasks|
    ensures u < |Next(k, WakeUp(t)).tasks| && SameWish(k.tasks[u], Next(k, WakeUp(t)).tasks[u])
  {
    hide Inv, Enabled, Effect, Next;
    StepTask(k, WakeUp(t), u);
    if t == u {
      EffectBits(k, t, WakeUp(t));
    }
  }

  /** The loop of a write changes nobody's mask or mode. */
  lemma {:induction false} WriteWish(k: Kernel, c: Calls, w: nat, ts: seq<nat>, events: bv32, id: bv32, u: nat)
    requires CallsOk(k, {w}, c) && WaitQ(w) in k.q.lists && NoDup(ts) && u < |k.tasks|
    requires forall t :: t in ts ==> t in k.q.lists[WaitQ(w)]
    ensures var r := WakeHits(k, c, w, ts, events, id).0; u < |r.tasks| && SameWish(k.tasks[u], r.tasks[u])
    decreases |ts|
  {
    hide Inv, Next, Hit, InOrder, Enabled;
    if ts != [] {
      var t := ts[0];
      assert t in ts && t !in ts[1..];
      WakeKeepsCalls(k, {w}, c, w, t);
      if Hit(k.tasks[t], events, id) {
        WakeWish(k, t, u);
        WriteWish(Next(k, WakeUp(t)), Granted(c, t), w, ts[1..], events, id, u);
      } else {
        WriteWish(k, c, w, ts[1..], events, id, u);
      }
    }
  }

  lemma {:induction false} ReadWish(s: System, mask: bv32, mode: bv32, ticks: nat, u: nat)
    requires EventInv(s) && CanBlock(s.k, s.c) && u < |s.k.tasks| && u != s.k.run
    ensures var r := BlockRead(s, mask, mode, ticks);
      u < |s.k.tasks| && u < |r.k.tasks| && SameWish(s.k.tasks[u], r.k.tasks[u])
  {
    SetEventKeeps(s, mask, mode);
    var k1 := Next(s.k, SetEvent(mask, mode));
    BlockKeeps(k1, {s.w}, s.c, s.w, ticks);
    BlockedTask(k1, s.w, ticks);
    hide Inv, Next, Unsatisfied, InOrder, CanBlock;
  }

  /** A reader whose wait has ended and who has not run since keeps its mask and mode. */
  lemma {:induction false} WishStays(s: System, e: Events.Step, u: nat)
    requires EventInv(s) && EventEnabled(s, e) && InCall(s.c, u) && InCall(EventNext(s, e).c, u)
    ensures var r := EventNext(s, e);
      u < |s.k.tasks| && u < |r.k.tasks| && SameWish(s.k.tasks[u], r.k.tasks[u])
  {
    assert LiveTask(s.k, u);
    match e
    case Read(mask, mode, ticks, ctx) =>
      if ReadRet(s.id, mask, mode, ticks, ctx) == Blocks {
        ReadWish(s, mask, mode, ticks, u);
      }
    case Finish =>
      FinishKeeps(s.k, {s.w}, s.c);
    case Write(events) =>
      WaitersNoDup(s);
      WriteWish(s.k, s.c, s.w, s.k.q.lists[WaitQ(s.w)], events, Plus(s.id, events), u);
    case Clear(_) =>
    case Other(e) =>
      ForeignInCall(s.k, {s.w}, s.c, e, u);
  }

  /** So does one that waits. */
  lemma {:induction false} WaiterWish(s: System, e: Events.Step, u: nat)
    requires EventInv(s) && EventEnabled(s, e) && u in Waiters(s.k, s.w)
    ensures var r := EventNext(s, e);
      u < |s.k.tasks| && u < |r.k.tasks| && SameWish(s.k.tasks[u], r.k.tasks[u])
  {
    OnList(s.k, s.w, u);
    WaiterStatus(s.k, {s.w}, u);
    match e
    case Read(mask, mode, ticks, ctx) =>
      if ReadRet(s.id, mask, mode, ticks, ctx) == Blocks {
        ReadWish(s, mask, mode, ticks, u);
      }
    case Finish =>
      FinishKeeps(s.k, {s.w}, s.c);
    case Write(events) =>
      WaitersNoDup(s);
      WriteWish(s.k, s.c, s.w, s.k.q.lists[WaitQ(s.w)], events, Plus(s.id, events), u);
    case Clear(_) =>
    case Other(e) =>
      ForeignWaiter(s.k, {s.w}, s.c, e, u);
  }

  // ------------------------------------------------------------ runs

  /** `u` is inside a read of the event: it waits, or its wait has ended and it has not run since. */
  ghost predicate Inside(s: System, u: nat) { u in Waiters(s.k, s.w) || InCall(s.c, u) }

  ghost predicate InsideRun(s: System, es: seq<Events.Step>, r: System, u: nat)
    requires EventInv(s)
    decreases |es|
  {
    && Inside(s, u)
    && if es == [] then r == s
       else EventEnabled(s, es[0]) && (EventKeeps(s, es[0]); InsideRun(EventNext(s, es[0]), es[1..], r, u))
  }

  lemma {:induction false} InsideWish(s: System, e: Events.Step, u: nat)
    requires EventInv(s) && EventEnabled(s, e) && Inside(s, u) && Inside(EventNext(s, e), u)
    ensures var r := EventNext(s, e);
      u < |s.k.tasks| && u < |r.k.tasks| && SameWish(s.k.tasks[u], r.k.tasks[u])
  {
    if u in Waiters(s.k, s.w) {
      WaiterWish(s, e, u);
    } else if InCall(EventNext(s, e).c, u) {
      WishStays(s, e, u);
    } else {
      NotRejoined(s, e, u);
    }
  }

  /** A task inside a read does not join the list again before it has run. */
  lemma {:induction false} NotRejoined(s: System, e: Events.Step, u: nat)
    requires EventInv(s) && EventEnabled(s, e) && InCall(s.c, u) && u !in Waiters(s.k, s.w)
    ensures u !in Waiters(EventNext(s, e).k, s.w)
  {
    hide Unsatisfied, Inv, Next;
    match e
    case Read(mask, mode, ticks, ctx) =>
      if ReadRet(s.id, mask, mode, ticks, ctx) == Blocks {
        SetEventKeeps(s, mask, mode);
        BlockKeeps(Next(s.k, SetEvent(mask, mode)), {s.w}, s.c, s.w, ticks);
      }
    case Finish => FinishKeeps(s.k, {s.w}, s.c);
    case Write(events) =>
      WaitersNoDup(s);
      WakeHitsExact(s.k, s.c, s.w, s.k.q.lists[WaitQ(s.w)], events, Plus(s.id, events));
    case Clear(_) =>
    case Other(e) => ForeignLists(s.k, {s.w}, s.c, e, s.w);
  }

  /** From the time it blocks to the time it runs again a reader asks for what its call asked for. */
  lemma {:induction false} CallKeepsWish(s: System, es: seq<Events.Step>, r: System, u: nat)
    requires EventInv(s) && InsideRun(s, es, r, u) && u < |s.k.tasks|
    ensures u < |r.k.tasks| && SameWish(s.k.tasks[u], r.k.tasks[u])
    decreases |es|
  {
    hide EventInv, EventNext, EventEnabled, Inside;
    if es != [] {
      EventKeeps(s, es[0]);
      InsideStep(s, es, r, u);
      InsideWish(s, es[0], u);
      CallKeepsWish(EventNext(s, es[0]), es[1..], r, u);
    }
  }

  lemma {:induction false} InsideStep(s: System, es: seq<Events.Step>, r: System, u: nat)
    requires EventInv(s) && InsideRun(s, es, r, u) && es != []
    ensures EventEnabled(s, es[0]) && Inside(EventNext(s, es[0]), u)
  {
    hide EventInv, EventNext, EventEnabled, Inside;
  }

  /** More bits satisfy whoever was satisfied. */
  lemma {:induction false} MoreHolds(id: bv32, more: bv32, mask: bv32, mode: bv32)
    requires Within(id, more) && Holds(id, mask, mode)
    ensures Holds(more, mask, mode)
  {
    hide AnyOf, AllOf, Has, Within;
    FewerBits(more, id, mask);
  }

  /** A run during which `t` has been woken but not run, and no step takes bits away. */
  ghost predicate Undrained(s: System, es: seq<Events.Step>, r: System, t: nat)
    requires EventInv(s)
    decreases |es|
  {
    && t in s.c.granted
    && if es == [] then r == s
       else
         && EventEnabled(s, es[0]) && Within(s.id, EventNext(s, es[0]).id)
         && (EventKeeps(s, es[0]); Undrained(EventNext(s, es[0]), es[1..], r, t))
  }

  lemma {:induction false} WishHolds(s: System, es: seq<Events.Step>, r: System, t: nat)
    requires EventInv(s) && Undrained(s, es, r, t) && Wished(s, t)
    ensures EventInv(r) && EventRun(s, es, r) && t in r.c.granted && Wished(r, t)
    decreases |es|
  {
    hide EventInv, EventNext, EventEnabled, Holds, Within;
    if es != [] {
      var n := EventNext(s, es[0]);
      EventKeeps(s, es[0]);
      WishStays(s, es[0], t);
      MoreHolds(s.id, n.id, n.k.tasks[t].eventMask, n.k.tasks[t].eventMode);
      WishHolds(n, es[1..], r, t);
    }
  }

  /** Whoever a write wakes finds its bits when it runs, if no step in between takes bits away. */
  lemma {:induction false} WokenReadFinds(s: System, events: bv32, t: nat, es: seq<Events.Step>, r: System)
    requires EventInv(s) && !Has(events, ERRTYPE_ERROR) && t in Waiters(s.k, s.w)
    requires t < |s.k.tasks| && Holds(Plus(s.id, events), s.k.tasks[t].eventMask, s.k.tasks[t].eventMode)
    ensures var m := EventNext(s, Write(events)); EventInv(m) && t in m.c.granted
    ensures Undrained(EventNext(s, Write(events)), es, r, t) ==>
      t < |r.k.tasks| && Found(r.id, r.k.tasks[t].eventMask, r.k.tasks[t].eventMode) != 0
  {
    var id := Plus(s.id, events);
    var m := EventNext(s, Write(events));
    WriteWakesExactly(s, events, id);
    WrittenWish(s, events, t);
    hide EventInv, Holds, Found, WriteBits, Plus, Has;
    if Undrained(m, es, r, t) {
      WishHolds(m, es, r, t);
      FoundIffHolds(r.id, r.k.tasks[t].eventMask, r.k.tasks[t].eventMode);
    }
  }

  lemma {:induction false} NothingSet(mask: bv32, mode: bv32)
    requires Checked(mask, mode)
    ensures Holds(mask, mask, mode) && !Holds(0, mask, mode) && !Has(mask, ERRTYPE_ERROR)
  {
    hide Has;
    assert mask & mask == mask && 0 & mask == 0;
    HasIs(mask);
  }

  lemma {:induction false} MaskHolds(id: bv32, mask: bv32, mode: bv32)
    requires Holds(mask, mask, mode)
    ensures Holds(Plus(id, mask), mask, mode)
  {
    WithinPlus(id, mask);
    hide Holds, Within, Plus;
    MoreHolds(mask, Plus(id, mask), mask, mode);
  }

  lemma {:induction false} WithinPlus(id: bv32, mask: bv32)
    ensures Within(mask, Plus(id, mask))
  {
  }

  /** In every state with a reader waiting, a write of its bits followed by LOS_EventClear wakes it to find
      nothing. */
  lemma {:induction false} ClearStarvesReader(s: System, t: nat)
    requires EventInv(s) && t in Waiters(s.k, s.w)
    ensures t < |s.k.tasks|
    ensures var m := EventNext(s, Write(s.k.tasks[t].eventMask));
      && EventInv(m)
      && var r := EventNext(m, Clear(0));
      && t in r.c.granted && t < |r.k.tasks| && Found(r.id, r.k.tasks[t].eventMask, r.k.tasks[t].eventMode) == 0
  {
    hide EventInv, Holds, Checked, Plus, Both, Has, Found, WriteBits;
    WaiterChecked(s, t);
    var x := s.k.tasks[t];
    NothingSet(x.eventMask, x.eventMode);
    MaskHolds(s.id, x.eventMask, x.eventMode);
    var m := EventNext(s, Write(x.eventMask));
    WokenReadFinds(s, x.eventMask, t, [], m);
    WrittenWish(s, x.eventMask, t);
    NoBits(m.id);
    FoundIffHolds(0, x.eventMask, x.eventMode);
  }

  lemma {:induction false} WaiterChecked(s: System, t: nat)
    requires EventInv(s) && t in Waiters(s.k, s.w)
    ensures t < |s.k.tasks| && Checked(s.k.tasks[t].eventMask, s.k.tasks[t].eventMode)
  {
    hide CallsOk, Holds, Checked;
  }

  lemma {:induction false} WrittenWish(s: System, events: bv32, t: nat)
    requires EventInv(s) && t < |s.k.tasks|
    ensures var m := WriteBits(s, events, Plus(s.id, events)); t < |m.k.tasks| && SameWish(s.k.tasks[t], m.k.tasks[t])
  {
    hide Unsatisfied, Plus;
    WaitersNoDup(s);
    WriteWish(s.k, s.c, s.w, s.k.q.lists[WaitQ(s.w)], events, Plus(s.id, events), t);
  }

  lemma {:induction false} NoBits(id: bv32)
    ensures Both(id, 0) == 0
  {
  }

  lemma {:induction false} BitsGone(left: bv32, found: bv32, mask: bv32, mode: bv32)
    requires Both(left, found) == 0 && Within(mask, found)
    ensures !Holds(left, mask, mode)
  {
    hide Has;
    MaskGone(left, found, mask);
  }

  lemma {:induction false} MaskGone(left: bv32, found: bv32, mask: bv32)
    requires Both(left, found) == 0 && Within(mask, found)
    ensures Both(left, mask) == 0
  {
  }

  /** So does another woken reader that clears and runs first, for every reader that waits for no more than
      the bits it takes. */
  lemma {:induction false} ReaderStarvesReader(s: System, t: nat)
    requires EventInv(s) && CanFinish(s.k, s.c) && s.k.run in s.c.granted && t in s.c.granted && t != s.k.run
    requires t < |s.k.tasks| && s.k.run < |s.k.tasks| && Has(s.k.tasks[s.k.run].eventMode, WAITMODE_CLR)
    requires Within(s.k.tasks[t].eventMask, Found(s.id, s.k.tasks[s.k.run].eventMask, s.k.tasks[s.k.run].eventMode))
    ensures var r := EventNext(s, Finish);
      && t in r.c.granted && t < |r.k.tasks| && Found(r.id, r.k.tasks[t].eventMask, r.k.tasks[t].eventMode) == 0
  {
    var x := s.k.tasks[s.k.run];
    FinishKeeps(s.k, {s.w}, s.c);
    LeftCleared(s.id, x.eventMask, x.eventMode);
    WishStays(s, Finish, t);
    hide Inv, Next, Left, Within, Both, Holds, Has, Unsatisfied, InOrder;
    var r := EventNext(s, Finish);
    BitsGone(r.id, Found(s.id, x.eventMask, x.eventMode), r.k.tasks[t].eventMask, r.k.tasks[t].eventMode);
  }
}

/** Events: no waiter whose condition holds is left waiting. */
module Events {
  import opened Lists
  import opened Queues
  import SortLinks
  import opened Sched
  import opened Machine
  import opened Frames
  import opened Blocking

  const WAITMODE_AND: bv32 := 4
  const WAITMODE_OR: bv32 := 2
  const WAITMODE_CLR: bv32 := 1
  const ERRTYPE_ERROR: bv32 := 0x0200_0000

  datatype Ret = Value(bits: bv32) | MaskInvalid | SetbitInvalid | FlagsInvalid | ReadInInterrupt | ReadInSystemTask
               | ReadInLock | ReadTimeout | InUse
               | Blocks // the caller waits; it has not returned

  datatype Context = Context(inInterrupt: bool, locked: bool, systemTask: bool)

  predicate AnyOf(id: bv32, mask: bv32) { Both(id, mask) != 0 }

  predicate AllOf(id: bv32, mask: bv32) { Both(id, mask) == mask }

  predicate Has(mode: bv32, flag: bv32) { mode & flag != 0 }

  /** The condition a reader states with its mask and mode. */
  predicate Holds(id: bv32, mask: bv32, mode: bv32) {
    if Has(mode, WAITMODE_OR) then AnyOf(id, mask) else mask != 0 && AllOf(id, mask)
  }

  function Both(a: bv32, b: bv32): (r: bv32) { a & b }

  function Sans(a: bv32, b: bv32): (r: bv32) { a & !b }

  function Plus(a: bv32, b: bv32): (r: bv32) { a | b }

  predicate Within(a: bv32, b: bv32) { a & !b == 0 }

  /** The bits LOS_EventPoll returns. */
  function Found(id: bv32, mask: bv32, mode: bv32): (r: bv32) {
    if Holds(id, mask, mode) then Both(id, mask) else 0
  }

  lemma {:induction false} FoundWithin(id: bv32, mask: bv32, mode: bv32)
    ensures Within(Found(id, mask, mode), mask) && Within(Found(id, mask, mode), id)
  {
    hide Holds, Both, Within;
    BothWithin(id, mask);
  }

  /** The poll returns bits exactly if the condition holds. */
  lemma {:induction false} FoundIffHolds(id: bv32, mask: bv32, mode: bv32)
    ensures Found(id, mask, mode) != 0 <==> Holds(id, mask, mode)
  {
  }

  /** The event word LOS_EventPoll leaves. */
  function Left(id: bv32, mask: bv32, mode: bv32): (r: bv32)
  {
    var found := Found(id, mask, mode);
    if found != 0 && Has(mode, WAITMODE_CLR) then Sans(id, found) else id
  }

  /** The poll takes no bits but those it returns, and those only if asked to clear. */
  lemma {:induction false} LeftRest(id: bv32, mask: bv32, mode: bv32)
    ensures Plus(Left(id, mask, mode), Found(id, mask, mode)) == id
  {
    hide Found, Has, Sans, Plus, Within;
    FoundWithin(id, mask, mode);
    TakenRest(id, Found(id, mask, mode));
  }

  lemma {:induction false} LeftCleared(id: bv32, mask: bv32, mode: bv32)
    ensures Has(mode, WAITMODE_CLR) ==> Both(Left(id, mask, mode), Found(id, mask, mode)) == 0
    ensures !Has(mode, WAITMODE_CLR) ==> Left(id, mask, mode) == id
  {
    hide Found, Has, Sans, Both;
    TakenGone(id, Found(id, mask, mode));
  }

  lemma {:induction false} LeftWithin(id: bv32, mask: bv32, mode: bv32)
    ensures Within(Left(id, mask, mode), id)
  {
    hide Found, Has, Sans, Within;
    TakenWithin(id, Found(id, mask, mode));
  }

  lemma {:induction false} TakenWithin(id: bv32, found: bv32)
    ensures Within(Sans(id, found), id)
    ensures Within(id, id)
  {
  }

  lemma {:induction false} BothWithin(id: bv32, mask: bv32)
    ensures Within(Both(id, mask), id) && Within(Both(id, mask), mask)
    ensures Within(0, id) && Within(0, mask)
  {
  }

  lemma {:induction false} TakenGone(id: bv32, found: bv32)
    ensures Both(Sans(id, found), found) == 0
    ensures Both(id, 0) == 0
  {
  }

  lemma {:induction false} TakenRest(id: bv32, found: bv32)
    requires Within(found, id)
    ensures Plus(Sans(id, found), found) == id
    ensures Plus(id, found) == id
  {
  }

  lemma {:induction false} AnyOfPlus(a: bv32, b: bv32, mask: bv32)
    ensures AnyOf(Plus(a, b), mask) <==> AnyOf(a, mask) || AnyOf(b, mask)
  {
    hide Both, Plus;
    Distributes(a, b, mask);
    PlusZero(Both(a, mask), Both(b, mask));
  }

  lemma {:induction false} Distributes(a: bv32, b: bv32, mask: bv32)
    ensures Both(Plus(a, b), mask) == Plus(Both(a, mask), Both(b, mask))
  {
    assert (a | b) & mask == (a & mask) | (b & mask) by {
      hide Both, Plus;
    }
  }

  lemma {:induction false} PlusZero(a: bv32, b: bv32)
    ensures Plus(a, b) == 0 <==> a == 0 && b == 0
  {
  }

  lemma {:induction false} FewerBits(id: bv32, less: bv32, mask: bv32)
    requires Within(less, id)
    ensures AnyOf(less, mask) ==> AnyOf(id, mask)
    ensures AllOf(less, mask) ==> AllOf(id, mask)
  {
  }

  /** OsEventReadParamCheck. */
  function CheckRet(mask: bv32, mode: bv32): (r: Ret) {
    if mask == 0 then MaskInvalid
    else if mask & ERRTYPE_ERROR != 0 then SetbitInvalid
    else if (Has(mode, WAITMODE_OR) && Has(mode, WAITMODE_AND))
         || Has(mode, !(WAITMODE_OR | WAITMODE_AND | WAITMODE_CLR))
         || !Has(mode, WAITMODE_OR | WAITMODE_AND) then FlagsInvalid
    else Value(0)
  }

  /** The decision LOS_EventRead takes before it blocks. */
  function ReadRet(id: bv32, mask: bv32, mode: bv32, ticks: nat, ctx: Context): (r: Ret) {
    var ret := CheckRet(mask, mode);
    if ret != Value(0) then ret
    else if ctx.inInterrupt then ReadInInterrupt
    else if ctx.systemTask then ReadInSystemTask
    else if Found(id, mask, mode) != 0 then Value(Found(id, mask, mode))
    else if ticks == 0 then Value(0)
    else if ctx.locked then ReadInLock
    else Blocks
  }

  /** What LOS_EventWrite tests: an OR waiter against the new bits only, an AND waiter against all. */
  predicate Hit(x: Task, events: bv32, id: bv32) {
    || (Has(x.eventMode, WAITMODE_OR) && AnyOf(events, x.eventMask))
    || (Has(x.eventMode, WAITMODE_AND) && AllOf(id, x.eventMask))
  }

  /** A mask and a mode that passed the checks. */
  predicate Checked(mask: bv32, mode: bv32) { CheckRet(mask, mode) == Value(0) }

  lemma {:induction false} CheckedMode(mask: bv32, mode: bv32)
    requires Checked(mask, mode)
    ensures mask != 0 && (Has(mode, WAITMODE_OR) <==> !Has(mode, WAITMODE_AND))
  {
    OneFlag(mode);
  }

  /** The checks let through exactly the masks with bits and without the error bit, and the four
      modes OR and AND, each with or without clearing. */
  lemma {:induction false} CheckedExactly(mask: bv32, mode: bv32)
    ensures Checked(mask, mode) <==> mask != 0 && !Has(mask, ERRTYPE_ERROR) && mode in {2, 3, 4, 5}
    ensures CheckRet(mask, mode) == MaskInvalid <==> mask == 0
    ensures CheckRet(mask, mode) == SetbitInvalid <==> mask != 0 && Has(mask, ERRTYPE_ERROR)
    ensures CheckRet(mask, mode) == FlagsInvalid <==> mask != 0 && !Has(mask, ERRTYPE_ERROR) && mode !in {2, 3, 4, 5}
  {
    hide Has;
    FourModes(mode);
    assert mask & ERRTYPE_ERROR != 0 <==> Has(mask, ERRTYPE_ERROR) by { HasIs(mask); }
  }

  lemma {:induction false} HasIs(mask: bv32)
    ensures Has(mask, ERRTYPE_ERROR) <==> mask & ERRTYPE_ERROR != 0
  {
  }

  lemma {:induction false} FourModes(mode: bv32)
    ensures mode in {2, 3, 4, 5} <==>
            !((Has(mode, 2) && Has(mode, 4)) || Has(mode, !(2 | 4 | 1)) || !Has(mode, 2 | 4))
  {
  }

  lemma {:induction false} OneFlag(mode: bv32)
    ensures Has(mode, 6) ==> Has(mode, 2) || Has(mode, 4)
  {
  }

  /** A waiter of an event control block: its condition does not hold. */
  ghost predicate Unsatisfied(x: Task, id: bv32) {
    Checked(x.eventMask, x.eventMode) && !Holds(id, x.eventMask, x.eventMode)
  }

  /** For a waiter the new bits decide: testing them alone finds exactly the conditions that now hold. */
  lemma {:induction false} NewBitsDecide(x: Task, id: bv32, events: bv32)
    requires Unsatisfied(x, id)
    ensures Hit(x, events, Plus(id, events)) <==> Holds(Plus(id, events), x.eventMask, x.eventMode)
  {
    hide AnyOf, AllOf, Has, Checked, Plus;
    CheckedMode(x.eventMask, x.eventMode);
    AnyOfPlus(id, events, x.eventMask);
  }

  /** Taking bits away satisfies nobody. */
  lemma {:induction false} ClearingKeeps(x: Task, id: bv32, less: bv32)
    requires Unsatisfied(x, id) && Within(less, id)
    ensures Unsatisfied(x, less)
  {
    hide AnyOf, AllOf, Has, Checked, Within;
    FewerBits(id, less, x.eventMask);
  }

  // ------------------------------------------------------------ the loop of LOS_EventWrite

  /** The loop over the waiters `ts`: every one that is hit is woken. */
  ghost function WakeHits(k: Kernel, c: Calls, w: nat, ts: seq<nat>, events: bv32, id: bv32): (r: (Kernel, Calls))
    requires CallsOk(k, {w}, c) && WaitQ(w) in k.q.lists && NoDup(ts)
    requires forall t :: t in ts ==> t in k.q.lists[WaitQ(w)]
    decreases |ts|
  {
    if ts == [] then (k, c)
    else
      hide Inv, Next, Hit;
      var t := ts[0];
      assert t in ts && t !in ts[1..];
      WakeKeepsCalls(k, {w}, c, w, t);
      if Hit(k.tasks[t], events, id) then WakeHits(Next(k, WakeUp(t)), Granted(c, t), w, ts[1..], events, id)
      else WakeHits(k, c, w, ts[1..], events, id)
  }

  /** `t` still waits, unchanged. */
  ghost predicate StillWaits(k: Kernel, r: Kernel, w: nat, t: nat) {
    && WaitQ(w) in r.q.lists && t in r.q.lists[WaitQ(w)]
    && t < |k.tasks| && t < |r.tasks| && r.tasks[t] == k.tasks[t]
  }

  /** The loop wakes exactly the waiters that are hit and leaves the others waiting. */
  lemma {:induction false} WakeHitsExact(k: Kernel, c: Calls, w: nat, ts: seq<nat>, events: bv32, id: bv32)
    requires CallsOk(k, {w}, c) && WaitQ(w) in k.q.lists && NoDup(ts)
    requires forall t :: t in ts ==> t in k.q.lists[WaitQ(w)]
    ensures var (r, c') := WakeHits(k, c, w, ts, events, id);
      && CallsOk(r, {w}, c') && r.run == k.run && WaitQ(w) in r.q.lists && c'.expired == c.expired
      && (forall t :: t in r.q.lists[WaitQ(w)] ==> t in k.q.lists[WaitQ(w)])
      && (forall t :: t in k.q.lists[WaitQ(w)] ==> t < |k.tasks|)
      && (forall t :: t in k.q.lists[WaitQ(w)] ==>
            if t in ts && Hit(k.tasks[t], events, id) then t in c'.granted && t !in r.q.lists[WaitQ(w)] else StillWaits(k, r, w, t))
      && (forall t :: t in c'.granted ==> t in c.granted || (t in ts && t < |k.tasks| && Hit(k.tasks[t], events, id)))
      && (forall t :: t in c.granted ==> t in c'.granted)
    decreases |ts|
  {
    hide Inv, Next, Hit, InOrder;
    WaitersExist(k, c, w);
    if ts != [] {
      var t := ts[0];
      assert t in ts && t !in ts[1..];
      assert ts == [t] + ts[1..];
      WakeKeepsCalls(k, {w}, c, w, t);
      if Hit(k.tasks[t], events, id) {
        var k1 := Next(k, WakeUp(t));
        var c1 := Granted(c, t);
        WakeHitsExact(k1, c1, w, ts[1..], events, id);
        assert t !in k1.q.lists[WaitQ(w)] by { NoDupLists(k, c, w); }
      } else {
        WakeHitsExact(k, c, w, ts[1..], events, id);
      }
    }
  }

  lemma {:induction false} WaitersExist(k: Kernel, c: Calls, w: nat)
    requires CallsOk(k, {w}, c) && WaitQ(w) in k.q.lists
    ensures forall t :: t in k.q.lists[WaitQ(w)] ==> t < |k.tasks|
  {
  }

  lemma {:induction false} NoDupLists(k: Kernel, c: Calls, w: nat)
    requires CallsOk(k, {w}, c) && WaitQ(w) in k.q.lists
    ensures NoDup(k.q.lists[WaitQ(w)])
  {
  }

  // ------------------------------------------------------------ one event in a running system

  datatype Step = Read(mask: bv32, mode: bv32, ticks: nat, ctx: Context) | Finish | Write(events: bv32)
                | Clear(mask: bv32) | Other(e: Machine.Step)

  datatype System = System(k: Kernel, c: Calls, w: nat, id: bv32)

  /** No task waits whose condition holds. */
  ghost predicate EventInv(s: System) {
    && CallsOk(s.k, {s.w}, s.c) && WaitQ(s.w) in s.k.q.lists
    && (forall t :: t in s.k.q.lists[WaitQ(s.w)] ==> t < |s.k.tasks| && Unsatisfied(s.k.tasks[t], s.id))
  }

  ghost predicate EventEnabled(s: System, e: Step) {
    match e
    case Read(mask, mode, ticks, ctx) => ReadRet(s.id, mask, mode, ticks, ctx) == Blocks ==> CanBlock(s.k, s.c)
    case Finish => CanFinish(s.k, s.c)
    case Write(_) => true
    case Clear(_) => true
    case Other(e) => Foreign(s.k, {s.w}, s.c, e)
  }

  /** LOS_EventRead blocks: the running task records what it waits for and joins the list. */
  ghost function BlockRead(s: System, mask: bv32, mode: bv32, ticks: nat): (r: System)
    requires EventInv(s) && CanBlock(s.k, s.c)
  {
    hide Unsatisfied;
    SetEventKeeps(s, mask, mode);
    var k1 := Next(s.k, SetEvent(mask, mode));
    BlockKeeps(k1, {s.w}, s.c, s.w, ticks);
    s.(k := Next(k1, WaitOn(s.w, ticks)), c := Blocked(k1, s.c))
  }

  lemma {:induction false} SetEventKeeps(s: System, mask: bv32, mode: bv32)
    requires EventInv(s) && CanBlock(s.k, s.c)
    ensures Enabled(s.k, SetEvent(mask, mode))
    ensures var r := Next(s.k, SetEvent(mask, mode));
      && CallsOk(r, {s.w}, s.c) && CanBlock(r, s.c) && r.q == s.k.q && r.run == s.k.run && |r.tasks| == |s.k.tasks|
      && (forall t :: 0 <= t < |r.tasks| && t != r.run ==> r.tasks[t] == s.k.tasks[t])
      && r.tasks[r.run].eventMask == mask && r.tasks[r.run].eventMode == mode
  {
    hide QueuesOk, SortLinks.Valid, Unsatisfied;
    var e := SetEvent(mask, mode);
    NextKeeps(s.k, e);
    assert InOrder(s.k, s.w, s.c);
    assert InOrder(Next(s.k, e), s.w, s.c);
  }

  ghost function EventNext(s: System, e: Step): (r: System)
    requires EventInv(s) && EventEnabled(s, e)
  {
    hide Unsatisfied;
    match e
    case Read(mask, mode, ticks, ctx) =>
      var ret := ReadRet(s.id, mask, mode, ticks, ctx);
      if ret == Blocks then BlockRead(s, mask, mode, ticks)
      else if ret.Value? then s.(id := Left(s.id, mask, mode))
      else s
    case Finish =>
      FinishKeeps(s.k, {s.w}, s.c);
      var x := s.k.tasks[s.k.run];
      s.(k := Next(s.k, Return), c := Finished(s.k, s.c),
         id := if x.timeout then s.id else Left(s.id, x.eventMask, x.eventMode))
    case Write(events) => if Has(events, ERRTYPE_ERROR) then s else WriteBits(s, events, Plus(s.id, events))
    case Clear(mask) => s.(id := Both(s.id, mask))
    case Other(e) => s.(k := Next(s.k, e), c := AfterForeign(s.k, {s.w}, s.c, e))
  }

  /** LOS_EventWrite: `id` is the event word with the new bits in it. */
  ghost function WriteBits(s: System, events: bv32, id: bv32): (r: System)
    requires EventInv(s)
  {
    hide Unsatisfied;
    WaitersNoDup(s);
    var (k', c') := WakeHits(s.k, s.c, s.w, s.k.q.lists[WaitQ(s.w)], events, id);
    s.(k := k', c := c', id := id)
  }

  lemma {:induction false} WaitersNoDup(s: System)
    requires EventInv(s)
    ensures NoDup(s.k.q.lists[WaitQ(s.w)])
  {
    hide Unsatisfied;
    NoDupLists(s.k, s.c, s.w);
  }

  lemma {:induction false} ReadBlocks(s: System, mask: bv32, mode: bv32, ticks: nat, ctx: Context)
    requires EventInv(s) && CanBlock(s.k, s.c) && ReadRet(s.id, mask, mode, ticks, ctx) == Blocks
    ensures EventInv(BlockRead(s, mask, mode, ticks))
  {
    SetEventKeeps(s, mask, mode);
    var k1 := Next(s.k, SetEvent(mask, mode));
    BlockKeeps(k1, {s.w}, s.c, s.w, ticks);
    FoundIffHolds(s.id, mask, mode);
    assert Checked(mask, mode) && !Holds(s.id, mask, mode);
    BlockedTask(k1, s.w, ticks);
    hide Inv, Next, Holds, Checked, Found, InOrder, CanBlock;
    var r := BlockRead(s, mask, mode, ticks);
    assert r.k.q.lists[WaitQ(s.w)] == s.k.q.lists[WaitQ(s.w)] + [s.k.run];
    forall t | t in r.k.q.lists[WaitQ(s.w)] ensures t < |r.k.tasks| && Unsatisfied(r.k.tasks[t], s.id) {
      if t != s.k.run {
        assert t in s.k.q.lists[WaitQ(s.w)];
      }
    }
  }

  /** Blocking changes nothing about the masks. */
  lemma {:induction false} BlockedTask(k: Kernel, w: nat, ticks: nat)
    requires Inv(k) && Enabled(k, WaitOn(w, ticks))
    ensures var r := Next(k, WaitOn(w, ticks));
      && |r.tasks| == |k.tasks|
      && r.tasks[k.run].eventMask == k.tasks[k.run].eventMask && r.tasks[k.run].eventMode == k.tasks[k.run].eventMode
      && forall t :: 0 <= t < |k.tasks| && t != k.run ==> r.tasks[t] == k.tasks[t]
  {
    hide QueuesOk, SortLinks.Valid;
    EffectBits(k, k.run, WaitOn(w, ticks));
  }

  /** Fewer bits: everyone that waits still has to. */
  lemma {:induction false} FewerKeeps(s: System, less: bv32)
    requires EventInv(s) && Within(less, s.id)
    ensures EventInv(s.(id := less))
  {
    hide Inv, InOrder, Within, Unsatisfied;
    forall t | t in s.k.q.lists[WaitQ(s.w)] ensures Unsatisfied(s.k.tasks[t], less) {
      ClearingKeeps(s.k.tasks[t], s.id, less);
    }
  }

  lemma {:induction false} FinishReadKeeps(s: System)
    requires EventInv(s) && CanFinish(s.k, s.c)
    ensures EventInv(EventNext(s, Finish))
  {
    FinishKeeps(s.k, {s.w}, s.c);
    hide Inv, Next, InOrder, Unsatisfied, CanFinish;
    var m := s.(k := Next(s.k, Return), c := Finished(s.k, s.c));
    forall t | t in m.k.q.lists[WaitQ(s.w)] ensures t < |m.k.tasks| && Unsatisfied(m.k.tasks[t], s.id) {
      assert Unsatisfied(s.k.tasks[t], s.id);
      SameMask(s.k.tasks[t], m.k.tasks[t], s.id);
    }
    var x := s.k.tasks[s.k.run];
    if !x.timeout {
      LeftWithin(s.id, x.eventMask, x.eventMode);
      FewerKeeps(m, Left(s.id, x.eventMask, x.eventMode));
    }
  }

  lemma {:induction false} SameMask(x: Task, y: Task, id: bv32)
    requires Unsatisfied(x, id) && y.eventMask == x.eventMask && y.eventMode == x.eventMode
    ensures Unsatisfied(y, id)
  {
  }

  /** LOS_EventWrite wakes exactly the waiters whose condition holds after the write. */
  lemma {:induction false} WriteWakesExactly(s: System, events: bv32, id: bv32)
    requires EventInv(s) && id == Plus(s.id, events)
    ensures var r := WriteBits(s, events, id); var waiters := s.k.q.lists[WaitQ(s.w)];
      && EventInv(r)
      && forall t :: t in waiters ==>
           if Holds(id, s.k.tasks[t].eventMask, s.k.tasks[t].eventMode)
           then t in r.c.granted && t !in r.k.q.lists[WaitQ(s.w)]
           else t in r.k.q.lists[WaitQ(s.w)]
  {
    hide Hit, Holds, Checked, WakeHits, CallsOk, Plus;
    WaitersNoDup(s);
    var waiters := s.k.q.lists[WaitQ(s.w)];
    HitIffHolds(s, events, id);
    WakeHitsExact(s.k, s.c, s.w, waiters, events, id);
    var r := WriteBits(s, events, id);
    forall t | t in r.k.q.lists[WaitQ(s.w)] ensures t < |r.k.tasks| && Unsatisfied(r.k.tasks[t], id) {
      assert t in waiters;
      assert StillWaits(s.k, r.k, s.w, t);
    }
  }

  lemma {:induction false} HitIffHolds(s: System, events: bv32, id: bv32)
    requires EventInv(s) && id == Plus(s.id, events)
    ensures forall t :: t in s.k.q.lists[WaitQ(s.w)] ==>
              (Hit(s.k.tasks[t], events, id) <==> Holds(id, s.k.tasks[t].eventMask, s.k.tasks[t].eventMode))
  {
    hide CallsOk, Hit, Holds, Checked, Plus;
    forall t | t in s.k.q.lists[WaitQ(s.w)]
      ensures Hit(s.k.tasks[t], events, id) <==> Holds(id, s.k.tasks[t].eventMask, s.k.tasks[t].eventMode)
    {
      NewBitsDecide(s.k.tasks[t], s.id, events);
    }
  }

  lemma {:induction false} OtherWaiter(s: System, e: Machine.Step, t: nat)
    requires EventInv(s) && Foreign(s.k, {s.w}, s.c, e) && t in s.k.q.lists[WaitQ(s.w)]
    ensures t < |Next(s.k, e).tasks| && Unsatisfied(Next(s.k, e).tasks[t], s.id)
  {
    hide Inv, Next, InOrder, Unsatisfied, Enabled;
    OnList(s.k, s.w, t);
    ForeignWaiter(s.k, {s.w}, s.c, e, t);
    SameMask(s.k.tasks[t], Next(s.k, e).tasks[t], s.id);
  }

  lemma {:induction false} OtherKeeps(s: System, e: Machine.Step)
    requires EventInv(s) && Foreign(s.k, {s.w}, s.c, e)
    ensures EventInv(EventNext(s, Other(e)))
  {
    hide Inv, InOrder, Next, Unsatisfied, AfterForeign, Enabled;
    ForeignKeeps(s.k, {s.w}, s.c, e);
    ForeignLists(s.k, {s.w}, s.c, e, s.w);
    forall t | t in Next(s.k, e).q.lists[WaitQ(s.w)] ensures t < |Next(s.k, e).tasks| && Unsatisfied(Next(s.k, e).tasks[t], s.id) {
      OtherWaiter(s, e, t);
    }
  }

  lemma {:induction false} OnList(k: Kernel, w: nat, t: nat)
    requires Inv(k) && WaitQ(w) in k.q.lists && t in k.q.lists[WaitQ(w)]
    ensures OnOwn(k, {w}, t)
  {
  }

  /** Every step keeps: no task waits whose condition holds. */
  lemma {:induction false} EventKeeps(s: System, e: Step)
    requires EventInv(s) && EventEnabled(s, e)
    ensures EventInv(EventNext(s, e))
  {
    hide EventInv, EventNext;
    match e
    case Read(mask, mode, ticks, ctx) => ReadKeeps(s, mask, mode, ticks, ctx);
    case Finish => FinishReadKeeps(s);
    case Write(events) => WriteKeeps(s, events);
    case Clear(mask) => ClearKeeps(s, mask);
    case Other(e) => OtherKeeps(s, e);
  }

  lemma {:induction false} ReadKeeps(s: System, mask: bv32, mode: bv32, ticks: nat, ctx: Context)
    requires EventInv(s) && EventEnabled(s, Read(mask, mode, ticks, ctx))
    ensures EventInv(EventNext(s, Read(mask, mode, ticks, ctx)))
  {
    hide EventInv, Next, BlockRead, CheckRet, Found, Left, Within;
    if ReadRet(s.id, mask, mode, ticks, ctx) == Blocks {
      ReadBlocks(s, mask, mode, ticks, ctx);
    } else {
      LeftWithin(s.id, mask, mode);
      FewerKeeps(s, Left(s.id, mask, mode));
    }
  }

  lemma {:induction false} WriteKeeps(s: System, events: bv32)
    requires EventInv(s)
    ensures EventInv(EventNext(s, Write(events)))
  {
    hide EventInv, WriteBits, Has, Plus;
    if !Has(events, ERRTYPE_ERROR) {
      WriteWakesExactly(s, events, Plus(s.id, events));
    }
  }

  lemma {:induction false} ClearKeeps(s: System, mask: bv32)
    requires EventInv(s)
    ensures EventInv(EventNext(s, Clear(mask)))
  {
    hide EventInv, Both, Within;
    BothWithin(s.id, mask);
    FewerKeeps(s, Both(s.id, mask));
  }

  ghost predicate EventRun(s: System, es: seq<Step>, r: System)
    requires EventInv(s)
    decreases |es|
  {
    if es == [] then r == s
    else EventEnabled(s, es[0]) && (EventKeeps(s, es[0]); EventRun(EventNext(s, es[0]), es[1..], r))
  }

  /** On every run no wake-up is lost: whoever waits has a condition that does not hold. */
  lemma {:induction false} NoLostWakeUp(s: System, es: seq<Step>, r: System)
    requires EventInv(s) && EventRun(s, es, r)
    ensures EventInv(r)
    decreases |es|
  {
    hide EventInv, EventNext;
    if es != [] {
      EventKeeps(s, es[0]);
      NoLostWakeUp(EventNext(s, es[0]), es[1..], r);
    }
  }
}

/** The event word: which bits a step sets and takes, what a read answers, and that written bits can be read. */
module EventWords {
  import opened Sched
  import opened Machine
  import opened Blocking
  import opened Events
  import opened EventReads

  /** The bits a step writes. */
  function Written(e: Events.Step): (b: bv32) {
    if e.Write? && !Has(e.events, ERRTYPE_ERROR) then e.events else 0
  }

  /** The bits a step takes: those a clearing read returns, and those that LOS_EventClear does not keep. */
  ghost function Taken(s: System, e: Events.Step): (b: bv32)
    requires EventInv(s) && EventEnabled(s, e)
  {
    match e
    case Read(mask, mode, ticks, ctx) =>
      if ReadRet(s.id, mask, mode, ticks, ctx).Value? && Has(mode, WAITMODE_CLR) then Found(s.id, mask, mode) else 0
    case Finish =>
      if s.k.run in s.c.granted && s.k.run < |s.k.tasks| && Has(s.k.tasks[s.k.run].eventMode, WAITMODE_CLR)
      then Found(s.id, s.k.tasks[s.k.run].eventMask, s.k.tasks[s.k.run].eventMode) else 0
    case Clear(mask) => s.id & !mask
    case _ => 0
  }

  /** A word to which bits are added and from which then others are taken. */
  function Kept(id: bv32, written: bv32, taken: bv32): (r: bv32) { (id | written) & !taken }

  lemma {:induction false} KeptBoth(id: bv32, mask: bv32)
    ensures Both(id, mask) == Kept(id, 0, id & !mask)
  {
  }

  lemma {:induction false} KeptPlus(id: bv32, w: bv32)
    ensures Plus(id, w) == Kept(id, w, 0) && Kept(id, 0, 0) == id
  {
  }

  lemma {:induction false} KeptSans(id: bv32, b: bv32)
    ensures Sans(id, b) == Kept(id, 0, b)
  {
  }

  lemma {:induction false} KeptLeft(id: bv32, mask: bv32, mode: bv32)
    ensures Left(id, mask, mode) == Kept(id, 0, if Has(mode, WAITMODE_CLR) then Found(id, mask, mode) else 0)
  {
    hide Found, Has, Sans, Kept;
    KeptSans(id, Found(id, mask, mode));
    KeptPlus(id, 0);
  }

  /** Every step leaves exactly the bits that were there or are written and that it does not take; a write
      stores its bits whoever waits. */
  lemma {:induction false} WordExactly(s: System, e: Events.Step)
    requires EventInv(s) && EventEnabled(s, e)
    ensures EventNext(s, e).id == Kept(s.id, Written(e), Taken(s, e))
  {
    hide Found, Has, Left, Plus, Both, CheckRet, CallsOk, Unsatisfied, Kept, CanFinish;
    match e
    case Read(mask, mode, ticks, ctx) =>
      KeptLeft(s.id, mask, mode);
      KeptPlus(s.id, 0);
      ReadWord(s, mask, mode, ticks, ctx);
    case Finish => FinishWord(s);
    case Write(events) => KeptPlus(s.id, Written(e));
    case Clear(mask) => KeptBoth(s.id, mask);
    case Other(_) => KeptPlus(s.id, 0);
  }

  /** A read that finds nothing leaves the word alone. */
  lemma {:induction false} ReadWord(s: System, mask: bv32, mode: bv32, ticks: nat, ctx: Context)
    requires EventInv(s) && EventEnabled(s, Read(mask, mode, ticks, ctx))
    ensures EventNext(s, Read(mask, mode, ticks, ctx)).id ==
              if ReadRet(s.id, mask, mode, ticks, ctx).Value? then Left(s.id, mask, mode) else s.id
  {
    hide Found, Has, Left, CheckRet, CallsOk, Unsatisfied;
  }

  lemma {:induction false} FinishWord(s: System)
    requires EventInv(s) && CanFinish(s.k, s.c)
    ensures EventNext(s, Finish).id == Kept(s.id, 0, Taken(s, Finish))
  {
    hide Found, Has, Left, Inv, Next, Unsatisfied, InOrder, Kept;
    FinishKeeps(s.k, {s.w}, s.c);
    var x := s.k.tasks[s.k.run];
    KeptPlus(s.id, 0);
    KeptLeft(s.id, x.eventMask, x.eventMode);
  }

  // ------------------------------------------------------------ written bits stay readable

  /** A run on which no step takes any of the bits `b`. */
  ghost predicate Spared(s: System, es: seq<Events.Step>, r: System, b: bv32)
    requires EventInv(s)
    decreases |es|
  {
    if es == [] then r == s
    else
      && EventEnabled(s, es[0]) && Both(Taken(s, es[0]), b) == 0
      && (EventKeeps(s, es[0]); Spared(EventNext(s, es[0]), es[1..], r, b))
  }

  lemma {:induction false} KeepsSpared(id: bv32, written: bv32, taken: bv32, b: bv32)
    requires Within(b, id) && Both(taken, b) == 0
    ensures Within(b, Kept(id, written, taken))
  {
    KeptTwice(id, written, taken, b);
  }

  lemma {:induction false} KeptTwice(id: bv32, written: bv32, taken: bv32, b: bv32)
    requires b & !id == 0 && taken & b == 0
    ensures b & !((id | written) & !taken) == 0
  {
  }

  /** Bits that are set stay set until some step takes one of them. */
  lemma {:induction false} BitsStay(s: System, es: seq<Events.Step>, r: System, b: bv32)
    requires EventInv(s) && Within(b, s.id) && Spared(s, es, r, b)
    ensures EventInv(r) && EventRun(s, es, r) && Within(b, r.id)
    decreases |es|
  {
    hide EventInv, EventNext, EventEnabled, Within, Both, Kept, Taken, Written;
    if es != [] {
      EventKeeps(s, es[0]);
      WordExactly(s, es[0]);
      KeepsSpared(s.id, Written(es[0]), Taken(s, es[0]), b);
      BitsStay(EventNext(s, es[0]), es[1..], r, b);
    }
  }

  /** What a read answers, in every state: its bits at once exactly if its condition holds; nothing at once
      exactly if it does not and the caller would not wait; otherwise it waits, last on the list and with its
      mask and mode recorded, unless scheduling is locked. Only a poll and a wait change anything. */
  lemma {:induction false} ReadOutcome(s: System, mask: bv32, mode: bv32, ticks: nat, ctx: Context)
    requires EventInv(s) && EventEnabled(s, Read(mask, mode, ticks, ctx))
    ensures var ret := ReadRet(s.id, mask, mode, ticks, ctx); var r := EventNext(s, Read(mask, mode, ticks, ctx));
      var may := Checked(mask, mode) && !ctx.inInterrupt && !ctx.systemTask; var met := Holds(s.id, mask, mode);
      && (ret.Value? && ret.bits != 0 <==> may && met)
      && (may && met ==> ret == Value(Both(s.id, mask)))
      && (ret == Value(0) <==> may && !met && ticks == 0)
      && (ret == Blocks <==> may && !met && ticks != 0 && !ctx.locked)
      && (ret == ReadInLock <==> may && !met && ticks != 0 && ctx.locked)
      && (ret == ReadInInterrupt <==> Checked(mask, mode) && ctx.inInterrupt)
      && (ret == ReadInSystemTask <==> Checked(mask, mode) && !ctx.inInterrupt && ctx.systemTask)
      && (!ret.Value? && ret != Blocks ==> r == s)
      && (ret.Value? ==> r == s.(id := r.id))
      && (ret == Blocks ==>
            && r.id == s.id && Waiters(r.k, s.w) == Waiters(s.k, s.w) + [s.k.run] && s.k.run < |r.k.tasks|
            && r.k.tasks[s.k.run].eventMask == mask && r.k.tasks[s.k.run].eventMode == mode)
  {
    ReadCodes(s.id, mask, mode, ticks, ctx);
    hide Found, Has, Left, CheckRet, CallsOk, Unsatisfied, Both, Holds, ReadRet;
    if ReadRet(s.id, mask, mode, ticks, ctx) == Blocks {
      ReadWaits(s, mask, mode, ticks);
    }
  }

  lemma {:induction false} ReadCodes(id: bv32, mask: bv32, mode: bv32, ticks: nat, ctx: Context)
    ensures var ret := ReadRet(id, mask, mode, ticks, ctx);
      var may := Checked(mask, mode) && !ctx.inInterrupt && !ctx.systemTask; var met := Holds(id, mask, mode);
      && (ret.Value? && ret.bits != 0 <==> may && met)
      && (may && met ==> ret == Value(Both(id, mask)))
      && (ret == Value(0) <==> may && !met && ticks == 0)
      && (ret == Blocks <==> may && !met && ticks != 0 && !ctx.locked)
      && (ret == ReadInLock <==> may && !met && ticks != 0 && ctx.locked)
      && (ret == ReadInInterrupt <==> Checked(mask, mode) && ctx.inInterrupt)
      && (ret == ReadInSystemTask <==> Checked(mask, mode) && !ctx.inInterrupt && ctx.systemTask)
  {
    FoundIffHolds(id, mask, mode);
    hide Has, Both, Holds;
  }

  lemma {:induction false} ReadWaits(s: System, mask: bv32, mode: bv32, ticks: nat)
    requires EventInv(s) && CanBlock(s.k, s.c)
    ensures var r := BlockRead(s, mask, mode, ticks);
      && r.id == s.id && Waiters(r.k, s.w) == Waiters(s.k, s.w) + [s.k.run] && s.k.run < |r.k.tasks|
      && r.k.tasks[s.k.run].eventMask == mask && r.k.tasks[s.k.run].eventMode == mode
  {
    SetEventKeeps(s, mask, mode);
    var k1 := Next(s.k, SetEvent(mask, mode));
    BlockKeeps(k1, {s.w}, s.c, s.w, ticks);
    BlockedTask(k1, s.w, ticks);
    hide Inv, Next, Unsatisfied, InOrder, CanBlock;
  }

  /** Whoever waits or not when it is written, a bit is there for every later read until some step takes it: a
      read whose condition the written bits meet returns at once, with those of them it asks for. */
  lemma {:induction false} WrittenIsRead(s: System, events: bv32, es: seq<Events.Step>, r: System,
                                         mask: bv32, mode: bv32, ticks: nat, ctx: Context)
    requires EventInv(s) && !Has(events, ERRTYPE_ERROR)
    ensures EventInv(EventNext(s, Write(events)))
    ensures Spared(EventNext(s, Write(events)), es, r, events) && Holds(events, mask, mode)
            && Checked(mask, mode) && !ctx.inInterrupt && !ctx.systemTask ==>
      var ret := ReadRet(r.id, mask, mode, ticks, ctx);
      ret.Value? && ret.bits != 0 && Within(Both(events, mask), ret.bits)
  {
    hide EventInv, EventNext, Within, Both, Kept, Taken, Has, Holds, ReadRet, Spared, Checked;
    EventKeeps(s, Write(events));
    WordExactly(s, Write(events));
    var m := EventNext(s, Write(events));
    WriteTakesNone(s, events);
    KeptWritten(s.id, events);
    if Spared(m, es, r, events) && Holds(events, mask, mode) {
      BitsStay(m, es, r, events);
      MoreHolds(events, r.id, mask, mode);
      ReadCodes(r.id, mask, mode, ticks, ctx);
      BothWithinBoth(events, r.id, mask);
    }
  }

  lemma {:induction false} WriteTakesNone(s: System, events: bv32)
    requires EventInv(s)
    ensures Taken(s, Write(events)) == 0
  {
    hide EventInv;
  }

  lemma {:induction false} KeptWritten(id: bv32, events: bv32)
    ensures Within(events, Kept(id, events, 0))
  {
  }

  lemma {:induction false} BothWithinBoth(b: bv32, id: bv32, mask: bv32)
    requires Within(b, id)
    ensures Within(Both(b, mask), Both(id, mask))
  {
  }
}

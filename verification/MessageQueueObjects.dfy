/** A queue control block updated in place over the scheduler and its flat buffer, proved against
    the message queue protocol. */
module MessageQueueObjects {
  import opened Queues
  import opened Sched
  import Machine
  import opened Blocking
  import opened Rings
  import opened MessageQueues
  import opened QueueBuffers
  import opened SchedulerImpl
  import Bitmaps

  class MessageQueue {
    const sched: Scheduler
    const rl: nat                    // readWriteList[OS_QUEUE_READ]
    const wl: nat                    // readWriteList[OS_QUEUE_WRITE]
    const buffer: QueueBuffer
    var used: bool                   // queueState
    var readable: nat                // readWriteableCnt
    var writable: nat
    ghost var calls: Calls           // who is inside a call
    ghost var ops: map<nat, Op>      // with which operation
    ghost var readers: set<nat>      // who was handed a slot and has still to use it
    ghost var writers: set<nat>
    ghost var d: seq<seq<Byte>>      // the messages
    ghost var lostReads: nat         // slots of tasks deleted before they used them
    ghost var lostWrites: nat

    ghost function Sys(): (s: System)
      requires buffer.Valid()
      reads this, buffer, buffer.buf, sched, sched.tasks
    {
      System(sched.State(), calls, rl, wl, Queue(used, readable, writable, buffer.Content()), ops, readers, writers, d,
             lostReads, lostWrites)
    }

    /** OsQueueCreate with memory and a control block at hand. */
    static method Create(sched: Scheduler, rl: nat, wl: nat, len: nat, maxMsgSize: nat) returns (ret: CreateRet, q: MessageQueue?)
      requires Inv(sched.State()) && rl != wl && WaitQ(rl) in sched.lists && WaitQ(wl) in sched.lists
      requires sched.lists[WaitQ(rl)] == [] && sched.lists[WaitQ(wl)] == []
      ensures ret == if maxMsgSize + LENGTH_BYTES >= 0x1_0000 then CreateTooBig
                     else if len == 0 || maxMsgSize == 0 then CreateZero
                     else if len * (maxMsgSize + LENGTH_BYTES) >= 0x1_0000_0000 then CreateTooBig else Created
      ensures q != null <==> ret == Created
      ensures q != null ==> fresh(q) && q.sched == sched && q.buffer.Valid() && QueueInv(q.Sys()) && q.d == [] && q.writable == len
    {
      if maxMsgSize > 0xFFFF - LENGTH_BYTES {
        return CreateTooBig, null;
      }
      if len == 0 || maxMsgSize == 0 {
        return CreateZero, null;
      }
      var size := maxMsgSize + LENGTH_BYTES;
      FitsWord(len, size);
      if 0xFFFF_FFFF / size < len {
        return CreateTooBig, null;
      }
      q := new MessageQueue(sched, rl, wl, len, maxMsgSize);
      ret := Created;
    }

    /** A created queue, all slots writable. */
    constructor (sched: Scheduler, rl: nat, wl: nat, len: nat, maxMsgSize: nat)
      requires Inv(sched.State()) && rl != wl && WaitQ(rl) in sched.lists && WaitQ(wl) in sched.lists
      requires sched.lists[WaitQ(rl)] == [] && sched.lists[WaitQ(wl)] == []
      requires 0 < len && 0 < maxMsgSize && maxMsgSize + LENGTH_BYTES < 0x1_0000
      ensures buffer.Valid() && fresh(buffer) && fresh(buffer.buf) && this.sched == sched
      ensures QueueInv(Sys()) && d == [] && writable == len
    {
      this.sched, this.rl, this.wl := sched, rl, wl;
      buffer := new QueueBuffer(len, maxMsgSize);
      used, readable, writable := true, 0, len;
      calls := Calls({}, {}, seq(sched.tasks.Length, _ => 0), 0);
      ops, readers, writers, d, lostReads, lostWrites := map[], {}, {}, [], 0, 0;
      new;
      hide Inv, Holds;
    }

    /** The parameter checks of LOS_QueueReadCopy, LOS_QueueWriteCopy and OsQueueOperate. */
    method ParamCheck(op: Op, ticks: nat, ctx: Context) returns (ret: Ret)
      requires buffer.Valid()
      ensures ret == CheckRet(Sys().q, op, ticks, ctx)
    {
      var size := if op.Read? then op.room else |op.data|;
      if size == 0 {
        return SizeZero;
      }
      if ticks != 0 && ctx.inInterrupt {
        return InInterrupt;
      }
      if !used {
        return NotCreated;
      }
      if !op.Read? && size > buffer.size - LENGTH_BYTES {
        return SizeTooBig;
      }
      if size >= MEM_MAX_LEN {
        return BufferTooBig;
      }
      return Ok;
    }

    /** The first waiter of the opposite side is woken, or the slot counted there. */
    method Signal(read: bool) returns (needSched: bool)
      requires buffer.Valid() && Inv(sched.State()) && WaitQ(if read then wl else rl) in sched.lists
      requires var ws := sched.lists[WaitQ(if read then wl else rl)];
        ws != [] ==> Machine.Enabled(sched.State(), Machine.WakeUp(ws[0]))
      modifies this, sched, sched.tasks
      ensures Sys() == Signalled(old(Sys()), read)
      ensures needSched <==> old(Waiters(sched.State(), if read then wl else rl)) != []
    {
      hide Inv, Machine.Next, Machine.Enabled, Bitmaps.Bits;
      var w := if read then wl else rl;
      needSched := sched.lists[WaitQ(w)] != [];
      if needSched {
        var t := sched.lists[WaitQ(w)][0];
        calls := Granted(calls, t);
        if read {
          writers := writers + {t};
        } else {
          readers := readers + {t};
        }
        sched.Perform(Machine.WakeUp(t));
      } else if read {
        writable := writable + 1;
      } else {
        readable := readable + 1;
      }
    }

    /** The rest of OsQueueOperate once a slot is taken. */
    method UseSlot(op: Op) returns (out: seq<Byte>, needSched: bool)
      requires buffer.Valid() && Claimed(Sys(), op)
      modifies this, buffer, buffer.buf, sched, sched.tasks
      ensures buffer.Valid() && Sys() == Perform(old(Sys()), op)
      ensures out == Delivered(old(d), op)
      ensures needSched <==> old(Waiters(sched.State(), if op.Read? then wl else rl)) != []
    {
      hide Claimed, Inv, Machine.Next, Machine.Enabled, Bitmaps.Bits, Rings.Operate, Fits, DequeOperate, Delivered, Signalled, Perform;
      ghost var s := Sys();
      UseFacts(s, op);
      PerformIs(s, op);
      out := buffer.Operate(op);
      d := DequeOperate(d, op);
      needSched := Signal(op.Read?);
    }

    /** The caller joins the list of its side. */
    method WaitForSlot(op: Op, ticks: nat)
      requires buffer.Valid() && QueueInv(Sys()) && CanBlock(sched.State(), calls)
      modifies this, sched, sched.tasks
      ensures Sys() == BlockCall(old(Sys()), op, ticks)
    {
      hide QueueInv, Inv, Machine.Next, Machine.Enabled, Bitmaps.Bits, CanBlock;
      BlockFacts(Sys(), op, ticks);
      calls := Blocked(sched.State(), calls);
      ops := ops[sched.run := op];
      sched.Perform(Machine.WaitOn(if op.Read? then rl else wl, ticks));
    }

    /** LOS_QueueReadCopy, LOS_QueueWriteCopy and LOS_QueueWriteHeadCopy, up to the switch if they
        block. */
    method Call(op: Op, ticks: nat, ctx: Context) returns (ret: Ret, out: seq<Byte>)
      requires buffer.Valid() && QueueInv(Sys()) && QueueEnabled(Sys(), Step.Call(op, ticks, ctx))
      modifies this, buffer, buffer.buf, sched, sched.tasks
      ensures buffer.Valid() && Sys() == QueueNext(old(Sys()), Step.Call(op, ticks, ctx)) && QueueInv(Sys())
      ensures ret == CallRet(old(Sys()).q, op, ticks, ctx)
      ensures ret == Ok ==> out == Delivered(old(d), op)
    {
      hide QueueInv, Claimed, Perform, BlockCall, CheckRet, Bitmaps.Bits, CanBlock, Delivered;
      ghost var s := Sys();
      QueueKeeps(s, Step.Call(op, ticks, ctx));
      out := [];
      ret := ParamCheck(op, ticks, ctx);
      CheckOnly(s.q, op, ticks, ctx);
      if ret != Ok {
        return;
      }
      if (if op.Read? then readable else writable) == 0 {
        if ticks == 0 {
          ret := if op.Read? then Empty else Full;
          return;
        }
        if ctx.locked {
          return PendInLock, [];
        }
        WaitForSlot(op, ticks);
        return Blocks, [];
      }
      TakeClaims(s, op, ticks, ctx);
      if op.Read? {
        readable := readable - 1;
      } else {
        writable := writable - 1;
      }
      var needSched;
      out, needSched := UseSlot(op);
      ret := Ok;
    }

    /** The same calls from the switch on; `op` is what the resumed task called with. */
    method CallReturn(op: Op) returns (ret: Ret, out: seq<Byte>)
      requires buffer.Valid() && QueueInv(Sys()) && CanFinish(sched.State(), calls)
      requires sched.run in calls.granted ==> sched.run in ops && ops[sched.run] == op
      modifies this, buffer, buffer.buf, sched, sched.tasks
      ensures buffer.Valid() && Sys() == QueueNext(old(Sys()), Finish) && QueueInv(Sys())
      ensures ret == if old(sched.run in calls.granted) then Ok else Timeout
      ensures ret == Ok ==> out == Delivered(old(d), op)
    {
      hide QueueInv, Claimed, Perform, Inv, Machine.Next, Machine.Enabled, Bitmaps.Bits, CanFinish, Delivered;
      ghost var s := Sys();
      QueueKeeps(s, Finish);
      ReturnFacts(s);
      var run := sched.run;
      var timeout := sched.tasks[run].timeout;
      calls := Finished(s.k, calls);
      sched.Perform(Machine.Return);
      if timeout {
        return Timeout, [];
      }
      TakeHandedClaims(s);
      readers, writers := readers - {run}, writers - {run};
      var needSched;
      out, needSched := UseSlot(op);
      ret := Ok;
    }

    /** LOS_QueueDelete. */
    method Delete() returns (ret: Ret)
      requires buffer.Valid() && QueueInv(Sys())
      modifies this`used
      ensures Sys() == QueueNext(old(Sys()), Step.Delete) && QueueInv(Sys())
      ensures ret == DeleteRet(old(Sys()).q, sched.lists[WaitQ(rl)], sched.lists[WaitQ(wl)])
    {
      ghost var s := Sys();
      QueueKeeps(s, Step.Delete);
      DeleteFacts(s);
      hide QueueInv, Bitmaps.Bits;
      if !used {
        return NotCreated;
      }
      if sched.lists[WaitQ(rl)] != [] {
        return InUse;
      }
      if sched.lists[WaitQ(wl)] != [] {
        return InUse;
      }
      if writable + readable != buffer.len {
        return InTaskWrite;
      }
      used := false;
      ret := Ok;
    }
  }

  datatype CreateRet = Created | CreateTooBig | CreateZero

  lemma {:induction false} FitsWord(len: nat, size: nat)
    requires size > 0
    ensures 0xFFFF_FFFF / size < len <==> len * size >= 0x1_0000_0000
  {
    var q := 0xFFFF_FFFF / size;
    assert q * size <= 0xFFFF_FFFF < (q + 1) * size;
    if q < len {
      assert (q + 1) * size <= len * size;
    } else {
      assert len * size <= q * size;
    }
  }

  /** What an operation hands to its caller. */
  function Delivered(d: seq<seq<Byte>>, op: Op): (out: seq<Byte>)
    requires op.Read? ==> d != []
  {
    if op.Read? then (if op.room < |d[0]| then d[0][..op.room] else d[0]) else []
  }

  lemma {:induction false} HeadLength(q: Ring, d: seq<seq<Byte>>)
    requires Holds(q, d) && d != []
    ensures FromLe32(q.slots[q.head][q.size - LENGTH_BYTES..]) <= q.size
  {
    assert Message(q.slots[Ahead(q.head, 0, |q.slots|)]) == d[0];
  }

  ghost function Signalled(s: System, read: bool): (r: System)
    requires Inv(s.k)
    requires var ws := Waiters(s.k, ListOf(s, !read)); ws != [] ==> Machine.Enabled(s.k, Machine.WakeUp(ws[0]))
  {
    var ws := Waiters(s.k, ListOf(s, !read));
    if ws != [] then
      var r := s.(k := Machine.Next(s.k, Machine.WakeUp(ws[0])), c := Granted(s.c, ws[0]));
      if read then r.(writers := s.writers + {ws[0]}) else r.(readers := s.readers + {ws[0]})
    else if read then s.(q := s.q.(writable := s.q.writable + 1))
    else s.(q := s.q.(readable := s.q.readable + 1))
  }

  lemma {:induction false} UseFacts(s: System, op: Op)
    requires Claimed(s, op)
    ensures Inv(s.k) && RingOk(s.q.ring) && Fits(s.q.ring, op) && (op.Read? ==> s.d != [])
    ensures WaitQ(s.rl) in s.k.q.lists && WaitQ(s.wl) in s.k.q.lists
    ensures Rings.Operate(s.q.ring, op).1 == Delivered(s.d, op)
    ensures op.Read? ==> FromLe32(s.q.ring.slots[s.q.ring.head][s.q.ring.size - LENGTH_BYTES..]) <= s.q.ring.size
    ensures var ws := s.k.q.lists[WaitQ(ListOf(s, !op.Read?))];
      ws != [] ==> Machine.Enabled(s.k, Machine.WakeUp(ws[0]))
  {
    hide Inv, Holds, OpsOk, Waiters, Balance;
    ClaimedMessages(s, op);
    OperateRefines(s.q.ring, s.d, op);
    if op.Read? {
      HeadLength(s.q.ring, s.d);
    }
    RingIs(s.q.ring, s.d);
    var w := ListOf(s, !op.Read?);
    if s.k.q.lists[WaitQ(w)] != [] {
      GrantKeeps(s.k, s.Own(), s.c, w);
    }
  }

  lemma {:induction false} ClaimedMessages(s: System, op: Op)
    requires Claimed(s, op)
    ensures if op.Read? then s.d != [] else |s.d| < |s.q.ring.slots|
  {
    hide CallsOk, Holds, OpsOk, Waiters;
    RingIs(s.q.ring, s.d);
  }

  lemma {:induction false} PerformIs(s: System, op: Op)
    requires Claimed(s, op)
    ensures Inv(s.k) && RingOk(s.q.ring) && Fits(s.q.ring, op) && (op.Read? ==> s.d != [])
    ensures var ws := Waiters(s.k, ListOf(s, !op.Read?)); ws != [] ==> Machine.Enabled(s.k, Machine.WakeUp(ws[0]))
    ensures Perform(s, op) == Signalled(s.(q := s.q.(ring := Rings.Operate(s.q.ring, op).0), d := DequeOperate(s.d, op)), op.Read?)
  {
    hide Claimed, Inv, Machine.Next, Rings.Operate, DequeOperate, Machine.Enabled, Fits, Delivered;
    UseFacts(s, op);
  }

  lemma {:induction false} RingIs(q: Ring, d: seq<seq<Byte>>)
    requires Holds(q, d)
    ensures RingOk(q) && |d| <= |q.slots|
  {
  }

  lemma {:induction false} BlockFacts(s: System, op: Op, ticks: nat)
    requires QueueInv(s) && CanBlock(s.k, s.c)
    ensures Inv(s.k) && s.k.run < |s.c.ticket| && Machine.Enabled(s.k, Machine.WaitOn(ListOf(s, op.Read?), ticks))
  {
    hide Inv, Holds, OpsOk, Balance;
    BlockKeeps(s.k, s.Own(), s.c, ListOf(s, op.Read?), ticks);
  }

  lemma {:induction false} ReturnFacts(s: System)
    requires QueueInv(s) && CanFinish(s.k, s.c)
    ensures Inv(s.k) && s.k.run < |s.k.tasks| && Machine.Enabled(s.k, Machine.Return)
    ensures s.k.tasks[s.k.run].timeout <==> s.k.run !in s.c.granted
  {
    hide Inv, Holds, OpsOk, Balance;
    FinishKeeps(s.k, s.Own(), s.c);
  }

  lemma {:induction false} DeleteFacts(s: System)
    requires QueueInv(s)
    ensures WaitQ(s.rl) in s.k.q.lists && WaitQ(s.wl) in s.k.q.lists
  {
    hide CallsOk, Holds, OpsOk, Balance;
  }

  lemma {:induction false} CheckOnly(q: Queue, op: Op, ticks: nat, ctx: Context)
    ensures CheckRet(q, op, ticks, ctx) != Blocks
  {
  }
}

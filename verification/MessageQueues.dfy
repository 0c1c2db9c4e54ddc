/** Message queues: a slot handed to a woken task is counted until that task has used it. */
module MessageQueues {
  import opened Queues
  import opened Sched
  import opened Machine
  import opened Blocking
  import opened Rings

  /** `readable` and `writable` are readWriteableCnt. */
  datatype Queue = Queue(used: bool, readable: nat, writable: nat, ring: Ring)
  {
    function Capacity(): (n: nat) { |ring.slots| }
  }

  /** From where the queue is called. */
  datatype Context = Context(inInterrupt: bool, locked: bool)

  datatype Ret = Ok | NotCreated | SizeZero | SizeTooBig | BufferTooBig | InInterrupt | Empty | Full | PendInLock | Timeout | InUse | InTaskWrite
               | Blocks // the caller waits; it has not returned

  const MEM_MAX_LEN: nat := 0x7FFF_FFFF  // SECUREC_MEM_MAX_LEN

  /** The parameter checks of the copy interfaces. */
  function CheckRet(q: Queue, op: Op, ticks: nat, ctx: Context): (r: Ret) {
    if (if op.Read? then op.room == 0 else op.data == []) then SizeZero
    else if ticks != 0 && ctx.inInterrupt then InInterrupt
    else if !q.used then NotCreated
    else if !op.Read? && |op.data| + LENGTH_BYTES > q.ring.size then SizeTooBig
    else if (if op.Read? then op.room else |op.data|) >= MEM_MAX_LEN then BufferTooBig
    else Ok
  }

  /** The decision OsQueueOperate takes before it blocks; `Ok` means that it takes a slot. */
  function CallRet(q: Queue, op: Op, ticks: nat, ctx: Context): (r: Ret) {
    var ret := CheckRet(q, op, ticks, ctx);
    if ret != Ok then ret
    else if (if op.Read? then q.readable else q.writable) > 0 then Ok
    else if ticks == 0 then (if op.Read? then Empty else Full)
    else if ctx.locked then PendInLock
    else Blocks
  }

  /** LOS_QueueDelete: no waiters, and no slot handed out. */
  function DeleteRet(q: Queue, readers: seq<nat>, writers: seq<nat>): (r: Ret) {
    if !q.used then NotCreated
    else if readers != [] || writers != [] then InUse
    else if q.writable + q.readable != q.Capacity() then InTaskWrite
    else Ok
  }

  // ------------------------------------------------------------ one queue in a running system

  datatype Step = Call(op: Op, ticks: nat, ctx: Context) | Finish | Delete | Other(e: Machine.Step)

  /** `rl` and `wl` are the two wait lists; `ops` the operations of the tasks inside a call;
      `readers` and `writers` the woken tasks that have still to use the slot handed to them;
      `d` the messages, front first; `lostReads` and `lostWrites` the slots handed to tasks that were
      deleted before they used them. */
  datatype System = System(
    k: Kernel, c: Calls, rl: nat, wl: nat, q: Queue,
    ops: map<nat, Op>, readers: set<nat>, writers: set<nat>, d: seq<seq<Byte>>, lostReads: nat, lostWrites: nat)
  {
    ghost function Own(): (s: set<nat>) { {rl, wl} }
  }

  /** The wait list of an operation, and that of the opposite side. */
  function ListOf(s: System, read: bool): (w: nat) { if read then s.rl else s.wl }

  ghost predicate Reads(ops: map<nat, Op>, t: nat) { t in ops && ops[t].Read? }

  ghost predicate Writes(ops: map<nat, Op>, ring: Ring, t: nat) { t in ops && !ops[t].Read? && Fits(ring, ops[t]) }

  /** The operation of every task inside a call belongs to its side and fits a slot. */
  ghost predicate OpsOk(ops: map<nat, Op>, ring: Ring, readers: set<nat>, writers: set<nat>, rs: seq<nat>, ws: seq<nat>) {
    && (forall t :: t in readers || t in rs ==> Reads(ops, t))
    && (forall t :: t in writers || t in ws ==> Writes(ops, ring, t))
  }

  /** All slots but `claimed` are readable, writable or handed to a woken task, and a side with
      slots left has no waiters. */
  ghost predicate Balance(q: Queue, readers: set<nat>, writers: set<nat>, rs: seq<nat>, ws: seq<nat>,
                          messages: nat, claimed: nat, claimedRead: nat) {
    && q.readable + q.writable + |readers| + |writers| + claimed == q.Capacity()
    && messages == q.readable + |readers| + claimedRead
    && (q.readable > 0 || !q.used ==> rs == [])
    && (q.writable > 0 || !q.used ==> ws == [])
    && (!q.used ==> readers == {} && writers == {})
  }

  ghost predicate Base(s: System, claimed: nat, claimedRead: nat) {
    && CallsOk(s.k, s.Own(), s.c) && s.rl != s.wl
    && WaitQ(s.rl) in s.k.q.lists && WaitQ(s.wl) in s.k.q.lists
    && s.c.granted == s.readers + s.writers && s.readers !! s.writers
    && OpsOk(s.ops, s.q.ring, s.readers, s.writers, Waiters(s.k, s.rl), Waiters(s.k, s.wl))
    && Holds(s.q.ring, s.d)
    && Balance(s.q, s.readers, s.writers, Waiters(s.k, s.rl), Waiters(s.k, s.wl), |s.d|,
               claimed + s.lostReads + s.lostWrites, claimedRead + s.lostReads)
  }

  ghost predicate QueueInv(s: System) { Base(s, 0, 0) }

  /** A slot has been taken for `op` and the buffer not yet touched. */
  ghost predicate Claimed(s: System, op: Op) {
    Base(s, 1, if op.Read? then 1 else 0) && s.q.used && Fits(s.q.ring, op)
  }

  /** The rest of OsQueueOperate: use the slot, then wake the first of the opposite side or count
      the slot there. */
  ghost function Perform(s: System, op: Op): (r: System)
    requires Claimed(s, op)
  {
    var w := ListOf(s, !op.Read?);
    var waiters := Waiters(s.k, w);
    var s1 := s.(q := s.q.(ring := Operate(s.q.ring, op).0), d := DequeOperate(s.d, op));
    if waiters != [] then
      GrantKeeps(s.k, s.Own(), s.c, w);
      var t := waiters[0];
      var s2 := s1.(k := Next(s.k, WakeUp(t)), c := Granted(s.c, t));
      if op.Read? then s2.(writers := s.writers + {t}) else s2.(readers := s.readers + {t})
    else if op.Read? then s1.(q := s1.q.(writable := s.q.writable + 1))
    else s1.(q := s1.q.(readable := s.q.readable + 1))
  }

  lemma {:induction false} PerformMessages(s: System, op: Op)
    requires Claimed(s, op)
    ensures RingOk(s.q.ring)
    ensures var ring := Operate(s.q.ring, op).0;
      && Holds(ring, DequeOperate(s.d, op)) && |ring.slots| == |s.q.ring.slots|
      && (forall o: Op :: Fits(s.q.ring, o) <==> Fits(ring, o))
      && |DequeOperate(s.d, op)| == if op.Read? then |s.d| - 1 else |s.d| + 1
  {
    hide CallsOk, OpsOk;
    OperateRefines(s.q.ring, s.d, op);
  }

  /** The first waiter of a side joins its woken tasks. */
  lemma {:induction false} HandOver(s: System, read: bool, ring: Ring)
    requires Base(s, 1, if read then 0 else 1) && Waiters(s.k, ListOf(s, read)) != []
    requires forall o: Op :: Fits(s.q.ring, o) <==> Fits(ring, o)
    ensures var t := Waiters(s.k, ListOf(s, read))[0];
      && t !in s.readers && t !in s.writers && Enabled(s.k, WakeUp(t))
      && var k' := Next(s.k, WakeUp(t));
      && CallsOk(k', s.Own(), Granted(s.c, t)) && WaitQ(s.rl) in k'.q.lists && WaitQ(s.wl) in k'.q.lists
      && var readers := if read then s.readers + {t} else s.readers;
         var writers := if read then s.writers else s.writers + {t};
      && |readers| + |writers| == |s.readers| + |s.writers| + 1 && |readers| == |s.readers| + (if read then 1 else 0)
      && OpsOk(s.ops, ring, readers, writers, Waiters(k', s.rl), Waiters(k', s.wl))
      && (Waiters(s.k, s.rl) == [] ==> Waiters(k', s.rl) == []) && (Waiters(s.k, s.wl) == [] ==> Waiters(k', s.wl) == [])
  {
    hide CallsOk, Next, Holds, Balance;
    var w := ListOf(s, read);
    var waiters := Waiters(s.k, w);
    GrantKeeps(s.k, s.Own(), s.c, w);
    assert waiters[0] in waiters;
    assert forall t :: t in waiters[1..] ==> t in waiters;
  }

  lemma {:induction false} PerformHands(s: System, op: Op)
    requires Claimed(s, op) && Waiters(s.k, ListOf(s, !op.Read?)) != []
    ensures QueueInv(Perform(s, op))
  {
    hide CallsOk, Next, Holds, Operate, Fits, OpsOk, Waiters, DequeOperate;
    PerformMessages(s, op);
    HandOver(s, !op.Read?, Operate(s.q.ring, op).0);
  }

  lemma {:induction false} PerformCounts(s: System, op: Op)
    requires Claimed(s, op) && Waiters(s.k, ListOf(s, !op.Read?)) == []
    ensures QueueInv(Perform(s, op))
  {
    hide CallsOk, Next, Holds, Operate, Fits, OpsOk, Waiters, DequeOperate;
    PerformMessages(s, op);
    SameOps(s, Operate(s.q.ring, op).0);
  }

  lemma {:induction false} SameOps(s: System, ring: Ring)
    requires Base(s, 1, 0) || Base(s, 1, 1)
    requires forall o: Op :: Fits(s.q.ring, o) <==> Fits(ring, o)
    ensures OpsOk(s.ops, ring, s.readers, s.writers, Waiters(s.k, s.rl), Waiters(s.k, s.wl))
  {
    hide CallsOk, Holds, Balance, Fits;
  }

  /** Using a taken slot restores the balance and does to the messages what the operation says. */
  lemma {:induction false} PerformKeeps(s: System, op: Op)
    requires Claimed(s, op)
    ensures QueueInv(Perform(s, op)) && Perform(s, op).d == DequeOperate(s.d, op)
  {
    hide QueueInv, Claimed, Next, Operate, DequeOperate;
    if Waiters(s.k, ListOf(s, !op.Read?)) != [] {
      PerformHands(s, op);
    } else {
      PerformCounts(s, op);
    }
  }

  // ------------------------------------------------------------ steps

  ghost predicate QueueEnabled(s: System, e: Step) {
    match e
    case Call(op, ticks, ctx) => CallRet(s.q, op, ticks, ctx) == Blocks ==> CanBlock(s.k, s.c)
    case Finish => CanFinish(s.k, s.c)
    case Delete => true
    case Other(e) => Foreign(s.k, s.Own(), s.c, e)
  }

  /** A slot counted as free for `op` is taken. */
  ghost function Take(s: System, op: Op): (r: System)
    requires (if op.Read? then s.q.readable else s.q.writable) > 0
  {
    s.(q := if op.Read? then s.q.(readable := s.q.readable - 1) else s.q.(writable := s.q.writable - 1))
  }

  /** The woken task that runs uses the slot handed to it. */
  ghost function TakeHanded(s: System): (r: System)
    requires Inv(s.k) && Enabled(s.k, Return)
  {
    s.(k := Next(s.k, Return), c := Finished(s.k, s.c),
       readers := s.readers - {s.k.run}, writers := s.writers - {s.k.run})
  }

  lemma {:induction false} TakeClaims(s: System, op: Op, ticks: nat, ctx: Context)
    requires QueueInv(s) && CallRet(s.q, op, ticks, ctx) == Ok
    ensures Claimed(Take(s, op), op)
  {
    hide CallsOk, Holds;
  }

  lemma {:induction false} RemoveOne(a: set<nat>, b: set<nat>, t: nat)
    requires a !! b && t in a + b
    ensures (a - {t}) + (b - {t}) == a + b - {t} && (a - {t}) !! (b - {t})
    ensures |a - {t}| + |b - {t}| + 1 == |a| + |b| && |a - {t}| == |a| - (if t in a then 1 else 0)
  {
    if t in a {
      assert b - {t} == b;
    } else {
      assert a - {t} == a;
    }
  }

  lemma {:induction false} FewerOps(s: System, t: nat)
    requires Base(s, 0, 0)
    ensures OpsOk(s.ops, s.q.ring, s.readers - {t}, s.writers - {t}, Waiters(s.k, s.rl), Waiters(s.k, s.wl))
    ensures t in s.readers ==> Reads(s.ops, t)
    ensures t in s.writers ==> Writes(s.ops, s.q.ring, t)
  {
    hide CallsOk, Holds, Balance, Waiters;
  }

  lemma {:induction false} ReturnFrame(s: System)
    requires QueueInv(s) && CanFinish(s.k, s.c)
    ensures Inv(s.k) && Enabled(s.k, Return)
    ensures var k' := Next(s.k, Return);
      && CallsOk(k', s.Own(), Finished(s.k, s.c)) && WaitQ(s.rl) in k'.q.lists && WaitQ(s.wl) in k'.q.lists
      && Waiters(k', s.rl) == Waiters(s.k, s.rl) && Waiters(k', s.wl) == Waiters(s.k, s.wl)
  {
    hide Inv, InOrder, Holds, Next, OpsOk, CanFinish, Balance;
    FinishKeeps(s.k, s.Own(), s.c);
  }

  /** A resumed call that was handed a slot still finds it: nobody else took it in between. */
  lemma {:induction false} TakeHandedClaims(s: System)
    requires QueueInv(s) && CanFinish(s.k, s.c) && s.k.run in s.c.granted
    ensures Inv(s.k) && Enabled(s.k, Return)
    ensures s.k.run in s.ops && Claimed(TakeHanded(s), s.ops[s.k.run])
  {
    hide CallsOk, Inv, Holds, Next, OpsOk, CanFinish, Waiters;
    ReturnFrame(s);
    var t := s.k.run;
    RemoveOne(s.readers, s.writers, t);
    FewerOps(s, t);
    assert s.c.granted == s.readers + s.writers;
  }

  ghost function QueueNext(s: System, e: Step): (r: System)
    requires QueueInv(s) && QueueEnabled(s, e)
  {
    hide Claimed, Balance, OpsOk, Holds;
    match e
    case Call(op, ticks, ctx) =>
      var ret := CallRet(s.q, op, ticks, ctx);
      if ret == Ok then
        TakeClaims(s, op, ticks, ctx);
        Perform(Take(s, op), op)
      else if ret == Blocks then BlockCall(s, op, ticks)
      else s
    case Finish => FinishCall(s)
    case Delete => if DeleteRet(s.q, Waiters(s.k, s.rl), Waiters(s.k, s.wl)) == Ok then s.(q := s.q.(used := false)) else s
    case Other(e) => AfterOther(s, e)
  }

  /** A step of the rest of the system; a woken task that it deletes takes its slot with it. */
  ghost function AfterOther(s: System, e: Machine.Step): (r: System)
    requires Inv(s.k) && Enabled(s.k, e)
  {
    s.(k := Next(s.k, e), c := AfterForeign(s.k, s.Own(), s.c, e),
       readers := s.readers - DeletedBy(e), writers := s.writers - DeletedBy(e),
       lostReads := if DeletesOne(s.readers, e) then s.lostReads + 1 else s.lostReads,
       lostWrites := if DeletesOne(s.writers, e) then s.lostWrites + 1 else s.lostWrites)
  }

  /** A call that blocked goes on: it gives up after a timeout, or uses the slot handed to it. */
  ghost function FinishCall(s: System): (r: System)
    requires QueueInv(s) && CanFinish(s.k, s.c)
  {
    hide Claimed, Balance, OpsOk, Holds;
    FinishKeeps(s.k, s.Own(), s.c);
    if s.k.tasks[s.k.run].timeout then s.(k := Next(s.k, Return), c := Finished(s.k, s.c))
    else
      TakeHandedClaims(s);
      Perform(TakeHanded(s), s.ops[s.k.run])
  }

  ghost function BlockCall(s: System, op: Op, ticks: nat): (r: System)
    requires QueueInv(s) && CanBlock(s.k, s.c)
  {
    var w := ListOf(s, op.Read?);
    BlockKeeps(s.k, s.Own(), s.c, w, ticks);
    s.(k := Next(s.k, WaitOn(w, ticks)), c := Blocked(s.k, s.c), ops := s.ops[s.k.run := op])
  }

  lemma {:induction false} BlockedOps(ops: map<nat, Op>, ring: Ring, readers: set<nat>, writers: set<nat>,
                                      rs: seq<nat>, ws: seq<nat>, t: nat, op: Op)
    requires OpsOk(ops, ring, readers, writers, rs, ws) && Fits(ring, op)
    requires t !in readers && t !in writers && t !in rs && t !in ws
    ensures if op.Read? then OpsOk(ops[t := op], ring, readers, writers, rs + [t], ws)
            else OpsOk(ops[t := op], ring, readers, writers, rs, ws + [t])
  {
    hide Fits;
  }

  lemma {:induction false} BlockCallKeeps(s: System, op: Op, ticks: nat, ctx: Context)
    requires QueueInv(s) && CanBlock(s.k, s.c) && CallRet(s.q, op, ticks, ctx) == Blocks
    ensures QueueInv(BlockCall(s, op, ticks))
  {
    var w := ListOf(s, op.Read?);
    BlockKeeps(s.k, s.Own(), s.c, w, ticks);
    RunNotWaiting(s.k);
    assert Fits(s.q.ring, op);
    assert s.k.run !in s.readers && s.k.run !in s.writers;
    hide CallsOk, Inv, Next, Holds, CanBlock, OpsOk, Fits, InOrder, OnOwn;
    BlockedOps(s.ops, s.q.ring, s.readers, s.writers, Waiters(s.k, s.rl), Waiters(s.k, s.wl), s.k.run, op);
    var r := BlockCall(s, op, ticks);
    assert Waiters(r.k, w) == Waiters(s.k, w) + [s.k.run];
    assert Waiters(r.k, ListOf(s, !op.Read?)) == Waiters(s.k, ListOf(s, !op.Read?));
  }

  /** A call whose parameters are accepted: something to copy, no wait asked for in an interrupt, a queue in
      use, and a message that fits a slot. */
  ghost predicate Proper(q: Queue, op: Op, ticks: nat, ctx: Context) {
    var size := if op.Read? then op.room else |op.data|;
    0 < size < MEM_MAX_LEN && (ticks == 0 || !ctx.inInterrupt) && q.used && Fits(q.ring, op)
  }

  /** Which code refuses a call, the first reason in this order: nothing to copy, a wait asked for in an interrupt,
      no such queue, a message too long for a slot, a buffer too long to copy. */
  lemma {:induction false} RefusedExactly(q: Queue, op: Op, ticks: nat, ctx: Context)
    ensures var ret := CheckRet(q, op, ticks, ctx); var size := if op.Read? then op.room else |op.data|;
      var asks := ticks != 0 && ctx.inInterrupt;
      && (ret == Ok <==> Proper(q, op, ticks, ctx))
      && (ret == SizeZero <==> size == 0)
      && (ret == InInterrupt <==> size > 0 && asks)
      && (ret == NotCreated <==> size > 0 && !asks && !q.used)
      && (ret == SizeTooBig <==> size > 0 && !asks && q.used && !Fits(q.ring, op))
      && (ret == BufferTooBig <==> !asks && q.used && Fits(q.ring, op) && size >= MEM_MAX_LEN)
  {
    assert op.Read? || op.WriteHead? || op.WriteTail?;
  }

  /** What the codes of a call mean: LOS_OK at once does the operation on the messages and overtakes no task
      that waits for the same; a call that may wait does so, last on its list, exactly if no slot is left for
      it and its timeout is not 0; every refused call changes nothing; which calls are accepted. */
  lemma {:induction false} CallOutcome(s: System, op: Op, ticks: nat, ctx: Context)
    requires QueueInv(s) && QueueEnabled(s, Call(op, ticks, ctx))
    ensures var ret := CallRet(s.q, op, ticks, ctx); var r := QueueNext(s, Call(op, ticks, ctx));
      var w := ListOf(s, op.Read?);
      && (ret == Ok ==> r.d == DequeOperate(s.d, op) && Waiters(s.k, w) == [])
      && (ret == Blocks ==> r.d == s.d && r.q == s.q && Waiters(r.k, w) == Waiters(s.k, w) + [s.k.run]
                            && (if op.Read? then s.q.readable else s.q.writable) == 0)
      && (ret == Ok || ret == Blocks ==> s.q.used && Fits(s.q.ring, op))
      && (ret != Ok && ret != Blocks ==> r == s)
      && var may := Proper(s.q, op, ticks, ctx); var free := (if op.Read? then s.q.readable else s.q.writable) > 0;
      && (ret == Ok <==> may && free)
      && (ret == Blocks <==> may && !free && ticks != 0 && !ctx.locked)
      && (ret == PendInLock <==> may && !free && ticks != 0 && ctx.locked)
      && (ret == (if op.Read? then Empty else Full) <==> may && !free && ticks == 0)
  {
    hide Claimed;
    if CallRet(s.q, op, ticks, ctx) == Ok {
      TakeClaims(s, op, ticks, ctx);
      PerformKeeps(Take(s, op), op);
    } else if CallRet(s.q, op, ticks, ctx) == Blocks {
      BlockKeeps(s.k, s.Own(), s.c, ListOf(s, op.Read?), ticks);
    }
    hide CallsOk, Inv, Next, Holds, CanBlock, OpsOk, DequeOperate, Perform, InOrder, OnOwn;
  }

  ghost predicate Shrinks(a: seq<nat>, b: seq<nat>) {
    (forall t :: t in b ==> t in a) && (a == [] ==> b == [])
  }

  lemma {:induction false} ShrunkOps(ops: map<nat, Op>, ring: Ring, readers: set<nat>, writers: set<nat>,
                                     rs: seq<nat>, ws: seq<nat>, rs': seq<nat>, ws': seq<nat>)
    requires OpsOk(ops, ring, readers, writers, rs, ws) && Shrinks(rs, rs') && Shrinks(ws, ws')
    ensures OpsOk(ops, ring, readers, writers, rs', ws')
  {
    hide Fits;
  }

  lemma {:induction false} OtherKeeps(s: System, e: Machine.Step)
    requires QueueInv(s) && Foreign(s.k, s.Own(), s.c, e)
    ensures QueueInv(QueueNext(s, Other(e)))
  {
    hide Inv, InOrder, Next, Holds, Enabled, AfterForeign, OpsOk, Waiters, OnOwn, DeletedBy, DeletesOne, Balance, Shrinks;
    ForeignKeeps(s.k, s.Own(), s.c, e);
    OtherShrinks(s, e);
    var k' := Next(s.k, e);
    ShrunkOps(s.ops, s.q.ring, s.readers, s.writers, Waiters(s.k, s.rl), Waiters(s.k, s.wl),
              Waiters(k', s.rl), Waiters(k', s.wl));
    BalanceLess(s, e, Waiters(k', s.rl), Waiters(k', s.wl));
    BothLess(s.readers, s.writers, DeletedBy(e));
    FewerGranted(s.ops, s.q.ring, s.readers, s.writers, Waiters(k', s.rl), Waiters(k', s.wl), DeletedBy(e));
  }

  /** A deleted task's slot moves from the handed-over ones to the lost ones. */
  lemma {:induction false} BalanceLess(s: System, e: Machine.Step, rs: seq<nat>, ws: seq<nat>)
    requires QueueInv(s) && Shrinks(Waiters(s.k, s.rl), rs) && Shrinks(Waiters(s.k, s.wl), ws) && Inv(s.k) && Enabled(s.k, e)
    ensures var r := AfterOther(s, e);
      Balance(s.q, r.readers, r.writers, rs, ws, |s.d|, r.lostReads + r.lostWrites, r.lostReads)
  {
    hide CallsOk, Next, AfterForeign, OpsOk, Holds, Waiters, Inv, Enabled, DeletedBy, DeletesOne;
    assert s.readers == {} ==> s.readers - DeletedBy(e) == {};
    assert s.writers == {} ==> s.writers - DeletedBy(e) == {};
    OneLess(s.readers, e);
    OneLess(s.writers, e);
  }

  lemma {:induction false} BothLess(a: set<nat>, b: set<nat>, gone: set<nat>)
    ensures (a - gone) + (b - gone) == a + b - gone && (a !! b ==> (a - gone) !! (b - gone))
  {
  }

  lemma {:induction false} FewerGranted(ops: map<nat, Op>, ring: Ring, readers: set<nat>, writers: set<nat>,
                                        rs: seq<nat>, ws: seq<nat>, gone: set<nat>)
    requires OpsOk(ops, ring, readers, writers, rs, ws)
    ensures OpsOk(ops, ring, readers - gone, writers - gone, rs, ws)
  {
    hide Fits;
  }

  lemma {:induction false} OtherShrinks(s: System, e: Machine.Step)
    requires QueueInv(s) && Foreign(s.k, s.Own(), s.c, e)
    ensures var k' := Next(s.k, e);
      && WaitQ(s.rl) in k'.q.lists && WaitQ(s.wl) in k'.q.lists
      && Shrinks(Waiters(s.k, s.rl), Waiters(k', s.rl)) && Shrinks(Waiters(s.k, s.wl), Waiters(k', s.wl))
  {
    hide Inv, Next, Holds, OpsOk, Balance, InOrder;
    ForeignLists(s.k, s.Own(), s.c, e, s.rl);
    ForeignLists(s.k, s.Own(), s.c, e, s.wl);
    var k' := Next(s.k, e);
    assert Waiters(k', s.rl) != [] ==> Waiters(k', s.rl)[0] in Waiters(s.k, s.rl);
    assert Waiters(k', s.wl) != [] ==> Waiters(k', s.wl)[0] in Waiters(s.k, s.wl);
  }

  lemma {:induction false} FinishCallKeeps(s: System)
    requires QueueInv(s) && CanFinish(s.k, s.c)
    ensures QueueInv(QueueNext(s, Finish))
  {
    FinishKeeps(s.k, s.Own(), s.c);
    if s.k.run in s.c.granted {
      TakeHandedClaims(s);
      PerformKeeps(TakeHanded(s), s.ops[s.k.run]);
    } else {
      hide CallsOk, Inv, Next, Holds, CanFinish, OpsOk, Balance;
      assert s.c.granted - {s.k.run} == s.c.granted;
    }
  }

  /** LOS_QueueDelete succeeds only when no woken task has still to touch the buffer. */
  lemma {:induction false} DeleteWaitsForGrants(s: System)
    requires QueueInv(s)
    ensures DeleteRet(s.q, Waiters(s.k, s.rl), Waiters(s.k, s.wl)) == Ok ==> s.readers == {} && s.writers == {} && s.c.granted == {} && s.lostReads == s.lostWrites == 0
    ensures QueueInv(QueueNext(s, Delete))
  {
    hide CallsOk, Holds, OpsOk;
  }

  /** A queue is deleted exactly if it is in use, nobody waits, nobody has still to use a slot and none is lost. */
  lemma {:induction false} DeleteOutcome(s: System)
    requires QueueInv(s)
    ensures var ret := DeleteRet(s.q, Waiters(s.k, s.rl), Waiters(s.k, s.wl)); var r := QueueNext(s, Delete);
      && (ret == Ok <==>
            && s.q.used && Waiters(s.k, s.rl) == [] && Waiters(s.k, s.wl) == []
            && s.c.granted == {} && s.lostReads == s.lostWrites == 0)
      && r == if ret == Ok then s.(q := s.q.(used := false)) else s
  {
    hide CallsOk, Holds, OpsOk, Waiters;
    assert s.c.granted == {} <==> s.readers == {} && s.writers == {};
  }

  /** Every step keeps: readable, writable and handed-over slots together are the capacity, a side
      with slots left has no waiters, and the ring holds the messages. */
  lemma {:induction false} QueueKeeps(s: System, e: Step)
    requires QueueInv(s) && QueueEnabled(s, e)
    ensures QueueInv(QueueNext(s, e))
  {
    hide QueueInv, Perform, Take, TakeHanded, BlockCall, Next;
    match e
    case Call(op, ticks, ctx) =>
      if CallRet(s.q, op, ticks, ctx) == Ok {
        TakeClaims(s, op, ticks, ctx);
        PerformKeeps(Take(s, op), op);
      } else if CallRet(s.q, op, ticks, ctx) == Blocks {
        BlockCallKeeps(s, op, ticks, ctx);
      }
    case Finish => FinishCallKeeps(s);
    case Delete => DeleteWaitsForGrants(s);
    case Other(e) => OtherKeeps(s, e);
  }

  ghost predicate QueueRun(s: System, es: seq<Step>, r: System)
    requires QueueInv(s)
    decreases |es|
  {
    if es == [] then r == s
    else QueueEnabled(s, es[0]) && (QueueKeeps(s, es[0]); QueueRun(QueueNext(s, es[0]), es[1..], r))
  }

  /** A queue as OsQueueCreate leaves it. */
  ghost predicate Fresh(s: System) {
    && Inv(s.k) && |s.c.ticket| == |s.k.tasks| && s.c.granted == {} && s.c.expired == {}
    && s.rl != s.wl && WaitQ(s.rl) in s.k.q.lists && WaitQ(s.wl) in s.k.q.lists
    && s.k.q.lists[WaitQ(s.rl)] == [] && s.k.q.lists[WaitQ(s.wl)] == []
    && s.readers == {} && s.writers == {} && s.d == [] && s.lostReads == s.lostWrites == 0
    && RingOk(s.q.ring) && s.q.ring.head == 0 && s.q.ring.tail == 0
    && s.q.used && s.q.readable == 0 && s.q.writable == s.q.Capacity()
  }

  /** On every run, with any interleaving of readers, writers, interrupts and timeouts: no slot is
      lost or used twice, and the ring holds exactly the messages written and not yet read. */
  lemma {:induction false} SlotConservation(s: System, es: seq<Step>, r: System)
    requires Fresh(s)
    ensures QueueInv(s)
    ensures QueueRun(s, es, r) ==>
      && r.q.readable + r.q.writable + |r.readers| + |r.writers| + r.lostReads + r.lostWrites == r.q.Capacity()
      && Holds(r.q.ring, r.d) && |r.d| == r.q.readable + |r.readers| + r.lostReads
      && (r.q.readable > 0 ==> Waiters(r.k, r.rl) == []) && (r.q.writable > 0 ==> Waiters(r.k, r.wl) == [])
      && (DeleteRet(r.q, Waiters(r.k, r.rl), Waiters(r.k, r.wl)) == Ok ==> r.c.granted == {})
  {
    if QueueRun(s, es, r) {
      RunKeepsQueue(s, es, r);
      DeleteWaitsForGrants(r);
    }
  }

  lemma {:induction false} RunKeepsQueue(s: System, es: seq<Step>, r: System)
    requires QueueInv(s) && QueueRun(s, es, r)
    ensures QueueInv(r) && r.lostReads >= s.lostReads && r.lostWrites >= s.lostWrites
    decreases |es|
  {
    hide QueueInv, QueueNext, QueueEnabled;
    if es != [] {
      QueueKeeps(s, es[0]);
      LostStays(s, es[0]);
      RunKeepsQueue(QueueNext(s, es[0]), es[1..], r);
    }
  }

  lemma {:induction false} LostStays(s: System, e: Step)
    requires QueueInv(s) && QueueEnabled(s, e)
    ensures var r := QueueNext(s, e); r.lostReads >= s.lostReads && r.lostWrites >= s.lostWrites
  {
    hide CallsOk, Next, Operate, DequeOperate, AfterForeign, Balance, OpsOk, Holds;
  }

  /** A task that is deleted after it was handed a slot and before it used it takes the slot with it,
      and the queue can never be deleted again. */
  lemma {:induction false} DeletionLosesSlot(s: System, t: nat, es: seq<Step>, r: System)
    requires QueueInv(s) && t in s.c.granted
    ensures QueueEnabled(s, Other(ExitTask(t)))
    ensures var m := QueueNext(s, Other(ExitTask(t)));
      && QueueInv(m) && m.lostReads + m.lostWrites == s.lostReads + s.lostWrites + 1
      && (QueueRun(m, es, r) ==> DeleteRet(r.q, Waiters(r.k, r.rl), Waiters(r.k, r.wl)) != Ok)
  {
    CanDelete(s.k, s.Own(), s.c, t);
    OtherKeeps(s, ExitTask(t));
    var m := QueueNext(s, Other(ExitTask(t)));
    assert t in s.readers <==> t !in s.writers;
    if QueueRun(m, es, r) {
      RunKeepsQueue(m, es, r);
      DeleteWaitsForGrants(r);
    }
    hide CallsOk, Next, AfterForeign, Balance, OpsOk, Holds, QueueRun;
  }
}

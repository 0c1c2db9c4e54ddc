/** Time slices: who is charged, when, and what a task gets back. */
module Slices {
  import opened Basics
  import opened TickTimer
  import opened Queues
  import SortLinks
  import opened Sched
  import opened Machine
  import opened Frames
  import opened RoundRobin

  /** What is left of a task's slice now. */
  function Rest(k: Kernel, t: nat): (s: int)
    requires t < |k.tasks|
  {
    if t == k.run then SliceLeft(k) else k.tasks[t].timeSlice
  }

  predicate Word(n: int) { -0x8000_0000 <= n < 0x8000_0000 }

  /** Slices are 32-bit words. */
  ghost predicate Words(k: Kernel) {
    Word(k.cfg.slice) && forall t :: 0 <= t < |k.tasks| ==> Word(k.tasks[t].timeSlice)
  }

  /** A task that is put into a ready queue: one that becomes READY, or the running task when a switch puts
      it away unblocked. */
  ghost predicate EntersQueue(k: Kernel, e: Step, r: Kernel, t: nat)
    requires t < |k.tasks| && t < |r.tasks|
  {
    || (!k.tasks[t].ready && r.tasks[t].ready)
    || (e.Switch? && t == k.run && !k.tasks[t].Blocked() && !k.tasks[t].Timed())
  }

  /** What a step leaves of the slice of `t`. */
  ghost function RestAfter(k: Kernel, e: Step, r: Kernel, t: nat): (s: int)
    requires t < |k.tasks| && t < |r.tasks|
  {
    if e.Elapse? && t == k.run then Int32(Rest(k, t) - e.cycles)
    else if e.Yield? && t == k.run then Int32(0 - Int32(k.now - k.tasks[t].startTime))
    else if (e.Create? || e.Recycle?) && e.t == t then 0
    else if EntersQueue(k, e, r, t) && Rest(k, t) <= k.cfg.sliceMin then k.cfg.slice
    else Rest(k, t)
  }

  // ------------------------------------------------------------ 32-bit arithmetic

  lemma {:induction false} WordIs(n: int)
    ensures Word(Int32(n)) && (Word(n) ==> Int32(n) == n)
  {
  }

  lemma {:induction false} Congruent(n: int)
    ensures Int32(n) % U32 == n % U32
  {
  }

  lemma {:induction false} SameWord(a: int, b: int)
    requires a % U32 == b % U32
    ensures Int32(a) == Int32(b)
  {
  }

  lemma {:induction false} ModMinus(a: int, b: int, c: int, d: int)
    requires a % U32 == c % U32 && b % U32 == d % U32
    ensures (a - b) % U32 == (c - d) % U32
  {
  }

  /** Taking off two times one after the other, in 32 bits, is taking off both at once. */
  lemma {:induction false} TakeTwice(a: int, b: int, c: int)
    ensures Int32(Int32(a - Int32(b)) - c) == Int32(a - Int32(b + c))
  {
    hide Int32;
    Congruent(b);
    Congruent(b + c);
    Congruent(a - Int32(b));
    ModMinus(a, Int32(b), a, b);
    ModMinus(Int32(a - Int32(b)), c, a - b, c);
    ModMinus(a, Int32(b + c), a, b + c);
    SameWord(Int32(a - Int32(b)) - c, a - Int32(b + c));
  }

  lemma {:induction false} JustStarted(k: Kernel)
    requires k.run < |k.tasks| && k.tasks[k.run].startTime == k.now && Word(k.tasks[k.run].timeSlice)
    ensures SliceLeft(k) == k.tasks[k.run].timeSlice
  {
  }

  // ------------------------------------------------------------ steps on one task

  lemma {:induction false} EffectSlice(k: Kernel, t: nat, e: Step)
    requires Inv(k) && Enabled(k, e) && t < |k.tasks| && Actor(k, e) == Some(t) && t != k.idle
    ensures var x := k.tasks[t]; var y := Effect(k, t, e).x;
      && (e.Create? || e.Recycle? ==> t != k.run && y.timeSlice == 0 && !y.ready)
      && (e.Yield? ==> t == k.run && y.timeSlice == 0 && y.startTime == x.startTime)
      && (!e.Create? && !e.Recycle? && !e.Yield? ==>
            && y.startTime == x.startTime && (y.ready && !x.ready ==> t != k.run)
            && y.timeSlice == if y.ready && !x.ready && x.timeSlice <= k.cfg.sliceMin then k.cfg.slice else x.timeSlice)
  {
    hide QueuesOk, SortLinks.Valid;
    assert TaskOk(k, t);
  }

  lemma {:induction false} ActorRest(k: Kernel, e: Step, t: nat)
    requires Inv(k) && Enabled(k, e) && Actor(k, e).Some? && t < |k.tasks| && t != k.idle
    ensures t < |Next(k, e).tasks| && Rest(Next(k, e), t) == RestAfter(k, e, Next(k, e), t)
  {
    hide Inv, Effect, Enabled, Next, Int32;
    ActorFrame(k, e, t);
    if Actor(k, e) == Some(t) {
      EffectSlice(k, t, e);
    }
  }

  lemma {:induction false} ActorFrame(k: Kernel, e: Step, t: nat)
    requires Inv(k) && Enabled(k, e) && Actor(k, e).Some? && t < |k.tasks|
    ensures var r := Next(k, e);
      && |r.tasks| == |k.tasks| && r.run == k.run && r.now == k.now
      && r.tasks[t] == (if Actor(k, e) == Some(t) then Effect(k, t, e).x else k.tasks[t])
      && (k.run < |k.tasks| ==> r.tasks[k.run] == if Actor(k, e) == Some(k.run) then Effect(k, k.run, e).x else k.tasks[k.run])
  {
    hide Inv, Effect, Enabled, Next;
    NextIsEffect(k, e);
  }

  // ------------------------------------------------------------ ticks

  lemma {:induction false} ScanOneSlice(k: Kernel)
    requires Inv(k) && k.s.order != []
    ensures k.s.order[0] < |k.tasks|
    ensures var h := k.s.order[0]; var x := k.tasks[h]; var y := ScanOne(k).tasks[h];
      && y.timeSlice == (if !x.suspend && h != k.idle && x.timeSlice <= k.cfg.sliceMin then k.cfg.slice else x.timeSlice)
      && y.startTime == x.startTime && h != k.run && h != k.idle
  {
    var h := k.s.order[0];
    assert h in k.s.order;
    assert TaskOk(k, h);
    hide QueuesOk, SortLinks.Valid;
  }

  /** A scan refills the slices of exactly the tasks it readies that have none left. */
  lemma {:induction false} ScanSlice(k: Kernel, t: nat)
    requires Inv(k) && t < |k.tasks|
    ensures var x := k.tasks[t]; var y := Scan(k).tasks[t];
      && y.startTime == x.startTime
      && y.timeSlice == if Due(k, t) && !x.suspend && x.timeSlice <= k.cfg.sliceMin then k.cfg.slice else x.timeSlice
    decreases |k.s.order|
  {
    if k.s.order != [] && SortLinks.DueOf(k.s.due, k.s.order[0]) <= k.now {
      var h := k.s.order[0];
      assert h in k.s.order && Due(k, h);
      ScanOneKeeps(k);
      ScanOneEffect(k);
      ScanOneSlice(k);
      var m := ScanOne(k);
      hide QueuesOk, SortLinks.Valid, ScanOne;
      ScanSlice(m, t);
      if t == h {
        assert !Due(m, t);
      } else {
        assert SameTask(k, m, t) && Due(m, t) == Due(k, t);
      }
    } else {
      NothingDue(k, t);
    }
  }

  lemma {:induction false} NothingDue(k: Kernel, t: nat)
    requires Inv(k) && t < |k.tasks| && (k.s.order == [] || SortLinks.DueOf(k.s.due, k.s.order[0]) > k.now)
    ensures !Due(k, t)
  {
    assert forall i :: 0 <= i < |k.s.order| ==> SortLinks.DueOf(k.s.due, k.s.order[i]) > k.now;
  }

  lemma {:induction false} DueStatus(k: Kernel, t: nat)
    requires Inv(k) && t < |k.tasks| && Due(k, t)
    ensures t != k.run && t != k.idle && !k.tasks[t].ready
  {
    assert TaskOk(k, t);
  }

  /** A tick charges the running task and does nothing else to a task that is not due. */
  lemma {:induction false} TickBlock(k: Kernel, e: Step, t: nat)
    requires Inv(k) && e.TickInterrupt? && Enabled(k, e) && t < |k.tasks|
    ensures t < |Next(k, e).tasks| && Next(k, e).run == k.run && Next(k, e).now == k.now
    ensures Next(k, e).timers == if k.tick.owner.None? then e.timers else k.timers
    ensures var m := if k.tick.owner.None? then Scan(k) else k;
      Next(k, e).tasks[t] == if t == k.run then SliceUpdate(m.tasks[t], k.now, t == k.idle) else m.tasks[t]
  {
    hide QueuesOk, SortLinks.Valid, Scan, UpdateExpire;
  }

  lemma {:induction false} TickRest(k: Kernel, e: Step, t: nat)
    requires Inv(k) && e.TickInterrupt? && Enabled(k, e) && t < |k.tasks| && t != k.idle
    ensures t < |Next(k, e).tasks| && Rest(Next(k, e), t) == RestAfter(k, e, Next(k, e), t)
  {
    hide Inv, Scan, Due, Next, Enabled;
    TickBlock(k, e, t);
    if k.tick.owner.None? {
      ScanSlice(k, t);
      ScanExact(k);
      assert if Due(k, t) then TimedOut(k, Scan(k), t) else SameTask(k, Scan(k), t);
      if Due(k, t) {
        DueStatus(k, t);
      }
    }
  }

  // ------------------------------------------------------------ switches

  lemma {:induction false} LeaveRest(k: Kernel)
    requires Inv(k) && DeadlineFits(k) && k.run != k.idle
    ensures var x := k.tasks[k.run]; var y := Leave(k).tasks[k.run];
      y.timeSlice == if !x.Blocked() && !x.Timed() && SliceLeft(k) <= k.cfg.sliceMin then k.cfg.slice else SliceLeft(k)
  {
    hide QueuesOk, SortLinks.Valid;
    assert TaskOk(k, k.run);
  }

  lemma {:induction false} EnterRest(k: Kernel, t: nat)
    requires Between(k) && t < |k.tasks|
    ensures var r := Enter(k);
      && r.tasks[t].timeSlice == k.tasks[t].timeSlice && r.tasks[r.run].startTime == r.now
      && (r.tasks[t].ready ==> k.tasks[t].ready)
  {
    EnterOk(k);
    hide QueuesOk, SortLinks.Valid, Between, Top;
  }

  lemma {:induction false} SwitchBlock(k: Kernel, cap: nat, t: nat)
    requires Inv(k) && DeadlineFits(k) && t < |k.tasks| && t != k.idle
    ensures var r := SwitchTask(k, cap);
      && t < |r.tasks| && r.run < |r.tasks| && r.now == k.now && r.tasks[r.run].startTime == r.now
      && (t != k.run ==> r.tasks[t].timeSlice == k.tasks[t].timeSlice && (r.tasks[t].ready ==> k.tasks[t].ready))
      && (t == k.run ==>
            var x := k.tasks[t];
            r.tasks[t].timeSlice == if !x.Blocked() && !x.Timed() && SliceLeft(k) <= k.cfg.sliceMin then k.cfg.slice else SliceLeft(k))
  {
    LeaveFrame(k);
    EnterRest(Leave(k), t);
    if t == k.run {
      LeaveRest(k);
    }
    hide Inv, Leave, Enter, Between, SliceLeft;
  }

  /** A task that a switch readies was running unblocked. */
  lemma {:induction false} SwitchReadies(k: Kernel, cap: nat)
    requires Inv(k) && DeadlineFits(k) && k.run != k.idle
    ensures var r := SwitchTask(k, cap);
      k.run < |r.tasks| && (r.tasks[k.run].ready ==> !k.tasks[k.run].Blocked() && !k.tasks[k.run].Timed())
  {
    EnterRest(Leave(k), k.run);
    hide QueuesOk, SortLinks.Valid, Enter;
    assert TaskOk(k, k.run);
  }

  lemma {:induction false} SwitchRest(k: Kernel, e: Step, t: nat)
    requires Inv(k) && e.Switch? && Enabled(k, e) && t < |k.tasks| && t != k.idle && Words(k)
    ensures t < |Next(k, e).tasks| && Rest(Next(k, e), t) == RestAfter(k, e, Next(k, e), t)
  {
    hide Inv, SwitchTask, SliceLeft, DeadlineFits, Next, Enabled, RestAfter, Word;
    SwitchStep(k, e);
    SwitchBlock(k, e.cap, t);
    SwitchWord(k, e.cap, t);
    var r := SwitchTask(k, e.cap);
    if t == r.run {
      JustStarted(r);
    }
    SwitchRefills(k, e, t);
  }

  lemma {:induction false} SwitchRefills(k: Kernel, e: Step, t: nat)
    requires Inv(k) && e.Switch? && DeadlineFits(k) && t < |k.tasks| && t != k.idle
    ensures var r := SwitchTask(k, e.cap); t < |r.tasks| && r.tasks[t].timeSlice == RestAfter(k, e, r, t)
  {
    hide Inv, SwitchTask, SliceLeft, DeadlineFits, EntersQueue;
    SwitchBlock(k, e.cap, t);
    SwitchEnters(k, e, t);
  }

  lemma {:induction false} SwitchEnters(k: Kernel, e: Step, t: nat)
    requires Inv(k) && e.Switch? && DeadlineFits(k) && t < |k.tasks| && t != k.idle
    ensures var r := SwitchTask(k, e.cap);
      t < |r.tasks| && (EntersQueue(k, e, r, t) <==> t == k.run && !k.tasks[t].Blocked() && !k.tasks[t].Timed())
  {
    hide Inv, SwitchTask, SliceLeft, DeadlineFits;
    SwitchBlock(k, e.cap, t);
    if t == k.run {
      SwitchReadies(k, e.cap);
    }
  }

  lemma {:induction false} LeftIsWord(k: Kernel)
    requires k.run < |k.tasks|
    ensures Word(SliceLeft(k))
  {
  }

  // ------------------------------------------------------------ every step

  /** The slice of every task but idle, exactly: the running task is charged the time that passes and a tick
      or a switch charges it no more; a yield gives the slice up; a task is refilled exactly when it enters a
      ready queue with no more than the shortest slice left. */
  lemma {:induction false} RestExactly(k: Kernel, e: Step, t: nat)
    requires Inv(k) && Enabled(k, e) && t < |k.tasks| && t != k.idle && Words(k)
    ensures t < |Next(k, e).tasks| && Rest(Next(k, e), t) == RestAfter(k, e, Next(k, e), t)
  {
    hide Inv, Enabled, Next, Rest, RestAfter;
    if Actor(k, e).Some? {
      ActorRest(k, e, t);
    } else if e.TickInterrupt? {
      TickRest(k, e, t);
    } else if e.Switch? {
      SwitchRest(k, e, t);
    } else {
      QuietRest(k, e, t);
    }
  }

  lemma {:induction false} QuietRest(k: Kernel, e: Step, t: nat)
    requires Inv(k) && Enabled(k, e) && (e.Elapse? || e.TimerStart? || e.TimerStop?) && t < |k.tasks|
    ensures t < |Next(k, e).tasks| && Rest(Next(k, e), t) == RestAfter(k, e, Next(k, e), t)
  {
    hide Inv, UpdateExpire, Int32;
    if e.Elapse? && t == k.run {
      var x := k.tasks[t];
      TakeTwice(x.timeSlice, k.now - x.startTime, e.cycles);
      assert k.now - x.startTime + e.cycles == k.now + e.cycles - x.startTime;
    }
  }

  // ------------------------------------------------------------ slices stay words

  lemma {:induction false} ActorWord(k: Kernel, e: Step, t: nat)
    requires Inv(k) && Enabled(k, e) && Actor(k, e).Some? && t < |k.tasks| && Words(k)
    ensures |Next(k, e).tasks| == |k.tasks| && Word(Next(k, e).tasks[t].timeSlice)
  {
    hide Inv, Effect, Enabled, Next;
    ActorFrame(k, e, t);
    if Actor(k, e) == Some(t) {
      ActorNotIdle(k, e);
      EffectSlice(k, t, e);
    }
  }

  lemma {:induction false} ActorNotIdle(k: Kernel, e: Step)
    requires Inv(k) && Enabled(k, e) && Actor(k, e).Some?
    ensures Actor(k, e).value < |k.tasks| && Actor(k, e).value != k.idle
  {
    hide QueuesOk, SortLinks.Valid;
    assert TaskOk(k, k.idle);
  }

  lemma {:induction false} TickWord(k: Kernel, e: Step, t: nat)
    requires Inv(k) && Enabled(k, e) && e.TickInterrupt? && t < |k.tasks| && Words(k)
    ensures t < |Next(k, e).tasks| && Word(Next(k, e).tasks[t].timeSlice)
  {
    hide Inv, Scan, Due, Next, Enabled;
    TickBlock(k, e, t);
    if k.tick.owner.None? {
      ScanSlice(k, t);
    }
  }

  lemma {:induction false} SwitchWord(k: Kernel, cap: nat, t: nat)
    requires Inv(k) && DeadlineFits(k) && t < |k.tasks| && Words(k)
    ensures t < |SwitchTask(k, cap).tasks| && Word(SwitchTask(k, cap).tasks[t].timeSlice)
  {
    if t != k.idle {
      SwitchBlock(k, cap, t);
      LeftIsWord(k);
    } else {
      LeaveFrame(k);
      EnterRest(Leave(k), t);
      IdleLeaves(k);
    }
    hide Inv, SwitchTask, SliceLeft, DeadlineFits, Leave, Enter, Between;
    assert SwitchTask(k, cap).tasks == Enter(Leave(k)).tasks by { SwitchTasks(k, cap); }
  }

  lemma {:induction false} SwitchTasks(k: Kernel, cap: nat)
    requires Inv(k) && DeadlineFits(k)
    ensures SwitchTask(k, cap).tasks == Enter(Leave(k)).tasks
  {
  }

  /** The idle task has no slice to charge. */
  lemma {:induction false} IdleLeaves(k: Kernel)
    requires Inv(k) && DeadlineFits(k)
    ensures Leave(k).tasks[k.idle].timeSlice == k.tasks[k.idle].timeSlice
  {
    hide QueuesOk, SortLinks.Valid;
    assert TaskOk(k, k.run);
  }

  /** Every step keeps slices 32-bit words. */
  lemma {:induction false} WordsKeeps(k: Kernel, e: Step)
    requires Inv(k) && Enabled(k, e) && Words(k)
    ensures Words(Next(k, e))
  {
    var r := Next(k, e);
    forall t: nat | t < |r.tasks| ensures |r.tasks| == |k.tasks| && r.cfg == k.cfg && Word(r.tasks[t].timeSlice) {
      NextSize(k, e);
      if Actor(k, e).Some? {
        ActorWord(k, e, t);
      } else if e.TickInterrupt? {
        TickWord(k, e, t);
      } else if e.Switch? {
        SwitchWord(k, e.cap, t);
      }
    }
    NextSize(k, e);
    hide Inv, Next, Enabled;
  }

  /** So on every run from boot, if a full slice is one. */
  lemma {:induction false} WordsOnRuns(cfg: Config, n: nat, idle: nat, waits: set<nat>, now: nat, cap: nat, es: seq<Step>, r: Kernel)
    requires cfg.Valid() && idle < n && Word(cfg.slice)
    ensures Inv(Boot(cfg, n, idle, waits, now, cap))
    ensures Run(Boot(cfg, n, idle, waits, now, cap), es, r) ==> Words(r)
  {
    var k := Boot(cfg, n, idle, waits, now, cap);
    Safety(cfg, n, idle, waits, now, cap, es, r);
    assert Words(k);
    hide Boot;
    if Run(k, es, r) {
      WordsRun(k, es, r);
    }
  }

  lemma {:induction false} WordsRun(k: Kernel, es: seq<Step>, r: Kernel)
    requires Inv(k) && Words(k) && Run(k, es, r)
    ensures Words(r)
    decreases |es|
  {
    hide Inv, Words, Enabled, Next;
    if es != [] {
      NextKeeps(k, es[0]);
      WordsKeeps(k, es[0]);
      WordsRun(Next(k, es[0]), es[1..], r);
    }
  }

  // ------------------------------------------------------------ runs

  /** How long task `t` runs during a run. */
  ghost function RunTime(k: Kernel, es: seq<Step>, r: Kernel, t: nat): (n: nat)
    requires Inv(k) && Run(k, es, r)
    decreases |es|
  {
    if es == [] then 0
    else
      NextKeeps(k, es[0]);
      (if es[0].Elapse? && k.run == t then es[0].cycles else 0) + RunTime(Next(k, es[0]), es[1..], r, t)
  }

  /** `t` neither gives its slice up nor gets a new one. */
  ghost predicate KeepsSlice(k: Kernel, e: Step, t: nat)
    requires Inv(k) && Enabled(k, e) && t < |k.tasks|
  {
    && !(e.Yield? && t == k.run) && !((e.Create? || e.Recycle?) && e.t == t)
    && t < |Next(k, e).tasks| && !(EntersQueue(k, e, Next(k, e), t) && Rest(k, t) <= k.cfg.sliceMin)
  }

  ghost predicate Steady(k: Kernel, es: seq<Step>, r: Kernel, t: nat)
    requires Inv(k) && Run(k, es, r) && t < |k.tasks|
    decreases |es|
  {
    es == [] || (KeepsSlice(k, es[0], t) && (NextKeeps(k, es[0]); Steady(Next(k, es[0]), es[1..], r, t)))
  }

  /** On every run, whoever else runs and however often the task is ticked, switched away and resumed: a task
      is charged exactly the time it runs, as long as 32 bits suffice. */
  lemma {:induction false} SliceSpent(k: Kernel, es: seq<Step>, r: Kernel, t: nat)
    requires Inv(k) && Run(k, es, r) && t < |k.tasks| && t != k.idle && Words(k) && Steady(k, es, r, t)
    requires Rest(k, t) - RunTime(k, es, r, t) >= -0x8000_0000
    ensures t < |r.tasks| && Rest(r, t) == Rest(k, t) - RunTime(k, es, r, t)
    decreases |es|
  {
    if es != [] {
      var e := es[0];
      var n := Next(k, e);
      NextKeeps(k, e);
      NextSize(k, e);
      WordsKeeps(k, e);
      RestExactly(k, e, t);
      RestIsWord(k, t);
      hide Inv, Enabled, Next, Rest, Words, Int32;
      RestOf(k, e, t);
      SliceSpent(n, es[1..], r, t);
    }
  }

  lemma {:induction false} RestIsWord(k: Kernel, t: nat)
    requires Words(k) && t < |k.tasks|
    ensures Word(Rest(k, t))
  {
  }

  lemma {:induction false} RestOf(k: Kernel, e: Step, t: nat)
    requires Inv(k) && Enabled(k, e) && t < |k.tasks| && KeepsSlice(k, e, t) && Word(Rest(k, t))
    ensures RestAfter(k, e, Next(k, e), t) ==
              if e.Elapse? && t == k.run then Int32(Rest(k, t) - e.cycles) else Rest(k, t)
    ensures e.Elapse? && t == k.run && Rest(k, t) - e.cycles >= -0x8000_0000 ==>
              Int32(Rest(k, t) - e.cycles) == Rest(k, t) - e.cycles
  {
    hide Inv, Next, Enabled, Rest;
    if e.Elapse? {
      WordIs(Rest(k, t) - e.cycles);
    }
  }
}

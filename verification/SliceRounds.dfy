/** Rounds end when their slices do, and where a task joins its queue. */
module SliceRounds {
  import opened Basics
  import opened Lists
  import opened Queues
  import SortLinks
  import opened Sched
  import opened Machine
  import opened Frames
  import opened RoundRobin
  import opened Turns
  import opened Slices

  // ------------------------------------------------------------ using up a slice

  function Elapsed(es: seq<Step>): (n: nat) {
    if es == [] then 0 else (if es[0].Elapse? then es[0].cycles else 0) + Elapsed(es[1..])
  }

  /** In a calm run all time is the running task's. */
  lemma {:induction false} CalmTime(k: Kernel, es: seq<Step>, m: Kernel)
    requires InTurn(k) && Calm(k, es, m)
    ensures Run(k, es, m) && RunTime(k, es, m, k.run) == Elapsed(es)
    decreases |es|
  {
    CalmStays(k, es, m);
    if es != [] {
      StaysExactly(k, es[0]);
      var n := Next(k, es[0]);
      assert n.run == Ring(n)[0] == k.run;
      hide InTurn, Enabled, Undisturbed, Next, Ring;
      CalmTime(n, es[1..], m);
    }
  }

  /** A calm run in which the task neither yields nor gets a new slice is one leg of a round exactly if the
      time that passes brings the slice down to the shortest one, however many ticks and switches there are. */
  lemma {:induction false} UseExactly(k: Kernel, es: seq<Step>, m: Kernel)
    requires InTurn(k) && Calm(k, es, m) && Words(k)
    ensures Run(k, es, m)
    ensures Steady(k, es, m, k.run) && SliceLeft(k) - Elapsed(es) >= -0x8000_0000 ==>
              && InTurn(m) && SliceLeft(m) == SliceLeft(k) - Elapsed(es)
              && (Use(k, es, m) <==> SliceLeft(k) - Elapsed(es) <= k.cfg.sliceMin)
  {
    CalmTime(k, es, m);
    CalmStays(k, es, m);
    CalmUse(k, es, m);
    SameConfig(k, es, m);
    assert m.run == Ring(m)[0] == k.run;
    hide Inv, MostUrgent, Executing, Run, Calm, SliceLeft, Ring;
    if Steady(k, es, m, k.run) && SliceLeft(k) - Elapsed(es) >= -0x8000_0000 {
      SliceSpent(k, es, m, k.run);
    }
  }

  lemma {:induction false} SameConfig(k: Kernel, es: seq<Step>, m: Kernel)
    requires Inv(k) && Run(k, es, m)
    ensures m.cfg == k.cfg
    decreases |es|
  {
    if es != [] {
      NextKeeps(k, es[0]);
      NextSize(k, es[0]);
      hide Inv, Next, Enabled;
      SameConfig(Next(k, es[0]), es[1..], m);
    }
  }

  // ------------------------------------------------------------ yielding

  /** A yield and the switch behind it move the round on by one, exactly if the time since the start is not
      taken for a negative number of more than the shortest slice. */
  lemma {:induction false} YieldRotates(k: Kernel, cap: nat)
    requires InTurn(k)
    ensures Enabled(k, Yield)
    ensures var y := Next(k, Yield); var ran := Int32(k.now - k.tasks[k.run].startTime);
      && InTurn(y) && Ring(y) == Ring(k) && Enabled(y, Switch(cap))
      && (SliceLeft(y) <= k.cfg.sliceMin <==> ran >= -k.cfg.sliceMin || ran == -0x8000_0000)
      && (k.now - k.tasks[k.run].startTime < 0x8000_0000 ==>
            var r := Next(y, Switch(cap)); InTurn(r) && Ring(r) == Ring(k)[1..] + [Ring(k)[0]])
  {
    hide Inv, MostUrgent, SwitchTask, Ring, DeadlineFits, SliceLeft, Int32, Next;
    YieldStays(k);
    YieldLeft(k);
    var y := Next(k, Yield);
    SwitchStep(y, Switch(cap));
    if k.now - k.tasks[k.run].startTime < 0x8000_0000 {
      TurnRotates(y, cap);
    }
  }

  lemma {:induction false} YieldStays(k: Kernel)
    requires InTurn(k)
    ensures Enabled(k, Yield)
    ensures var y := Next(k, Yield); InTurn(y) && Ring(y) == Ring(k) && Inv(y) && DeadlineFits(y)
  {
    hide Inv, MostUrgent, Next, Ring;
    RunnerStays(k, Yield);
  }

  lemma {:induction false} YieldLeft(k: Kernel)
    requires InTurn(k)
    ensures Enabled(k, Yield)
    ensures var y := Next(k, Yield); var ran := Int32(k.now - k.tasks[k.run].startTime);
      && y.run == k.run && y.cfg == k.cfg && y.run < |y.tasks|
      && (SliceLeft(y) <= k.cfg.sliceMin <==> ran >= -k.cfg.sliceMin || ran == -0x8000_0000)
      && (k.now - k.tasks[k.run].startTime < 0x8000_0000 ==> SliceLeft(y) <= k.cfg.sliceMin)
  {
    hide QueuesOk, SortLinks.Valid;
    var y := Next(k, Yield);
    var ran := Int32(k.now - k.tasks[k.run].startTime);
    assert SliceLeft(y) == Int32(0 - ran);
    assert ran == -0x8000_0000 ==> Int32(0 - ran) == -0x8000_0000;
  }

  // ------------------------------------------------------------ joining a queue

  /** A task with more than the shortest slice left goes in front of its queue, one without behind it. */
  ghost predicate Joined(was: seq<nat>, now: seq<nat>, t: nat, rest: int, sliceMin: int) {
    now == if rest > sliceMin then [t] + was else was + [t]
  }

  /** So does every task that a step readies or moves to another priority. */
  lemma {:induction false} JoinsQueue(k: Kernel, e: Step, t: nat)
    requires Inv(k) && Enabled(k, e) && Actor(k, e) == Some(t) && t < |k.tasks| && t != k.idle
    requires e.WakeUp? || e.ResumeTask? || e.ChangePriority?
    ensures var r := Next(k, e);
      && t < |r.tasks|
      && (r.tasks[t].ready ==>
            var l := ReadyQ(r.tasks[t].priority);
            l in k.q.lists && l in r.q.lists && Joined(Without(k.q.lists[l], t), r.q.lists[l], t, k.tasks[t].timeSlice, k.cfg.sliceMin))
  {
    hide SortLinks.Valid;
    assert TaskOk(k, t);
  }

  /** And every task that a scan readies. */
  lemma {:induction false} ExpiredJoins(k: Kernel)
    requires Inv(k) && k.s.order != []
    ensures var h := k.s.order[0]; var r := ScanOne(k);
      && h < |k.tasks|
      && var l := ReadyQ(k.tasks[h].priority);
      && l in k.q.lists && l in r.q.lists
      && if k.tasks[h].suspend then r.q.lists[l] == k.q.lists[l]
         else Joined(k.q.lists[l], r.q.lists[l], h, k.tasks[h].timeSlice, k.cfg.sliceMin)
  {
    var h := k.s.order[0];
    assert h in k.s.order;
    assert TaskOk(k, h);
    hide Membership, SortLinks.Valid;
  }
}

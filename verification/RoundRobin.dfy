/** Which task runs next among equals. */
module RoundRobin {
  import opened Lists
  import opened Basics
  import opened Queues
  import SortLinks
  import opened Sched
  import opened Machine
  import opened Frames
  import TimeArith

  /** No ready task is more urgent than the running one. */
  ghost predicate MostUrgent(k: Kernel) {
    && k.run < |k.tasks|
    && forall t :: 0 <= t < |k.tasks| && t != k.idle && k.tasks[t].ready ==> k.tasks[k.run].priority <= k.tasks[t].priority
  }

  function SliceLeft(k: Kernel): (s: int)
    requires k.run < |k.tasks|
  {
    Int32(k.tasks[k.run].timeSlice - Int32(k.now - k.tasks[k.run].startTime))
  }

  /** The tasks queued at the running task's priority. */
  function Mates(k: Kernel): (s: seq<nat>) {
    if k.run < |k.tasks| && ReadyQ(k.tasks[k.run].priority) in k.q.lists then k.q.lists[ReadyQ(k.tasks[k.run].priority)]
    else []
  }

  /** Putting an executing task away queues it among its equals: in front of them with slice
      left, behind them without. */
  lemma {:induction false} LeaveQueue(k: Kernel)
    requires Inv(k) && Executing(k)
    ensures DeadlineFits(k)
    ensures var l := ReadyQ(k.tasks[k.run].priority); var m := Leave(k);
      && l in k.q.lists
      && m.q.lists == k.q.lists[l := if SliceLeft(k) > k.cfg.sliceMin then [k.run] + Mates(k) else Mates(k) + [k.run]]
      && m.tasks[k.run].priority == k.tasks[k.run].priority
      && m.tasks[k.run].timeSlice == if SliceLeft(k) > k.cfg.sliceMin then SliceLeft(k) else k.cfg.slice
  {
    assert TaskOk(k, k.run);
  }

  lemma {:induction false} MoreUrgentEmpty(k: Kernel, r: nat)
    requires Inv(k) && MostUrgent(k) && r < k.tasks[k.run].priority
    ensures k.q.lists[ReadyQ(r)] == []
  {
    if k.q.lists[ReadyQ(r)] != [] {
      HeadIsReady(k, r);
    }
  }

  lemma {:induction false} HeadIsReady(k: Kernel, p: nat)
    requires Inv(k) && p < PRIORITIES && k.q.lists[ReadyQ(p)] != []
    ensures var t := k.q.lists[ReadyQ(p)][0];
      t < |k.tasks| && t != k.idle && k.tasks[t].ready && k.tasks[t].priority == p
  {
    var t := k.q.lists[ReadyQ(p)][0];
    assert t in k.q.lists[ReadyQ(p)];
    assert TaskOk(k, t);
  }

  /** With nothing more urgent, the next task is the first of the queue the running task was put in. */
  lemma {:induction false} NextIsFirst(k: Kernel)
    requires Inv(k) && Executing(k) && MostUrgent(k)
    ensures DeadlineFits(k) && ReadyQ(k.tasks[k.run].priority) in Leave(k).q.lists
    ensures var q := Leave(k).q.lists[ReadyQ(k.tasks[k.run].priority)];
      q != [] && Top(Leave(k).q, k.idle) == q[0]
  {
    hide SortLinks.Valid;
    var p := k.tasks[k.run].priority;
    var m := Leave(k);
    LeaveQueue(k);
    LeaveFrame(k);
    assert m.q.lists[ReadyQ(p)] != [];
    forall r | 0 <= r < p ensures r !in m.q.bitmap {
      assert m.q.lists[ReadyQ(r)] == k.q.lists[ReadyQ(r)];
      MoreUrgentEmpty(k, r);
    }
    assert Clz(m.q.bitmap, 0) == p;
  }

  /** The queue the running task's equals are in after a switch. */
  lemma {:induction false} EnterQueue(k: Kernel, p: nat)
    requires Between(k) && p < PRIORITIES
    requires k.q.lists[ReadyQ(p)] != [] && Top(k.q, k.idle) == k.q.lists[ReadyQ(p)][0]
    ensures Enter(k).run == k.q.lists[ReadyQ(p)][0] && Enter(k).q.lists == k.q.lists[ReadyQ(p) := k.q.lists[ReadyQ(p)][1..]]
    ensures Enter(k).run < |k.tasks| && k.tasks[Enter(k).run].priority == p && Enter(k).run != k.idle
    ensures Enter(k).tasks[Enter(k).run].priority == p
  {
    var s := k.q.lists[ReadyQ(p)];
    assert s[0] in s;
    TopIsReady(k);
    assert StatusOk(k.tasks[s[0]], k.q.links[s[0]], k.s.due[s[0]], false, s[0] == k.idle, k.cfg.sliceMin);
    assert Without(s, s[0]) == s[1..];
  }

  /** A running task with slice left and nothing more urgent ready is selected again, whatever is
      queued at its own priority, and no queue changes. */
  lemma {:induction false} KeepsRunning(k: Kernel, cap: nat)
    requires Inv(k) && Executing(k) && MostUrgent(k) && SliceLeft(k) > k.cfg.sliceMin
    ensures DeadlineFits(k)
    ensures SwitchTask(k, cap).run == k.run && SwitchTask(k, cap).q.lists == k.q.lists
  {
    hide QueuesOk, SortLinks.Valid;
    LeaveQueue(k);
    NextIsFirst(k);
    EnterQueue(Leave(k), k.tasks[k.run].priority);
    assert ([k.run] + Mates(k))[1..] == Mates(k);
  }

  // ------------------------------------------------------------ turns

  /** The running task followed by its equals in queue order. */
  function Ring(k: Kernel): (r: seq<nat>)
    ensures r != [] && r[0] == k.run
  {
    [k.run] + Mates(k)
  }

  ghost predicate InTurn(k: Kernel) {
    && Inv(k) && Executing(k) && MostUrgent(k)
    && forall t :: t in Ring(k) ==> t < |k.tasks| && !k.tasks[t].exit
  }

  lemma {:induction false} RingMember(k: Kernel, t: nat)
    requires InTurn(k) && t in Ring(k)
    ensures t < |k.tasks| && !k.tasks[t].Blocked() && !k.tasks[t].Timed()
  {
    hide SortLinks.Valid;
    if t != k.run {
      assert t in Mates(k);
      assert TaskOk(k, t);
    }
  }

  lemma {:induction false} TurnRing(k: Kernel, cap: nat)
    requires InTurn(k) && SliceLeft(k) <= k.cfg.sliceMin
    ensures DeadlineFits(k)
    ensures var p := k.tasks[k.run].priority; var r := SwitchTask(k, cap);
      && r.run < |r.tasks| == |k.tasks| && r.run != r.idle && r.tasks[r.run].priority == p && k.tasks[r.run].priority == p
      && ReadyQ(p) in r.q.lists && Ring(r) == Ring(k)[1..] + [Ring(k)[0]]
  {
    var p := k.tasks[k.run].priority;
    LeaveQueue(k);
    NextIsFirst(k);
    EnterQueue(Leave(k), p);
    LeaveFrame(k);
    hide QueuesOk, SortLinks.Valid, Inv, Leave, Enter, Arm;
    var r := SwitchTask(k, cap);
    assert r.run == (Mates(k) + [k.run])[0];
    assert Mates(r) == (Mates(k) + [k.run])[1..];
  }

  /** After a used-up turn the ring has moved on by one: the first of the equals runs and the
      task that ran is last. */
  lemma {:induction false} TurnRotates(k: Kernel, cap: nat)
    requires InTurn(k) && SliceLeft(k) <= k.cfg.sliceMin
    ensures Inv(k) && DeadlineFits(k) && InTurn(SwitchTask(k, cap))
    ensures Ring(SwitchTask(k, cap)) == Ring(k)[1..] + [Ring(k)[0]]
  {
    hide QueuesOk, SortLinks.Valid, Inv, SwitchTask, MostUrgent, SliceLeft, DeadlineFits;
    TurnRing(k, cap);
    var r := SwitchTask(k, cap);
    SwitchFrame(k, cap);
    NextKeeps(k, Switch(cap));
    assert r.run == Ring(r)[0];
    RingMember(k, r.run);
    TurnUrgent(k, cap);
    assert forall t :: t in Ring(r) ==> t in Ring(k);
    assert Quiet(k.tasks[r.run], r.tasks[r.run]);
  }

  /** A task that is ready after a switch and did not run before it has not changed. */
  lemma {:induction false} ReadyUnchanged(k: Kernel, cap: nat, t: nat)
    requires Inv(k) && DeadlineFits(k) && t < |k.tasks| == |SwitchTask(k, cap).tasks| && t != k.run
    requires SwitchTask(k, cap).tasks[t].ready
    ensures SwitchTask(k, cap).tasks[t] == k.tasks[t]
  {
    LeaveFrame(k);
    EnterFrame(Leave(k));
    assert TaskOk(Enter(Leave(k)), t);
  }

  lemma {:induction false} TurnUrgent(k: Kernel, cap: nat)
    requires InTurn(k) && DeadlineFits(k)
    requires SwitchTask(k, cap).run < |k.tasks| && k.tasks[SwitchTask(k, cap).run].priority == k.tasks[k.run].priority
    ensures MostUrgent(SwitchTask(k, cap))
  {
    hide Inv, SwitchTask;
    var r := SwitchTask(k, cap);
    SwitchFrame(k, cap);
    assert r.idle == k.idle;
    assert Quiet(k.tasks[r.run], r.tasks[r.run]);
    forall t: nat | t < |r.tasks| && t != r.idle && r.tasks[t].ready
      ensures r.tasks[r.run].priority <= r.tasks[t].priority
    {
      if t == k.run {
        assert Quiet(k.tasks[t], r.tasks[t]);
      } else {
        ReadyUnchanged(k, cap, t);
      }
    }
  }

  // ------------------------------------------------------------ rounds

  /** Any run at whose end the same tasks are in turn, in the same order, and the slice is used up. */
  ghost predicate Use(k: Kernel, es: seq<Step>, m: Kernel)
    requires InTurn(k)
  {
    Run(k, es, m) && InTurn(m) && Ring(m) == Ring(k) && SliceLeft(m) <= m.cfg.sliceMin
  }

  /** A use, the state it leads to, and the switch there. */
  datatype Leg = Leg(use: seq<Step>, before: Kernel, cap: nat)

  ghost predicate Legs(k: Kernel, legs: seq<Leg>, r: Kernel)
    requires InTurn(k)
    decreases |legs|
  {
    if legs == [] then r == k
    else
      && Use(k, legs[0].use, legs[0].before)
      && (TurnRotates(legs[0].before, legs[0].cap); Legs(SwitchTask(legs[0].before, legs[0].cap), legs[1..], r))
  }

  function StepsOf(legs: seq<Leg>): (es: seq<Step>) {
    if legs == [] then [] else legs[0].use + [Switch(legs[0].cap)] + StepsOf(legs[1..])
  }

  lemma {:induction false} RunOne(k: Kernel, e: Step)
    requires Inv(k) && Enabled(k, e)
    ensures Inv(Next(k, e)) && Run(k, [e], Next(k, e))
  {
    NextKeeps(k, e);
    hide Inv, Next, Enabled;
  }

  lemma {:induction false} LegIsRun(k: Kernel, leg: Leg)
    requires InTurn(k) && Use(k, leg.use, leg.before)
    ensures DeadlineFits(leg.before)
    ensures var r := SwitchTask(leg.before, leg.cap); Run(k, leg.use + [Switch(leg.cap)], r) && InTurn(r)
  {
    hide MostUrgent, Executing, SwitchTask, DeadlineFits, Inv, Run, Ring;
    TurnRotates(leg.before, leg.cap);
    RunOne(leg.before, Switch(leg.cap));
    RunConcat(k, leg.use, leg.before, [Switch(leg.cap)], SwitchTask(leg.before, leg.cap));
  }

  /** Legs are runs of the machine. */
  lemma {:induction false} LegsAreRun(k: Kernel, legs: seq<Leg>, r: Kernel)
    requires InTurn(k) && Legs(k, legs, r)
    ensures Inv(r) && Run(k, StepsOf(legs), r)
    decreases |legs|
  {
    hide MostUrgent, Executing, SwitchTask, DeadlineFits, Inv, Run, Ring, SliceLeft;
    if legs == [] {
      EmptyRun(k);
    } else {
      var leg := legs[0];
      LegIsRun(k, leg);
      var n := SwitchTask(leg.before, leg.cap);
      LegsAreRun(n, legs[1..], r);
      RunConcat(k, leg.use + [Switch(leg.cap)], n, StepsOf(legs[1..]), r);
    }
  }

  lemma {:induction false} EmptyRun(k: Kernel)
    requires Inv(k)
    ensures Run(k, [], k)
  {
    hide Inv;
  }

  function Rotate(ring: seq<nat>, n: nat): (r: seq<nat>)
    requires ring != []
    ensures |r| == |ring|
    decreases n
  {
    if n == 0 then ring else Rotate(ring[1..] + [ring[0]], n - 1)
  }

  lemma {:induction false} RotateAt(ring: seq<nat>, n: nat, i: nat)
    requires i < |ring|
    ensures Rotate(ring, n)[i] == ring[(i + n) % |ring|]
    decreases n
  {
    if n > 0 {
      var next := ring[1..] + [ring[0]];
      RotateAt(next, n - 1, i);
      var j := (i + n - 1) % |ring|;
      assert next[j] == ring[if j + 1 == |ring| then 0 else j + 1];
      OneOn(i + n - 1, |ring|);
    }
  }

  lemma {:induction false} OneOn(a: nat, m: nat)
    requires m > 0
    ensures (a + 1) % m == if a % m + 1 == m then 0 else a % m + 1
  {
    var q, j := a / m, a % m;
    assert a == q * m + j;
    if j + 1 == m {
      assert (q + 1) * m == q * m + m;
      ModIs(a + 1, m, q + 1, 0);
    } else {
      ModIs(a + 1, m, q, j + 1);
    }
  }

  lemma {:induction false} ModIs(a: nat, m: nat, q: nat, j: nat)
    requires j < m && a == q * m + j
    ensures a % m == j
  {
    TimeArith.DivUnique(a, m, q);
    assert a == a / m * m + a % m;
  }

  lemma {:induction false} FirstLeg(k: Kernel, legs: seq<Leg>, r: Kernel)
    requires InTurn(k) && Legs(k, legs, r)
    ensures legs == [] ==> r == k
    ensures legs != [] ==>
      var leg := legs[0];
      && Inv(leg.before) && DeadlineFits(leg.before)
      && var n := SwitchTask(leg.before, leg.cap);
      && InTurn(n) && Ring(n) == Ring(k)[1..] + [Ring(k)[0]] && Legs(n, legs[1..], r)
  {
    hide InTurn, SwitchTask, Run, SliceLeft, Ring, DeadlineFits;
    if legs != [] {
      TurnRotates(legs[0].before, legs[0].cap);
    }
  }

  lemma {:induction false} LegsRotate(k: Kernel, legs: seq<Leg>, r: Kernel)
    requires InTurn(k) && Legs(k, legs, r)
    ensures InTurn(r) && Ring(r) == Rotate(Ring(k), |legs|)
    decreases |legs|
  {
    hide InTurn, SwitchTask, Ring, DeadlineFits, Legs;
    FirstLeg(k, legs, r);
    if legs != [] {
      LegsRotate(SwitchTask(legs[0].before, legs[0].cap), legs[1..], r);
    }
  }

  /** Round robin: whatever happens between the switches that leaves the ring as it is, the tasks of the
      top priority run one after the other in queue order, the `n`-th switch at a used-up slice brings the
      `n`-th of them, each exactly once a round, and after every round the queue is as it was. */
  lemma {:induction false} EachOnce(k: Kernel, legs: seq<Leg>, r: Kernel)
    requires InTurn(k) && Legs(k, legs, r)
    ensures NoDup(Ring(k)) && InTurn(r)
    ensures r.run == Ring(k)[|legs| % |Ring(k)|]
    ensures |legs| % |Ring(k)| == 0 ==> Ring(r) == Ring(k)
    ensures Run(k, StepsOf(legs), r)
  {
    hide Inv, Executing, MostUrgent, Legs, NoDup, Run;
    LegsAreRun(k, legs, r);
    LegsRotate(k, legs, r);
    var ring, n := Ring(k), |legs|;
    RotateAt(ring, n, 0);
    assert Ring(r)[0] == r.run;
    if n % |ring| == 0 {
      forall i: nat | i < |ring| ensures Ring(r)[i] == ring[i] {
        RotateAt(ring, n, i);
        WholeRounds(n, |ring|, i);
      }
    }
    RingNoDup(k);
  }

  lemma {:induction false} WholeRounds(n: nat, m: nat, i: nat)
    requires i < m && n % m == 0
    ensures (i + n) % m == i
  {
    assert n == n / m * m + n % m;
    ModIs(i + n, m, n / m, i);
  }

  lemma {:induction false} RingNoDup(k: Kernel)
    requires InTurn(k)
    ensures NoDup(Ring(k))
  {
    assert TaskOk(k, k.run);
    assert k.run !in Mates(k);
  }
}

/** A run from boot after which stopping a software timer loses a deadline. */
module LostDeadline {
  import opened Basics
  import opened TickTimer
  import opened Deadlines
  import opened Queues
  import SortLinks
  import opened Sched
  import opened Machine
  import opened TickArming

  const CAP: nat := 0x100_0000

  function Base(): (cfg: Config) { Config(2000, 5, 100, 75, 100_000, 1000) }

  /** Two tasks, task 0 idle, at time 0. */
  function Start(): (k: Kernel) { Boot(Base(), 2, 0, {}, 0, CAP) }

  /** Two software timers are started, task 1 is created and resumed and runs for 2010 cycles, 10 past the
      end of its slice. */
  function Steps(): (es: seq<Step>) {
    [TimerStart(2050, CAP), TimerStart(9000, CAP), Create(1, 3), ResumeTask(1), Switch(CAP), Elapse(2010)]
  }

  function Timed(): (k: Kernel) { Start().(timers := [2050, 9000]) }

  function Queued1(): (k: Kernel) {
    var k := Timed();
    k.(tasks := [k.tasks[0], FreshTask(3).(suspend := false, ready := true, timeSlice := 2000)],
       q := Queues([Unlinked, LinkedTo(ReadyQ(3))], k.q.lists[ReadyQ(3) := [1]], {3}))
  }

  /** Task 1 runs and the tick is armed for the timer at 2050, which is close enough to the end of the slice. */
  function Running(now: nat): (k: Kernel) {
    var k := Timed();
    k.(tasks := [k.tasks[0].(running := false, ready := true), FreshTask(3).(suspend := false, running := true, timeSlice := 2000)],
       run := 1, tick := Tick(2050, None), now := now)
  }

  lemma {:induction false} RunStep(k: Kernel, e: Step, es: seq<Step>, r: Kernel)
    requires Inv(k) && Enabled(k, e) && Inv(Next(k, e)) && Run(Next(k, e), es, r)
    ensures Run(k, [e] + es, r)
  {
    hide Inv, Enabled, Next;
    assert ([e] + es)[1..] == es;
  }

  lemma {:induction false} Started()
    ensures var k := Start();
      && Inv(k) && k.tick == Tick(75, Some(0)) && |k.tasks| == 2 && k.run == k.idle == k.now == 0 && k.cfg == Base() && k.timers == []
      && k.tasks[0] == FreeTask(0).(unused := false, running := true) && k.tasks[1] == FreeTask(0)
      && k.q.links == [Unlinked, Unlinked] && ReadyQ(3) in k.q.lists && k.q.lists[ReadyQ(3)] == [] && k.q.bitmap == {}
      && k.s == SortLinks.SortLink([MAX_TIME, MAX_TIME], [])
  {
    Safety(Base(), 2, 0, {}, 0, CAP, [], Start());
    hide Inv;
  }

  lemma {:induction false} NoDeadline(s: SortLinks.SortLink)
    requires s.order == []
    ensures SortLinks.Times(s) == []
  {
  }

  lemma {:induction false} FirstTimer()
    ensures Inv(Start()) && Enabled(Start(), TimerStart(2050, CAP))
    ensures var k := Next(Start(), TimerStart(2050, CAP)); k == Start().(timers := [2050]) && Inv(k)
  {
    hide Inv, Start;
    Started();
    NextKeeps(Start(), TimerStart(2050, CAP));
    NoDeadline(Start().s);
    assert [][..0] + [2050] + [][0..] == [2050];
  }

  lemma {:induction false} SecondTimer(k: Kernel)
    requires k == Start().(timers := [2050]) && Inv(k)
    ensures Enabled(k, TimerStart(9000, CAP)) && Next(k, TimerStart(9000, CAP)) == Timed() && Inv(Timed())
  {
    hide Inv, Start;
    Started();
    NextKeeps(k, TimerStart(9000, CAP));
    NoDeadline(k.s);
    assert InsertPos([2050], 9000) == 1;
    assert [2050][..1] + [9000] + [2050][1..] == [2050, 9000];
  }

  lemma {:induction false} TaskCreated(k: Kernel)
    requires Inv(k) && k == Timed()
    ensures Enabled(k, Create(1, 3))
    ensures var c := Next(k, Create(1, 3)); Inv(c) && c == k.(tasks := [k.tasks[0], FreshTask(3)])
  {
    hide Inv, Start;
    Started();
    NextKeeps(k, Create(1, 3));
    NextIsEffect(k, Create(1, 3));
  }

  lemma {:induction false} TaskResumed(k: Kernel, c: Kernel)
    requires k == Timed() && Inv(c) && c == k.(tasks := [k.tasks[0], FreshTask(3)])
    ensures Enabled(c, ResumeTask(1)) && Next(c, ResumeTask(1)) == Queued1() && Inv(Queued1())
  {
    hide QueuesOk, SortLinks.Valid, Start, TaskOk;
    Started();
    assert TaskOk(c, 1);
    NextKeeps(c, ResumeTask(1));
    NextIsEffect(c, ResumeTask(1));
    var f := FocusOn(c, 1);
    var g := Effect(c, 1, ResumeTask(1));
    assert g == Resume(f, 1, false, c.cfg);
    assert g.x == FreshTask(3).(suspend := false, ready := true, timeSlice := 2000);
    assert g.q == PriEn(f.q, 1, 3, false);
    assert f.q.lists[ReadyQ(3)] + [1] == [1] && f.q.bitmap + {3} == {3};
    assert g.q.links == Queued1().q.links;
    assert g.q == Queued1().q;
  }

  lemma {:induction false} IdleLeaves(k: Kernel)
    requires Inv(k) && k == Queued1()
    ensures Enabled(k, Switch(CAP))
    ensures Leave(k) == k.(tasks := [k.tasks[0].(running := false, ready := true), k.tasks[1]])
  {
    hide QueuesOk, SortLinks.Valid, Start;
    Started();
    assert TaskOk(k, 0);
  }

  lemma {:induction false} TaskEnters(l: Kernel)
    requires var k := Queued1(); l == k.(tasks := [k.tasks[0].(running := false, ready := true), k.tasks[1]])
    requires Between(l)
    ensures Enter(l) == Running(0).(tick := l.tick)
  {
    Started();
    hide SortLinks.Valid, Start;
    assert l.q.bitmap == {3};
    assert Clz({3}, 0) == Clz({3}, 1) == Clz({3}, 2) == Clz({3}, 3) == 3;
    assert Top(l.q, 0) == 1;
    TopIsReady(l);
    EnterOk(l);
    var n := Enter(l);
    assert n.q == PriDelete(l.q, 1, 3);
    assert n.q.lists == Timed().q.lists;
  }

  lemma {:induction false} TaskRuns()
    requires Inv(Queued1())
    ensures Enabled(Queued1(), Switch(CAP)) && Next(Queued1(), Switch(CAP)) == Running(0) && Inv(Running(0))
  {
    hide Inv, Leave, Enter, Between, Start;
    Started();
    var k := Queued1();
    IdleLeaves(k);
    NextKeeps(k, Switch(CAP));
    TaskEnters(Leave(k));
    NoDeadline(k.s);
  }

  /** The run reaches the late task. */
  lemma {:induction false} ReachesLate()
    ensures Inv(Start()) && Run(Start(), Steps(), Running(2010)) && Inv(Running(2010))
  {
    hide Inv, Enabled, Next, Start, Timed, Queued1, Running;
    FirstTimer();
    var k1 := Next(Start(), TimerStart(2050, CAP));
    SecondTimer(k1);
    TaskCreated(Timed());
    var c := Next(Timed(), Create(1, 3));
    TaskResumed(Timed(), c);
    TaskRuns();
    TimePasses();
    var es := [Elapse(2010)];
    RunStep(Running(0), Elapse(2010), [], Running(2010));
    RunStep(Queued1(), Switch(CAP), es, Running(2010));
    RunStep(c, ResumeTask(1), [Switch(CAP)] + es, Running(2010));
    RunStep(Timed(), Create(1, 3), [ResumeTask(1)] + ([Switch(CAP)] + es), Running(2010));
    var last := [Create(1, 3)] + ([ResumeTask(1)] + ([Switch(CAP)] + es));
    RunStep(k1, TimerStart(9000, CAP), last, Running(2010));
    RunStep(Start(), TimerStart(2050, CAP), [TimerStart(9000, CAP)] + last, Running(2010));
    assert [TimerStart(2050, CAP)] + ([TimerStart(9000, CAP)] + last) == Steps();
  }

  lemma {:induction false} TimePasses()
    requires Inv(Running(0))
    ensures Enabled(Running(0), Elapse(2010)) && Next(Running(0), Elapse(2010)) == Running(2010) && Inv(Running(2010))
  {
    hide Inv, Start;
    NextKeeps(Running(0), Elapse(2010));
  }

  /** There the tick is armed for 2050; stopping the timer at 2050 arms the tick for the past, which the
      hardware takes for the far future, although a timer is due at 9000. */
  lemma {:induction false} StoppingTimerLosesDeadline()
    ensures Inv(Start()) && Run(Start(), Steps(), Running(2010)) && Inv(Running(2010))
    ensures Enabled(Running(2010), TimerStop(0, CAP))
    ensures var r := Next(Running(2010), TimerStop(0, CAP));
      r.timers == [9000] && Clear(r) && r.tick.time == 2010 + CAP && !Served(r.tick.time, r)
  {
    hide Inv, Start, Next, Running, Run, Clear, Served;
    ReachesLate();
    StopLoses();
  }

  lemma {:induction false} StopLoses()
    requires Inv(Running(2010))
    ensures Enabled(Running(2010), TimerStop(0, CAP))
    ensures var r := Next(Running(2010), TimerStop(0, CAP));
      r.timers == [9000] && Clear(r) && r.tick.time == 2010 + CAP && !Served(r.tick.time, r)
  {
    hide Inv, Start;
    Started();
    var k := Running(2010);
    NoDeadline(k.s);
    assert k.timers[..0] + k.timers[1..] == [9000];
    var m := k.(tick := Tick(MAX_TIME, None), timers := [9000]);
    assert Next(k, TimerStop(0, CAP)) == UpdateExpire(m, CAP);
    assert (2000 - 2010) % U64 == U64 - 10;
    var r := UpdateExpire(m, CAP);
    assert !Serves(r.tick.time, r.timers[0], r.now, r.cfg.precision);
  }
}

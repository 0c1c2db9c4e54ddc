/** CPU usage accounting: per-task running time and the history ring. */
module Cpup {
  import opened Basics

  const PRECISION: nat := 1000  // LOS_CPUP_PRECISION
  const RECORDS: nat := 10      // OS_CPUP_HISTORY_RECORD_NUM

  /** OsCpupCB; times are microseconds, `start` is 0 while the task does not run. */
  datatype Entry = Entry(id: nat, status: bv16, all: nat, start: nat, history: seq<nat>)

  /** `pos` is g_hisPos, `last` is g_lastRecordTime. */
  datatype Accounts = Accounts(entries: seq<Entry>, last: nat, pos: nat, period: nat, usPerTick: nat)

  ghost predicate Shape(c: Accounts) {
    && c.pos < RECORDS
    && forall e <- c.entries :: |e.history| == RECORDS
  }

  // ------------------------------------------------------------ sums

  function Sum(s: seq<nat>): (n: nat) {
    if s == [] then 0 else Sum(s[..|s| - 1]) + s[|s| - 1]
  }

  lemma {:induction false} SumUpdate(s: seq<nat>, i: nat, x: nat)
    requires i < |s|
    ensures Sum(s[i := x]) + s[i] == Sum(s) + x
  {
    var front := s[..|s| - 1];
    if i < |s| - 1 {
      SumUpdate(front, i, x);
      assert s[i := x][..|s| - 1] == front[i := x];
    } else {
      assert s[i := x][..|s| - 1] == front;
    }
  }

  lemma {:induction false} SumMonotone(s: seq<nat>, t: seq<nat>)
    requires |s| == |t| && forall i :: 0 <= i < |s| ==> s[i] <= t[i]
    ensures Sum(s) <= Sum(t)
  {
    if s != [] {
      SumMonotone(s[..|s| - 1], t[..|s| - 1]);
    }
  }

  lemma {:induction false} SumBounds(s: seq<nat>, i: nat)
    requires i < |s|
    ensures s[i] <= Sum(s)
  {
    if i < |s| - 1 {
      SumBounds(s[..|s| - 1], i);
    }
  }

  lemma {:induction false} SumStep(s: seq<nat>, i: nat)
    requires i < |s|
    ensures Sum(s[..i + 1]) == Sum(s[..i]) + s[i]
  {
    assert s[..i + 1][..i] == s[..i];
  }

  // ------------------------------------------------------------ accounting

  function Alls(entries: seq<Entry>): (s: seq<nat>) {
    seq(|entries|, i requires 0 <= i < |entries| => entries[i].all)
  }

  /** The time used for an interval that began at `start`; a clock behind it gains a tick. */
  function Stamp(c: Accounts, start: nat, now: nat): (t: nat) {
    if start != 0 && now < start then (now + c.usPerTick) % U64 else now
  }

  function Closed(e: Entry, t: nat): (r: Entry) {
    if e.start == 0 then e else e.(all := (e.all + (t - e.start) % U64) % U64, start := 0)
  }

  /** OsTskCycleEnd. */
  function End(c: Accounts, t: nat, now: nat): (r: Accounts)
    requires t < |c.entries|
  {
    c.(entries := c.entries[t := Closed(c.entries[t], Stamp(c, c.entries[t].start, now))])
  }

  /** OsTskCycleStart. */
  function Start(c: Accounts, t: nat, now: nat): (r: Accounts)
    requires t < |c.entries|
  {
    c.(entries := c.entries[t := c.entries[t].(id := t, start := now)])
  }

  function NextPos(pos: nat): (p: nat) { if pos == RECORDS - 1 then 0 else pos + 1 }

  /** OsGetPrePos. */
  function PrePos(pos: nat): (p: nat) { if pos == 0 then RECORDS - 1 else pos - 1 }

  function Snapshot(e: Entry, pos: nat): (r: Entry)
    requires pos < |e.history|
  {
    e.(history := e.history[pos := e.all])
  }

  function Recorded(c: Accounts, t: nat): (r: Accounts)
    requires Shape(c)
  {
    if (t - c.last) % U64 > c.period then
      c.(last := t, pos := NextPos(c.pos),
         entries := seq(|c.entries|, i requires 0 <= i < |c.entries| => Snapshot(c.entries[i], c.pos)))
    else c
  }

  /** OsTskCycleEndStart. */
  function EndStart(c: Accounts, run: nat, next: nat, now: nat): (r: Accounts)
    requires Shape(c) && run < |c.entries| && next < |c.entries|
  {
    var t := Stamp(c, c.entries[run].start, now);
    Recorded(Start(End(c, run, now), next, t), t)
  }

  // ------------------------------------------------------------ the invariant

  /** How many records ago, counting from the oldest, slot `i` was written. */
  function Age(i: int, pos: int): int { if i >= pos then i - pos else i + RECORDS - pos }

  ghost predicate InOrder(e: Entry, pos: nat)
    requires |e.history| == RECORDS
  {
    && (forall i, j :: 0 <= i < RECORDS && 0 <= j < RECORDS && Age(i, pos) <= Age(j, pos) ==> e.history[i] <= e.history[j])
    && (forall i :: 0 <= i < RECORDS ==> e.history[i] <= e.all)
  }

  /** The accounts between two calls: task `run` runs since `mark`, the clock shows `now`, and `gone`
      is the time deleted with its task, spent before the first switch or between the two clock readings
      of a query; `origin` is the boot time. */
  datatype System = System(c: Accounts, run: nat, now: nat, mark: nat, gone: nat, origin: nat)

  ghost predicate Started(c: Accounts, run: nat, mark: nat)
    requires run < |c.entries|
  {
    && (forall t :: 0 <= t < |c.entries| && t != run ==> c.entries[t].start == 0)
    && c.entries[run].start in {0, mark}
  }

  ghost predicate Histories(c: Accounts)
    requires Shape(c)
  {
    forall t :: 0 <= t < |c.entries| ==> InOrder(c.entries[t], c.pos)
  }

  ghost predicate CpupInv(s: System) {
    && Shape(s.c)
    && s.run < |s.c.entries|
    && Started(s.c, s.run, s.mark)
    && Histories(s.c)
    && 0 < s.origin <= s.mark <= s.now < U64
    && s.c.last <= s.now
    && Sum(Alls(s.c.entries)) + (s.now - s.mark) + s.gone == s.now - s.origin
  }

  datatype Step =
    | Pass(time: nat)          // the clock advances
    | SwitchTo(next: nat)      // a task switch
    | Query(later: nat)        // any usage query: it reads the clock, and once more at its end
    | Created(t: nat, status: bv16)
    | Deleted(t: nat)

  predicate CpupEnabled(s: System, e: Step) {
    match e
    case Pass(time) => s.now <= time < U64
    case SwitchTo(next) => next < |s.c.entries|
    case Query(later) => s.now <= later < U64
    case Created(t, _) => t < |s.c.entries|
    case Deleted(t) => t < |s.c.entries|
  }

  /** The time since `mark` that no entry accounts for. */
  function Missed(s: System): (n: int)
    requires s.run < |s.c.entries|
  {
    if s.c.entries[s.run].start == 0 then s.now - s.mark else 0
  }

  const BLANK: Entry := Entry(0, 0, 0, 0, [0, 0, 0, 0, 0, 0, 0, 0, 0, 0])

  ghost function CpupNext(s: System, e: Step): (r: System)
    requires CpupInv(s) && CpupEnabled(s, e)
  {
    match e
    case Pass(time) => s.(now := time)
    case SwitchTo(next) => s.(c := EndStart(s.c, s.run, next, s.now), run := next, mark := s.now, gone := s.gone + Missed(s))
    case Query(later) =>
      s.(c := Start(End(s.c, s.run, s.now), s.run, later), now := later, mark := later,
         gone := s.gone + Missed(s) + (later - s.now))
    case Created(t, status) => s.(c := s.c.(entries := s.c.entries[t := s.c.entries[t].(id := t, status := status)]))
    case Deleted(t) => s.(c := s.c.(entries := s.c.entries[t := BLANK]), gone := s.gone + s.c.entries[t].all)
  }

  lemma {:induction false} AllsUpdate(es: seq<Entry>, t: nat, e: Entry)
    requires t < |es|
    ensures Alls(es[t := e]) == Alls(es)[t := e.all]
    ensures Sum(Alls(es[t := e])) == Sum(Alls(es)) - es[t].all + e.all
  {
    assert Alls(es[t := e]) == Alls(es)[t := e.all];
    SumUpdate(Alls(es), t, e.all);
  }

  lemma {:induction false} RecordedKeeps(c: Accounts, t: nat)
    requires Shape(c) && Histories(c) && c.last <= t < U64
    ensures Shape(Recorded(c, t)) && Histories(Recorded(c, t)) && Recorded(c, t).last <= t
    ensures Alls(Recorded(c, t).entries) == Alls(c.entries)
    ensures |Recorded(c, t).entries| == |c.entries|
    ensures forall i :: 0 <= i < |c.entries| ==> Recorded(c, t).entries[i].start == c.entries[i].start
  {
    var r := Recorded(c, t);
    assert Alls(r.entries) == Alls(c.entries);
    forall i | 0 <= i < |c.entries| ensures |r.entries[i].history| == RECORDS && InOrder(r.entries[i], r.pos) {
      assert InOrder(c.entries[i], c.pos);
      if r != c {
        SnapshotOrdered(c.entries[i], c.pos);
      }
    }
  }

  lemma {:induction false} SnapshotOrdered(e: Entry, pos: nat)
    requires |e.history| == RECORDS && pos < RECORDS && InOrder(e, pos)
    ensures InOrder(Snapshot(e, pos), NextPos(pos))
  {
    var r := Snapshot(e, pos);
    forall i, j | 0 <= i < RECORDS && 0 <= j < RECORDS && Age(i, NextPos(pos)) <= Age(j, NextPos(pos))
      ensures r.history[i] <= r.history[j]
    {
      assert j != pos && i != pos ==> Age(i, pos) <= Age(j, pos);
    }
  }

  /** Closing the running task's interval at `now`. */
  lemma {:induction false} EndKeeps(s: System)
    requires CpupInv(s)
    ensures var c := End(s.c, s.run, s.now);
      && Shape(c) && Histories(c) && |c.entries| == |s.c.entries| && c.last == s.c.last
      && (forall t :: 0 <= t < |c.entries| ==> c.entries[t].start == 0)
      && Sum(Alls(c.entries)) + s.gone + Missed(s) == s.now - s.origin
  {
    var e := s.c.entries[s.run];
    var r := Closed(e, Stamp(s.c, e.start, s.now));
    ClosedExactly(s);
    AllsUpdate(s.c.entries, s.run, r);
    hide Closed, Stamp, Sum, Alls;
    assert InOrder(e, s.c.pos);
    assert InOrder(r, s.c.pos);
  }

  /** Neither 64-bit operation of a charge wraps. */
  lemma {:induction false} ClosedExactly(s: System)
    requires CpupInv(s)
    ensures var e := s.c.entries[s.run];
      Closed(e, Stamp(s.c, e.start, s.now)) == e.(all := e.all + (s.now - s.mark) - Missed(s), start := 0)
  {
    var e := s.c.entries[s.run];
    assert Alls(s.c.entries)[s.run] == e.all;
    SumBounds(Alls(s.c.entries), s.run);
    hide Sum, Alls, InOrder;
    assert e.start != 0 ==> (s.now - e.start) % U64 == s.now - s.mark && (e.all + (s.now - s.mark)) % U64 == e.all + (s.now - s.mark);
  }

  lemma {:induction false} StartKeeps(c: Accounts, t: nat, now: nat)
    requires Shape(c) && Histories(c) && t < |c.entries|
    ensures Shape(Start(c, t, now)) && Histories(Start(c, t, now))
    ensures Sum(Alls(Start(c, t, now).entries)) == Sum(Alls(c.entries))
  {
    AllsUpdate(c.entries, t, c.entries[t].(id := t, start := now));
    assert InOrder(c.entries[t], c.pos);
  }

  lemma {:induction false} SwitchKeeps(s: System, next: nat)
    requires CpupInv(s) && next < |s.c.entries|
    ensures CpupInv(CpupNext(s, SwitchTo(next)))
  {
    EndKeeps(s);
    var c := End(s.c, s.run, s.now);
    StartKeeps(c, next, s.now);
    RecordedKeeps(Start(c, next, s.now), s.now);
    hide Histories, Recorded, Alls, Sum;
  }

  lemma {:induction false} EntryKeeps(s: System, t: nat, e: Entry)
    requires CpupInv(s) && t < |s.c.entries| && |e.history| == RECORDS && InOrder(e, s.c.pos) && e.start in {0, s.c.entries[t].start}
    ensures var c := s.c.(entries := s.c.entries[t := e]);
      Shape(c) && Histories(c) && Started(c, s.run, s.mark) && Sum(Alls(c.entries)) == Sum(Alls(s.c.entries)) - s.c.entries[t].all + e.all
  {
    hide InOrder;
    AllsUpdate(s.c.entries, t, e);
  }

  /** Every step keeps the accounts exact and the history ring in order. */
  lemma {:induction false} CpupKeeps(s: System, e: Step)
    requires CpupInv(s) && CpupEnabled(s, e)
    ensures CpupInv(CpupNext(s, e))
  {
    match e
    case Pass(time) =>
    case SwitchTo(next) =>
      SwitchKeeps(s, next);
    case Query(later) =>
      hide Histories, Alls, Sum;
      EndKeeps(s);
      StartKeeps(End(s.c, s.run, s.now), s.run, later);
    case Created(t, status) =>
      assert InOrder(s.c.entries[t], s.c.pos);
      EntryKeeps(s, t, s.c.entries[t].(id := t, status := status));
    case Deleted(t) =>
      EntryKeeps(s, t, BLANK);
  }

  ghost predicate CpupRun(s: System, es: seq<Step>, r: System)
    requires CpupInv(s)
    decreases |es|
  {
    if es == [] then r == s
    else CpupEnabled(s, es[0]) && (CpupKeeps(s, es[0]); CpupRun(CpupNext(s, es[0]), es[1..], r))
  }

  /** Nothing recorded yet, task `run` running since boot. */
  ghost predicate AtBoot(s: System) {
    && (forall e <- s.c.entries :: e == BLANK)
    && s.c.pos == 0 && s.c.last == 0 && s.run < |s.c.entries|
    && 0 < s.origin == s.mark == s.now < U64 && s.gone == 0
  }

  lemma {:induction false} BootOk(s: System)
    requires AtBoot(s)
    ensures CpupInv(s)
  {
    BlankInOrder();
    NoTime(s.c.entries);
    hide InOrder, Alls, Sum;
    assert forall t :: 0 <= t < |s.c.entries| ==> s.c.entries[t] in s.c.entries;
  }

  lemma {:induction false} BlankInOrder()
    ensures InOrder(BLANK, 0)
  {
    hide Age;
    assert forall i :: 0 <= i < RECORDS ==> BLANK.history[i] == 0;
  }

  lemma {:induction false} NoTime(es: seq<Entry>)
    requires forall e <- es :: e.all == 0
    ensures Sum(Alls(es)) == 0
  {
    if es != [] {
      NoTime(es[..|es| - 1]);
      assert Alls(es)[..|es| - 1] == Alls(es[..|es| - 1]);
    }
  }

  lemma {:induction false} RunKeeps(s: System, es: seq<Step>, r: System)
    requires CpupInv(s) && CpupRun(s, es, r)
    ensures CpupInv(r) && r.origin == s.origin && |r.c.entries| == |s.c.entries|
    decreases |es|
  {
    if es != [] {
      CpupKeeps(s, es[0]);
      SameOrigin(s, es[0]);
      hide CpupInv, CpupNext, CpupEnabled;
      RunKeeps(CpupNext(s, es[0]), es[1..], r);
    }
  }

  lemma {:induction false} SameOrigin(s: System, e: Step)
    requires CpupInv(s) && CpupEnabled(s, e)
    ensures CpupNext(s, e).origin == s.origin && |CpupNext(s, e).c.entries| == |s.c.entries|
  {
    hide Histories, Alls, Sum;
  }

  /** Conservation over every run from boot: what the tasks were charged, the open interval and what is
      gone add up to the time since boot. */
  lemma {:induction false} TimeConserved(s: System, es: seq<Step>, r: System)
    requires AtBoot(s)
    ensures CpupInv(s)
    ensures CpupRun(s, es, r) ==> CpupInv(r) && Sum(Alls(r.c.entries)) + (r.now - r.mark) + r.gone == r.now - s.origin
  {
    BootOk(s);
    if CpupRun(s, es, r) {
      RunKeeps(s, es, r);
    }
  }

  /** Once a switch has happened and as long as no task is deleted, exactly the time between the two clock
      readings of a query is lost. */
  lemma {:induction false} LostExactly(s: System, e: Step)
    requires CpupInv(s) && CpupEnabled(s, e) && !e.Deleted?
    requires s.c.entries[s.run].start == s.mark
    ensures CpupNext(s, e).gone == s.gone + if e.Query? then e.later - s.now else 0
    ensures var r := CpupNext(s, e); CpupInv(r) && r.c.entries[r.run].start == r.mark
  {
    CpupKeeps(s, e);
  }

  /** The accounts in which a query computes: the running task's interval is closed. */
  ghost function Ended(s: System): (r: System)
    requires s.run < |s.c.entries|
  {
    s.(c := End(s.c, s.run, s.now), mark := s.now, gone := s.gone + if Missed(s) >= 0 then Missed(s) else 0)
  }

  lemma {:induction false} EndedOk(s: System)
    requires CpupInv(s)
    ensures CpupInv(Ended(s))
  {
    hide Histories, Alls, Sum, InOrder;
    EndKeeps(s);
  }
}

/** Each task is charged exactly the time it runs, and samples are taken on time. */
module CpupLedger {
  import opened Basics
  import opened Cpup

  /** How long each task has run, by the clock alone: time that passes is the running task's, from its first
      switch on; a deleted task starts again from nothing. */
  ghost function Ran(l: seq<nat>, s: System, e: Step): (r: seq<nat>)
    requires CpupInv(s) && CpupEnabled(s, e) && |l| == |s.c.entries|
  {
    match e
    case Pass(time) => if s.c.entries[s.run].start != 0 then l[s.run := l[s.run] + (time - s.now)] else l
    case Deleted(t) => l[t := 0]
    case _ => l
  }

  /** The interval that is still open. */
  function Open(s: System, t: nat): (n: int)
    requires s.run < |s.c.entries|
  {
    if t == s.run && s.c.entries[t].start != 0 then s.now - s.mark else 0
  }

  ghost predicate LedgerOk(s: System, l: seq<nat>)
    requires CpupInv(s)
  {
    |l| == |s.c.entries| && forall t :: 0 <= t < |l| ==> l[t] == s.c.entries[t].all + Open(s, t)
  }

  /** What each step leaves in an account. */
  lemma {:induction false} EntryAfter(s: System, e: Step, t: nat)
    requires CpupInv(s) && CpupEnabled(s, e) && t < |s.c.entries|
    ensures var r := CpupNext(s, e);
      && |r.c.entries| == |s.c.entries| && r.run < |r.c.entries|
      && r.c.entries[t].all + Open(r, t) ==
           if e == Deleted(t) then 0
           else s.c.entries[t].all + Open(s, t) +
                if e.Pass? && t == s.run && s.c.entries[t].start != 0 then e.time - s.now else 0
  {
    hide Histories, Alls, Sum;
    match e
    case SwitchTo(next) =>
      ClosedExactly(s);
      hide Closed, Stamp;
    case Query(later) =>
      ClosedExactly(s);
      hide Closed, Stamp;
    case _ =>
  }

  /** Every step keeps: what a task was charged, with the open interval, is how long it has run. */
  lemma {:induction false} LedgerKeeps(s: System, l: seq<nat>, e: Step)
    requires CpupInv(s) && CpupEnabled(s, e) && LedgerOk(s, l)
    ensures CpupInv(CpupNext(s, e)) && LedgerOk(CpupNext(s, e), Ran(l, s, e))
  {
    CpupKeeps(s, e);
    forall t: nat | t < |l| ensures Ran(l, s, e)[t] == CpupNext(s, e).c.entries[t].all + Open(CpupNext(s, e), t) {
      EntryAfter(s, e, t);
    }
    EntryAfter(s, e, s.run);
    hide CpupNext;
  }

  ghost predicate LedgerRun(s: System, l: seq<nat>, es: seq<Step>, r: System, m: seq<nat>)
    requires CpupInv(s) && |l| == |s.c.entries|
    decreases |es|
  {
    if es == [] then r == s && m == l
    else
      && CpupEnabled(s, es[0])
      && (CpupKeeps(s, es[0]);
          SameOrigin(s, es[0]);
          LedgerRun(CpupNext(s, es[0]), Ran(l, s, es[0]), es[1..], r, m))
  }

  lemma {:induction false} LedgerRunKeeps(s: System, l: seq<nat>, es: seq<Step>, r: System, m: seq<nat>)
    requires CpupInv(s) && LedgerOk(s, l) && LedgerRun(s, l, es, r, m)
    ensures CpupInv(r) && LedgerOk(r, m)
    decreases |es|
  {
    if es != [] {
      LedgerKeeps(s, l, es[0]);
      hide CpupInv, CpupNext, CpupEnabled, Ran;
      LedgerRunKeeps(CpupNext(s, es[0]), Ran(l, s, es[0]), es[1..], r, m);
    }
  }

  /** On every run from boot each task is charged exactly the time it ran. */
  lemma {:induction false} EachCharged(s: System, es: seq<Step>, r: System, m: seq<nat>)
    requires AtBoot(s)
    ensures CpupInv(s)
    ensures var l := seq(|s.c.entries|, _ => 0);
      LedgerRun(s, l, es, r, m) ==>
        && CpupInv(r) && |m| == |r.c.entries|
        && forall t :: 0 <= t < |m| ==> r.c.entries[t].all == m[t] - Open(r, t)
  {
    BootOk(s);
    var l: seq<nat> := seq(|s.c.entries|, _ => 0);
    assert forall t :: 0 <= t < |s.c.entries| ==> s.c.entries[t] in s.c.entries;
    assert LedgerOk(s, l);
    if LedgerRun(s, l, es, r, m) {
      LedgerRunKeeps(s, l, es, r, m);
    }
  }

  /** A switch takes a sample exactly if more than the period has passed since the last one, so the last one is
      never older than a period after a switch; a sample is every task's charge at that time. */
  lemma {:induction false} SamplesOnTime(s: System, next: nat)
    requires CpupInv(s) && next < |s.c.entries|
    ensures var r := CpupNext(s, SwitchTo(next));
      && s.now - r.c.last <= r.c.period
      && (r.c.last == s.now || r.c.last == s.c.last)
      && (s.now - s.c.last > s.c.period ==>
            && r.c.last == s.now && r.c.pos == (s.c.pos + 1) % RECORDS && |r.c.entries| == |s.c.entries|
            && forall t :: 0 <= t < |r.c.entries| ==>
                 |r.c.entries[t].history| == RECORDS && r.c.entries[t].history[s.c.pos] == r.c.entries[t].all)
      && (s.now - s.c.last <= s.c.period ==>
            && r.c.last == s.c.last && r.c.pos == s.c.pos && |r.c.entries| == |s.c.entries|
            && forall t :: 0 <= t < |r.c.entries| ==> r.c.entries[t].history == s.c.entries[t].history)
  {
    hide Histories, Alls, Sum;
    CpupKeeps(s, SwitchTo(next));
    assert (s.now - s.c.last) % U64 == s.now - s.c.last;
    assert forall t :: 0 <= t < |s.c.entries| ==> s.c.entries[t] in s.c.entries;
  }

  /** A clock that shows a time before the start of the interval, by no more than a tick, charges what is left of
      one tick. */
  lemma {:induction false} ClockBehind(c: Accounts, t: nat, now: nat)
    requires t < |c.entries| && now < c.entries[t].start <= now + c.usPerTick < U64
    requires c.entries[t].all + c.usPerTick < U64
    ensures var x := c.entries[t]; var y := End(c, t, now).entries[t];
      y.start == 0 && y.all == x.all + (c.usPerTick - (x.start - now)) && x.all <= y.all < x.all + c.usPerTick
  {
    var x := c.entries[t];
    assert (now + c.usPerTick - x.start) % U64 == now + c.usPerTick - x.start;
  }

  /** After a switch and after a query the account of the running task carries its id and starts now. */
  lemma {:induction false} StartsAccount(s: System, e: Step)
    requires CpupInv(s) && CpupEnabled(s, e) && (e.SwitchTo? || e.Query?)
    ensures var r := CpupNext(s, e);
      r.run < |r.c.entries| && r.c.entries[r.run].id == r.run && r.c.entries[r.run].start == r.now == r.mark
  {
    hide Histories, Alls, Sum, Closed;
  }
}

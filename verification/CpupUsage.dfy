/** The CPU usage queries. */
module CpupUsage {
  import opened Basics
  import opened TimeArith
  import opened Cpup

  /** OsGetPositions; mode 0 looks back over the whole ring, 1 at the newest interval. */
  function Positions(mode: nat, pos: nat): (p: (nat, nat))
    requires pos < RECORDS
    ensures p.0 < RECORDS && p.1 < RECORDS
  {
    if mode == 1 then (PrePos(pos), PrePos(PrePos(pos)))
    else if mode == 2 then (PrePos(pos), 0)
    else (pos, 0)
  }

  /** Mode 0 takes the oldest record, mode 1 the two newest, mode 2 the newest. */
  lemma {:induction false} PositionsAge(mode: nat, pos: nat)
    requires pos < RECORDS
    ensures var p := Positions(mode, pos);
      && (mode == 0 ==> Age(p.0, pos) == 0)
      && (mode == 1 ==> Age(p.0, pos) == RECORDS - 1 && Age(p.1, pos) == RECORDS - 2)
      && (mode == 2 ==> Age(p.0, pos) == RECORDS - 1)
  {
  }

  /** Neither OS_TASK_STATUS_UNUSED nor blank. */
  predicate InUse(status: bv16) { status & 1 == 0 && status != 0 }

  predicate Used(e: Entry) { InUse(e.status) }

  /** In terms of numbers: not 0 and even, since OS_TASK_STATUS_UNUSED is the lowest bit. */
  lemma {:induction false} InUseExactly(status: bv16)
    ensures InUse(status) <==> status != 0 && status % 2 == 0
  {
  }

  function Delta(e: Entry, mode: nat, cur: nat, pre: nat): (d: nat)
    requires cur < |e.history| && pre < |e.history|
  {
    if mode == 1 then (e.history[cur] - e.history[pre]) % U64 else (e.all - e.history[cur]) % U64
  }

  function Deltas(c: Accounts, mode: nat, every: bool): (s: seq<nat>)
    requires Shape(c)
    ensures |s| == |c.entries|
  {
    var p := Positions(mode, c.pos);
    seq(|c.entries|, i requires 0 <= i < |c.entries| => if every || Used(c.entries[i]) then Delta(c.entries[i], mode, p.0, p.1) else 0)
  }

  /** Everything charged so far, or the history mode of a query. */
  datatype Mode = Now | History(mode: nat)

  function Charged(c: Accounts, every: bool): (s: seq<nat>) {
    seq(|c.entries|, i requires 0 <= i < |c.entries| => if every || Used(c.entries[i]) then c.entries[i].all else 0)
  }

  /** What a query counts for each task. */
  function Parts(c: Accounts, mode: Mode, every: bool): (s: seq<nat>)
    requires Shape(c)
    ensures |s| == |c.entries|
  {
    match mode
    case Now => Charged(c, every)
    case History(m) => Deltas(c, m, every)
  }

  /** The usage as the code computes it, on 64-bit words and cut to 32 bits. */
  function Share64(part: nat, whole: nat): (r: nat) {
    if whole == 0 then 0 else Ratio(PRECISION * part % U64, whole) % U32
  }

  /** The usage of everything but a part. */
  function Rest64(part: nat, whole: nat): (r: nat) {
    if whole == 0 then 0 else (PRECISION - Share64(part, whole)) % U32
  }

  /** A part of the whole, in thousandths rounded down; nothing of nothing is nothing. */
  function Share(part: nat, whole: nat): (r: nat) {
    if whole == 0 then 0 else Ratio(PRECISION * part, whole)
  }

  function Ratio(n: nat, d: nat): (r: nat)
    requires d > 0
    ensures r * d <= n < (r + 1) * d
  {
    DivDef(n, d);
    n / d
  }

  /** No 64-bit subtraction of a query wraps, and no task is charged more than has passed. */
  lemma {:induction false} DeltaExact(s: System, t: nat, mode: nat)
    requires CpupInv(s) && t < |s.c.entries|
    ensures var e, p := s.c.entries[t], Positions(mode, s.c.pos);
      && Delta(e, mode, p.0, p.1) == (if mode == 1 then e.history[p.0] - e.history[p.1] else e.all - e.history[p.0])
      && Delta(e, mode, p.0, p.1) <= e.all <= s.now - s.origin
  {
    var e := s.c.entries[t];
    var p := Positions(mode, s.c.pos);
    assert InOrder(e, s.c.pos);
    assert mode == 1 ==> Age(p.1, s.c.pos) <= Age(p.0, s.c.pos);
    assert Alls(s.c.entries)[t] == e.all;
    SumBounds(Alls(s.c.entries), t);
  }

  /** The total a query divides by does not wrap. */
  lemma {:induction false} TotalFits(s: System, mode: Mode, every: bool)
    requires CpupInv(s)
    ensures Sum(Parts(s.c, mode, every)) <= s.now - s.origin
    ensures Sum(Parts(s.c, mode, every)) % U64 == Sum(Parts(s.c, mode, every))
  {
    var parts := Parts(s.c, mode, every);
    forall t: nat | t < |s.c.entries| ensures parts[t] <= Alls(s.c.entries)[t] {
      if mode.History? {
        DeltaExact(s, t, mode.mode);
      }
    }
    SumMonotone(parts, Alls(s.c.entries));
  }

  /** A mode beyond the three named ones looks back over the whole ring, as mode 0 does. */
  lemma {:induction false} OtherModes(c: Accounts, mode: nat, every: bool)
    requires Shape(c) && mode > 2
    ensures Deltas(c, mode, every) == Deltas(c, 0, every)
  {
    assert Positions(mode, c.pos) == Positions(0, c.pos);
  }

  // ------------------------------------------------------------ shares

  lemma {:induction false} ShareBound(part: nat, whole: nat)
    requires part <= whole
    ensures Share(part, whole) <= PRECISION
  {
    if whole != 0 {
      hide Ratio;
      MulLess(Share(part, whole), PRECISION + 1, whole);
    }
  }

  /** A product that wraps makes the usage smaller, never larger; the usage is exact if and only if it fits. */
  lemma {:induction false} Share64Bound(part: nat, whole: nat)
    requires part <= whole < U64
    ensures Share64(part, whole) <= Share(part, whole) <= PRECISION
    ensures Share64(part, whole) == Share(part, whole) <==> PRECISION * part < U64
  {
    hide Ratio;
    ShareBound(part, whole);
    if whole != 0 {
      ProductWraps(PRECISION * part, whole);
    }
  }

  lemma {:induction false} ProductWraps(p: nat, whole: nat)
    requires 0 < whole < U64
    ensures Ratio(p % U64, whole) <= Ratio(p, whole)
    ensures Ratio(p % U64, whole) == Ratio(p, whole) <==> p < U64
  {
    hide Ratio;
    if p >= U64 {
      var q := p % U64;
      assert q + U64 <= p by {
        DivDef(p, U64);
      }
      var x, y := Ratio(q, whole), Ratio(p, whole);
      Distribute(x, 1, whole);
      Distribute(y, 1, whole);
      MulLess(x + 1, y + 1, whole);
    }
  }

  function Shares(parts: seq<nat>, whole: nat): (s: seq<nat>) {
    seq(|parts|, i requires 0 <= i < |parts| => Share(parts[i], whole))
  }

  function Shares64(parts: seq<nat>, whole: nat): (s: seq<nat>) {
    seq(|parts|, i requires 0 <= i < |parts| => Share64(parts[i], whole))
  }

  lemma {:induction false} SharesUpper(parts: seq<nat>, whole: nat)
    requires whole > 0
    ensures Sum(Shares(parts, whole)) * whole <= PRECISION * Sum(parts)
  {
    if parts != [] {
      var n := |parts| - 1;
      SharesUpper(parts[..n], whole);
      assert Shares(parts, whole)[..n] == Shares(parts[..n], whole);
      var a, x := Sum(Shares(parts[..n], whole)), Share(parts[n], whole);
      Distribute(a, x, whole);
    }
  }

  lemma {:induction false} SharesLower(parts: seq<nat>, whole: nat)
    requires whole > 0
    ensures PRECISION * Sum(parts) <= (Sum(Shares(parts, whole)) + |parts|) * whole
  {
    if parts != [] {
      var n := |parts| - 1;
      SharesLower(parts[..n], whole);
      assert Shares(parts, whole)[..n] == Shares(parts[..n], whole);
      var a, x := Sum(Shares(parts[..n], whole)), Share(parts[n], whole);
      Distribute(a + n, x + 1, whole);
    }
  }

  /** Exact shares add up to the whole, less at most one thousandth a part for rounding. */
  lemma {:induction false} SharesSum(parts: seq<nat>)
    requires Sum(parts) > 0
    ensures PRECISION - |parts| <= Sum(Shares(parts, Sum(parts))) <= PRECISION
  {
    var whole := Sum(parts);
    SharesUpper(parts, whole);
    SharesLower(parts, whole);
    var n := Sum(Shares(parts, whole));
    Distribute(PRECISION, 1, whole);
    MulLess(n, PRECISION + 1, whole);
    Distribute(n + |parts|, 1, whole);
    MulLess(PRECISION, n + |parts| + 1, whole);
  }

  datatype Info = Info(status: bv16, usage: nat)
  datatype Ret = Usage(permille: nat) | NotInit | IdInvalid | NotCreated

  /** The component's state, updated in place. */
  class Monitor {
    var init: bool               // g_cpupInitFlg
    const entries: array<Entry>  // g_cpup
    var last: nat
    var pos: nat
    const period: nat            // g_sysClock
    const usPerTick: nat

    ghost predicate Valid()
      reads this, entries
    {
      Shape(State())
    }

    ghost function State(): (c: Accounts)
      reads this, entries
    {
      Accounts(entries[..], last, pos, period, usPerTick)
    }

    constructor (tasks: nat, period: nat, usPerTick: nat)
      ensures Valid() && fresh(entries) && init
      ensures entries.Length == tasks && (forall e <- State().entries :: e == BLANK) && pos == 0 && last == 0
      ensures this.period == period && this.usPerTick == usPerTick
    {
      this.entries := new Entry[tasks](_ => BLANK);
      this.period, this.usPerTick := period, usPerTick;
      last, pos, init := 0, 0, true;
    }

    method CycleStart(next: nat, now: nat)
      requires Valid() && next < entries.Length
      modifies entries
      ensures State() == if init then Start(old(State()), next, now) else old(State())
      ensures Valid()
    {
      if !init {
        return;
      }
      entries[next] := entries[next].(id := next, start := now);
      assert State().entries == Start(old(State()), next, now).entries;
    }

    method CycleEnd(run: nat, now: nat)
      requires Valid() && run < entries.Length
      modifies entries
      ensures State() == if init then End(old(State()), run, now) else old(State())
      ensures Valid()
    {
      if !init || entries[run].start == 0 {
        assert entries[..] == old(entries[..]);
        return;
      }
      var e := entries[run];
      var time := now;
      if time < e.start {
        time := (time + usPerTick) % U64;
      }
      entries[run] := e.(all := (e.all + (time - e.start) % U64) % U64, start := 0);
      assert State().entries == End(old(State()), run, now).entries;
    }

    method CycleEndStart(run: nat, next: nat, now: nat)
      requires Valid() && run < entries.Length && next < entries.Length
      modifies this`last, this`pos, entries
      ensures State() == if init then EndStart(old(State()), run, next, now) else old(State())
      ensures Valid()
    {
      if !init {
        return;
      }
      var e := entries[run];
      var time := now;
      if e.start != 0 {
        if time < e.start {
          time := (time + usPerTick) % U64;
        }
        entries[run] := e.(all := (e.all + (time - e.start) % U64) % U64, start := 0);
      }
      assert entries[..] == End(old(State()), run, now).entries;
      entries[next] := entries[next].(id := next, start := time);
      ghost var c := Start(End(old(State()), run, now), next, time);
      assert entries[..] == c.entries;
      assert State() == c;
      Record(time);
    }

    /** The sampling block of OsTskCycleEndStart. */
    method Record(time: nat)
      requires Valid()
      modifies this`last, this`pos, entries
      ensures State() == Recorded(old(State()), time)
      ensures Valid()
    {
      if (time - last) % U64 > period {
        RecordAll();
        last := time;
        pos := if pos == RECORDS - 1 then 0 else pos + 1;
        assert entries[..] == Recorded(old(State()), time).entries;
      }
    }

    /** The recording loop of OsTskCycleEndStart. */
    method RecordAll()
      requires Valid()
      modifies entries
      ensures forall i :: 0 <= i < entries.Length ==> entries[i] == Snapshot(old(entries[i]), pos)
    {
      assert forall i :: 0 <= i < entries.Length ==> entries[i] in State().entries;
      for i := 0 to entries.Length
        invariant forall j :: 0 <= j < i ==> entries[j] == Snapshot(old(entries[j]), pos)
        invariant forall j :: i <= j < entries.Length ==> entries[j] == old(entries[j])
      {
        entries[i] := entries[i].(history := entries[i].history[pos := entries[i].all]);
      }
    }

    /** The accumulating loop of the queries over everything charged so far. */
    method TotalAll(every: bool) returns (total: nat)
      requires Valid()
      ensures total == Sum(Charged(State(), every)) % U64
    {
      total := 0;
      ghost var s := Charged(State(), every);
      for i := 0 to entries.Length
        invariant total == Sum(s[..i]) % U64
      {
        SumStep(s, i);
        if every || Used(entries[i]) {
          total := (total + entries[i].all) % U64;
        }
      }
      assert s[..entries.Length] == s;
    }

    /** The accumulating loop of the history queries. */
    method Total(mode: nat, cur: nat, pre: nat, every: bool) returns (total: nat)
      requires Valid() && (cur, pre) == Positions(mode, pos)
      ensures total == Sum(Deltas(State(), mode, every)) % U64
    {
      hide Used, Delta, Positions;
      total := 0;
      ghost var s := Deltas(State(), mode, every);
      for i := 0 to entries.Length
        invariant total == Sum(s[..i]) % U64
      {
        SumStep(s, i);
        assert entries[i] in State().entries;
        if every || Used(entries[i]) {
          total := (total + Delta(entries[i], mode, cur, pre)) % U64;
        }
      }
      assert s[..entries.Length] == s;
    }

    /** What a query compares: the part of one task and the total. */
    method Portion(t: nat, mode: Mode, every: bool) returns (part: nat, total: nat)
      requires Valid() && t < entries.Length && (every || Used(entries[t]))
      ensures part == Parts(State(), mode, every)[t] && total == Sum(Parts(State(), mode, every)) % U64
    {
      if mode.Now? {
        total := TotalAll(every);
        part := entries[t].all;
      } else {
        var (cur, pre) := Positions(mode.mode, pos);
        total := Total(mode.mode, cur, pre, every);
        assert entries[t] in State().entries;
        part := Delta(entries[t], mode.mode, cur, pre);
      }
    }

    /** The usage of everything but a part. */
    static method Remaining(part: nat, total: nat) returns (usage: nat)
      ensures usage == Rest64(part, total)
    {
      usage := 0;
      if total != 0 {
        usage := (PRECISION - PRECISION * part % U64 / total % U32) % U32;
      }
    }

    /** LOS_SysCpuUsage and, with a mode, LOS_HistorySysCpuUsage; the clock shows `now` and, at the end, `later`. */
    method SysUsage(run: nat, idle: nat, now: nat, later: nat, mode: Mode) returns (r: Ret)
      requires Valid() && run < entries.Length && idle < entries.Length
      modifies entries
      ensures r == if init then Usage(SysShare(End(old(State()), run, now), idle, mode)) else NotInit
      ensures State() == if init then Start(End(old(State()), run, now), run, later) else old(State())
    {
      if !init {
        return NotInit;
      }
      hide Parts, Sum, Rest64;
      CycleEnd(run, now);
      var part, total := Portion(idle, mode, true);
      var usage := Remaining(part, total);
      r := Usage(usage);
      CycleStart(run, later);
    }

    /** LOS_TaskCpuUsage and, with a mode, LOS_HistoryTaskCpuUsage. */
    method TaskUsage(run: nat, t: nat, now: nat, later: nat, mode: Mode) returns (r: Ret)
      requires Valid() && run < entries.Length
      modifies entries
      ensures r == TaskRet(old(State()), init, run, t, now, mode)
      ensures State() == if r.Usage? then Start(End(old(State()), run, now), run, later) else old(State())
    {
      if !init {
        return NotInit;
      }
      if t >= entries.Length {
        return IdInvalid;
      }
      if entries[t].id != t {
        return NotCreated;
      }
      if !Used(entries[t]) {
        return NotCreated;
      }
      hide Parts, Sum;
      CycleEnd(run, now);
      var part, total := Portion(t, mode, false);
      var usage := 0;
      if total != 0 {
        usage := PRECISION * part % U64 / total % U32;
      }
      r := Usage(usage);
      CycleStart(run, later);
    }

    /** LOS_AllTaskCpuUsage, writing one record a task in use. */
    method AllUsages(run: nat, now: nat, later: nat, mode: nat, infos: array<Info>) returns (ok: bool)
      requires Valid() && run < entries.Length && infos.Length == entries.Length
      modifies entries, infos
      ensures ok == init
      ensures State() == if init then Start(End(old(State()), run, now), run, later) else old(State())
      ensures infos[..] == if init then Filled(End(old(State()), run, now), mode, old(infos[..])) else old(infos[..])
    {
      if !init {
        return false;
      }
      CycleEnd(run, now);
      ghost var c := State();
      var (cur, pre) := Positions(mode, pos);
      var total := Total(mode, cur, pre, false);
      for i := 0 to entries.Length
        invariant State() == c
        invariant forall j :: 0 <= j < i ==> infos[j] == FillOne(c, mode, j, old(infos[j]))
        invariant forall j :: i <= j < entries.Length ==> infos[j] == old(infos[j])
      {
        assert entries[i] in State().entries;
        if Used(entries[i]) {
          var part := Delta(entries[i], mode, cur, pre);
          var usage := infos[i].usage;
          if total != 0 {
            usage := PRECISION * part % U64 / total % U32;
          }
          infos[i] := Info(entries[i].status, usage);
        }
      }
      assert infos[..] == Filled(c, mode, old(infos[..]));
      CycleStart(run, later);
      ok := true;
    }
  }

  // ------------------------------------------------------------ what the queries answer

  function SysShare(c: Accounts, idle: nat, mode: Mode): (n: nat)
    requires Shape(c) && idle < |c.entries|
  {
    var parts := Parts(c, mode, true);
    var total := Sum(parts) % U64;
    Rest64(parts[idle], total)
  }

  function TaskShare(c: Accounts, t: nat, mode: Mode): (n: nat)
    requires Shape(c) && t < |c.entries|
  {
    Share64(Parts(c, mode, false)[t], Sum(Parts(c, mode, false)) % U64)
  }

  function TaskRet(c: Accounts, init: bool, run: nat, t: nat, now: nat, mode: Mode): (r: Ret)
    requires Shape(c) && run < |c.entries|
  {
    if !init then NotInit
    else if t >= |c.entries| then IdInvalid
    else if c.entries[t].id != t || !Used(c.entries[t]) then NotCreated
    else Usage(TaskShare(End(c, run, now), t, mode))
  }

  function FillOne(c: Accounts, mode: nat, i: nat, info: Info): (r: Info)
    requires Shape(c) && i < |c.entries|
  {
    var parts := Deltas(c, mode, false);
    var total := Sum(parts) % U64;
    if !Used(c.entries[i]) then info
    else Info(c.entries[i].status, if total == 0 then info.usage else Share64(parts[i], total))
  }

  function Filled(c: Accounts, mode: nat, infos: seq<Info>): (r: seq<Info>)
    requires Shape(c) && |infos| == |c.entries|
  {
    seq(|infos|, i requires 0 <= i < |infos| => FillOne(c, mode, i, infos[i]))
  }

  /** A record is written exactly for a task in use, and carries that task's status. */
  lemma {:induction false} FilledRecord(c: Accounts, mode: nat, infos: seq<Info>, i: nat)
    requires Shape(c) && |infos| == |c.entries| && i < |infos|
    ensures var r := Filled(c, mode, infos);
      && |r| == |infos|
      && if Used(c.entries[i]) then r[i].status == c.entries[i].status else r[i] == infos[i]
  {
    hide Deltas, Share64, Sum;
  }

  /** What the codes of a task query mean. */
  lemma {:induction false} TaskRetOutcome(c: Accounts, init: bool, run: nat, t: nat, now: nat, mode: Mode)
    requires Shape(c) && run < |c.entries|
    ensures var r := TaskRet(c, init, run, t, now, mode); var known := t < |c.entries| && c.entries[t].id == t && Used(c.entries[t]);
      && (r == NotInit <==> !init) && (r == IdInvalid <==> init && t >= |c.entries|)
      && (r == NotCreated <==> init && t < |c.entries| && !known)
      && (r.Usage? <==> init && known)
  {
    hide TaskShare, Used;
  }

  /** What LOS_AllTaskCpuUsage reports for the tasks in use. */
  function UsagesOf(c: Accounts, infos: seq<Info>): (s: seq<nat>)
    requires |infos| == |c.entries|
  {
    seq(|infos|, i requires 0 <= i < |infos| => if Used(c.entries[i]) then infos[i].usage else 0)
  }

  /** In every reachable state a task query answers with a number from 0 to 1000; it is the task's exact
      share if and only if a thousandfold of its part fits 64 bits. */
  lemma {:induction false} TaskUsageInRange(s: System, t: nat, mode: Mode)
    requires CpupInv(s) && t < |s.c.entries|
    ensures var c := Ended(s).c; Shape(c) && |c.entries| == |s.c.entries|
    ensures var c := Ended(s).c; var parts := Parts(c, mode, false);
      && TaskShare(c, t, mode) <= PRECISION
      && (TaskShare(c, t, mode) == Share(parts[t], Sum(parts)) <==> PRECISION * parts[t] < U64)
  {
    EndedOk(s);
    var r := Ended(s);
    TotalFits(r, mode, false);
    var parts := Parts(r.c, mode, false);
    SumBounds(parts, t);
    hide CpupInv, Parts, Sum, Share, Share64;
    Share64Bound(parts[t], Sum(parts));
  }

  /** So does a system query; with such an idle part it is the share of the time not spent idle, rounded up. */
  lemma {:induction false} SysUsageInRange(s: System, idle: nat, mode: Mode)
    requires CpupInv(s) && idle < |s.c.entries|
    ensures var c := Ended(s).c; Shape(c) && |c.entries| == |s.c.entries|
    ensures var c := Ended(s).c; var parts := Parts(c, mode, true); var busy := Sum(parts) - parts[idle];
      var n := SysShare(c, idle, mode);
      && n <= PRECISION && 0 <= busy
      && (PRECISION * parts[idle] < U64 ==>
            PRECISION * busy <= n * Sum(parts) && (n > 0 ==> (n - 1) * Sum(parts) < PRECISION * busy))
  {
    EndedOk(s);
    var r := Ended(s);
    TotalFits(r, mode, true);
    var parts := Parts(r.c, mode, true);
    SumBounds(parts, idle);
    hide CpupInv, Parts, Sum, Rest64;
    RestBound(parts[idle], Sum(parts));
  }

  lemma {:induction false} RestBound(part: nat, whole: nat)
    requires part <= whole < U64
    ensures var n := Rest64(part, whole);
      && n <= PRECISION
      && (PRECISION * part < U64 ==>
            PRECISION * (whole - part) <= n * whole && (n > 0 ==> (n - 1) * whole < PRECISION * (whole - part)))
  {
    hide Share, Share64;
    Share64Bound(part, whole);
    if whole != 0 {
      RestShare(part, whole);
    }
  }

  lemma {:induction false} RestShare(part: nat, whole: nat)
    requires 0 < whole && part <= whole
    ensures var n := PRECISION - Share(part, whole);
      PRECISION * (whole - part) <= n * whole && (n - 1) * whole < PRECISION * (whole - part)
  {
    hide Ratio;
    var x := Share(part, whole);
    assert PRECISION * (whole - part) == PRECISION * whole - PRECISION * part;
    var n := PRECISION - x;
    assert n * whole == PRECISION * whole - x * whole;
    assert (n - 1) * whole == n * whole - whole;
  }

  lemma {:induction false} FilledShares(c: Accounts, mode: nat, infos: seq<Info>)
    requires Shape(c) && |infos| == |c.entries| && Sum(Deltas(c, mode, false)) % U64 > 0
    ensures UsagesOf(c, Filled(c, mode, infos)) == Shares64(Deltas(c, mode, false), Sum(Deltas(c, mode, false)) % U64)
  {
    hide Sum, Deltas, Share64, Shape;
    var parts := Deltas(c, mode, false);
    forall i | 0 <= i < |infos|
      ensures UsagesOf(c, Filled(c, mode, infos))[i] == Shares64(parts, Sum(parts) % U64)[i]
    {
      Unused(c, mode, i);
    }
  }

  lemma {:induction false} Unused(c: Accounts, mode: nat, t: nat)
    requires Shape(c) && t < |c.entries|
    ensures !Used(c.entries[t]) ==> Deltas(c, mode, false)[t] == 0 && forall n :: Share64(0, n) == 0
  {
    hide Delta, Positions;
    assert c.entries[t] in c.entries;
  }

  /** The usages that LOS_AllTaskCpuUsage writes add up to at most 1000 and, as long as a thousandfold of
      the time since boot fits 64 bits, to no less than the rounding of each explains. */
  lemma {:induction false} AllUsagesSum(s: System, mode: nat, infos: seq<Info>)
    requires CpupInv(s) && |infos| == |s.c.entries|
    ensures var c := Ended(s).c; Shape(c) && |c.entries| == |s.c.entries|
    ensures var c := Ended(s).c; var n := Sum(UsagesOf(c, Filled(c, mode, infos)));
      Sum(Deltas(c, mode, false)) > 0 ==>
        n <= PRECISION && (PRECISION * (s.now - s.origin) < U64 ==> PRECISION - |infos| <= n)
  {
    EndedOk(s);
    var r := Ended(s);
    TotalFits(r, History(mode), false);
    var parts := Deltas(r.c, mode, false);
    var whole := Sum(parts);
    hide CpupInv, Deltas, Filled, UsagesOf, Sum, Share, Share64;
    if whole > 0 {
      FilledShares(r.c, mode, infos);
      SharesSum(parts);
      forall i: nat | i < |parts| ensures parts[i] <= whole && Share64(parts[i], whole) <= Share(parts[i], whole)
      {
        SumBounds(parts, i);
        Share64Bound(parts[i], whole);
      }
      SumMonotone(Shares64(parts, whole), Shares(parts, whole));
      if PRECISION * (s.now - s.origin) < U64 {
        forall i: nat | i < |parts| ensures Share64(parts[i], whole) == Share(parts[i], whole) {
          Share64Bound(parts[i], whole);
        }
        assert Shares64(parts, whole) == Shares(parts, whole);
      }
    }
  }

  /** Whatever the caller's records held, the usages reported add up to at most 1000. */
  ghost predicate SumFits(c: Accounts, mode: nat)
    requires Shape(c)
  {
    forall infos: seq<Info> | |infos| == |c.entries| :: Sum(UsagesOf(c, Filled(c, mode, infos))) <= PRECISION
  }

  ghost predicate AnyUsed(c: Accounts) { exists i :: 0 <= i < |c.entries| && Used(c.entries[i]) }

  /** With nothing counted the records keep what the caller left in them, so the sum is at most 1000 for
      every caller exactly if something was counted or no task is in use. */
  lemma {:induction false} AllUsagesExact(s: System, mode: nat)
    requires CpupInv(s)
    ensures var c := Ended(s).c; Shape(c) && |c.entries| == |s.c.entries|
    ensures var c := Ended(s).c; SumFits(c, mode) <==> Sum(Deltas(c, mode, false)) > 0 || !AnyUsed(c)
  {
    EndedOk(s);
    var c := Ended(s).c;
    TotalFits(Ended(s), History(mode), false);
    hide CpupInv, Deltas, Filled, UsagesOf, Sum, End, AnyUsed;
    if Sum(Deltas(c, mode, false)) == 0 && AnyUsed(c) {
      StaleSum(c, mode);
    } else {
      forall infos: seq<Info> | |infos| == |c.entries| ensures Sum(UsagesOf(c, Filled(c, mode, infos))) <= PRECISION {
        if AnyUsed(c) {
          AllUsagesSum(s, mode, infos);
        } else {
          NoneUsed(c, mode, infos);
        }
      }
    }
  }

  lemma {:induction false} StaleSum(c: Accounts, mode: nat)
    requires Shape(c) && Sum(Deltas(c, mode, false)) == 0 && AnyUsed(c)
    ensures !SumFits(c, mode)
  {
    hide Deltas, Filled, UsagesOf, Sum, Used;
    var i: nat :| i < |c.entries| && Used(c.entries[i]);
    var infos := seq(|c.entries|, _ => Info(0, PRECISION + 1));
    StaleKept(c, mode, infos, i);
  }

  lemma {:induction false} NoneUsed(c: Accounts, mode: nat, infos: seq<Info>)
    requires Shape(c) && |infos| == |c.entries| && !AnyUsed(c)
    ensures Sum(UsagesOf(c, Filled(c, mode, infos))) == 0
  {
    AllZero(UsagesOf(c, Filled(c, mode, infos)));
  }

  lemma {:induction false} AllZero(s: seq<nat>)
    requires forall i :: 0 <= i < |s| ==> s[i] == 0
    ensures Sum(s) == 0
  {
    if s != [] {
      AllZero(s[..|s| - 1]);
    }
  }

  lemma {:induction false} StaleKept(c: Accounts, mode: nat, infos: seq<Info>, i: nat)
    requires Shape(c) && |infos| == |c.entries| && i < |c.entries| && Used(c.entries[i])
    requires Sum(Deltas(c, mode, false)) % U64 == 0
    ensures infos[i].usage <= Sum(UsagesOf(c, Filled(c, mode, infos)))
  {
    hide Sum;
    SumBounds(UsagesOf(c, Filled(c, mode, infos)), i);
  }

  /** Such a state is reached from every boot state by creating one task, with any status. */
  lemma {:induction false} StaleUsage(s: System, t: nat, status: bv16, infos: seq<Info>)
    requires AtBoot(s) && InUse(status) && t < |s.c.entries| == |infos| && infos[t].usage > PRECISION
    ensures CpupInv(s)
    ensures var r := CpupNext(s, Created(t, status));
      && CpupRun(s, [Created(t, status)], r) && CpupInv(r)
      && Shape(Ended(r).c) && |Ended(r).c.entries| == |infos|
      && Sum(UsagesOf(Ended(r).c, Filled(Ended(r).c, 1, infos))) > PRECISION
  {
    FirstTask(s, t, status);
    var r := CpupNext(s, Created(t, status));
    EndedOk(r);
    hide CpupInv, CpupNext, Sum, Deltas, Filled, UsagesOf, End, Used;
    var c := Ended(r).c;
    NothingCounted(c);
    StaleKept(c, 1, infos, t);
  }

  lemma {:induction false} FirstTask(s: System, t: nat, status: bv16)
    requires AtBoot(s) && t < |s.c.entries| && InUse(status)
    ensures CpupInv(s)
    ensures var r := CpupNext(s, Created(t, status));
      && CpupRun(s, [Created(t, status)], r) && CpupInv(r)
      && var es := Ended(r).c.entries;
      && |es| == |s.c.entries| && Used(es[t]) && forall i :: 0 <= i < |es| ==> es[i].history == BLANK.history
  {
    BootOk(s);
    CpupKeeps(s, Created(t, status));
    var r := CpupNext(s, Created(t, status));
    OneStep(s, Created(t, status));
    hide InUse, Sum, Alls, Histories;
    assert forall i :: 0 <= i < |s.c.entries| ==> s.c.entries[i] in s.c.entries;
    assert Ended(r).c.entries == r.c.entries;
  }

  lemma {:induction false} OneStep(s: System, e: Step)
    requires CpupInv(s) && CpupEnabled(s, e)
    ensures CpupRun(s, [e], CpupNext(s, e))
  {
    CpupKeeps(s, e);
    hide CpupInv, CpupEnabled, CpupNext;
    assert [e][1..] == [];
  }

  lemma {:induction false} NothingCounted(c: Accounts)
    requires Shape(c) && forall i :: 0 <= i < |c.entries| ==> c.entries[i].history == BLANK.history
    ensures Sum(Deltas(c, 1, false)) == 0
  {
    AllZero(Deltas(c, 1, false));
  }
}

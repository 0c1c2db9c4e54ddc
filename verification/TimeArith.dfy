/** Conversions between cycles and nanoseconds, and between clock frequencies. */
module TimeArith {
  import opened Basics
  import TickTimer

  const NS: nat := 1_000_000_000  // OS_SYS_NS_PER_SECOND

  /** OS_SYS_CYCLE_TO_NS. */
  function CycleToNs(cycle: nat, freq: nat): (ns: nat)
    requires freq > 0
  {
    cycle / freq * NS + cycle % freq * NS / freq
  }

  /** OS_SYS_NS_TO_CYCLE. */
  function NsToCycle(time: nat, freq: nat): (cycles: nat) {
    time / NS * freq + time % NS * freq / NS
  }

  // ------------------------------------------------------------ division

  lemma {:induction false} DivUnique(a: int, b: int, q: int)
    requires b > 0 && q * b <= a < q * b + b
    ensures a / b == q
  {
    var r := a / b;
    assert r * b <= a < r * b + b by { DivDef(a, b); }
    if r < q {
      MulLe(r + 1, q, b);
    } else if r > q {
      MulLe(q + 1, r, b);
    }
  }

  lemma {:induction false} DivDef(a: int, b: int)
    requires b > 0
    ensures a / b * b <= a < a / b * b + b
  {
    assert a == a / b * b + a % b;
  }

  lemma {:induction false} MulLe(a: int, b: int, c: int)
    requires a <= b && c >= 0
    ensures a * c <= b * c
  {
  }

  lemma {:induction false} MulLess(a: int, b: int, c: int)
    requires a * c < b * c && c > 0
    ensures a < b
  {
    if a >= b {
      MulLe(b, a, c);
    }
  }

  /** Scaling by `m` over `d` in two parts is scaling in one. */
  lemma {:induction false} SplitScale(x: nat, m: nat, d: nat)
    requires d > 0
    ensures x / d * m + x % d * m / d == x * m / d
  {
    var q, r := x / d, x % d;
    var s := r * m / d;
    DivDef(r * m, d);
    assert x == q * d + r;
    assert x * m == q * m * d + r * m by { Regroup(q, d, r, m); }
    assert (q * m + s) * d == q * m * d + s * d;
    DivUnique(x * m, d, q * m + s);
  }

  lemma {:induction false} Regroup(q: int, d: int, r: int, m: int)
    ensures (q * d + r) * m == q * m * d + r * m
  {
    assert q * d * m == q * m * d;
  }

  /** The split forms are the exact quotients, rounded down. */
  lemma {:induction false} CycleToNsExact(cycle: nat, freq: nat)
    requires freq > 0
    ensures CycleToNs(cycle, freq) == cycle * NS / freq
  {
    SplitScale(cycle, NS, freq);
  }

  lemma {:induction false} NsToCycleExact(time: nat, freq: nat)
    ensures NsToCycle(time, freq) == time * freq / NS
  {
    SplitScale(time, freq, NS);
  }

  /** And no intermediate value leaves 64 bits when the result does not. */
  lemma {:induction false} CycleToNsFits(cycle: nat, freq: nat)
    requires 0 < freq < U32 && CycleToNs(cycle, freq) < U64
    ensures cycle / freq * NS < U64 && cycle % freq * NS < U64
  {
    MulLe(cycle % freq, freq, NS);
  }

  /** From cycles to nanoseconds and back nothing is gained and at most one cycle is lost. */
  lemma {:induction false} RoundTrip(cycle: nat, freq: nat)
    requires 0 < freq <= NS
    ensures cycle - 1 <= NsToCycle(CycleToNs(cycle, freq), freq) <= cycle
  {
    CycleToNsExact(cycle, freq);
    var n := cycle * NS / freq;
    NsToCycleExact(n, freq);
    DivDef(cycle * NS, freq);
    DivDef(n * freq, NS);
    var back := n * freq / NS;
    assert back * NS <= cycle * NS;
    assert (cycle - 2) * NS < back * NS by {
      assert back * NS + NS > n * freq;
      assert n * freq + freq > cycle * NS;
      assert (cycle - 2) * NS == cycle * NS - 2 * NS;
    }
    MulLess(cycle - 2, back, NS);
    assert (cycle + 1) * NS == cycle * NS + NS;
    MulLess(back, cycle + 1, NS);
  }

  // ------------------------------------------------------------ sleeping

  /** What a timer of frequency `to` counts for `cycles` at frequency `from`: OsPmTickTimerStop
      programs the low-power timer with it, OsPmTickTimerStart turns the sleep back into cycles. */
  function Rescale(cycles: nat, from: nat, to: nat): (r: nat)
    requires from > 0
  {
    NsToCycle(CycleToNs(cycles, from), to)
  }

  /** The rescaled time is never longer than the original: the low-power timer counts no longer than the
      time left when it was computed, and the clock is not set ahead of the time slept. */
  lemma {:induction false} NeverLonger(cycles: nat, from: nat, to: nat)
    requires from > 0
    ensures Rescale(cycles, from, to) * from <= cycles * to
  {
    CycleToNsExact(cycles, from);
    var n := cycles * NS / from;
    NsToCycleExact(n, to);
    var r := n * to / NS;
    DivDef(cycles * NS, from);
    DivDef(n * to, NS);
    Chained(r, n, cycles, NS, from, to);
  }

  /** And it is shorter by less than one count of the new timer and the counts of one nanosecond. */
  lemma {:induction false} AlmostAsLong(cycles: nat, from: nat, to: nat)
    requires from > 0
    ensures cycles * to * NS < (Rescale(cycles, from, to) + 1) * NS * from + to * from
  {
    CycleToNsExact(cycles, from);
    var n := cycles * NS / from;
    NsToCycleExact(n, to);
    var r := n * to / NS;
    DivDef(cycles * NS, from);
    DivDef(n * to, NS);
    assert n * to < (r + 1) * NS;
    assert cycles * NS < (n + 1) * from by { Distribute(n, 1, from); }
    if to > 0 {
      MulStrict(cycles * NS, (n + 1) * from, to);
      Swap(cycles, NS, to);
      Swap(n + 1, from, to);
      Distribute(n, 1, to);
      Distribute(n * to, to, from);
      MulLe(n * to, (r + 1) * NS, from);
    }
  }

  lemma {:induction false} Distribute(a: int, b: int, c: int)
    ensures (a + b) * c == a * c + b * c
  {
  }

  lemma {:induction false} MulStrict(a: int, b: int, c: int)
    requires a < b && c > 0
    ensures a * c < b * c
  {
  }

  lemma {:induction false} Chained(r: nat, n: nat, cycles: nat, ns: nat, from: nat, to: nat)
    requires ns > 0 && r * ns <= n * to && n * from <= cycles * ns
    ensures r * from <= cycles * to
  {
    var a, b := r * from, cycles * to;
    assert a * ns <= b * ns by {
      MulLe(r * ns, n * to, from);
      MulLe(n * from, cycles * ns, to);
      Swap(r, from, ns);
      Swap(n, to, from);
      Swap(cycles, to, ns);
    }
    Swap(b, 1, ns);
    MulLess(a, b + 1, ns);
  }

  lemma {:induction false} Swap(a: int, b: int, c: int)
    ensures a * b * c == a * c * b
  {
  }

  /** What is left of a time that is rescaled there and back: nothing is gained. */
  lemma {:induction false} ThereAndBack(cycles: nat, sysClock: nat, freq: nat)
    requires sysClock > 0 && freq > 0
    ensures Rescale(Rescale(cycles, sysClock, freq), freq, sysClock) <= cycles
  {
    var there := Rescale(cycles, sysClock, freq);
    NeverLonger(cycles, sysClock, freq);
    NeverLonger(there, freq, sysClock);
    assert (cycles + 1) * freq == cycles * freq + freq;
    MulLess(Rescale(there, freq, sysClock), cycles + 1, freq);
  }

  /** What the two conversions of a sleep lose to rounding. */
  function Lost(cycles: nat, sysClock: nat, freq: nat): (n: int)
    requires sysClock > 0 && freq > 0
  {
    cycles - Rescale(Rescale(cycles, sysClock, freq), freq, sysClock)
  }

  /** The clock after a sleep of the whole programmed time. The programme is computed at `now`, the sleep
      begins at `later`. */
  function WakeTime(now: nat, later: nat, expire: nat, sysClock: nat, freq: nat): (t: nat)
    requires now <= expire && sysClock > 0 && freq > 0
  {
    later + Rescale(Rescale(expire - now, sysClock, freq), freq, sysClock)
  }

  /** It is past the deadline by at most the time between the two clock reads, and is not past it
      exactly if no more time passed between them than the conversions lose. */
  lemma {:induction false} SleepEnd(now: nat, later: nat, expire: nat, sysClock: nat, freq: nat)
    requires now <= later && now <= expire && sysClock > 0 && freq > 0
    ensures 0 <= Lost(expire - now, sysClock, freq)
    ensures WakeTime(now, later, expire, sysClock, freq) <= expire + (later - now)
    ensures WakeTime(now, later, expire, sysClock, freq) <= expire <==> later - now <= Lost(expire - now, sysClock, freq)
  {
    ThereAndBack(expire - now, sysClock, freq);
  }

  /** With equal clocks and ten cycles between the reads the deadline at 2000 is passed by ten. */
  lemma {:induction false} SleepOvershoots()
    ensures WakeTime(1000, 1010, 2000, 1_000_000, 1_000_000) == 2010
  {
    assert CycleToNs(1000, 1_000_000) == 1_000_000;
    assert NsToCycle(1_000_000, 1_000_000) == 1000;
  }

  datatype Sleep = Refused | TickLocked | TimerSet(cycles: nat)
  datatype Wake = Untouched | TickUnlocked | ClockSet(time: nat)

  /** The power manager's share of the tick timer; `sysClock` and `freq` are the frequencies of the
      system clock and of the low-power timer. */
  class PowerManager {
    var normalSleep: bool    // sysMode == LOS_SYS_NORMAL_SLEEP
    var enterSleepTime: nat
    var responseTime: nat    // g_schedResponseTime

    /** OsPmTickTimerStop: `lockable` if the tick timer can be locked, `lowPower` if there is a
        low-power timer; the clock shows `now`, then `later`, and the next deadline is `expire`. */
    method TickTimerStop(lockable: bool, lowPower: bool, now: nat, later: nat, expire: nat, sysClock: nat, freq: nat)
      returns (r: Sleep)
      requires lowPower ==> now < expire
      requires sysClock > 0
      modifies this
      ensures r.Refused? <==> !lockable || old(normalSleep) || (lowPower && Rescale(expire - now, sysClock, freq) == 0)
      ensures r.TimerSet? <==> !r.Refused? && lowPower
      ensures r.TimerSet? ==> r.cycles == Rescale(expire - now, sysClock, freq) && r.cycles * sysClock <= (expire - now) * freq
      ensures r.TimerSet? && freq > 0 && now <= later ==>
                later + Rescale(r.cycles, freq, sysClock) <= expire + (later - now)
      ensures enterSleepTime == if r.TimerSet? then later else old(enterSleepTime)
      ensures responseTime == old(responseTime)
      ensures normalSleep == (old(normalSleep) || (r.Refused? && lockable))
    {
      if !lockable || normalSleep {
        return Refused;
      }
      if lowPower {
        var cycles := Rescale(expire - now, sysClock, freq);
        NeverLonger(expire - now, sysClock, freq);
        if cycles == 0 {
          normalSleep := true;
          return Refused;
        }
        enterSleepTime := later;
        if freq > 0 && now <= later {
          SleepEnd(now, later, expire, sysClock, freq);
        }
        return TimerSet(cycles);
      }
      r := TickLocked;
    }

    /** OsPmTickTimerStart after `slept` cycles of the low-power timer. */
    method TickTimerStart(unlockable: bool, lowPower: bool, slept: nat, sysClock: nat, freq: nat) returns (r: Wake)
      requires freq > 0
      modifies this
      ensures r.Untouched? <==> !unlockable || (lowPower && old(enterSleepTime) == 0)
      ensures r.ClockSet? <==> unlockable && lowPower && old(enterSleepTime) != 0
      ensures r.ClockSet? ==>
                && r.time == old(enterSleepTime) + Rescale(slept, freq, sysClock)
                && (r.time - old(enterSleepTime)) * freq <= slept * sysClock
      ensures enterSleepTime == if r.ClockSet? then 0 else old(enterSleepTime)
      ensures responseTime == if r.ClockSet? then TickTimer.MAX_TIME else old(responseTime)
      ensures normalSleep == old(normalSleep)
    {
      if !unlockable {
        return Untouched;
      }
      if lowPower {
        if enterSleepTime == 0 {
          return Untouched;
        }
        r := ClockSet(enterSleepTime + Rescale(slept, freq, sysClock));
        NeverLonger(slept, freq, sysClock);
        enterSleepTime := 0;
        if 0 <= responseTime {
          responseTime := TickTimer.MAX_TIME;
        }
        return;
      }
      r := TickUnlocked;
    }
  }

  // ------------------------------------------------------------ changing the clock

  /** OsTimeConvertFreq. */
  function ConvertFreq(time: nat, oldFreq: nat, newFreq: nat): (r: nat)
    requires oldFreq > 0 && newFreq > 0
  {
    if oldFreq >= newFreq then
      RatioPositive(oldFreq, newFreq);
      time / (oldFreq / newFreq)
    else time * (newFreq / oldFreq)
  }

  lemma {:induction false} RatioPositive(a: nat, b: nat)
    requires a >= b > 0
    ensures a / b >= 1
  {
    DivDef(a, b);
    if a / b <= 0 {
      MulLe(a / b, 0, b);
    }
  }

  /** Converting keeps the order of times. */
  lemma {:induction false} ConvertMonotone(s: nat, t: nat, oldFreq: nat, newFreq: nat)
    requires oldFreq > 0 && newFreq > 0 && s <= t
    ensures ConvertFreq(s, oldFreq, newFreq) <= ConvertFreq(t, oldFreq, newFreq)
  {
    if oldFreq >= newFreq {
      RatioPositive(oldFreq, newFreq);
      var q := oldFreq / newFreq;
      DivDef(s, q);
      DivDef(t, q);
      assert (t / q + 1) * q == t / q * q + q;
      MulLess(s / q, t / q + 1, q);
    } else {
      MulLe(s, t, newFreq / oldFreq);
    }
  }

  /** Converting keeps real time, for all times, exactly if one frequency divides the other. */
  lemma {:induction false} ConvertExact(oldFreq: nat, newFreq: nat)
    requires oldFreq > 0 && newFreq > 0
    ensures (forall t: nat :: ConvertFreq(t, oldFreq, newFreq) == t * newFreq / oldFreq) <==>
            (if oldFreq >= newFreq then oldFreq % newFreq == 0 else newFreq % oldFreq == 0)
  {
    if oldFreq >= newFreq {
      ConvertDownExact(oldFreq, newFreq);
    } else {
      ConvertUpExact(oldFreq, newFreq);
    }
  }

  lemma {:induction false} ConvertDownExact(oldFreq: nat, newFreq: nat)
    requires oldFreq >= newFreq > 0
    ensures (forall t: nat :: ConvertFreq(t, oldFreq, newFreq) == t * newFreq / oldFreq) <==> oldFreq % newFreq == 0
  {
    RatioPositive(oldFreq, newFreq);
    var q, r := oldFreq / newFreq, oldFreq % newFreq;
    assert oldFreq == q * newFreq + r;
    if r == 0 {
      forall t: nat ensures ConvertFreq(t, oldFreq, newFreq) == t * newFreq / oldFreq {
        DownExactAt(t, q, oldFreq, newFreq);
      }
    } else {
      DownFails(q, oldFreq, newFreq);
      assert ConvertFreq(oldFreq * q, oldFreq, newFreq) == oldFreq;
    }
  }

  lemma {:induction false} DownExactAt(t: nat, q: nat, oldFreq: nat, newFreq: nat)
    requires q > 0 && newFreq > 0 && oldFreq == q * newFreq
    ensures oldFreq > 0 && t / q == t * newFreq / oldFreq
  {
    var d := t / q;
    DivDef(t, q);
    MulLe(d * q, t, newFreq);
    MulLe(t + 1, d * q + q, newFreq);
    MulLe(1, q, newFreq);
    assert d * q * newFreq == d * oldFreq && (t + 1) * newFreq == t * newFreq + newFreq && (d * q + q) * newFreq == d * oldFreq + oldFreq;
    DivUnique(t * newFreq, oldFreq, d);
  }

  lemma {:induction false} DownFails(q: nat, oldFreq: nat, newFreq: nat)
    requires q > 0 && oldFreq > 0
    ensures oldFreq * q / q == oldFreq && oldFreq * q * newFreq / oldFreq == q * newFreq
  {
    DivUnique(oldFreq * q, q, oldFreq);
    assert oldFreq * q * newFreq == q * newFreq * oldFreq;
    DivUnique(oldFreq * q * newFreq, oldFreq, q * newFreq);
  }

  lemma {:induction false} ConvertUpExact(oldFreq: nat, newFreq: nat)
    requires newFreq > oldFreq > 0
    ensures (forall t: nat :: ConvertFreq(t, oldFreq, newFreq) == t * newFreq / oldFreq) <==> newFreq % oldFreq == 0
  {
    var q, r := newFreq / oldFreq, newFreq % oldFreq;
    assert newFreq == q * oldFreq + r;
    if r == 0 {
      forall t: nat ensures ConvertFreq(t, oldFreq, newFreq) == t * newFreq / oldFreq {
        assert t * newFreq == t * q * oldFreq;
        DivUnique(t * newFreq, oldFreq, t * q);
      }
    } else {
      DivUnique(oldFreq * newFreq, oldFreq, newFreq);
      assert ConvertFreq(oldFreq, oldFreq, newFreq) == oldFreq * q;
    }
  }
}

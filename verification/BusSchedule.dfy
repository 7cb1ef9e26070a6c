/** The two clocks of the bus worker: when a write is due, and when the next cycle starts. */
module BusSchedule {
  import opened Arithmetic

  // The slot of a time on the grid that starts at t0 with the given period.
  function Slot(t0: int, period: int, t: int): int
    requires period > 0
  {
    (t - t0) / period
  }

  // The write deadline after a cycle that started at `start`.
  function NextWrite(deadline: int, period: int, start: int): (d: int)
    requires period > 0
    ensures start < d && (d == deadline || d - period <= start)
  {
    if start < deadline then deadline
    else deadline + period * (Slot(deadline, period, start) + 1)
  }

  // The do-while loop that advances next_write past the start of the cycle.
  method AdvanceNextWrite(deadline: int, period: int, start: int) returns (d: int)
    requires period > 0 && start >= deadline
    ensures d == NextWrite(deadline, period, start)
  {
    d := deadline + period;
    var passed := 1;
    while d <= start
      invariant d == deadline + period * passed && d - period <= start
      decreases start - d
    {
      d := d + period;
      Distribute(period, passed, 1);
      passed := passed + 1;
    }
    Distribute(period, passed - 1, 1);
    QuotientUnique(start - deadline, period, passed - 1, start - (d - period));
  }

  // The next cycle's start after one that ended at `now`: the grid point after the last, unless
  // that is more than a period ago.
  function NextCycle(scheduled: int, period: int, now: int): int
    requires period > 0
  {
    var next := scheduled + period;
    if now - next > period then next + period * (Slot(next, period, now) + 1) else next
  }

  // The catch-up stays on the grid, never falls more than one period behind, and where it skips
  // it lands on the first grid point after now; on time it just goes on by one period.
  lemma CatchUp(t0: int, period: int, scheduled: int, now: int)
    requires period > 0 && (scheduled - t0) % period == 0
    ensures var next := NextCycle(scheduled, period, now);
            && (next - t0) % period == 0 && next >= scheduled + period
            && now - next <= period
            && (next != scheduled + period ==> now < next <= now + period)
            && (next == scheduled + period <==> now - scheduled <= 2 * period)
  {
    var m := (scheduled - t0) / period;
    var next := scheduled + period;
    Distribute(period, m, 1);
    QuotientUnique(next - t0, period, m + 1, 0);
    if now - next > period {
      var k := Slot(next, period, now) + 1;
      ProductAtLeast(period, k);
      Distribute(period, m + 1, k);
      QuotientUnique(next + period * k - t0, period, m + 1 + k, 0);
      Distribute(period, k - 1, 1);
    }
  }

  // ------------------------------------------------------------------------------- write slots

  // The deadline in force when cycle n starts, if cycles start at the given times.
  function Deadline(t0: int, period: int, starts: seq<int>, n: nat): int
    requires period > 0 && n <= |starts|
  {
    if n == 0 then t0 else NextWrite(Deadline(t0, period, starts, n - 1), period, starts[n - 1])
  }

  predicate Due(t0: int, period: int, starts: seq<int>, n: nat)
    requires period > 0 && n < |starts|
  {
    starts[n] >= Deadline(t0, period, starts, n)
  }

  ghost predicate Rising(t0: int, starts: seq<int>) {
    && (forall i :: 0 <= i < |starts| ==> t0 <= starts[i])
    && (forall i, j :: 0 <= i <= j < |starts| ==> starts[i] <= starts[j])
  }

  // After a cycle the deadline is the end of that cycle's slot.
  lemma {:induction false} DeadlineEndsSlot(t0: int, period: int, starts: seq<int>, n: nat)
    requires period > 0 && n < |starts| && Rising(t0, starts)
    ensures Deadline(t0, period, starts, n + 1) == t0 + period * (Slot(t0, period, starts[n]) + 1)
  {
    if n == 0 {
    } else {
      DeadlineEndsSlot(t0, period, starts, n - 1);
      NextEndsSlot(t0, period, starts[n - 1], starts[n]);
    }
  }

  lemma NextEndsSlot(t0: int, period: int, last: int, start: int)
    requires period > 0 && t0 <= last <= start
    ensures var deadline := t0 + period * (Slot(t0, period, last) + 1);
            && NextWrite(deadline, period, start) == t0 + period * (Slot(t0, period, start) + 1)
            && (start >= deadline <==> Slot(t0, period, start) > Slot(t0, period, last))
  {
    hide NextWrite, Slot;
    var a, b := Slot(t0, period, last), Slot(t0, period, start);
    var deadline := t0 + period * (a + 1);
    SlotMonotone(t0, period, last, start);
    SlotReached(t0, period, a + 1, start);
    if b > a {
      SlotShift(t0, period, a + 1, start);
      NextWriteLate(deadline, period, start);
      Distribute(period, a + 1, b - a);
    } else {
      NextWriteEarly(deadline, period, start);
    }
  }

  lemma SlotReached(t0: int, period: int, m: int, t: int)
    requires period > 0
    ensures t >= t0 + period * m <==> Slot(t0, period, t) >= m
  {
    var q := Slot(t0, period, t);
    Distribute(period, q, 1);
    if q >= m {
      ProductMonotone(period, m, q);
    } else {
      ProductMonotone(period, q + 1, m);
    }
  }

  lemma SlotShift(t0: int, period: int, m: int, t: int)
    requires period > 0
    ensures Slot(t0 + period * m, period, t) == Slot(t0, period, t) - m
  {
    var q := Slot(t0, period, t);
    Distribute(period, m, q - m);
    QuotientUnique(t - (t0 + period * m), period, q - m, (t - t0) % period);
  }

  lemma NextWriteLate(deadline: int, period: int, start: int)
    requires period > 0 && start >= deadline
    ensures NextWrite(deadline, period, start) == deadline + period * (Slot(deadline, period, start) + 1)
  {
  }

  lemma NextWriteEarly(deadline: int, period: int, start: int)
    requires period > 0 && start < deadline
    ensures NextWrite(deadline, period, start) == deadline
  {
  }

  lemma ProductMonotone(d: int, a: int, b: int)
    requires d > 0 && a <= b
    ensures d * a <= d * b
  {
    Distribute(d, a, b - a);
    assert d * (b - a) >= 0;
  }

  lemma SlotMonotone(t0: int, period: int, a: int, b: int)
    requires period > 0 && a <= b
    ensures Slot(t0, period, a) <= Slot(t0, period, b)
  {
    var p := Slot(t0, period, a);
    SlotReached(t0, period, p, a);
    SlotReached(t0, period, p, b);
  }

  // A cycle is write-due exactly when it is the first to start in its slot.
  lemma DueIsFirstInSlot(t0: int, period: int, starts: seq<int>, n: nat)
    requires period > 0 && n < |starts| && Rising(t0, starts)
    ensures Due(t0, period, starts, n) <==>
              forall m :: 0 <= m < n ==> Slot(t0, period, starts[m]) != Slot(t0, period, starts[n])
  {
    hide Slot;
    if n > 0 {
      DeadlineEndsSlot(t0, period, starts, n - 1);
      NextEndsSlot(t0, period, starts[n - 1], starts[n]);
      SlotMonotone(t0, period, starts[n - 1], starts[n]);
      forall m | 0 <= m < n ensures Slot(t0, period, starts[m]) <= Slot(t0, period, starts[n - 1]) {
        SlotMonotone(t0, period, starts[m], starts[n - 1]);
      }
    }
  }

  function DueCount(t0: int, period: int, starts: seq<int>, n: nat): nat
    requires period > 0 && n <= |starts|
  {
    if n == 0 then 0
    else DueCount(t0, period, starts, n - 1) + if Due(t0, period, starts, n - 1) then 1 else 0
  }

  lemma {:induction false} DueOncePerSlot(t0: int, period: int, starts: seq<int>, n: nat)
    requires period > 0 && 0 < n <= |starts| && Rising(t0, starts)
    ensures DueCount(t0, period, starts, n) <= Slot(t0, period, starts[n - 1]) + 1
  {
    hide Slot, Deadline;
    if n == 1 {
      SlotReached(t0, period, 0, starts[0]);
      assert DueCount(t0, period, starts, 0) == 0;
    } else {
      DueOncePerSlot(t0, period, starts, n - 1);
      SlotMonotone(t0, period, starts[n - 2], starts[n - 1]);
      DueIsFirstInSlot(t0, period, starts, n - 1);
    }
  }

  // So by any time t no more writes were due than slots had begun.
  lemma AtMostOnePerSlot(t0: int, period: int, starts: seq<int>, n: nat, t: int)
    requires period > 0 && n <= |starts| && Rising(t0, starts) && t0 <= t
    requires n > 0 ==> starts[n - 1] <= t
    ensures DueCount(t0, period, starts, n) <= (t - t0) / period + 1
  {
    hide Deadline;
    if n > 0 {
      DueOncePerSlot(t0, period, starts, n);
      SlotMonotone(t0, period, starts[n - 1], t);
    } else {
      SlotReached(t0, period, 0, t);
    }
  }
}

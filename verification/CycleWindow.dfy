/** Start and end of the current traffic cycle (model/rule.go:184-262). Times are whole seconds; `step`
    is the calendar step of one cycle interval (AddDate), known only to move forward. */
module CycleWindow {
  import opened GoIntegers

  type Step = int -> int

  ghost predicate MovesForward(step: Step) {
    forall t {:trigger step(t)} :: step(t) > t
  }

  /** The k-th cycle boundary after `start`. */
  function Boundary(start: int, step: Step, k: nat): int {
    if k == 0 then start else step(Boundary(start, step, k - 1))
  }

  /** `from` starts the current cycle: it is a boundary, and `now` lies after it (or at the very first
      one) and not after the next one. */
  ghost predicate IsCycle(cycleStart: int, step: Step, now: int, from: int, to: int) {
    exists k: nat ::
      && from == Boundary(cycleStart, step, k)
      && to == step(from)
      && (k > 0 ==> from < now)
      && now <= to
  }

  lemma {:induction false} BoundaryAscends(start: int, step: Step, j: nat, k: nat)
    requires MovesForward(step) && j < k
    ensures Boundary(start, step, j) < Boundary(start, step, k)
  {
    if j + 1 < k {
      BoundaryAscends(start, step, j, k - 1);
    }
    assert Boundary(start, step, k) == step(Boundary(start, step, k - 1));
  }

  /** There is only one such cycle, and `now` lies in it. */
  lemma CycleIsUnique(cycleStart: int, step: Step, now: int, from: int, to: int, from': int, to': int)
    requires MovesForward(step) && cycleStart <= now
    requires IsCycle(cycleStart, step, now, from, to) && IsCycle(cycleStart, step, now, from', to')
    ensures from == from' && to == to'
    ensures from <= now <= to
  {
    var j: nat :| from == Boundary(cycleStart, step, j) && to == step(from) && (j > 0 ==> from < now) && now <= to;
    var k: nat :| from' == Boundary(cycleStart, step, k) && to' == step(from') && (k > 0 ==> from' < now) && now <= to';
    if j < k {
      NoLaterCycle(cycleStart, step, now, j, k);
    } else if k < j {
      NoLaterCycle(cycleStart, step, now, k, j);
    }
  }

  lemma NoLaterCycle(start: int, step: Step, now: int, j: nat, k: nat)
    requires MovesForward(step) && j < k && now <= step(Boundary(start, step, j))
    ensures now <= Boundary(start, step, k)
  {
    assert Boundary(start, step, j + 1) == step(Boundary(start, step, j));
    if j + 1 < k {
      BoundaryAscends(start, step, j + 1, k);
    }
  }

  /** The loop shared by both functions for the calendar units, with both of its results. */
  method CalendarCycle(cycleStart: int, step: Step, now: int) returns (startTime: int, nextTime: int)
    requires MovesForward(step)
    ensures IsCycle(cycleStart, step, now, startTime, nextTime)
  {
    startTime := cycleStart;
    nextTime := step(startTime);
    ghost var k: nat := 0;
    while now > nextTime
      invariant startTime == Boundary(cycleStart, step, k) && nextTime == step(startTime)
      invariant k > 0 ==> startTime < now
      decreases now - nextTime
    {
      assert Boundary(cycleStart, step, k + 1) == step(startTime);
      startTime := nextTime;
      nextTime := step(nextTime);
      k := k + 1;
    }
  }

  /** Where the step goes backwards, as AddDate does for an interval of 2^63 and more, which turns negative
      in the conversion to an int, the loop never ends: every boundary lies before now. */
  lemma {:induction false} BackwardNeverEnds(cycleStart: int, step: Step, now: int, k: nat)
    requires forall t {:trigger step(t)} :: step(t) < t
    requires cycleStart <= now
    ensures now > step(Boundary(cycleStart, step, k))
    ensures Boundary(cycleStart, step, k) <= cycleStart
  {
    if k > 0 {
      BackwardNeverEnds(cycleStart, step, now, k - 1);
    }
  }

  // ---- the hour unit's closed form

  const HOUR := 3600

  /** 3600 * int64(interval), as 64 bits hold it. */
  function HourLength(interval: nat): int {
    Signed(HOUR * interval)
  }

  /** The length is that of the interval exactly up to the largest int, and zero exactly for multiples of
      2^60 hours. */
  lemma HourLengthMeans(interval: nat)
    ensures HourLength(interval) == HOUR * interval <==> HOUR * interval <= MAX_INT
    ensures HourLength(interval) == 0 <==> interval % POWER_60 == 0
  {
    SignedInRange(HOUR * interval);
    ZeroLength(interval);
  }

  const POWER_60 := 0x1000_0000_0000_0000

  lemma ZeroLength(interval: nat)
    ensures (HOUR * interval) % (MAX_UINT + 1) == 0 <==> interval % POWER_60 == 0
  {
    var q, r := interval / POWER_60, interval % POWER_60;
    assert HOUR * interval == 225 * q * (MAX_UINT + 1) + HOUR * r;
    ModuloMultiple(HOUR * r, 225 * q, MAX_UINT + 1);
    if (HOUR * r) % (MAX_UINT + 1) == 0 {
      var c := HOUR * r / (MAX_UINT + 1);
      assert 225 * r == c * POWER_60;
      // INVERSE is that of 225 modulo 2^60.
      assert r == INVERSE * (225 * r) - FACTOR * POWER_60 * r;
      assert r == (INVERSE * c - FACTOR * r) * POWER_60;
      ModuloMultiple(0, INVERSE * c - FACTOR * r, POWER_60);
    }
  }

  const INVERSE := 1147797409030816545
  const FACTOR := 224

  lemma ModuloMultiple(x: int, k: int, n: int)
    requires n > 0
    ensures (k * n + x) % n == x % n
  {
    assert x == x / n * n + x % n;
    assert k * n + x == (k + x / n) * n + x % n;
    RemainderIs(k * n + x, k + x / n, x % n, n);
  }

  lemma RemainderIs(x: int, q: int, r: int, n: int)
    requires n > 0 && x == q * n + r && 0 <= r < n
    ensures x % n == r
  {
    var q' := x / n;
    assert x == q' * n + x % n;
    assert (q - 1) * n == q * n - n && (q' - 1) * n == q' * n - n;
    MulLess(q - 1, q', n);
    MulLess(q' - 1, q, n);
  }

  /** The closed form with Go's arithmetic. */
  function HourCycleStart(cycleStart: int, interval: nat, now: int): int
    requires HourLength(interval) != 0
  {
    cycleStart + Quotient(now - cycleStart, HourLength(interval)) * HourLength(interval)
  }

  function HourCycleEnd(cycleStart: int, interval: nat, now: int): int
    requires HourLength(interval) != 0
  {
    HourCycleStart(cycleStart, interval, now) + HourLength(interval)
  }

  function HourStep(interval: nat): Step {
    t => t + HOUR * interval
  }

  lemma {:induction false} HourBoundary(start: int, interval: nat, k: nat)
    ensures Boundary(start, HourStep(interval), k) == start + k * (HOUR * interval)
  {
    if k > 0 {
      HourBoundary(start, interval, k - 1);
      assert k * (HOUR * interval) == (k - 1) * (HOUR * interval) + HOUR * interval;
    } else {
      assert 0 * (HOUR * interval) == 0;
    }
  }

  /** While the length fits an int, the closed form finds the last boundary not after now. */
  lemma HourCycleBounds(cycleStart: int, interval: nat, now: int)
    requires interval >= 1 && HOUR * interval <= MAX_INT && cycleStart <= now
    ensures HourLength(interval) == HOUR * interval
    ensures var k := (now - cycleStart) / (HOUR * interval);
      k >= 0 && HourCycleStart(cycleStart, interval, now) == Boundary(cycleStart, HourStep(interval), k)
    ensures HourCycleStart(cycleStart, interval, now) <= now < HourCycleEnd(cycleStart, interval, now)
  {
    HourLengthMeans(interval);
    hide HourLength;
    var length := HOUR * interval;
    var d := now - cycleStart;
    DivMod(d, length);
    HourBoundary(cycleStart, interval, d / length);
    hide Boundary;
    assert Quotient(d, length) == d / length;
  }

  /** Whatever the length has become in 64 bits: the start is the last boundary of cycles of that many
      seconds, but the end lies after now exactly if the length is positive. */
  lemma HourCycleAnyLength(cycleStart: int, interval: nat, now: int)
    requires HourLength(interval) != 0 && cycleStart <= now
    ensures var length := HourLength(interval);
      var start, end := HourCycleStart(cycleStart, interval, now), HourCycleEnd(cycleStart, interval, now);
      && cycleStart <= start <= now < start + (if length > 0 then length else -length)
      && (now < end <==> length > 0)
  {
    var d, length := now - cycleStart, HourLength(interval);
    var n := if length > 0 then length else -length;
    hide HourLength;
    DivMod(d, n);
    assert Quotient(d, length) * length == d / n * n by {
      assert Quotient(d, length) == if length > 0 then d / n else -(d / n);
    }
    MulMonotone(0, d / n, n);
  }

  /** Whether now is a whole number of cycles, and at least one, after the start. */
  predicate OnBoundary(cycleStart: int, interval: nat, now: int)
    requires interval >= 1
  {
    now > cycleStart && (now - cycleStart) % (HOUR * interval) == 0
  }

  lemma OnBoundaryMeans(cycleStart: int, interval: nat, now: int)
    requires interval >= 1 && HOUR * interval <= MAX_INT && cycleStart <= now
    requires HourLength(interval) == HOUR * interval
    ensures OnBoundary(cycleStart, interval, now) <==>
            now > cycleStart && HourCycleStart(cycleStart, interval, now) == now
  {
    hide HourLength;
    var length, d := HOUR * interval, now - cycleStart;
    DivMod(d, length);
  }

  /** While the length fits an int, the closed form gives the cycle of the loop form, except exactly on
      a boundary after the first: there it gives the cycle that begins now instead of the one that ends now. */
  lemma HourFormsAgree(cycleStart: int, interval: nat, now: int)
    requires interval >= 1 && HOUR * interval <= MAX_INT && cycleStart <= now
    ensures HourLength(interval) == HOUR * interval
    ensures var from, to := HourCycleStart(cycleStart, interval, now), HourCycleEnd(cycleStart, interval, now);
      && (IsCycle(cycleStart, HourStep(interval), now, from, to) <==> !OnBoundary(cycleStart, interval, now))
      && (OnBoundary(cycleStart, interval, now) ==>
            IsCycle(cycleStart, HourStep(interval), now, from - HOUR * interval, to - HOUR * interval))
  {
    var length, step := HOUR * interval, HourStep(interval);
    var k := (now - cycleStart) / length;
    HourCycleBounds(cycleStart, interval, now);
    var from := HourCycleStart(cycleStart, interval, now);
    OnBoundaryMeans(cycleStart, interval, now);
    hide OnBoundary, HourLength;
    assert MovesForward(step);
    assert Boundary(cycleStart, step, 0) == cycleStart;
    if OnBoundary(cycleStart, interval, now) {
      assert k > 0;
      var before := Boundary(cycleStart, step, k - 1);
      assert from == step(before);
      BoundaryAscends(cycleStart, step, k - 1, k);
      assert IsCycle(cycleStart, step, now, before, from);
      if IsCycle(cycleStart, step, now, from, from + length) {
        CycleIsUnique(cycleStart, step, now, from, from + length, before, from);
      }
    } else {
      assert k > 0 ==> from < now;
    }
  }

  datatype CycleUnit = Calendar(step: Step) | Hours

  /** The calendar step must move forward; an interval of 2^63 and more makes it go backwards. */
  method GetTransferDurationStart(unit: CycleUnit, cycleStart: int, interval: nat, now: int)
    returns (panicked: bool, startTime: int)
    requires interval >= 1 && cycleStart <= now && (unit.Calendar? ==> MovesForward(unit.step))
    ensures panicked <==> unit.Hours? && interval % POWER_60 == 0
    ensures unit.Calendar? ==> IsCycle(cycleStart, unit.step, now, startTime, unit.step(startTime))
    ensures unit.Hours? && !panicked ==>
              HourLength(interval) != 0 && startTime == HourCycleStart(cycleStart, interval, now)
    ensures unit.Hours? && HOUR * interval <= MAX_INT ==>
              && !panicked && startTime <= now < startTime + 3600 * interval
              && exists k: nat :: startTime == Boundary(cycleStart, HourStep(interval), k)
  {
    match unit
    case Calendar(step) =>
      var nextTime;
      startTime, nextTime := CalendarCycle(cycleStart, step, now);
      panicked := false;
    case Hours =>
      HourLengthMeans(interval);
      if HOUR * interval <= MAX_INT {
        HourCycleBounds(cycleStart, interval, now);
      }
      var length := HourLength(interval);
      if length == 0 {
        return true, 0;
      }
      startTime := cycleStart + Quotient(now - cycleStart, length) * length;
      panicked := false;
  }

  method GetTransferDurationEnd(unit: CycleUnit, cycleStart: int, interval: nat, now: int)
    returns (panicked: bool, nextTime: int)
    requires interval >= 1 && cycleStart <= now && (unit.Calendar? ==> MovesForward(unit.step))
    ensures panicked <==> unit.Hours? && interval % POWER_60 == 0
    ensures unit.Calendar? ==> now <= nextTime && exists from :: IsCycle(cycleStart, unit.step, now, from, nextTime)
    ensures unit.Hours? && !panicked ==>
              HourLength(interval) != 0 && nextTime == HourCycleEnd(cycleStart, interval, now)
    ensures unit.Hours? && !panicked ==> (now < nextTime <==> HourLength(interval) > 0)
    ensures unit.Hours? && HOUR * interval <= MAX_INT ==>
              && !panicked
              && exists k: nat :: nextTime == Boundary(cycleStart, HourStep(interval), k) + HOUR * interval
  {
    match unit
    case Calendar(step) =>
      var startTime;
      startTime, nextTime := CalendarCycle(cycleStart, step, now);
      panicked := false;
    case Hours =>
      HourLengthMeans(interval);
      if HOUR * interval <= MAX_INT {
        HourCycleBounds(cycleStart, interval, now);
      }
      var length := HourLength(interval);
      if length == 0 {
        return true, 0;
      }
      HourCycleAnyLength(cycleStart, interval, now);
      var startTime := cycleStart + Quotient(now - cycleStart, length) * length;
      nextTime := startTime + length;
      panicked := false;
  }
}

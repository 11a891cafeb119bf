/**
 The controller that doubles the global channel capacity after a lagging interval and halves it after ten calm ones.
 */
module AutoTuning {
  import opened Coalescing
  import opened Wrappers

  const MIN_CAPACITY: nat := 256
  const MAX_CAPACITY: nat := 65536
  const DEFAULT_CAPACITY: nat := 1024
  const SHRINK_AFTER_CALM_INTERVALS: nat := 10

  /** The stored capacity, the run of calm intervals, and the last reading of the lag counter. */
  datatype Tuner = Tuner(capacity: nat, calm: nat, lastLagged: nat)

  function Min(a: nat, b: nat): nat { if a < b then a else b }
  function Max(a: nat, b: nat): nat { if a < b then b else a }

  ghost predicate Admissible(t: Tuner) {
    MIN_CAPACITY <= t.capacity <= MAX_CAPACITY && t.calm < SHRINK_AFTER_CALM_INTERVALS
  }

  /** One interval: `delta` saturates at zero. */
  function Tick(t: Tuner, lagged: nat): Tuner {
    if lagged > t.lastLagged then
      Tuner(Min(2 * t.capacity, MAX_CAPACITY), 0, lagged)
    else if t.calm + 1 >= SHRINK_AFTER_CALM_INTERVALS then
      Tuner(Max(t.capacity / 2, MIN_CAPACITY), 0, lagged)
    else
      Tuner(t.capacity, t.calm + 1, lagged)
  }

  function Ticks(t: Tuner, readings: seq<nat>): Tuner
    decreases |readings|
  {
    if readings == [] then t else Ticks(Tick(t, readings[0]), readings[1..])
  }

  function Pow2(k: nat): nat {
    if k == 0 then 1 else 2 * Pow2(k - 1)
  }

  /** Capacity never leaves its bounds, whatever the lag counter does. */
  lemma {:induction false} CapacityStaysInBounds(t: Tuner, readings: seq<nat>)
    requires Admissible(t)
    ensures Admissible(Ticks(t, readings))
    decreases |readings|
  {
    if readings != [] {
      CapacityStaysInBounds(Tick(t, readings[0]), readings[1..]);
    }
  }

  /** Every reading exceeds the one before it. */
  predicate AllLagging(last: nat, readings: seq<nat>)
    decreases |readings|
  {
    readings == [] || (readings[0] > last && AllLagging(readings[0], readings[1..]))
  }

  /** No reading exceeds the one before it. */
  predicate AllCalm(last: nat, readings: seq<nat>)
    decreases |readings|
  {
    readings == [] || (readings[0] <= last && AllCalm(readings[0], readings[1..]))
  }

  lemma {:induction false} Pow2Doubles(c: nat, k: nat)
    ensures 2 * c * Pow2(k) == c * Pow2(k + 1)
    ensures Pow2(k) >= 1
  {
    if k > 0 { Pow2Doubles(c, k - 1); }
  }

  /** A run of k lagging intervals doubles capacity k times, up to the ceiling. */
  lemma {:induction false} LaggingRunDoubles(t: Tuner, readings: seq<nat>)
    requires Admissible(t) && AllLagging(t.lastLagged, readings)
    ensures Ticks(t, readings).capacity == Min(MAX_CAPACITY, t.capacity * Pow2(|readings|))
    ensures readings != [] ==> Ticks(t, readings).calm == 0 && Ticks(t, readings).lastLagged == readings[|readings| - 1]
    decreases |readings|
  {
    if readings != [] {
      var k := |readings| - 1;
      var t' := Tick(t, readings[0]);
      LaggingRunDoubles(t', readings[1..]);
      Pow2Doubles(t.capacity, k);
      if 2 * t.capacity > MAX_CAPACITY {
        assert MAX_CAPACITY * Pow2(k) >= MAX_CAPACITY;
        assert 2 * t.capacity * Pow2(k) >= 2 * t.capacity by {
          assert (Pow2(k) - 1) * (2 * t.capacity) >= 0;
        }
      }
    }
  }

  /** `n` successive halvings, each stopping at the floor. */
  function Halved(capacity: nat, n: nat): nat
    decreases n
  {
    if n == 0 then capacity else Halved(Max(capacity / 2, MIN_CAPACITY), n - 1)
  }

  /** A run of calm intervals halves capacity once for every ten, counting those already behind it. */
  lemma {:induction false} CalmRunHalves(t: Tuner, readings: seq<nat>)
    requires Admissible(t) && AllCalm(t.lastLagged, readings)
    ensures var n := t.calm + |readings|;
            && Ticks(t, readings).capacity == Halved(t.capacity, n / 10)
            && Ticks(t, readings).calm == n % 10
            && (readings != [] ==> Ticks(t, readings).lastLagged == readings[|readings| - 1])
    decreases |readings|
  {
    if readings != [] {
      CalmRunHalves(Tick(t, readings[0]), readings[1..]);
      if t.calm == 9 {
        var m := |readings| - 1;
        assert (10 + m) / 10 == 1 + m / 10 && (10 + m) % 10 == m % 10;
      }
    }
  }

  lemma {:induction false} HalvedIsShift(capacity: nat, n: nat)
    requires capacity >= MIN_CAPACITY
    ensures MIN_CAPACITY <= Halved(capacity, n)
    ensures capacity <= MIN_CAPACITY * Pow2(n) ==> Halved(capacity, n) == MIN_CAPACITY
  {
    if n > 0 {
      HalvedIsShift(Max(capacity / 2, MIN_CAPACITY), n - 1);
      Pow2Doubles(MIN_CAPACITY, n - 1);
      assert MIN_CAPACITY * Pow2(n) == 2 * (MIN_CAPACITY * Pow2(n - 1));
    }
  }

  lemma {:induction false} Pow2Grows(m: nat, n: nat)
    requires m <= n
    ensures Pow2(m) <= Pow2(n)
  {
    if m < n { Pow2Grows(m, n - 1); }
  }

  /** From any admissible state, eighty calm intervals bring capacity down to the floor. */
  lemma EightyCalmIntervalsReachTheFloor(t: Tuner, readings: seq<nat>)
    requires Admissible(t) && AllCalm(t.lastLagged, readings) && |readings| >= 80
    ensures Ticks(t, readings).capacity == MIN_CAPACITY
  {
    CalmRunHalves(t, readings);
    var n := (t.calm + |readings|) / 10;
    assert n >= 8;
    Pow2Grows(8, n);
    assert Pow2(8) == 256;
    HalvedIsShift(t.capacity, n);
  }

  lemma {:induction false} TicksCompose(t: Tuner, first: seq<nat>, second: seq<nat>)
    ensures Ticks(t, first + second) == Ticks(Ticks(t, first), second)
    decreases |first|
  {
    if first == [] {
      assert first + second == second;
    } else {
      assert (first + second)[1..] == first[1..] + second;
      TicksCompose(Tick(t, first[0]), first[1..], second);
    }
  }

  /** Lagging intervals followed by calm ones: lag starts the count of calm intervals over, and calm is measured against
      the last reading. Any run is a sequence of such pieces. */
  lemma LagThenCalm(t: Tuner, lagging: seq<nat>, calm: seq<nat>)
    requires Admissible(t) && lagging != [] && AllLagging(t.lastLagged, lagging)
    requires AllCalm(lagging[|lagging| - 1], calm)
    ensures var t', peak := Ticks(t, lagging + calm), Min(MAX_CAPACITY, t.capacity * Pow2(|lagging|));
            && t'.capacity == Halved(peak, |calm| / 10)
            && t'.calm == |calm| % 10
            && t'.lastLagged == (lagging + calm)[|lagging + calm| - 1]
  {
    var peak := Ticks(t, lagging);
    CapacityStaysInBounds(t, lagging);
    LaggingRunDoubles(t, lagging);
    CalmRunHalves(peak, calm);
    TicksCompose(t, lagging, calm);
  }

  /** What the tuner reads from a coalescer at successive moments of one run. */
  ghost function LagReadings(s: State, intervals: seq<seq<Event>>): seq<nat>
    requires WellFormed(s)
    decreases |intervals|
  {
    if intervals == [] then [] else
      var s' := RunFrom(s, intervals[0]);
      [s'.laggedCount] + LagReadings(s', intervals[1..])
  }

  /** Driven by the coalescer it watches, the tuner never raises capacity: no interval ever lags. */
  lemma {:induction false} CapacityNeverIncreases(s: State, t: Tuner, intervals: seq<seq<Event>>)
    requires Inv(s) && Admissible(t) && t.lastLagged == s.laggedCount
    ensures Ticks(t, LagReadings(s, intervals)).capacity <= t.capacity
    decreases |intervals|
  {
    if intervals != [] {
      var s' := RunFrom(s, intervals[0]);
      RunKeepsInv(s, intervals[0]);
      var rest := LagReadings(s', intervals[1..]);
      assert LagReadings(s, intervals)[1..] == rest;
      CapacityNeverIncreases(s', Tick(t, s'.laggedCount), intervals[1..]);
    }
  }

  /** The tuner task's variables, and the shared capacity it stores to. */
  class AutoTuner {
    var capacity: nat
    var calmIntervals: nat
    var lastLagged: nat

    ghost function View(): Tuner reads this {
      Tuner(capacity, calmIntervals, lastLagged)
    }

    /** `configured` is the capacity the environment sets, if it is set to a number; zero counts as not set. The
        baseline reading is taken when the task starts. */
    constructor (configured: Option<nat>, lagged: nat)
      ensures Admissible(View()) && calmIntervals == 0 && lastLagged == lagged
      ensures configured == None || configured == Some(0) ==> capacity == DEFAULT_CAPACITY
      ensures configured.Some? && configured.value > 0 ==>
                && (MIN_CAPACITY <= configured.value <= MAX_CAPACITY ==> capacity == configured.value)
                && (configured.value < MIN_CAPACITY ==> capacity == MIN_CAPACITY)
                && (configured.value > MAX_CAPACITY ==> capacity == MAX_CAPACITY)
    {
      var initial := if configured.Some? && configured.value > 0 then configured.value else DEFAULT_CAPACITY;
      capacity := Min(Max(initial, MIN_CAPACITY), MAX_CAPACITY);
      calmIntervals, lastLagged := 0, lagged;
    }

    /** The loop of the task, over the readings its ticks will see. */
    method Run(readings: seq<nat>)
      requires Admissible(View())
      modifies this
      ensures View() == Ticks(old(View()), readings)
      ensures Admissible(View())
    {
      for i := 0 to |readings|
        invariant Admissible(View())
        invariant Ticks(View(), readings[i..]) == Ticks(old(View()), readings)
      {
        var nowLagged := readings[i];
        var delta := if nowLagged > lastLagged then nowLagged - lastLagged else 0;
        lastLagged := nowLagged;
        var prev := capacity;
        var next := prev;
        if delta > 0 {
          calmIntervals := 0;
          next := Min(prev * 2, MAX_CAPACITY);
        } else {
          calmIntervals := calmIntervals + 1;
          if calmIntervals >= SHRINK_AFTER_CALM_INTERVALS {
            calmIntervals := 0;
            next := Max(prev / 2, MIN_CAPACITY);
          }
        }
        if next != prev {
          capacity := next;
        }
        assert readings[i..][1..] == readings[i + 1..];
      }
      assert readings[|readings|..] == [];
    }
  }
}

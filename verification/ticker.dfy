/** `Ticker` of Ticker.h / Ticker.cpp: turns elapsed clock time into a whole
    number of simulation ticks, carrying the fractional remainder in `ticks`.
    The clock (`glfwGetTime`) is a parameter: the value it returns. */
module Tickers {
  import opened Machine

  datatype Ticker = Ticker(previousUpdate: real, tickPeriod: real, ticks: real)

  /** A usable ticker: positive period, accumulator in [0, 1). */
  predicate Valid(t: Ticker) {
    0.0 < t.tickPeriod && 0.0 <= t.ticks < 1.0
  }

  /** The constructor, for a positive tick rate: the period is the reciprocal
      of the rate and the accumulator starts empty. */
  function NewTicker(tickRate: uint32, now: real): (t: Ticker)
    requires 0 < tickRate
    ensures Valid(t) && t.ticks == 0.0
    ensures t.tickPeriod * tickRate as real == 1.0
    ensures t.previousUpdate == now
  {
    Ticker(now, 1.0 / tickRate as real, 0.0)
  }

  /** The time since the last update, in ticks, plus what was carried over. */
  function Pending(t: Ticker, now: real): real
    requires 0.0 < t.tickPeriod
  {
    t.ticks + (now - t.previousUpdate) / t.tickPeriod
  }

  /** `tick` as written: the clock is read twice, `first` for the elapsed time
      and `second` for the new `previous_update`, so whatever passes between
      the two reads is never counted. The cast to `uint32_t` truncates, which
      is the floor for the non-negative totals allowed here. */
  function TickAsWritten(t: Ticker, first: real, second: real): (r: (Ticker, nat))
    requires 0.0 < t.tickPeriod && 0.0 <= t.ticks && t.previousUpdate <= first
    ensures r.0.previousUpdate == second && r.0.tickPeriod == t.tickPeriod
    ensures r.1 as real + r.0.ticks == Pending(t, first)
    ensures 0.0 <= r.0.ticks < 1.0
  {
    var delta := first - t.previousUpdate;
    DivNonNegative(delta, t.tickPeriod);
    var ticks := t.ticks + delta / t.tickPeriod;
    var actual: nat := ticks.Floor;
    (Ticker(second, t.tickPeriod, ticks - actual as real), actual)
  }

  /** `tick` with a single clock reading `now`: the whole number of ticks
      pending is returned, the fraction is carried, and `now` becomes the
      previous update. */
  function Tick(t: Ticker, now: real): (r: (Ticker, nat))
    requires 0.0 < t.tickPeriod && 0.0 <= t.ticks && t.previousUpdate <= now
    ensures r.0.previousUpdate == now && r.0.tickPeriod == t.tickPeriod
    ensures r.1 as real + r.0.ticks == Pending(t, now)
    ensures r.1 as real <= Pending(t, now) < r.1 as real + 1.0
    ensures Valid(r.0)
  {
    var delta := now - t.previousUpdate;
    DivNonNegative(delta, t.tickPeriod);
    var ticks := t.ticks + delta / t.tickPeriod;
    var actual: nat := ticks.Floor;
    (Ticker(now, t.tickPeriod, ticks - actual as real), actual)
  }

  /** Elapsed time that does not go back gives a non-negative number of
      periods. */
  lemma DivNonNegative(delta: real, period: real)
    requires 0.0 <= delta && 0.0 < period
    ensures 0.0 <= delta / period
  {
  }

  /** Clock readings that never go back, starting from `start`. */
  predicate Monotone(start: real, readings: seq<real>) {
    (forall i :: 0 <= i < |readings| ==> start <= readings[i]) &&
    (forall i, j :: 0 <= i < j < |readings| ==> readings[i] <= readings[j])
  }

  /** The last reading, or `start` when there is none. */
  function Last(start: real, readings: seq<real>): real {
    if readings == [] then start else readings[|readings| - 1]
  }

  /** One `tick` per reading: the final ticker and the total count. Over the
      whole run the ticks returned plus the carried fraction are exactly the
      elapsed time in periods plus the initial carry, so no tick is lost or
      repeated. */
  function RunTicks(t: Ticker, readings: seq<real>): (r: (Ticker, nat))
    requires 0.0 < t.tickPeriod && 0.0 <= t.ticks
    requires Monotone(t.previousUpdate, readings)
    ensures r.0.previousUpdate == Last(t.previousUpdate, readings) && r.0.tickPeriod == t.tickPeriod
    ensures 0.0 <= r.0.ticks && (Valid(t) ==> Valid(r.0))
    ensures r.1 as real + r.0.ticks == Pending(t, Last(t.previousUpdate, readings))
    decreases |readings|
  {
    if readings == [] then (t, 0)
    else
      var (t1, c1) := Tick(t, readings[0]);
      var (t2, c2) := RunTicks(t1, readings[1..]);
      var last := Last(t.previousUpdate, readings);
      assert Last(t1.previousUpdate, readings[1..]) == last;
      Telescope(t.previousUpdate, readings[0], last, t.tickPeriod);
      (t2, c1 + c2)
  }

  /** For a valid ticker the total count of a run is within one tick of the
      elapsed time in periods. */
  lemma {:induction false} RunTicksWithinOne(t: Ticker, readings: seq<real>)
    requires Valid(t) && Monotone(t.previousUpdate, readings)
    ensures var periods := (Last(t.previousUpdate, readings) - t.previousUpdate) / t.tickPeriod;
            periods - 1.0 < RunTicks(t, readings).1 as real < periods + 1.0
  {
    var (final, count) := RunTicks(t, readings);
    var periods := (Last(t.previousUpdate, readings) - t.previousUpdate) / t.tickPeriod;
    assert count as real + final.ticks == t.ticks + periods;
  }

  /** Elapsed times in periods add up. */
  lemma Telescope(a: real, b: real, c: real, period: real)
    requires 0.0 < period
    ensures (b - a) / period + (c - b) / period == (c - a) / period
  {
  }

  /** Two calls with the clock read twice in each: the count and carry
      account for the elapsed time minus the gap between the first call's two
      reads. */
  lemma {:induction false} AsWrittenLosesGap(t: Ticker, first1: real, second1: real, first2: real, second2: real)
    requires 0.0 < t.tickPeriod && 0.0 <= t.ticks
    requires t.previousUpdate <= first1 <= second1 <= first2 <= second2
    ensures var (t1, c1) := TickAsWritten(t, first1, second1);
            var (t2, c2) := TickAsWritten(t1, first2, second2);
            (c1 + c2) as real + t2.ticks ==
              t.ticks + ((first2 - t.previousUpdate) - (second1 - first1)) / t.tickPeriod
  {
    var (t1, c1) := TickAsWritten(t, first1, second1);
    var (t2, c2) := TickAsWritten(t1, first2, second2);
    Telescope(t.previousUpdate, first1, first2 - (second1 - first1), t.tickPeriod);
    assert first2 - second1 == (first2 - (second1 - first1)) - first1;
  }

  /** A concrete run of the code as written that loses a tick: one-second
      period, reads at 1 and 2 in the first call and 3 in the second. Three
      periods pass and only two ticks come out, with nothing carried. */
  lemma AsWrittenCounterexample()
    ensures var (t1, c1) := TickAsWritten(Ticker(0.0, 1.0, 0.0), 1.0, 2.0);
            var (t2, c2) := TickAsWritten(t1, 3.0, 3.0);
            c1 + c2 == 2 && t2.ticks == 0.0
  {
    var (t1, c1) := TickAsWritten(Ticker(0.0, 1.0, 0.0), 1.0, 2.0);
    assert c1 == 1 && t1 == Ticker(2.0, 1.0, 0.0);
  }

  /** The same run with one reading per call, at 1 and then 3: all three
      ticks come out. */
  lemma SingleReadingCountsAll()
    ensures var (u1, d1) := Tick(Ticker(0.0, 1.0, 0.0), 1.0);
            var (u2, d2) := Tick(u1, 3.0);
            d1 + d2 == 3 && u2.ticks == 0.0
  {
    var (u1, d1) := Tick(Ticker(0.0, 1.0, 0.0), 1.0);
    assert d1 == 1 && u1 == Ticker(1.0, 1.0, 0.0);
  }
}

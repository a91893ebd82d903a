/** What the reported rates are, in events, seconds and minutes. */
module MeterRates {
  import opened Algebra
  import opened Ewma
  import opened Exponential
  import opened Meter
  import opened TickClock

  // ---------- Steady marks ----------

  /** c events in every interval of five seconds, n intervals long. */
  function Steady(startTime: nat, c: nat, n: nat): seq<Event> {
    if n == 0 then [] else Steady(startTime, c, n - 1) + [Mark(c, startTime + (n - 1) * 5_000_000_000 + 1)]
  }

  /** After n intervals of c events, n-1 of them ticked. */
  function SteadyAverage(c: nat, n: nat): Average
    requires n > 0
  {
    if n == 1 then Average(false, 0.0, c) else Average(true, c as real / 5_000_000_000.0, c)
  }

  lemma SteadyTick(alpha: real, c: nat, n: nat)
    requires n > 0
    ensures Updated(Ticks(alpha, TICK_INTERVAL, SteadyAverage(c, n), 1), c) == SteadyAverage(c, n + 1)
    ensures Ticked(alpha, TICK_INTERVAL, SteadyAverage(c, n)) == Average(true, c as real / 5_000_000_000.0, 0)
  {
    assert Ticks(alpha, TICK_INTERVAL, SteadyAverage(c, n), 0) == SteadyAverage(c, n);
    var rate := c as real / 5_000_000_000.0;
    assert InstantRate(c, TICK_INTERVAL) == rate;
    assert Product(alpha, rate - rate) == 0.0;
  }

  lemma SteadyInterval(startTime: nat, n: nat)
    ensures var t := startTime + n * 5_000_000_000 + 1;
      Interval(startTime, t) == n && (t - startTime) % TICK_INTERVAL == 1
  {
    DivideExactly(n * TICK_INTERVAL + 1, n, 1);
  }

  lemma {:induction false} SteadyRun(f: Fades, startTime: nat, c: nat, n: nat)
    requires n > 0 && startTime + n * 5_000_000_000 + 1 < WORD
    ensures var s := Run(f, startTime, Steady(startTime, c, n));
      && s.lastTick == startTime + (n - 1) * TICK_INTERVAL
      && s.m1 == s.m5 == s.m15 == SteadyAverage(c, n)
  {
    var events, e := Steady(startTime, c, n - 1), Mark(c, startTime + (n - 1) * 5_000_000_000 + 1);
    SteadyInterval(startTime, n - 1);
    if n == 1 {
      RunAdvances(f, startTime, [], e, 0);
      assert [] + [e] == [e] == Steady(startTime, c, 1);
    } else {
      SteadyRun(f, startTime, c, n - 1);
      SteadyInterval(startTime, n - 2);
      SteadyTick(f.m1, c, n - 1);
      SteadyTick(f.m5, c, n - 1);
      SteadyTick(f.m15, c, n - 1);
      hide Ticks, Run, Interval, SteadyAverage;
      RunAdvances(f, startTime, events, e, n - 2);
    }
  }

  /** Marks of c events in every interval of five seconds are reported as c/5 events a second, by all three rates. */
  lemma SteadyRateReported(f: Fades, startTime: nat, c: nat, n: nat)
    requires n > 0 && startTime + n * 5_000_000_000 + 1 < WORD
    ensures var s := CaughtUp(f, Run(f, startTime, Steady(startTime, c, n)), startTime + n * 5_000_000_000 + 1);
      && s.m1.ewma * 1_000_000_000.0 == c as real / 5.0
      && s.m5.ewma * 1_000_000_000.0 == c as real / 5.0
      && s.m15.ewma * 1_000_000_000.0 == c as real / 5.0
  {
    var s, now := Run(f, startTime, Steady(startTime, c, n)), startTime + n * 5_000_000_000 + 1;
    SteadyRun(f, startTime, c, n);
    SteadyInterval(startTime, n);
    SteadyTick(f.m1, c, n);
    SteadyTick(f.m5, c, n);
    SteadyTick(f.m15, c, n);
    assert Ticks(f.m1, TICK_INTERVAL, s.m1, 0) == s.m1 && Ticks(f.m5, TICK_INTERVAL, s.m5, 0) == s.m5;
    assert Ticks(f.m15, TICK_INTERVAL, s.m15, 0) == s.m15;
    hide Run, Interval, SteadyAverage, CaughtUp;
    CatchUpAdvances(f, s, startTime, n - 1, now);
  }

  // ---------- Idle minutes ----------

  /** The smoothing constants of a meter, with E for exp. */
  function CodedFades(E: real -> real): Fades {
    Fades(Alpha(E, ONE_MINUTE), Alpha(E, FIVE_MINUTES), Alpha(E, FIFTEEN_MINUTES))
  }

  /** A reading after `idle` minutes ticks each average 12*idle times. */
  lemma IdleTicks(f: Fades, s: State, idle: nat, now: int)
    requires idle > 0 && 60_000_000_000 * idle < now - s.lastTick < 60_000_000_000 * idle + 5_000_000_000
    requires 0 <= now < WORD
    ensures CaughtUp(f, s, now).m1 == Ticks(f.m1, TICK_INTERVAL, s.m1, 12 * idle)
    ensures CaughtUp(f, s, now).m5 == Ticks(f.m5, TICK_INTERVAL, s.m5, 12 * idle)
    ensures CaughtUp(f, s, now).m15 == Ticks(f.m15, TICK_INTERVAL, s.m15, 12 * idle)
  {
    DivideExactly(now - s.lastTick, 12 * idle, now - s.lastTick - 60_000_000_000 * idle);
    assert Age(now, s.lastTick) == now - s.lastTick;
    hide Ticks, Age, NewTick;
  }

  lemma FadedAverage(E: real -> real, minutes: int, x: real, m: nat, idle: nat)
    requires IsExp(E) && minutes > 0 && idle == minutes * m
    ensures Ticks(Alpha(E, minutes), TICK_INTERVAL, Average(true, x, 0), 12 * idle).ewma == Power(E(-1.0), m) * x
  {
    IdleMinutes(E, minutes, x, m);
    assert 12 * minutes * m == 12 * idle;
    assert Product(Power(E(-1.0), m), x) == Power(E(-1.0), m) * x;
    hide Ticks, Power, Alpha, IsExp;
  }

  /** Read after m, 5m and 15m idle minutes, the three averages have faded from a common rate by exp(-m). */
  lemma IdleMinutesFade(E: real -> real, s: State, x: real, m: nat, r: nat)
    requires IsExp(E) && m > 0 && 0 < r < 5_000_000_000 && s.m1 == s.m5 == s.m15 == Average(true, x, 0)
    requires s.lastTick + 900_000_000_000 * m + r < WORD
    ensures CaughtUp(CodedFades(E), s, s.lastTick + 60_000_000_000 * m + r).m1.ewma == Power(E(-1.0), m) * x
    ensures CaughtUp(CodedFades(E), s, s.lastTick + 300_000_000_000 * m + r).m5.ewma == Power(E(-1.0), m) * x
    ensures CaughtUp(CodedFades(E), s, s.lastTick + 900_000_000_000 * m + r).m15.ewma == Power(E(-1.0), m) * x
  {
    hide Ticks, Power, Alpha, IsExp, CaughtUp;
    IdleTicks(CodedFades(E), s, m, s.lastTick + 60_000_000_000 * m + r);
    IdleTicks(CodedFades(E), s, 5 * m, s.lastTick + 300_000_000_000 * m + r);
    IdleTicks(CodedFades(E), s, 15 * m, s.lastTick + 900_000_000_000 * m + r);
    FadedAverage(E, 1, x, m, m);
    FadedAverage(E, 5, x, m, 5 * m);
    FadedAverage(E, 15, x, m, 15 * m);
  }
}

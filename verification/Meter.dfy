/** The 64-bit tick arithmetic of tickIfNecessary. */
module TickClock {
  const TICK_INTERVAL: nat := 5_000_000_000
  const WORD: int := 0x1_0000_0000_0000_0000

  /** A 64-bit difference, as `cur_tick - old_tick` computes it. */
  function Age(now: int, lastTick: int): nat {
    (now - lastTick) % WORD
  }

  /** The difference is unsigned: of a reading before the last tick it is 2^64 more than the true one. */
  lemma AgeIsUnsigned(now: nat, lastTick: nat)
    requires now < 18_446_744_073_709_551_616 && lastTick < 18_446_744_073_709_551_616
    ensures Age(now, lastTick)
         == if lastTick <= now then now - lastTick else now - lastTick + 18_446_744_073_709_551_616
  {
  }

  function NewTick(now: int, lastTick: int): nat {
    (now - Age(now, lastTick) % TICK_INTERVAL) % WORD
  }
}

/** The meter used by one thread at a time: lazy catch-up ticking against ticking at every boundary. */
module Meter {
  import opened Ewma
  import opened TickClock

  const SECOND: nat := 1_000_000_000

  /** The three smoothing constants. */
  datatype Fades = Fades(m1: real, m5: real, m15: real)

  datatype State = State(count: nat, lastTick: nat, m1: Average, m5: Average, m15: Average)

  function Start(startTime: nat): State {
    State(0, startTime, FRESH, FRESH, FRESH)
  }

  /** tickIfNecessary. */
  function CaughtUp(f: Fades, s: State, now: nat): State {
    var age := Age(now, s.lastTick);
    if age <= TICK_INTERVAL then s
    else
      var n := age / TICK_INTERVAL;
      State(s.count, NewTick(now, s.lastTick),
            Ticks(f.m1, TICK_INTERVAL, s.m1, n),
            Ticks(f.m5, TICK_INTERVAL, s.m5, n),
            Ticks(f.m15, TICK_INTERVAL, s.m15, n))
  }

  function Marked(s: State, n: nat): State {
    State(s.count + n, s.lastTick, Updated(s.m1, n), Updated(s.m5, n), Updated(s.m15, n))
  }

  class Meter {
    const m1: EWMA
    const m5: EWMA
    const m15: EWMA
    var count: nat
    var lastTick: nat

    ghost predicate Valid()
      reads this
    {
      && m1 != m5 && m5 != m15 && m1 != m15
      && m1.intervalNanos == m5.intervalNanos == m15.intervalNanos == TICK_INTERVAL
      && lastTick < WORD
    }

    ghost function Smoothing(): Fades { Fades(m1.alpha, m5.alpha, m15.alpha) }

    ghost function Value(): State
      reads this, m1, m5, m15
    {
      State(count, lastTick, m1.State(), m5.State(), m15.State())
    }

    constructor (exp: real -> real, startTime: nat)
      requires startTime < WORD
      ensures Valid() && fresh(m1) && fresh(m5) && fresh(m15)
      ensures Value() == Start(startTime) && count == 0 && lastTick == startTime
      ensures m1.State() == m5.State() == m15.State() == Average(false, 0.0, 0)
      ensures Smoothing() == Fades(Alpha(exp, ONE_MINUTE), Alpha(exp, FIVE_MINUTES), Alpha(exp, FIFTEEN_MINUTES))
    {
      m1 := new EWMA(Alpha(exp, ONE_MINUTE), INTERVAL_NANOS);
      m5 := new EWMA(Alpha(exp, FIVE_MINUTES), INTERVAL_NANOS);
      m15 := new EWMA(Alpha(exp, FIFTEEN_MINUTES), INTERVAL_NANOS);
      count, lastTick := 0, startTime;
    }

    method Tick()
      requires Valid()
      modifies m1, m5, m15
      ensures Value() == old(Value()).(
        m1 := Ticked(m1.alpha, TICK_INTERVAL, old(m1.State())),
        m5 := Ticked(m5.alpha, TICK_INTERVAL, old(m5.State())),
        m15 := Ticked(m15.alpha, TICK_INTERVAL, old(m15.State())))
    {
      m1.Tick();
      m5.Tick();
      m15.Tick();
    }

    method TickIfNecessary(now: nat)
      requires Valid() && now < WORD
      modifies this, m1, m5, m15
      ensures Valid()
      ensures Value() == CaughtUp(Smoothing(), old(Value()), now)
    {
      var oldTick := lastTick;
      var age := (now - oldTick) % WORD;
      if age > TICK_INTERVAL {
        var newTick := (now - age % TICK_INTERVAL) % WORD;
        lastTick := newTick;
        var requiredTicks := age / TICK_INTERVAL;
        for i := 0 to requiredTicks
          invariant count == old(count) && lastTick == newTick
          invariant m1.State() == Ticks(m1.alpha, TICK_INTERVAL, old(m1.State()), i)
          invariant m5.State() == Ticks(m5.alpha, TICK_INTERVAL, old(m5.State()), i)
          invariant m15.State() == Ticks(m15.alpha, TICK_INTERVAL, old(m15.State()), i)
        {
          Tick();
        }
      }
    }

    method Mark(n: nat, now: nat)
      requires Valid() && now < WORD
      modifies this, m1, m5, m15
      ensures Valid()
      ensures Value() == Marked(CaughtUp(Smoothing(), old(Value()), now), n)
    {
      TickIfNecessary(now);
      count := count + n;
      m1.Update(n);
      m5.Update(n);
      m15.Update(n);
    }

    method GetOneMinuteRate(now: nat) returns (rate: real)
      requires Valid() && now < WORD
      modifies this, m1, m5, m15
      ensures Valid()
      ensures Value() == CaughtUp(Smoothing(), old(Value()), now) && rate == Value().m1.ewma * 1_000_000_000.0
    {
      TickIfNecessary(now);
      rate := m1.GetRate(SECOND);
    }

    method GetFiveMinuteRate(now: nat) returns (rate: real)
      requires Valid() && now < WORD
      modifies this, m1, m5, m15
      ensures Valid()
      ensures Value() == CaughtUp(Smoothing(), old(Value()), now) && rate == Value().m5.ewma * 1_000_000_000.0
    {
      TickIfNecessary(now);
      rate := m5.GetRate(SECOND);
    }

    method GetFifteenMinuteRate(now: nat) returns (rate: real)
      requires Valid() && now < WORD
      modifies this, m1, m5, m15
      ensures Valid()
      ensures Value() == CaughtUp(Smoothing(), old(Value()), now) && rate == Value().m15.ewma * 1_000_000_000.0
    {
      TickIfNecessary(now);
      rate := m15.GetRate(SECOND);
    }
  }

  // ---------- Whole runs, and the reference that ticks at every boundary ----------

  /** A call on the meter: marking n events, or reading any of the three rates. */
  datatype Event = Mark(n: nat, time: nat) | Read(time: nat)

  /** Events in clock order, from the start time on, all within the 64-bit clock. */
  ghost predicate Timeline(startTime: nat, events: seq<Event>) {
    && startTime < WORD
    && (forall i :: 0 <= i < |events| ==> startTime <= events[i].time < WORD)
    && (forall i, j :: 0 <= i < j < |events| ==> events[i].time <= events[j].time)
  }

  /** The meter after all the events. */
  function Run(f: Fades, startTime: nat, events: seq<Event>): State {
    if events == [] then Start(startTime)
    else
      var last := events[|events| - 1];
      var s := CaughtUp(f, Run(f, startTime, events[..|events| - 1]), last.time);
      if last.Mark? then Marked(s, last.n) else s
  }

  /** Which tick interval a time falls in; boundary j opens interval j. */
  function Interval(startTime: nat, time: nat): nat
    requires startTime <= time
  {
    (time - startTime) / TICK_INTERVAL
  }

  /** What event e adds to the marks of interval j. */
  function Share(startTime: nat, e: Event, j: nat): (n: nat)
    ensures e.Read? ==> n == 0
  {
    if e.Mark? && startTime <= e.time && Interval(startTime, e.time) == j then e.n else 0
  }

  /** The events marked during interval j. */
  function MarksIn(startTime: nat, events: seq<Event>, j: nat): nat {
    if events == [] then 0
    else MarksIn(startTime, events[..|events| - 1], j) + Share(startTime, events[|events| - 1], j)
  }

  function AllMarks(events: seq<Event>): nat {
    if events == [] then 0
    else
      var last := events[|events| - 1];
      AllMarks(events[..|events| - 1]) + if last.Mark? then last.n else 0
  }

  /** An average ticked at boundaries 1..j, each time with exactly the marks of the interval just ended. */
  function EagerAverage(alpha: real, startTime: nat, events: seq<Event>, j: nat): Average {
    if j == 0 then FRESH
    else
      Ticked(alpha, TICK_INTERVAL,
             Updated(EagerAverage(alpha, startTime, events, j - 1), MarksIn(startTime, events, j - 1)))
  }

  /** The interval of the latest event. */
  function Now(startTime: nat, events: seq<Event>): nat
    requires |events| > 0 ==> startTime <= events[|events| - 1].time
  {
    if events == [] then 0 else Interval(startTime, events[|events| - 1].time)
  }

  function EagerOne(alpha: real, startTime: nat, events: seq<Event>, j: nat): Average {
    Updated(EagerAverage(alpha, startTime, events, j), MarksIn(startTime, events, j))
  }

  /** The reference meter: it has ticked at every boundary up to the latest event. */
  function Eager(f: Fades, startTime: nat, events: seq<Event>): State
    requires |events| > 0 ==> startTime <= events[|events| - 1].time
  {
    var j := Now(startTime, events);
    State(AllMarks(events), startTime + j * TICK_INTERVAL,
          EagerOne(f.m1, startTime, events, j),
          EagerOne(f.m5, startTime, events, j),
          EagerOne(f.m15, startTime, events, j))
  }

  /** Event i comes exactly one interval after the boundary that the meter last caught up with. */
  ghost predicate Misses(startTime: nat, events: seq<Event>, i: nat)
    requires i < |events| && Timeline(startTime, events)
  {
    && (events[i].time - startTime) % TICK_INTERVAL == 0
    && Interval(startTime, events[i].time) == Now(startTime, events[..i]) + 1
  }

  // ---------- One catch-up ----------

  lemma DivideExactly(a: int, q: int, r: int)
    requires a == q * TICK_INTERVAL + r && 0 <= r < TICK_INTERVAL
    ensures a / TICK_INTERVAL == q && a % TICK_INTERVAL == r
  {
  }

  /** Caught up to boundary j, the meter catches up with interval k of `now` unless the age is exactly T. */
  lemma CatchUpReaches(startTime: nat, j: nat, now: nat)
    requires startTime <= now < WORD && j <= Interval(startTime, now)
    ensures var k, last := Interval(startTime, now), startTime + j * TICK_INTERVAL;
      && Age(now, last) == now - last
      && (Age(now, last) > TICK_INTERVAL ==>
            NewTick(now, last) == startTime + k * TICK_INTERVAL && Age(now, last) / TICK_INTERVAL == k - j)
      && (Age(now, last) < TICK_INTERVAL ==> k == j)
      && (Age(now, last) == TICK_INTERVAL <==> k == j + 1 && (now - startTime) % TICK_INTERVAL == 0)
  {
    var k, r := Interval(startTime, now), (now - startTime) % TICK_INTERVAL;
    assert now - startTime == k * TICK_INTERVAL + r;
    var age := now - (startTime + j * TICK_INTERVAL);
    assert age == (k - j) * TICK_INTERVAL + r;
    assert 0 <= age < WORD;
    DivideExactly(age, k - j, r);
  }

  lemma {:induction false} NoLaterMarks(startTime: nat, events: seq<Event>, j: nat)
    requires Timeline(startTime, events) && j > Now(startTime, events)
    ensures MarksIn(startTime, events, j) == 0
  {
    if events != [] {
      var prefix := events[..|events| - 1];
      if prefix != [] {
        IntervalMonotone(startTime, prefix[|prefix| - 1].time, events[|events| - 1].time);
      }
      NoLaterMarks(startTime, prefix, j);
    }
  }

  lemma IntervalMonotone(startTime: nat, t: nat, u: nat)
    requires startTime <= t <= u
    ensures Interval(startTime, t) <= Interval(startTime, u)
  {
  }

  /** Marks of a later interval do not reach boundary j. */
  lemma {:induction false} EagerIgnoresLater(alpha: real, startTime: nat, events: seq<Event>, e: Event, j: nat)
    requires startTime <= e.time && j <= Interval(startTime, e.time)
    ensures EagerAverage(alpha, startTime, events + [e], j) == EagerAverage(alpha, startTime, events, j)
  {
    if j > 0 {
      EagerIgnoresLater(alpha, startTime, events, e, j - 1);
      assert (events + [e])[..|events|] == events;
    }
  }

  /** With no marks after interval j, k-j ticks in a row are the boundaries j+1..k. */
  lemma {:induction false} TicksAreBoundaries(alpha: real, startTime: nat, events: seq<Event>, j: nat, k: nat)
    requires Timeline(startTime, events) && j == Now(startTime, events) <= k
    ensures Ticks(alpha, TICK_INTERVAL, EagerOne(alpha, startTime, events, j), k - j)
         == EagerOne(alpha, startTime, events, k)
  {
    if k > j {
      TicksAreBoundaries(alpha, startTime, events, j, k - 1);
      NoLaterMarks(startTime, events, k);
    }
  }

  lemma TimelineSnoc(startTime: nat, events: seq<Event>, e: Event)
    requires Timeline(startTime, events + [e])
    ensures Timeline(startTime, events) && startTime <= e.time < WORD
    ensures Now(startTime, events) <= Interval(startTime, e.time) == Now(startTime, events + [e])
  {
    var all := events + [e];
    assert all[|events|] == e;
    assert forall i :: 0 <= i < |events| ==> all[i] == events[i];
    if events != [] {
      IntervalMonotone(startTime, events[|events| - 1].time, e.time);
    }
  }

  lemma MarksSnoc(startTime: nat, events: seq<Event>, e: Event)
    requires startTime <= e.time
    ensures var n := if e.Mark? then e.n else 0;
      && AllMarks(events + [e]) == AllMarks(events) + n
      && MarksIn(startTime, events + [e], Interval(startTime, e.time))
         == MarksIn(startTime, events, Interval(startTime, e.time)) + n
  {
  }

  function Amount(e: Event): nat {
    if e.Mark? then e.n else 0
  }

  /** One more event, as the eager meter sees it: the boundaries since the last event, then the mark. */
  lemma EagerStep(alpha: real, startTime: nat, events: seq<Event>, e: Event)
    requires Timeline(startTime, events + [e]) && Timeline(startTime, events) && startTime <= e.time
    requires Now(startTime, events) <= Interval(startTime, e.time)
    ensures var j, k := Now(startTime, events), Interval(startTime, e.time);
      EagerOne(alpha, startTime, events + [e], k)
        == Updated(Ticks(alpha, TICK_INTERVAL, EagerOne(alpha, startTime, events, j), k - j), Amount(e))
  {
    var j, k := Now(startTime, events), Interval(startTime, e.time);
    hide Ticks, Now, Interval, MarksIn, EagerAverage, Timeline;
    TicksAreBoundaries(alpha, startTime, events, j, k);
    EagerIgnoresLater(alpha, startTime, events, e, k);
    MarksSnoc(startTime, events, e);
  }

  /** What catching up from boundary j to boundary k, with a mark of n after it, makes of a meter. */
  function Advanced(f: Fades, s: State, lastTick: nat, ticks: nat, n: nat): State {
    State(s.count + n, lastTick,
          Updated(Ticks(f.m1, TICK_INTERVAL, s.m1, ticks), n),
          Updated(Ticks(f.m5, TICK_INTERVAL, s.m5, ticks), n),
          Updated(Ticks(f.m15, TICK_INTERVAL, s.m15, ticks), n))
  }

  lemma EagerAdvances(f: Fades, startTime: nat, events: seq<Event>, e: Event)
    requires Timeline(startTime, events + [e])
    ensures Timeline(startTime, events) && startTime <= e.time
    ensures var j, k := Now(startTime, events), Interval(startTime, e.time);
      && j <= k
      && Eager(f, startTime, events + [e])
         == Advanced(f, Eager(f, startTime, events), startTime + k * TICK_INTERVAL, k - j, Amount(e))
  {
    TimelineSnoc(startTime, events, e);
    hide Ticks, Now, Interval, MarksIn, EagerOne, Timeline, AllMarks;
    EagerStep(f.m1, startTime, events, e);
    EagerStep(f.m5, startTime, events, e);
    EagerStep(f.m15, startTime, events, e);
    MarksSnoc(startTime, events, e);
  }

  lemma CatchUpAdvances(f: Fades, s: State, startTime: nat, j: nat, now: nat)
    requires startTime <= now < WORD && j <= Interval(startTime, now)
    requires s.lastTick == startTime + j * TICK_INTERVAL
    ensures var k := Interval(startTime, now);
      CaughtUp(f, s, now)
        == if (now - startTime) % TICK_INTERVAL == 0 && k == j + 1 then s
           else Advanced(f, s, startTime + k * TICK_INTERVAL, k - j, 0)
  {
    CatchUpReaches(startTime, j, now);
    hide Interval, Age, NewTick;
  }

  lemma RunAdvances(f: Fades, startTime: nat, events: seq<Event>, e: Event, j: nat)
    requires startTime <= e.time < WORD && j <= Interval(startTime, e.time)
    requires Run(f, startTime, events).lastTick == startTime + j * TICK_INTERVAL
    ensures var before, k := Run(f, startTime, events), Interval(startTime, e.time);
      Run(f, startTime, events + [e])
        == if (e.time - startTime) % TICK_INTERVAL == 0 && k == j + 1
           then Advanced(f, before, before.lastTick, 0, Amount(e))
           else Advanced(f, before, startTime + k * TICK_INTERVAL, k - j, Amount(e))
  {
    assert (events + [e])[..|events|] == events;
    CatchUpAdvances(f, Run(f, startTime, events), startTime, j, e.time);
    hide Interval, CaughtUp;
  }

  /** From agreement, one more event keeps the two meters in agreement exactly when it does not miss. */
  lemma StepAgrees(f: Fades, startTime: nat, events: seq<Event>, e: Event)
    requires Timeline(startTime, events + [e]) && Timeline(startTime, events)
    requires Run(f, startTime, events) == Eager(f, startTime, events)
    ensures Run(f, startTime, events + [e]) == Eager(f, startTime, events + [e])
       <==> !Misses(startTime, events + [e], |events|)
  {
    TimelineSnoc(startTime, events, e);
    assert (events + [e])[..|events|] == events && (events + [e])[|events|] == e;
    hide Ticks, Run, Now, Interval, EagerOne, Timeline, AllMarks;
    EagerAdvances(f, startTime, events, e);
    RunAdvances(f, startTime, events, e, Now(startTime, events));
  }

  lemma TimelinePrefix(startTime: nat, events: seq<Event>, n: nat)
    requires Timeline(startTime, events) && n <= |events|
    ensures Timeline(startTime, events[..n])
  {
  }

  lemma {:induction false} AgreesWithoutMisses(f: Fades, startTime: nat, events: seq<Event>, n: nat)
    requires Timeline(startTime, events) && n <= |events|
    requires forall i :: 0 <= i < n ==> !Misses(startTime, events, i)
    ensures Timeline(startTime, events[..n])
    ensures Run(f, startTime, events[..n]) == Eager(f, startTime, events[..n])
  {
    TimelinePrefix(startTime, events, n);
    if n > 0 {
      AgreesWithoutMisses(f, startTime, events, n - 1);
      assert !Misses(startTime, events, n - 1);
      AgreesOneMore(f, startTime, events, n - 1);
    }
  }

  lemma AgreesOneMore(f: Fades, startTime: nat, events: seq<Event>, i: nat)
    requires Timeline(startTime, events) && i < |events|
    requires Timeline(startTime, events[..i]) && Timeline(startTime, events[..i + 1])
    requires Run(f, startTime, events[..i]) == Eager(f, startTime, events[..i])
    ensures Run(f, startTime, events[..i + 1]) == Eager(f, startTime, events[..i + 1])
       <==> !Misses(startTime, events, i)
  {
    assert events[..i + 1] == events[..i] + [events[i]];
    assert events[..i + 1][..i] == events[..i];
    assert Misses(startTime, events[..i + 1], i) <==> Misses(startTime, events, i);
    hide *;
    StepAgrees(f, startTime, events[..i], events[i]);
  }

  ghost predicate AgreesAt(f: Fades, startTime: nat, events: seq<Event>, n: nat)
    requires Timeline(startTime, events) && n <= |events|
  {
    TimelinePrefix(startTime, events, n);
    Run(f, startTime, events[..n]) == Eager(f, startTime, events[..n])
  }

  lemma MissBreaks(f: Fades, startTime: nat, events: seq<Event>, i: nat)
    requires Timeline(startTime, events) && i < |events| && Misses(startTime, events, i)
    ensures AgreesAt(f, startTime, events, i) ==> !AgreesAt(f, startTime, events, i + 1)
  {
    TimelinePrefix(startTime, events, i);
    TimelinePrefix(startTime, events, i + 1);
    hide Run, Timeline, Misses, Eager;
    if AgreesAt(f, startTime, events, i) {
      AgreesOneMore(f, startTime, events, i);
    }
  }

  lemma NoMissAgrees(f: Fades, startTime: nat, events: seq<Event>)
    requires Timeline(startTime, events)
    requires forall i :: 0 <= i < |events| ==> !Misses(startTime, events, i)
    ensures forall n :: 0 <= n <= |events| ==> AgreesAt(f, startTime, events, n)
  {
    hide Run, Timeline, Misses, Eager;
    forall n | 0 <= n <= |events| ensures AgreesAt(f, startTime, events, n) {
      AgreesWithoutMisses(f, startTime, events, n);
    }
  }

  /** The lazy meter equals the eager one after every event of a run exactly when no event misses. */
  lemma LazyEqualsEager(f: Fades, startTime: nat, events: seq<Event>)
    requires Timeline(startTime, events)
    ensures (forall n :: 0 <= n <= |events| ==> AgreesAt(f, startTime, events, n))
       <==> (forall i :: 0 <= i < |events| ==> !Misses(startTime, events, i))
  {
    hide *;
    if forall i :: 0 <= i < |events| ==> !Misses(startTime, events, i) {
      NoMissAgrees(f, startTime, events);
    } else {
      var i :| 0 <= i < |events| && Misses(startTime, events, i);
      MissBreaks(f, startTime, events, i);
    }
  }

  /** In particular the two agree on every run without an event on a boundary. */
  lemma LazyEqualsEagerOffBoundaries(f: Fades, startTime: nat, events: seq<Event>)
    requires Timeline(startTime, events)
    requires forall i :: 0 <= i < |events| && events[i].time > startTime ==>
      (events[i].time - startTime) % TICK_INTERVAL != 0
    ensures Run(f, startTime, events) == Eager(f, startTime, events)
  {
    forall i | 0 <= i < |events| ensures !Misses(startTime, events, i) {
      if events[i].time == startTime {
        assert Interval(startTime, startTime) == 0;
      }
    }
    AgreesWithoutMisses(f, startTime, events, |events|);
    assert events[..|events|] == events;
  }

  /** A mark exactly on the first boundary is charged to the interval that has already ended. */
  lemma MarkOnBoundaryIsLate(f: Fades, startTime: nat)
    requires startTime + TICK_INTERVAL < WORD
    ensures var events := [Mark(1, startTime + TICK_INTERVAL)];
      && Timeline(startTime, events)
      && !Run(f, startTime, events).m1.initialized
      && Eager(f, startTime, events).m1.initialized
  {
  }

  // ---------- Reading rates changes nothing ----------

  function Marks(events: seq<Event>): seq<Event> {
    if events == [] then []
    else
      var last := events[|events| - 1];
      Marks(events[..|events| - 1]) + if last.Mark? then [last] else []
  }

  lemma {:induction false} MarksDecide(startTime: nat, events: seq<Event>, j: nat)
    ensures MarksIn(startTime, events, j) == MarksIn(startTime, Marks(events), j)
    ensures AllMarks(events) == AllMarks(Marks(events))
  {
    hide Share;
    if events != [] {
      var init, last := events[..|events| - 1], events[|events| - 1];
      MarksDecide(startTime, init, j);
      if last.Mark? {
        assert Marks(events)[..|Marks(init)|] == Marks(init);
      } else {
        assert Marks(events) == Marks(init);
      }
    }
  }

  lemma {:induction false} EagerSeesMarksOnly(alpha: real, startTime: nat, a: seq<Event>, b: seq<Event>, j: nat)
    requires Marks(a) == Marks(b)
    ensures EagerOne(alpha, startTime, a, j) == EagerOne(alpha, startTime, b, j)
  {
    MarksDecide(startTime, a, j);
    MarksDecide(startTime, b, j);
    hide MarksIn, Marks;
    if j > 0 {
      EagerSeesMarksOnly(alpha, startTime, a, b, j - 1);
    }
  }

  /** Two runs with the same marks, ending in the same interval, leave the same meter, if no event of either misses. */
  lemma ReadsLeaveNoTrace(f: Fades, startTime: nat, a: seq<Event>, b: seq<Event>)
    requires Timeline(startTime, a) && Timeline(startTime, b) && Marks(a) == Marks(b)
    requires forall i :: 0 <= i < |a| ==> !Misses(startTime, a, i)
    requires forall i :: 0 <= i < |b| ==> !Misses(startTime, b, i)
    requires Now(startTime, a) == Now(startTime, b)
    ensures Run(f, startTime, a) == Run(f, startTime, b)
  {
    AgreesWithoutMisses(f, startTime, a, |a|);
    AgreesWithoutMisses(f, startTime, b, |b|);
    assert a[..|a|] == a && b[..|b|] == b;
    var j := Now(startTime, a);
    EagerSeesMarksOnly(f.m1, startTime, a, b, j);
    EagerSeesMarksOnly(f.m5, startTime, a, b, j);
    EagerSeesMarksOnly(f.m15, startTime, a, b, j);
    MarksDecide(startTime, a, j);
    MarksDecide(startTime, b, j);
  }
}

/** The meter used by many threads: each atomic load, store and compare-and-swap is one step. */
module MeterProtocol {
  import opened Algebra
  import opened Ewma
  import opened TickClock

  datatype Op = Marking(n: nat) | Reading

  /** Where a thread stands inside EWMA::tick. */
  datatype TickPc =
    | Drain                         // about to exchange uncounted_ for 0
    | Test(rate: real)              // about to read initialized_
    | Load(rate: real)              // about to read ewma_
    | Swap(rate: real, seen: real)  // about to compare-and-swap ewma_
    | Store(rate: real)             // about to write ewma_
    | Announce                      // about to set initialized_
    | Done

  /** Where a thread stands inside a call on the meter. */
  datatype Pc =
    | Idle
    | Loaded(op: Op, oldTick: nat)                              // about to read the clock
    | Timed(op: Op, oldTick: nat, now: nat)                     // about to compare-and-swap last_tick_
    | Ticking(op: Op, remaining: nat, which: nat, tick: TickPc) // inside tick() of one average
    | Counting(n: nat, done: nat)                               // about to add to count_, m1, m5 or m15

  /** One shared average, with everything it ever received and drained. */
  datatype Track = Track(average: Average, received: nat, drained: seq<nat>)

  /** `owners[j]` is the thread that claimed interval j; `performed[t]` counts the ticks thread t completed. */
  datatype State = State(clock: nat, count: nat, lastTick: nat, owners: seq<nat>, performed: seq<nat>,
                         tracks: seq<Track>, threads: seq<Pc>)

  datatype Step =
    | Advance(time: nat)
    | Call(thread: nat, op: Op)
    | ReadClock(thread: nat)
    | Claim(thread: nat)
    | TickOn(thread: nat)
    | CountOn(thread: nat)

  function Init(startTime: nat, threads: nat): State {
    State(startTime, 0, startTime, [], seq(threads, _ => 0),
          seq(3, _ => Track(FRESH, 0, [])), seq(threads, _ => Idle))
  }

  // ---------- Steps ----------

  function TickEffect(alpha: real, tr: Track, pc: TickPc): Track {
    match pc
    case Drain => Track(tr.average.(uncounted := 0), tr.received, tr.drained + [tr.average.uncounted])
    case Swap(rate, seen) =>
      if tr.average.ewma == seen then tr.(average := tr.average.(ewma := Blend(alpha, seen, rate))) else tr
    case Store(rate) => tr.(average := tr.average.(ewma := rate))
    case Announce => tr.(average := tr.average.(initialized := true))
    case _ => tr
  }

  function TickAfter(tr: Track, pc: TickPc): TickPc {
    match pc
    case Drain => Test(InstantRate(tr.average.uncounted, TICK_INTERVAL))
    case Test(rate) => if tr.average.initialized then Load(rate) else Store(rate)
    case Load(rate) => Swap(rate, tr.average.ewma)
    case Store(_) => Announce
    case _ => Done
  }

  /** Where a thread goes once tickIfNecessary returns. */
  function Continue(op: Op): Pc {
    match op
    case Marking(n) => Counting(n, 0)
    case Reading => Idle
  }

  /** The next place after TickAfter, moving on to the next average or the next tick when one is done. */
  function TickingAfter(pc: Pc, tick: TickPc): Pc
    requires pc.Ticking?
  {
    if tick != Done then pc.(tick := tick)
    else if pc.which < 2 then Ticking(pc.op, pc.remaining, pc.which + 1, Drain)
    else if pc.remaining > 1 then Ticking(pc.op, pc.remaining - 1, 0, Drain)
    else Continue(pc.op)
  }

  function Repeat(t: nat, n: nat): (r: seq<nat>)
    ensures |r| == n
  {
    seq(n, _ => t)
  }

  predicate Enabled(s: State, step: Step) {
    match step
    case Advance(time) => s.clock <= time < WORD
    case Call(t, _) => t < |s.threads| && s.threads[t].Idle?
    case ReadClock(t) => t < |s.threads| && s.threads[t].Loaded?
    case Claim(t) => t < |s.threads| && s.threads[t].Timed?
    case TickOn(t) => t < |s.threads| && s.threads[t].Ticking?
    case CountOn(t) => t < |s.threads| && s.threads[t].Counting?
  }

  /** The bounds every state keeps: three averages, one tick counter a thread. */
  ghost predicate Shape(s: State) {
    && |s.tracks| == 3 && |s.performed| == |s.threads|
    && forall t :: 0 <= t < |s.threads| ==> ShapeAt(s.threads[t])
  }

  ghost predicate ShapeAt(pc: Pc) {
    match pc
    case Ticking(_, remaining, which, tick) => remaining > 0 && which < 3 && tick != Done
    case Counting(_, done) => done < 4
    case _ => true
  }

  function ApplyClaim(s: State, t: nat): State
    requires t < |s.threads| && s.threads[t].Timed?
  {
    var pc := s.threads[t];
    var age := Age(pc.now, pc.oldTick);
    if age > TICK_INTERVAL && s.lastTick == pc.oldTick then
      s.(lastTick := NewTick(pc.now, pc.oldTick),
         owners := s.owners + Repeat(t, age / TICK_INTERVAL),
         threads := s.threads[t := Ticking(pc.op, age / TICK_INTERVAL, 0, Drain)])
    else s.(threads := s.threads[t := Continue(pc.op)])
  }

  ghost function ApplyTick(alphas: seq<real>, s: State, t: nat): State
    requires |alphas| == 3 && Shape(s) && t < |s.threads| && s.threads[t].Ticking?
  {
    var pc := s.threads[t];
    assert ShapeAt(pc);
    var tr := s.tracks[pc.which];
    var tick := TickAfter(tr, pc.tick);
    s.(tracks := s.tracks[pc.which := TickEffect(alphas[pc.which], tr, pc.tick)],
       performed := if tick == Done && pc.which == 2 then s.performed[t := s.performed[t] + 1] else s.performed,
       threads := s.threads[t := TickingAfter(pc, tick)])
  }

  function Received(tr: Track, n: nat): Track {
    Track(Updated(tr.average, n), tr.received + n, tr.drained)
  }

  ghost function ApplyCount(s: State, t: nat): State
    requires Shape(s) && t < |s.threads| && s.threads[t].Counting?
  {
    var pc := s.threads[t];
    assert ShapeAt(pc);
    var next := if pc.done < 3 then Counting(pc.n, pc.done + 1) else Idle;
    if pc.done == 0 then
      s.(count := s.count + pc.n, threads := s.threads[t := next])
    else
      s.(tracks := s.tracks[pc.done - 1 := Received(s.tracks[pc.done - 1], pc.n)],
         threads := s.threads[t := next])
  }

  ghost function Apply(alphas: seq<real>, s: State, step: Step): State
    requires |alphas| == 3 && Shape(s) && Enabled(s, step)
  {
    match step
    case Advance(time) => s.(clock := time)
    case Call(t, op) => s.(threads := s.threads[t := Loaded(op, s.lastTick)])
    case ReadClock(t) =>
      s.(threads := s.threads[t := Timed(s.threads[t].op, s.threads[t].oldTick, s.clock)])
    case Claim(t) => ApplyClaim(s, t)
    case TickOn(t) => ApplyTick(alphas, s, t)
    case CountOn(t) => ApplyCount(s, t)
  }

  // ---------- Claimed intervals ----------

  ghost predicate ClockAt(startTime: nat, s: State, pc: Pc) {
    match pc
    case Loaded(_, old_) => TickTime(startTime, s, old_)
    case Timed(_, old_, now) => TickTime(startTime, s, old_) && old_ <= now <= s.clock
    case _ => true
  }

  /** A value that last_tick_ has held. */
  ghost predicate TickTime(startTime: nat, s: State, tick: nat) {
    startTime <= tick <= s.lastTick && (tick - startTime) % TICK_INTERVAL == 0
  }

  ghost predicate ClockGood(startTime: nat, s: State) {
    && s.lastTick == startTime + |s.owners| * TICK_INTERVAL
    && s.lastTick <= s.clock < WORD
    && forall t :: 0 <= t < |s.threads| ==> ClockAt(startTime, s, s.threads[t])
  }

  /** A successful claim never wraps, moves last_tick_ by whole intervals, and never past the clock read. */
  lemma ClaimArithmetic(oldTick: nat, now: nat)
    requires oldTick <= now < WORD
    ensures Age(now, oldTick) == now - oldTick
    ensures NewTick(now, oldTick) == oldTick + Age(now, oldTick) / TICK_INTERVAL * TICK_INTERVAL
    ensures oldTick <= NewTick(now, oldTick) <= now
  {
  }

  lemma WholeIntervals(a: int, n: int)
    requires a % TICK_INTERVAL == 0
    ensures (a + n * TICK_INTERVAL) % TICK_INTERVAL == 0
  {
  }

  lemma ClaimKeepsClock(startTime: nat, s: State, t: nat)
    requires ClockGood(startTime, s) && t < |s.threads| && s.threads[t].Timed?
    ensures ClockGood(startTime, ApplyClaim(s, t))
    ensures s.lastTick <= ApplyClaim(s, t).lastTick && s.owners <= ApplyClaim(s, t).owners
  {
    var pc, s' := s.threads[t], ApplyClaim(s, t);
    assert ClockAt(startTime, s, pc);
    ClaimArithmetic(pc.oldTick, pc.now);
    hide Age, NewTick;
    forall u | 0 <= u < |s'.threads| ensures ClockAt(startTime, s', s'.threads[u]) {
      assert ClockAt(startTime, s, s.threads[u]);
    }
  }

  lemma StepKeepsClock(alphas: seq<real>, startTime: nat, s: State, step: Step)
    requires |alphas| == 3 && Shape(s) && Enabled(s, step) && ClockGood(startTime, s)
    ensures ClockGood(startTime, Apply(alphas, s, step))
    ensures s.lastTick <= Apply(alphas, s, step).lastTick && s.owners <= Apply(alphas, s, step).owners
  {
    if step.Claim? {
      ClaimKeepsClock(startTime, s, step.thread);
    } else {
      var s' := Apply(alphas, s, step);
      WholeIntervals(0, |s.owners|);
      forall u | 0 <= u < |s'.threads| ensures ClockAt(startTime, s', s'.threads[u]) {
        assert ClockAt(startTime, s, s.threads[u]);
      }
    }
  }

  // ---------- Ticks performed ----------

  function Remaining(pc: Pc): nat {
    if pc.Ticking? then pc.remaining else 0
  }

  /** Each thread has performed, or still has to perform, exactly the ticks of the intervals it claimed. */
  ghost predicate LedgerGood(s: State) {
    && |s.performed| == |s.threads|
    && (forall j :: 0 <= j < |s.owners| ==> s.owners[j] < |s.threads|)
    && forall t :: 0 <= t < |s.threads| ==>
         multiset(s.owners)[t] == s.performed[t] + Remaining(s.threads[t])
  }

  lemma {:induction false} CountRepeat(t: nat, n: nat, u: nat)
    ensures multiset(Repeat(t, n))[u] == if u == t then n else 0
  {
    if n > 0 {
      CountRepeat(t, n - 1, u);
      assert Repeat(t, n) == Repeat(t, n - 1) + [t];
    } else {
      assert Repeat(t, n) == [];
    }
  }

  lemma ClaimKeepsLedger(s: State, t: nat)
    requires LedgerGood(s) && t < |s.threads| && s.threads[t].Timed?
    ensures LedgerGood(ApplyClaim(s, t))
  {
    var pc, s' := s.threads[t], ApplyClaim(s, t);
    var n := Age(pc.now, pc.oldTick) / TICK_INTERVAL;
    hide Age, NewTick;
    forall u | 0 <= u < |s.threads|
      ensures multiset(s'.owners)[u] == s'.performed[u] + Remaining(s'.threads[u])
    {
      CountRepeat(t, n, u);
      assert multiset(s.owners + Repeat(t, n))[u] == multiset(s.owners)[u] + multiset(Repeat(t, n))[u];
    }
  }

  lemma StepKeepsLedger(alphas: seq<real>, s: State, step: Step)
    requires |alphas| == 3 && Shape(s) && Enabled(s, step) && LedgerGood(s)
    ensures LedgerGood(Apply(alphas, s, step))
  {
    if step.Claim? {
      ClaimKeepsLedger(s, step.thread);
    } else {
      assert step.TickOn? ==> ShapeAt(s.threads[step.thread]);
    }
  }

  lemma StepKeepsShape(alphas: seq<real>, s: State, step: Step)
    requires |alphas| == 3 && Shape(s) && Enabled(s, step)
    ensures Shape(Apply(alphas, s, step)) && |Apply(alphas, s, step).threads| == |s.threads|
  {
  }

  // ---------- Conservation of marks ----------

  function Total(counts: seq<nat>): nat {
    if counts == [] then 0 else Total(counts[..|counts| - 1]) + counts[|counts| - 1]
  }

  /** The marks a thread has added to exactly the first `stage` of count_, m1, m5 and m15. */
  function PartialAt(pc: Pc, stage: nat): nat {
    if pc.Counting? && pc.done == stage then pc.n else 0
  }

  function Partial(threads: seq<Pc>, stage: nat): nat {
    if threads == [] then 0
    else Partial(threads[..|threads| - 1], stage) + PartialAt(threads[|threads| - 1], stage)
  }

  lemma {:induction false} PartialUpdate(threads: seq<Pc>, t: nat, pc: Pc, stage: nat)
    requires t < |threads|
    ensures Partial(threads[t := pc], stage)
         == Partial(threads, stage) - PartialAt(threads[t], stage) + PartialAt(pc, stage)
  {
    var last := |threads| - 1;
    if t < last {
      PartialUpdate(threads[..last], t, pc, stage);
      assert threads[t := pc][..last] == threads[..last][t := pc];
    } else {
      assert threads[t := pc][..last] == threads[..last];
    }
  }

  /** How many marks have reached count_ (level 0), m1, m5 and m15 (levels 1, 2 and 3). */
  function Level(s: State, level: nat): nat
    requires |s.tracks| == 3 && level < 4
  {
    if level == 0 then s.count else s.tracks[level - 1].received
  }

  ghost predicate Balanced(tr: Track) {
    tr.received == tr.average.uncounted + Total(tr.drained)
  }

  ghost predicate MarksGood(s: State) {
    && |s.tracks| == 3
    && (forall i :: 0 <= i < 3 ==> Balanced(s.tracks[i]))
    && Level(s, 0) == Level(s, 1) + Partial(s.threads, 1)
    && Level(s, 1) == Level(s, 2) + Partial(s.threads, 2)
    && Level(s, 2) == Level(s, 3) + Partial(s.threads, 3)
  }

  lemma TickKeepsBalance(alpha: real, tr: Track, pc: TickPc)
    requires Balanced(tr)
    ensures Balanced(TickEffect(alpha, tr, pc)) && TickEffect(alpha, tr, pc).received == tr.received
  {
  }

  /** A step that leaves count_ and the received totals alone, and moves thread t outside Counting 1..3. */
  lemma PartialUnmoved(threads: seq<Pc>, t: nat, pc: Pc)
    requires t < |threads|
    requires threads[t].Counting? ==> threads[t].done == 0
    requires pc.Counting? ==> pc.done == 0
    ensures forall stage: nat :: 1 <= stage <= 3 ==> Partial(threads[t := pc], stage) == Partial(threads, stage)
  {
    forall stage: nat | 1 <= stage <= 3 ensures Partial(threads[t := pc], stage) == Partial(threads, stage) {
      PartialUpdate(threads, t, pc, stage);
    }
  }

  lemma CountKeepsMarks(s: State, t: nat)
    requires Shape(s) && MarksGood(s) && t < |s.threads| && s.threads[t].Counting?
    ensures MarksGood(ApplyCount(s, t))
  {
    var pc, s' := s.threads[t], ApplyCount(s, t);
    assert ShapeAt(pc);
    PartialUpdate(s.threads, t, s'.threads[t], 1);
    PartialUpdate(s.threads, t, s'.threads[t], 2);
    PartialUpdate(s.threads, t, s'.threads[t], 3);
    hide Partial, Total;
    assert forall i :: 0 <= i < 3 ==> Balanced(s.tracks[i]) ==> Balanced(s'.tracks[i]);
  }

  lemma TickKeepsMarks(alphas: seq<real>, s: State, t: nat)
    requires |alphas| == 3 && Shape(s) && MarksGood(s) && t < |s.threads| && s.threads[t].Ticking?
    ensures MarksGood(ApplyTick(alphas, s, t))
  {
    var pc := s.threads[t];
    assert ShapeAt(pc);
    var tr' := TickEffect(alphas[pc.which], s.tracks[pc.which], pc.tick);
    TickKeepsBalance(alphas[pc.which], s.tracks[pc.which], pc.tick);
    var next := TickingAfter(pc, TickAfter(s.tracks[pc.which], pc.tick));
    PartialUnmoved(s.threads, t, next);
    TrackUpdateKeepsMarks(s, pc.which, tr', s.threads[t := next], ApplyTick(alphas, s, t).performed);
  }

  lemma TrackUpdateKeepsMarks(s: State, which: nat, tr: Track, threads: seq<Pc>, performed: seq<nat>)
    requires MarksGood(s) && which < 3 && Balanced(tr) && tr.received == s.tracks[which].received
    requires forall stage: nat :: 1 <= stage <= 3 ==> Partial(threads, stage) == Partial(s.threads, stage)
    ensures MarksGood(s.(tracks := s.tracks[which := tr], threads := threads, performed := performed))
  {
  }

  lemma StepKeepsMarks(alphas: seq<real>, s: State, step: Step)
    requires |alphas| == 3 && Shape(s) && Enabled(s, step) && MarksGood(s)
    ensures MarksGood(Apply(alphas, s, step))
  {
    match step
    case Advance(_) =>
    case Call(t, op) => PartialUnmoved(s.threads, t, Loaded(op, s.lastTick));
    case ReadClock(t) => PartialUnmoved(s.threads, t, Timed(s.threads[t].op, s.threads[t].oldTick, s.clock));
    case Claim(t) => PartialUnmoved(s.threads, t, ApplyClaim(s, t).threads[t]);
    case TickOn(t) => TickKeepsMarks(alphas, s, t);
    case CountOn(t) => CountKeepsMarks(s, t);
  }

  // ---------- Averages stay in the hull of the drained rates ----------

  function RateOf(count: nat): real {
    InstantRate(count, TICK_INTERVAL)
  }

  /** x lies between the smallest and the largest rate drained so far. */
  ghost predicate InHull(x: real, drained: seq<nat>) {
    && (exists i :: 0 <= i < |drained| && RateOf(drained[i]) <= x)
    && (exists i :: 0 <= i < |drained| && x <= RateOf(drained[i]))
  }

  ghost predicate HullAt(tr: Track, pc: TickPc) {
    match pc
    case Test(rate) => InHull(rate, tr.drained)
    case Load(rate) => InHull(rate, tr.drained) && tr.average.initialized
    case Swap(rate, seen) => InHull(rate, tr.drained) && InHull(seen, tr.drained) && tr.average.initialized
    case Store(rate) => InHull(rate, tr.drained)
    case Announce => InHull(tr.average.ewma, tr.drained)
    case _ => true
  }

  ghost predicate TrackInHull(tr: Track) {
    tr.average.initialized ==> InHull(tr.average.ewma, tr.drained)
  }

  ghost predicate HullGood(s: State) {
    && |s.tracks| == 3
    && (forall i :: 0 <= i < 3 ==> TrackInHull(s.tracks[i]))
    && (forall t :: 0 <= t < |s.threads| ==> ThreadInHull(s, s.threads[t]))
  }

  ghost predicate ThreadInHull(s: State, pc: Pc)
    requires |s.tracks| == 3
  {
    pc.Ticking? && pc.which < 3 ==> HullAt(s.tracks[pc.which], pc.tick)
  }

  lemma BlendInHull(alpha: real, x: real, y: real, drained: seq<nat>)
    requires 0.0 <= alpha <= 1.0 && InHull(x, drained) && InHull(y, drained)
    ensures InHull(Blend(alpha, x, y), drained)
  {
    BlendBetween(alpha, x, y);
    var lo := if x <= y then x else y;
    var hi := if x <= y then y else x;
    var i :| 0 <= i < |drained| && RateOf(drained[i]) <= lo;
    var j :| 0 <= j < |drained| && hi <= RateOf(drained[j]);
    assert RateOf(drained[i]) <= Blend(alpha, x, y) <= RateOf(drained[j]);
  }

  lemma BlendBetween(alpha: real, x: real, y: real)
    requires 0.0 <= alpha <= 1.0
    ensures (if x <= y then x else y) <= Blend(alpha, x, y) <= (if x <= y then y else x)
  {
    if x <= y {
      ProductRange(alpha, y - x);
    } else {
      ProductRange(alpha, x - y);
      assert Product(alpha, y - x) == -Product(alpha, x - y);
    }
  }

  lemma ProductRange(alpha: real, d: real)
    requires 0.0 <= alpha <= 1.0 && d >= 0.0
    ensures 0.0 <= Product(alpha, d) <= d
  {
    ScaleMonotone(alpha, 1.0, d);
  }

  lemma HullGrows(x: real, drained: seq<nat>, count: nat)
    ensures InHull(x, drained) ==> InHull(x, drained + [count])
    ensures InHull(RateOf(count), drained + [count])
  {
    var more := drained + [count];
    assert more[|drained|] == count;
    assert forall i :: 0 <= i < |drained| ==> more[i] == drained[i];
  }

  /** One step of a tick keeps the average in its hull, and everybody else's local values too. */
  lemma TickStaysInHull(alpha: real, tr: Track, pc: TickPc)
    requires 0.0 <= alpha <= 1.0 && TrackInHull(tr) && HullAt(tr, pc)
    ensures TrackInHull(TickEffect(alpha, tr, pc))
    ensures HullAt(TickEffect(alpha, tr, pc), TickAfter(tr, pc))
    ensures forall other :: HullAt(tr, other) ==> HullAt(TickEffect(alpha, tr, pc), other)
  {
    var tr' := TickEffect(alpha, tr, pc);
    if pc.Drain? {
      forall x { HullGrows(x, tr.drained, tr.average.uncounted); }
    } else if pc.Swap? {
      BlendInHull(alpha, pc.seen, pc.rate, tr.drained);
    }
    hide InHull, Blend;
    forall other | HullAt(tr, other) ensures HullAt(tr', other) {
    }
  }

  lemma TickKeepsHull(alphas: seq<real>, s: State, t: nat)
    requires |alphas| == 3 && forall i :: 0 <= i < 3 ==> 0.0 <= alphas[i] <= 1.0
    requires Shape(s) && HullGood(s) && t < |s.threads| && s.threads[t].Ticking?
    ensures HullGood(ApplyTick(alphas, s, t))
  {
    var pc, s' := s.threads[t], ApplyTick(alphas, s, t);
    assert ShapeAt(pc);
    assert ThreadInHull(s, pc);
    TickStaysInHull(alphas[pc.which], s.tracks[pc.which], pc.tick);
    hide TickEffect, TickAfter;
    forall u | 0 <= u < |s'.threads| ensures ThreadInHull(s', s'.threads[u]) {
      assert ThreadInHull(s, s.threads[u]);
    }
  }

  lemma CountKeepsHull(s: State, t: nat)
    requires Shape(s) && HullGood(s) && t < |s.threads| && s.threads[t].Counting?
    ensures HullGood(ApplyCount(s, t))
  {
    var s' := ApplyCount(s, t);
    assert ShapeAt(s.threads[t]);
    hide InHull;
    forall u | 0 <= u < |s'.threads| ensures ThreadInHull(s', s'.threads[u]) {
      assert ThreadInHull(s, s.threads[u]);
    }
  }

  lemma StepKeepsHull(alphas: seq<real>, s: State, step: Step)
    requires |alphas| == 3 && forall i :: 0 <= i < 3 ==> 0.0 <= alphas[i] <= 1.0
    requires Shape(s) && Enabled(s, step) && HullGood(s)
    ensures HullGood(Apply(alphas, s, step))
  {
    if step.TickOn? {
      TickKeepsHull(alphas, s, step.thread);
    } else if step.CountOn? {
      CountKeepsHull(s, step.thread);
    } else {
      var s' := Apply(alphas, s, step);
      hide InHull;
      forall u | 0 <= u < |s'.threads| ensures ThreadInHull(s', s'.threads[u]) {
        assert ThreadInHull(s, s.threads[u]);
      }
    }
  }

  // ---------- All interleavings ----------

  ghost predicate Next(alphas: seq<real>, s: State, s': State)
    requires |alphas| == 3
  {
    Shape(s) && exists step :: Enabled(s, step) && s' == Apply(alphas, s, step)
  }

  /** Any interleaving of any number of threads marking and reading one meter. */
  ghost predicate Behaviour(alphas: seq<real>, startTime: nat, threads: nat, run: seq<State>) {
    && |alphas| == 3 && (forall i :: 0 <= i < 3 ==> 0.0 <= alphas[i] <= 1.0)
    && startTime < WORD
    && |run| > 0 && run[0] == Init(startTime, threads)
    && forall i :: 0 <= i < |run| - 1 ==> Next(alphas, run[i], run[i + 1])
  }

  ghost predicate Inv(startTime: nat, s: State) {
    Shape(s) && ClockGood(startTime, s) && LedgerGood(s) && MarksGood(s) && HullGood(s)
  }

  lemma InitGood(startTime: nat, threads: nat)
    requires startTime < WORD
    ensures Inv(startTime, Init(startTime, threads))
  {
    var s := Init(startTime, threads);
    NothingPartial(s.threads, 1);
    NothingPartial(s.threads, 2);
    NothingPartial(s.threads, 3);
  }

  lemma {:induction false} NothingPartial(threads: seq<Pc>, stage: nat)
    requires forall t :: 0 <= t < |threads| ==> !threads[t].Counting?
    ensures Partial(threads, stage) == 0
  {
    if threads != [] {
      NothingPartial(threads[..|threads| - 1], stage);
    }
  }

  lemma StepGood(alphas: seq<real>, startTime: nat, s: State, s': State)
    requires |alphas| == 3 && (forall i :: 0 <= i < 3 ==> 0.0 <= alphas[i] <= 1.0)
    requires Inv(startTime, s) && Next(alphas, s, s')
    ensures Inv(startTime, s') && |s'.threads| == |s.threads|
    ensures s.lastTick <= s'.lastTick && s.owners <= s'.owners
  {
    var step :| Enabled(s, step) && s' == Apply(alphas, s, step);
    hide *;
    StepKeepsShape(alphas, s, step);
    StepKeepsClock(alphas, startTime, s, step);
    StepKeepsLedger(alphas, s, step);
    StepKeepsMarks(alphas, s, step);
    StepKeepsHull(alphas, s, step);
    InvParts(startTime, s');
  }

  lemma InvParts(startTime: nat, s: State)
    ensures Inv(startTime, s) <==>
      Shape(s) && ClockGood(startTime, s) && LedgerGood(s) && MarksGood(s) && HullGood(s)
  {
  }

  lemma {:induction false} Reachable(alphas: seq<real>, startTime: nat, threads: nat, run: seq<State>, i: nat)
    requires Behaviour(alphas, startTime, threads, run) && i < |run|
    ensures Inv(startTime, run[i]) && |run[i].threads| == threads
  {
    if i == 0 {
      InitGood(startTime, threads);
    } else {
      Reachable(alphas, startTime, threads, run, i - 1);
      assert Next(alphas, run[i - 1], run[i]);
      hide Inv, Next;
      StepGood(alphas, startTime, run[i - 1], run[i]);
    }
  }

  /** last_tick_ only grows, and the owner of a claimed interval never changes. */
  lemma {:induction false} ClaimsAreForever(alphas: seq<real>, startTime: nat, threads: nat,
                                            run: seq<State>, i: nat, j: nat)
    requires Behaviour(alphas, startTime, threads, run) && i <= j < |run|
    ensures run[i].lastTick <= run[j].lastTick
    ensures run[i].owners <= run[j].owners
    decreases j
  {
    hide *;
    if i < j {
      ClaimsAreForever(alphas, startTime, threads, run, i, j - 1);
      ClaimsGrow(alphas, startTime, threads, run, j - 1);
      PrefixTransitive(run[i].owners, run[j - 1].owners, run[j].owners);
    }
  }

  lemma PrefixTransitive(a: seq<nat>, b: seq<nat>, c: seq<nat>)
    requires a <= b <= c
    ensures a <= c
  {
  }

  /** last_tick_ never passes the clock, and the intervals up to it have exactly one owner each. */
  lemma IntervalsClaimedOnce(alphas: seq<real>, startTime: nat, threads: nat, run: seq<State>, i: nat)
    requires Behaviour(alphas, startTime, threads, run) && i < |run|
    ensures run[i].lastTick <= run[i].clock
    ensures run[i].lastTick - startTime == |run[i].owners| * TICK_INTERVAL
    ensures forall j :: 0 <= j < |run[i].owners| ==> run[i].owners[j] < threads
  {
    Reachable(alphas, startTime, threads, run, i);
  }

  lemma ClaimsGrow(alphas: seq<real>, startTime: nat, threads: nat, run: seq<State>, i: nat)
    requires Behaviour(alphas, startTime, threads, run) && i + 1 < |run|
    ensures run[i].lastTick <= run[i + 1].lastTick && run[i].owners <= run[i + 1].owners
  {
    Reachable(alphas, startTime, threads, run, i);
    assert Next(alphas, run[i], run[i + 1]);
    hide Inv, Next;
    StepGood(alphas, startTime, run[i], run[i + 1]);
  }

  /** The unsigned subtraction that computes an age never wraps. */
  lemma AgeNeverWraps(alphas: seq<real>, startTime: nat, threads: nat, run: seq<State>, i: nat, t: nat)
    requires Behaviour(alphas, startTime, threads, run) && i < |run| && t < threads
    ensures |run[i].threads| == threads
    ensures var pc := run[i].threads[t];
      pc.Timed? ==> pc.oldTick <= pc.now && Age(pc.now, pc.oldTick) == pc.now - pc.oldTick
  {
    Reachable(alphas, startTime, threads, run, i);
    var pc := run[i].threads[t];
    assert ClockAt(startTime, run[i], pc);
    if pc.Timed? {
      ClaimArithmetic(pc.oldTick, pc.now);
    }
  }

  /** A thread outside tick() has performed exactly one tick for each interval it ever claimed. */
  lemma TicksMatchClaims(alphas: seq<real>, startTime: nat, threads: nat, run: seq<State>, i: nat, t: nat)
    requires Behaviour(alphas, startTime, threads, run) && i < |run| && t < threads
    ensures |run[i].threads| == |run[i].performed| == threads
    ensures run[i].performed[t] <= multiset(run[i].owners)[t]
    ensures !run[i].threads[t].Ticking? <==> run[i].performed[t] == multiset(run[i].owners)[t]
  {
    Reachable(alphas, startTime, threads, run, i);
    assert ShapeAt(run[i].threads[t]);
  }

  /** No mark is lost or counted twice: what each average received is what it holds plus all it ever drained. */
  lemma MarksConserved(alphas: seq<real>, startTime: nat, threads: nat, run: seq<State>, i: nat)
    requires Behaviour(alphas, startTime, threads, run) && i < |run|
    ensures |run[i].tracks| == 3
    ensures forall k :: 0 <= k < 3 ==> Balanced(run[i].tracks[k])
    ensures run[i].count >= run[i].tracks[0].received >= run[i].tracks[1].received >= run[i].tracks[2].received
    ensures (forall t :: 0 <= t < |run[i].threads| ==> !run[i].threads[t].Counting?) ==>
      run[i].count == run[i].tracks[0].received == run[i].tracks[1].received == run[i].tracks[2].received
  {
    Reachable(alphas, startTime, threads, run, i);
    var pcs := run[i].threads;
    if forall t :: 0 <= t < |pcs| ==> !pcs[t].Counting? {
      NothingPartial(pcs, 1);
      NothingPartial(pcs, 2);
      NothingPartial(pcs, 3);
    }
  }

  /** An initialised average lies between the smallest and the largest rate drained, lost writes or not. */
  lemma AveragesInHull(alphas: seq<real>, startTime: nat, threads: nat, run: seq<State>, i: nat, k: nat)
    requires Behaviour(alphas, startTime, threads, run) && i < |run| && k < 3
    ensures |run[i].tracks| == 3
    ensures run[i].tracks[k].average.initialized ==>
      InHull(run[i].tracks[k].average.ewma, run[i].tracks[k].drained)
  {
    Reachable(alphas, startTime, threads, run, i);
    assert TrackInHull(run[i].tracks[k]);
  }
}

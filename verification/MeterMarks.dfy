/** What the calls made on a meter by many threads add up to, and how its averages move. */
module MeterMarks {
  import opened Ewma
  import opened TickClock
  import opened MeterProtocol

  /** `run` lists the states that the steps lead through from a new meter. */
  ghost predicate Trace(alphas: seq<real>, startTime: nat, threads: nat, steps: seq<Step>, run: seq<State>) {
    && |alphas| == 3 && (forall i :: 0 <= i < 3 ==> 0.0 <= alphas[i] <= 1.0)
    && startTime < WORD
    && |run| == |steps| + 1 && run[0] == Init(startTime, threads)
    && forall i :: 0 <= i < |steps| ==> Led(alphas, run[i], steps[i], run[i + 1])
  }

  ghost predicate Led(alphas: seq<real>, s: State, step: Step, s': State)
    requires |alphas| == 3
  {
    Shape(s) && Enabled(s, step) && s' == Apply(alphas, s, step)
  }

  lemma TraceIsBehaviour(alphas: seq<real>, startTime: nat, threads: nat, steps: seq<Step>, run: seq<State>)
    requires Trace(alphas, startTime, threads, steps, run)
    ensures Behaviour(alphas, startTime, threads, run)
  {
    hide Shape, Enabled, Apply, Init;
    forall i | 0 <= i < |run| - 1 ensures Next(alphas, run[i], run[i + 1]) {
      assert Led(alphas, run[i], steps[i], run[i + 1]);
    }
  }

  // ---------- Every mark called is counted ----------

  /** The marks a step asks for: those of the call it begins. */
  function CalledBy(step: Step): nat {
    if step.Call? && step.op.Marking? then step.op.n else 0
  }

  function Called(steps: seq<Step>): nat {
    if steps == [] then 0 else Called(steps[..|steps| - 1]) + CalledBy(steps[|steps| - 1])
  }

  /** The marks a thread has been asked for and has not added to count_ yet. */
  function OwedBy(pc: Pc): nat {
    match pc
    case Loaded(Marking(n), _) => n
    case Timed(Marking(n), _, _) => n
    case Ticking(Marking(n), _, _, _) => n
    case Counting(n, 0) => n
    case _ => 0
  }

  function Owed(threads: seq<Pc>): nat {
    if threads == [] then 0 else Owed(threads[..|threads| - 1]) + OwedBy(threads[|threads| - 1])
  }

  lemma {:induction false} OwedUpdate(threads: seq<Pc>, t: nat, pc: Pc)
    requires t < |threads|
    ensures Owed(threads[t := pc]) == Owed(threads) - OwedBy(threads[t]) + OwedBy(pc)
  {
    var last := |threads| - 1;
    if t < last {
      OwedUpdate(threads[..last], t, pc);
      assert threads[t := pc][..last] == threads[..last][t := pc];
    } else {
      assert threads[t := pc][..last] == threads[..last];
    }
  }

  lemma {:induction false} NothingOwed(threads: seq<Pc>)
    requires forall t :: 0 <= t < |threads| ==> threads[t].Idle?
    ensures Owed(threads) == 0
  {
    if threads != [] {
      NothingOwed(threads[..|threads| - 1]);
    }
  }

  /** No step loses a mark: what is counted and owed grows by what is called. */
  lemma StepOwes(alphas: seq<real>, s: State, step: Step)
    requires |alphas| == 3 && Shape(s) && Enabled(s, step)
    ensures var s' := Apply(alphas, s, step);
      s'.count + Owed(s'.threads) == s.count + Owed(s.threads) + CalledBy(step)
  {
    hide Owed;
    if !step.Advance? {
      var t, s' := step.thread, Apply(alphas, s, step);
      assert ShapeAt(s.threads[t]);
      assert s'.threads == s.threads[t := s'.threads[t]];
      OwedUpdate(s.threads, t, s'.threads[t]);
    }
  }

  lemma {:induction false} CountedOrOwed(alphas: seq<real>, startTime: nat, threads: nat,
                                         steps: seq<Step>, run: seq<State>, i: nat)
    requires Trace(alphas, startTime, threads, steps, run) && i < |run|
    ensures run[i].count + Owed(run[i].threads) == Called(steps[..i])
  {
    hide Shape, Enabled, Apply, Owed;
    if i == 0 {
      NothingOwed(run[0].threads);
    } else {
      CountedOrOwed(alphas, startTime, threads, steps, run, i - 1);
      assert Led(alphas, run[i - 1], steps[i - 1], run[i]);
      StepOwes(alphas, run[i - 1], steps[i - 1]);
      assert steps[..i][..i - 1] == steps[..i - 1];
    }
  }

  /**
   * The marks of all calls of mark are in count_ or still owed by the thread of the call, whoever wins the claims;
   * with every thread idle count_ and all three averages have received each of them.
   */
  lemma EveryMarkCounted(alphas: seq<real>, startTime: nat, threads: nat, steps: seq<Step>, run: seq<State>)
    requires Trace(alphas, startTime, threads, steps, run)
    ensures var s := run[|steps|];
      && |s.tracks| == 3
      && s.count + Owed(s.threads) == Called(steps)
      && ((forall t :: 0 <= t < |s.threads| ==> s.threads[t].Idle?) ==>
           s.count == s.tracks[0].received == s.tracks[1].received == s.tracks[2].received == Called(steps))
  {
    var s := run[|steps|];
    CountedOrOwed(alphas, startTime, threads, steps, run, |steps|);
    assert steps[..|steps|] == steps;
    TraceIsBehaviour(alphas, startTime, threads, steps, run);
    MarksConserved(alphas, startTime, threads, run, |steps|);
    hide Owed, Called, Trace, Behaviour;
    if forall t :: 0 <= t < |s.threads| ==> s.threads[t].Idle? {
      NothingOwed(s.threads);
    }
  }

  // ---------- A due interval is claimed ----------

  /**
   * A thread that finds its last tick more than five seconds old claims every interval up to its clock reading, or
   * another thread has claimed since: either way last_tick_ has moved on.
   */
  lemma DueIsClaimed(alphas: seq<real>, startTime: nat, threads: nat, steps: seq<Step>, run: seq<State>, i: nat, t: nat)
    requires Trace(alphas, startTime, threads, steps, run) && i < |steps| && steps[i] == Claim(t)
    ensures t < |run[i].threads| == |run[i + 1].threads| && run[i].threads[t].Timed?
    ensures var pc, tick, tick' := run[i].threads[t], run[i].lastTick, run[i + 1].lastTick;
      pc.now - pc.oldTick > 5_000_000_000 ==>
        && tick' > pc.oldTick
        && (tick == pc.oldTick ==>
              && pc.now - 5_000_000_000 < tick' <= pc.now
              && run[i + 1].threads[t] == Ticking(pc.op, (tick' - tick) / 5_000_000_000, 0, Drain))
        && (tick != pc.oldTick ==> tick' == tick && run[i + 1].threads[t] == Continue(pc.op))
  {
    TraceIsBehaviour(alphas, startTime, threads, steps, run);
    Reachable(alphas, startTime, threads, run, i);
    assert Led(alphas, run[i], steps[i], run[i + 1]);
    hide Trace, Behaviour, LedgerGood, MarksGood, HullGood, Shape;
    var pc := run[i].threads[t];
    assert ClockAt(startTime, run[i], pc);
    ClaimArithmetic(pc.oldTick, pc.now);
  }

  // ---------- Averages move by blending what they are ----------

  /** Some thread is about to store this rate as the first value of average k. */
  ghost predicate StoringFirst(s: State, k: nat, rate: real) {
    exists t :: 0 <= t < |s.threads| && s.threads[t].Ticking? && s.threads[t].which == k
             && s.threads[t].tick == Store(rate)
  }

  /** y is x moved toward a rate in the hull of those drained, by the share alpha of the way. */
  ghost predicate Blended(alpha: real, drained: seq<nat>, x: real, y: real) {
    exists rate :: InHull(rate, drained) && y == x + alpha * (rate - x)
  }

  lemma TickBlends(alpha: real, tr: Track, pc: TickPc)
    requires HullAt(tr, pc)
    ensures var x, y := tr.average.ewma, TickEffect(alpha, tr, pc).average.ewma;
      x == y || pc == Store(y) || Blended(alpha, tr.drained, x, y)
    ensures var a, b := tr.average, TickEffect(alpha, tr, pc).average;
      a.initialized == b.initialized || (pc == Announce && b == a.(initialized := true))
  {
    hide InHull;
  }

  lemma StepBlends(alphas: seq<real>, s: State, step: Step, k: nat)
    requires |alphas| == 3 && Shape(s) && HullGood(s) && Enabled(s, step) && k < 3
    ensures |Apply(alphas, s, step).tracks| == 3
    ensures var x, y := s.tracks[k].average.ewma, Apply(alphas, s, step).tracks[k].average.ewma;
      x == y || StoringFirst(s, k, y) || Blended(alphas[k], s.tracks[k].drained, x, y)
    ensures var a, b := s.tracks[k].average, Apply(alphas, s, step).tracks[k].average;
      a.initialized == b.initialized || (!a.initialized && b == a.(initialized := true))
  {
    hide InHull, Blended, HullAt, TickAfter;
    if step.TickOn? {
      var pc := s.threads[step.thread];
      assert ShapeAt(pc) && ThreadInHull(s, pc);
      TickBlends(alphas[pc.which], s.tracks[pc.which], pc.tick);
      hide TickEffect;
    }
  }

  /**
   * No write goes over a value that the writer has not seen: an average changes only to the blend of what it is with
   * a rate drained before, or to the first rate of a thread that found it uninitialised. It is marked initialised
   * by a step of its own, and stays so.
   */
  lemma AveragesMoveByBlending(alphas: seq<real>, startTime: nat, threads: nat,
                               steps: seq<Step>, run: seq<State>, i: nat, k: nat)
    requires Trace(alphas, startTime, threads, steps, run) && i < |steps| && k < 3
    ensures |run[i].tracks| == |run[i + 1].tracks| == 3
    ensures var x, y := run[i].tracks[k].average.ewma, run[i + 1].tracks[k].average.ewma;
      x == y || StoringFirst(run[i], k, y) || Blended(alphas[k], run[i].tracks[k].drained, x, y)
    ensures var a, b := run[i].tracks[k].average, run[i + 1].tracks[k].average;
      a.initialized == b.initialized || (!a.initialized && b == a.(initialized := true))
  {
    TraceIsBehaviour(alphas, startTime, threads, steps, run);
    Reachable(alphas, startTime, threads, run, i);
    assert Led(alphas, run[i], steps[i], run[i + 1]);
    hide Trace, Behaviour, HullGood, Shape, Enabled, Apply, Blended, StoringFirst;
    StepBlends(alphas, run[i], steps[i], k);
  }

  /** What one step of a thread inside a tick does to the average it ticks. */
  ghost predicate Writes(alpha: real, tick: TickPc, before: Track, after: Track) {
    && (tick.Drain? ==> after.average.uncounted == 0 && after.drained == before.drained + [before.average.uncounted])
    && (tick.Swap? && before.average.ewma == tick.seen ==>
          after.average.ewma == tick.seen + alpha * (tick.rate - tick.seen))
    && (tick.Swap? && before.average.ewma != tick.seen ==> after.average.ewma == before.average.ewma)
    && (tick.Store? ==> after.average.ewma == tick.rate)
    && (tick.Announce? ==> after.average.initialized)
  }

  lemma EffectWrites(alpha: real, tick: TickPc, tr: Track)
    ensures Writes(alpha, tick, tr, TickEffect(alpha, tr, tick))
  {
  }

  lemma StepWrites(alphas: seq<real>, s: State, t: nat)
    requires |alphas| == 3 && Shape(s) && t < |s.threads| && s.threads[t].Ticking?
    ensures s.threads[t].which < 3 && |ApplyTick(alphas, s, t).tracks| == 3
    ensures var pc := s.threads[t];
      Writes(alphas[pc.which], pc.tick, s.tracks[pc.which], ApplyTick(alphas, s, t).tracks[pc.which])
  {
    var pc := s.threads[t];
    assert ShapeAt(pc);
    EffectWrites(alphas[pc.which], pc.tick, s.tracks[pc.which]);
    hide Writes, TickEffect, TickAfter, TickingAfter;
  }

  /**
   * Wherever the other threads stand, the write of a thread takes effect exactly as its atomic operation does: a drain
   * takes all that waits, and a swap replaces the average exactly if it is still the value read.
   */
  lemma TickStepWrites(alphas: seq<real>, startTime: nat, threads: nat,
                       steps: seq<Step>, run: seq<State>, i: nat, t: nat)
    requires Trace(alphas, startTime, threads, steps, run) && i < |steps| && steps[i] == TickOn(t)
    ensures t < |run[i].threads| && run[i].threads[t].Ticking? && run[i].threads[t].which < 3
    ensures |run[i].tracks| == |run[i + 1].tracks| == 3
    ensures var pc := run[i].threads[t];
      Writes(alphas[pc.which], pc.tick, run[i].tracks[pc.which], run[i + 1].tracks[pc.which])
  {
    assert Led(alphas, run[i], steps[i], run[i + 1]);
    hide Trace, Writes, ApplyTick;
    StepWrites(alphas, run[i], t);
  }
}

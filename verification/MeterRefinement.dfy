/** Left undisturbed, a thread's atomic steps through a call amount to the sequential call. */
module MeterRefinement {
  import opened Ewma
  import opened TickClock
  import opened MeterProtocol
  import Sequential = Meter

  /** What the sequential meter sees of a state of the protocol. */
  function Value(s: State): Sequential.State
    requires |s.tracks| == 3
  {
    Sequential.State(s.count, s.lastTick, s.tracks[0].average, s.tracks[1].average, s.tracks[2].average)
  }

  ghost predicate WellFormed(alphas: seq<real>, s: State, t: nat) {
    |alphas| == 3 && Shape(s) && t < |s.threads|
  }

  /** The one step open to thread t inside a call. */
  function OwnStep(pc: Pc, t: nat): Step
    requires !pc.Idle?
  {
    match pc
    case Loaded(_, _) => ReadClock(t)
    case Timed(_, _, _) => Claim(t)
    case Ticking(_, _, _, _) => TickOn(t)
    case Counting(_, _) => CountOn(t)
  }

  /** Up to n steps of thread t, until its call returns. */
  ghost function Go(alphas: seq<real>, s: State, t: nat, n: nat): (r: State)
    requires WellFormed(alphas, s, t)
    ensures WellFormed(alphas, r, t)
    decreases n
  {
    if n == 0 || s.threads[t].Idle? then s
    else
      StepKeepsShape(alphas, s, OwnStep(s.threads[t], t));
      Go(alphas, Apply(alphas, s, OwnStep(s.threads[t], t)), t, n - 1)
  }

  lemma {:induction false} GoOn(alphas: seq<real>, s: State, t: nat, m: nat, n: nat)
    requires WellFormed(alphas, s, t)
    ensures Go(alphas, Go(alphas, s, t, m), t, n) == Go(alphas, s, t, m + n)
    decreases m
  {
    hide Shape, Apply;
    if m > 0 && !s.threads[t].Idle? {
      StepKeepsShape(alphas, s, OwnStep(s.threads[t], t));
      GoOn(alphas, Apply(alphas, s, OwnStep(s.threads[t], t)), t, m - 1, n);
    }
  }

  lemma GoOne(alphas: seq<real>, s: State, t: nat)
    requires WellFormed(alphas, s, t) && !s.threads[t].Idle?
    ensures Go(alphas, s, t, 1) == Apply(alphas, s, OwnStep(s.threads[t], t))
  {
  }

  // ---------- Ticks ----------

  lemma TickStep(alphas: seq<real>, s: State, t: nat)
    requires WellFormed(alphas, s, t) && s.threads[t].Ticking? && s.threads[t].which < 3
    requires TickAfter(s.tracks[s.threads[t].which], s.threads[t].tick) != Done
    ensures var pc := s.threads[t];
      Go(alphas, s, t, 1)
        == s.(tracks := s.tracks[pc.which := TickEffect(alphas[pc.which], s.tracks[pc.which], pc.tick)],
              threads := s.threads[t := pc.(tick := TickAfter(s.tracks[pc.which], pc.tick))])
  {
  }

  /** The four steps of EWMA::tick, from place to place. */
  lemma TickComposes(alpha: real, tr: Track)
    ensures
      var t1, p1 := TickEffect(alpha, tr, Drain), TickAfter(tr, Drain);
      var t2, p2 := TickEffect(alpha, t1, p1), TickAfter(t1, p1);
      var t3, p3 := TickEffect(alpha, t2, p2), TickAfter(t2, p2);
      && p1 != Done && p2 != Done && p3 != Done && TickAfter(t3, p3) == Done
      && TickEffect(alpha, t3, p3).average == Ticked(alpha, TICK_INTERVAL, tr.average)
  {
  }

  lemma LastTickStep(alphas: seq<real>, s: State, t: nat)
    requires WellFormed(alphas, s, t) && s.threads[t].Ticking? && s.threads[t].which < 3
    requires TickAfter(s.tracks[s.threads[t].which], s.threads[t].tick) == Done
    ensures var pc, s' := s.threads[t], Go(alphas, s, t, 1);
      && s'.tracks == s.tracks[pc.which := TickEffect(alphas[pc.which], s.tracks[pc.which], pc.tick)]
      && s'.threads == s.threads[t := TickingAfter(pc, Done)]
      && s'.count == s.count && s'.lastTick == s.lastTick && s'.clock == s.clock
  {
  }

  /** tick() of one of the averages, as the sequential meter sees it. */
  function TickOne(alphas: seq<real>, v: Sequential.State, which: nat): Sequential.State
    requires |alphas| == 3 && which < 3
  {
    if which == 0 then v.(m1 := Ticked(alphas[0], TICK_INTERVAL, v.m1))
    else if which == 1 then v.(m5 := Ticked(alphas[1], TICK_INTERVAL, v.m5))
    else v.(m15 := Ticked(alphas[2], TICK_INTERVAL, v.m15))
  }

  /** A tick of one average, undisturbed, is the sequential tick of that average. */
  lemma AloneTick(alphas: seq<real>, s: State, t: nat) returns (n: nat)
    requires WellFormed(alphas, s, t) && s.threads[t].Ticking? && s.threads[t].tick == Drain && s.threads[t].which < 3
    ensures Value(Go(alphas, s, t, n)) == TickOne(alphas, Value(s), s.threads[t].which)
    ensures Go(alphas, s, t, n).threads == s.threads[t := TickingAfter(s.threads[t], Done)]
  {
    var i := s.threads[t].which;
    var one: nat := 1;
    var s1 := Go(alphas, s, t, one);
    var s2 := Go(alphas, s1, t, one);
    var s3 := Go(alphas, s2, t, one);
    n := one + one + one + one;
    assert |s.tracks| == |s1.tracks| == |s2.tracks| == |s3.tracks| == |Go(alphas, s, t, n).tracks| == 3;
    TickComposes(alphas[i], s.tracks[i]);
    GoOn(alphas, s, t, one, one);
    GoOn(alphas, s, t, one + one, one);
    GoOn(alphas, s, t, one + one + one, one);
    hide Go, Shape, TickEffect, TickAfter, TickingAfter, Ticked;
    TickStep(alphas, s, t);
    TickStep(alphas, s1, t);
    TickStep(alphas, s2, t);
    LastTickStep(alphas, s3, t);
  }

  /** tick() of all three averages, as the sequential meter sees it. */
  function TickAll(alphas: seq<real>, v: Sequential.State): Sequential.State
    requires |alphas| == 3
  {
    v.(m1 := Ticked(alphas[0], TICK_INTERVAL, v.m1), m5 := Ticked(alphas[1], TICK_INTERVAL, v.m5),
       m15 := Ticked(alphas[2], TICK_INTERVAL, v.m15))
  }

  lemma TickAllIsEachOne(alphas: seq<real>, v: Sequential.State)
    requires |alphas| == 3
    ensures TickAll(alphas, v) == TickOne(alphas, TickOne(alphas, TickOne(alphas, v, 0), 1), 2)
  {
  }

  /** tick() takes the averages in turn. */
  lemma PlacesInRound(pc: Pc)
    requires pc.Ticking? && pc.which == 0 && pc.tick == Drain
    ensures TickingAfter(pc, Done) == pc.(which := 1)
    ensures TickingAfter(pc.(which := 1), Done) == pc.(which := 2)
    ensures TickingAfter(pc.(which := 2), Done)
         == if pc.remaining > 1 then pc.(remaining := pc.remaining - 1) else Continue(pc.op)
  {
  }

  lemma AloneRound(alphas: seq<real>, s: State, t: nat) returns (n: nat)
    requires WellFormed(alphas, s, t) && s.threads[t].Ticking? && s.threads[t].tick == Drain && s.threads[t].which == 0
    ensures Value(Go(alphas, s, t, n)) == TickAll(alphas, Value(s))
    ensures var pc := s.threads[t];
      Go(alphas, s, t, n).threads
        == s.threads[t := if pc.remaining > 1 then pc.(remaining := pc.remaining - 1) else Continue(pc.op)]
  {
    TickAllIsEachOne(alphas, Value(s));
    PlacesInRound(s.threads[t]);
    hide Go, Apply, Value, TickOne, TickAll, TickingAfter;
    var n1 := AloneTick(alphas, s, t);
    var s1 := Go(alphas, s, t, n1);
    var n2 := AloneTick(alphas, s1, t);
    var s2 := Go(alphas, s1, t, n2);
    var n3 := AloneTick(alphas, s2, t);
    GoOn(alphas, s, t, n1, n2);
    GoOn(alphas, s, t, n1 + n2, n3);
    n := n1 + n2 + n3;
  }

  lemma {:induction false} TicksFromFirst(alpha: real, a: Average, n: nat)
    requires n > 0
    ensures Ticks(alpha, TICK_INTERVAL, a, n)
         == Ticks(alpha, TICK_INTERVAL, Ticked(alpha, TICK_INTERVAL, a), n - 1)
  {
    if n > 1 {
      TicksFromFirst(alpha, a, n - 1);
    }
  }

  function TicksAll(alphas: seq<real>, v: Sequential.State, n: nat): Sequential.State
    requires |alphas| == 3
  {
    v.(m1 := Ticks(alphas[0], TICK_INTERVAL, v.m1, n), m5 := Ticks(alphas[1], TICK_INTERVAL, v.m5, n),
       m15 := Ticks(alphas[2], TICK_INTERVAL, v.m15, n))
  }

  lemma TicksAllFromFirst(alphas: seq<real>, v: Sequential.State, n: nat)
    requires |alphas| == 3 && n > 0
    ensures TicksAll(alphas, v, n) == TicksAll(alphas, TickAll(alphas, v), n - 1)
  {
    TicksFromFirst(alphas[0], v.m1, n);
    TicksFromFirst(alphas[1], v.m5, n);
    TicksFromFirst(alphas[2], v.m15, n);
  }

  /** The loop of tickIfNecessary after a successful claim. */
  lemma {:induction false} AloneTicks(alphas: seq<real>, s: State, t: nat) returns (n: nat)
    requires WellFormed(alphas, s, t) && s.threads[t].Ticking? && s.threads[t].tick == Drain && s.threads[t].which == 0
    requires s.threads[t].remaining > 0
    ensures Value(Go(alphas, s, t, n)) == TicksAll(alphas, Value(s), s.threads[t].remaining)
    ensures Go(alphas, s, t, n).threads == s.threads[t := Continue(s.threads[t].op)]
    decreases s.threads[t].remaining
  {
    hide Go, TickAll, Continue;
    TicksAllFromFirst(alphas, Value(s), s.threads[t].remaining);
    n := AloneRound(alphas, s, t);
    if s.threads[t].remaining > 1 {
      var more := AloneTicks(alphas, Go(alphas, s, t, n), t);
      GoOn(alphas, s, t, n, more);
      n := n + more;
    }
  }

  // ---------- Calls ----------

  /** The four additions of mark. */
  lemma AloneCount(alphas: seq<real>, s: State, t: nat) returns (n: nat)
    requires WellFormed(alphas, s, t) && s.threads[t].Counting? && s.threads[t].done == 0
    ensures Value(Go(alphas, s, t, n)) == Sequential.Marked(Value(s), s.threads[t].n)
    ensures Go(alphas, s, t, n).threads == s.threads[t := Idle]
  {
    var one: nat := 1;
    var s1 := Go(alphas, s, t, one);
    var s2 := Go(alphas, s1, t, one);
    var s3 := Go(alphas, s2, t, one);
    n := one + one + one + one;
    GoOn(alphas, s, t, one, one);
    GoOn(alphas, s, t, one + one, one);
    GoOn(alphas, s, t, one + one + one, one);
    hide Go;
    GoOne(alphas, s, t);
    GoOne(alphas, s1, t);
    GoOne(alphas, s2, t);
    GoOne(alphas, s3, t);
  }

  function Smoothing(alphas: seq<real>): Sequential.Fades
    requires |alphas| == 3
  {
    Sequential.Fades(alphas[0], alphas[1], alphas[2])
  }

  /** From the start of a call to the end of its tickIfNecessary. */
  lemma AloneCatchUp(alphas: seq<real>, s: State, t: nat, op: Op) returns (n: nat)
    requires WellFormed(alphas, s, t) && s.threads[t] == Loaded(op, s.lastTick)
    ensures Value(Go(alphas, s, t, n)) == Sequential.CaughtUp(Smoothing(alphas), Value(s), s.clock)
    ensures Go(alphas, s, t, n).threads == s.threads[t := Continue(op)]
  {
    var one: nat := 1;
    var s1 := Go(alphas, s, t, one);
    var s2 := Go(alphas, s1, t, one);
    GoOne(alphas, s, t);
    GoOne(alphas, s1, t);
    GoOn(alphas, s, t, one, one);
    n := one + one;
    hide Go, Shape, Age, NewTick;
    if Age(s.clock, s.lastTick) > TICK_INTERVAL {
      var more := AloneTicks(alphas, s2, t);
      GoOn(alphas, s, t, n, more);
      n := n + more;
    }
  }

  /**
   * Whatever went on before, and wherever the other threads stand, a call that none of them disturbs returns
   * and leaves exactly what the sequential call leaves.
   */
  lemma UndisturbedCallIsSequential(alphas: seq<real>, s: State, t: nat, op: Op) returns (n: nat)
    requires WellFormed(alphas, s, t) && s.threads[t].Idle?
    ensures Enabled(s, Call(t, op)) && WellFormed(alphas, Apply(alphas, s, Call(t, op)), t)
    ensures var s' := Go(alphas, Apply(alphas, s, Call(t, op)), t, n);
      var caughtUp := Sequential.CaughtUp(Smoothing(alphas), Value(s), s.clock);
      && s'.threads[t].Idle?
      && Value(s') == if op.Marking? then Sequential.Marked(caughtUp, op.n) else caughtUp
  {
    StepKeepsShape(alphas, s, Call(t, op));
    var called := Apply(alphas, s, Call(t, op));
    n := AloneCatchUp(alphas, called, t, op);
    if op.Marking? {
      var more := AloneCount(alphas, Go(alphas, called, t, n), t);
      GoOn(alphas, called, t, n, more);
      n := n + more;
    }
    hide Go;
  }
}

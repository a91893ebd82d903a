/** When reading a rate changes what the meter reports later, exactly. */
module MeterReads {
  import opened Ewma
  import opened Meter
  import opened TickClock

  // ---------- One read ----------

  lemma {:induction false} TicksAdd(alpha: real, a: Average, m: nat, n: nat)
    ensures Ticks(alpha, TICK_INTERVAL, Ticks(alpha, TICK_INTERVAL, a, m), n) == Ticks(alpha, TICK_INTERVAL, a, m + n)
  {
    if n > 0 {
      TicksAdd(alpha, a, m, n - 1);
    }
  }

  lemma AdvancedTwice(f: Fades, s: State, lastTick: nat, m: nat, lastTick': nat, n: nat)
    ensures Advanced(f, Advanced(f, s, lastTick, m, 0), lastTick', n, 0) == Advanced(f, s, lastTick', m + n, 0)
  {
    hide Ticks;
    TicksAdd(f.m1, s.m1, m, n);
    TicksAdd(f.m5, s.m5, m, n);
    TicksAdd(f.m15, s.m15, m, n);
  }

  /** A read at t catches up, and u is exactly one interval after the boundary it catches up with. */
  predicate Delays(startTime: nat, lastTick: nat, t: nat, u: nat)
    requires startTime <= t
  {
    Age(t, lastTick) > TICK_INTERVAL && u == startTime + (Interval(startTime, t) + 1) * TICK_INTERVAL
  }

  lemma BoundaryOf(startTime: nat, u: nat, k: nat)
    requires startTime <= u
    ensures (u - startTime) % TICK_INTERVAL == 0 && Interval(startTime, u) == k
       <==> u == startTime + k * TICK_INTERVAL
  {
    if u == startTime + k * TICK_INTERVAL {
      DivideExactly(u - startTime, k, 0);
    }
  }

  /** Catching up at t and then at u is catching up at u, unless the first makes the age at u exactly T. */
  lemma CatchUpTwice(f: Fades, s: State, startTime: nat, j: nat, t: nat, u: nat)
    requires startTime <= t <= u < WORD && j <= Interval(startTime, t)
    requires s.lastTick == startTime + j * TICK_INTERVAL
    ensures CaughtUp(f, CaughtUp(f, s, t), u) == CaughtUp(f, s, u) <==> !Delays(startTime, s.lastTick, t, u)
  {
    var k, l := Interval(startTime, t), Interval(startTime, u);
    IntervalMonotone(startTime, t, u);
    CatchUpReaches(startTime, j, t);
    if Age(t, s.lastTick) > TICK_INTERVAL {
      BoundaryOf(startTime, u, k + 1);
      hide Interval, Age, NewTick, Ticks;
      var read := CaughtUp(f, s, t);
      CatchUpAdvances(f, s, startTime, j, t);
      CatchUpAdvances(f, s, startTime, j, u);
      CatchUpAdvances(f, read, startTime, k, u);
      AdvancedTwice(f, s, read.lastTick, k - j, startTime + l * TICK_INTERVAL, l - k);
    }
  }

  // ---------- Whole runs ----------

  /** The meter that never saw the reads, caught up with the last event. */
  function Unread(f: Fades, startTime: nat, events: seq<Event>): State {
    var s := Run(f, startTime, Marks(events));
    if events != [] && events[|events| - 1].Read? then CaughtUp(f, s, events[|events| - 1].time) else s
  }

  /** last_tick_ after the events, from their times alone. */
  function LastTick(startTime: nat, events: seq<Event>): nat {
    if events == [] then startTime
    else
      var last, now := LastTick(startTime, events[..|events| - 1]), events[|events| - 1].time;
      if Age(now, last) > TICK_INTERVAL then NewTick(now, last) else last
  }

  /** Event i is a read that makes the meter miss the boundary on which the next event falls. */
  ghost predicate Noticed(startTime: nat, events: seq<Event>, i: nat)
    requires Timeline(startTime, events)
  {
    && i + 1 < |events| && events[i].Read?
    && Delays(startTime, LastTick(startTime, Marks(events[..i])), events[i].time, events[i + 1].time)
  }

  lemma {:induction false} RunLastTick(f: Fades, startTime: nat, events: seq<Event>) returns (j: nat)
    requires Timeline(startTime, events)
    ensures Run(f, startTime, events).lastTick == LastTick(startTime, events) == startTime + j * TICK_INTERVAL
    ensures j <= Now(startTime, events)
  {
    if events == [] {
      j := 0;
    } else {
      var init, e := events[..|events| - 1], events[|events| - 1];
      assert events == init + [e];
      TimelineSnoc(startTime, init, e);
      j := RunLastTick(f, startTime, init);
      hide Timeline, Now, Interval, Run;
      RunLast(f, startTime, init, e);
      CatchUpAdvances(f, Run(f, startTime, init), startTime, j, e.time);
      j := if CaughtUp(f, Run(f, startTime, init), e.time).lastTick == startTime + j * TICK_INTERVAL then j
           else Interval(startTime, e.time);
    }
  }

  lemma RunLast(f: Fades, startTime: nat, events: seq<Event>, e: Event)
    ensures var s := CaughtUp(f, Run(f, startTime, events), e.time);
      Run(f, startTime, events + [e]) == if e.Mark? then Marked(s, e.n) else s
  {
    assert (events + [e])[..|events|] == events;
  }

  lemma MarksSnocs(events: seq<Event>, e: Event)
    ensures Marks(events + [e]) == Marks(events) + if e.Mark? then [e] else []
  {
    assert (events + [e])[..|events|] == events;
  }

  /** The marks of a timeline are a timeline that is over by its end. */
  lemma {:induction false} MarksTimeline(startTime: nat, events: seq<Event>)
    requires Timeline(startTime, events)
    ensures Timeline(startTime, Marks(events))
    ensures forall i :: 0 <= i < |Marks(events)| ==> events != [] && Marks(events)[i].time <= events[|events| - 1].time
  {
    if events != [] {
      MarksTimeline(startTime, events[..|events| - 1]);
    }
  }

  lemma MarkedIsInjective(s: State, s': State, n: nat)
    ensures Marked(s, n) == Marked(s', n) <==> s == s'
  {
  }

  lemma MarkedIf(e: Event, s: State, s': State)
    ensures (if e.Mark? then Marked(s, e.n) else s) == (if e.Mark? then Marked(s', e.n) else s') <==> s == s'
  {
    if e.Mark? {
      MarkedIsInjective(s, s', e.n);
    }
  }

  /** The unread meter sees a call just like the meter does, from what it has after the marks. */
  lemma UnreadSnoc(f: Fades, startTime: nat, events: seq<Event>, e: Event)
    ensures var s := CaughtUp(f, Run(f, startTime, Marks(events)), e.time);
      Unread(f, startTime, events + [e]) == if e.Mark? then Marked(s, e.n) else s
  {
    MarksSnocs(events, e);
    RunLast(f, startTime, Marks(events), e);
    assert (events + [e])[|events|] == e;
    assert Marks(events) + [] == Marks(events);
    hide Run, CaughtUp, Marked, Marks;
  }

  lemma BeforeRead(f: Fades, startTime: nat, init: seq<Event>, t: nat) returns (j: nat)
    requires Timeline(startTime, init + [Read(t)])
    ensures startTime <= t < WORD && j <= Interval(startTime, t)
    ensures Run(f, startTime, Marks(init)).lastTick == LastTick(startTime, Marks(init)) == startTime + j * TICK_INTERVAL
  {
    var read := init + [Read(t)];
    assert read[|init|] == Read(t);
    MarksTimeline(startTime, read);
    MarksSnocs(init, Read(t));
    assert Marks(init) + [] == Marks(init);
    hide Run, Marks, LastTick, Interval;
    j := RunLastTick(f, startTime, Marks(init));
    NowBy(startTime, Marks(init), t);
  }

  /** One more event after a read. */
  lemma StepAfterRead(f: Fades, startTime: nat, init: seq<Event>, t: nat, e: Event)
    requires Timeline(startTime, init + [Read(t)]) && Timeline(startTime, init + [Read(t)] + [e])
    requires Run(f, startTime, init + [Read(t)]) == Unread(f, startTime, init + [Read(t)])
    ensures startTime <= t
    ensures Run(f, startTime, init + [Read(t)] + [e]) == Unread(f, startTime, init + [Read(t)] + [e])
       <==> !Delays(startTime, LastTick(startTime, Marks(init)), t, e.time)
  {
    var read := init + [Read(t)];
    var s := Run(f, startTime, Marks(init));
    assert (read + [e])[|init|] == Read(t) && (read + [e])[|read|] == e;
    assert t <= e.time < WORD;
    MarksSnocs(init, Read(t));
    assert Marks(init) + [] == Marks(init);
    var j := BeforeRead(f, startTime, init, t);
    hide Timeline, Run, Now, Interval, CaughtUp, LastTick, Delays, Marked, Marks, Unread;
    UnreadSnoc(f, startTime, init, Read(t));
    UnreadSnoc(f, startTime, read, e);
    RunLast(f, startTime, read, e);
    CatchUpTwice(f, s, startTime, j, t, e.time);
    MarkedIf(e, CaughtUp(f, CaughtUp(f, s, t), e.time), CaughtUp(f, s, e.time));
  }

  /** From agreement with the unread meter, one more event keeps it exactly when the event before was not noticed. */
  lemma StepUnread(f: Fades, startTime: nat, events: seq<Event>, e: Event)
    requires Timeline(startTime, events) && Timeline(startTime, events + [e])
    requires Run(f, startTime, events) == Unread(f, startTime, events)
    ensures Run(f, startTime, events + [e]) == Unread(f, startTime, events + [e])
       <==> !(events != [] && Noticed(startTime, events + [e], |events| - 1))
  {
    var n := |events|;
    assert n > 0 ==> (events + [e])[..n - 1] == events[..n - 1] && (events + [e])[n - 1] == events[n - 1];
    assert (events + [e])[n] == e;
    hide Timeline, Run, CaughtUp, LastTick, Delays, Marked, Marks;
    if n > 0 && events[n - 1].Read? {
      assert events == events[..n - 1] + [Read(events[n - 1].time)];
      StepAfterRead(f, startTime, events[..n - 1], events[n - 1].time, e);
    } else {
      RunLast(f, startTime, events, e);
      UnreadSnoc(f, startTime, events, e);
    }
  }

  lemma NowBy(startTime: nat, events: seq<Event>, t: nat)
    requires Timeline(startTime, events) && startTime <= t
    requires forall i :: 0 <= i < |events| ==> events[i].time <= t
    ensures Now(startTime, events) <= Interval(startTime, t)
  {
    if events != [] {
      IntervalMonotone(startTime, events[|events| - 1].time, t);
    }
  }

  ghost predicate UnreadAt(f: Fades, startTime: nat, events: seq<Event>, n: nat)
    requires n <= |events|
  {
    Run(f, startTime, events[..n]) == Unread(f, startTime, events[..n])
  }

  /** From agreement after n events, event n keeps it exactly when event n-1 was not noticed. */
  lemma UnreadOneMore(f: Fades, startTime: nat, events: seq<Event>, n: nat)
    requires Timeline(startTime, events) && n < |events| && UnreadAt(f, startTime, events, n)
    ensures UnreadAt(f, startTime, events, n + 1) <==> !(n > 0 && Noticed(startTime, events, n - 1))
  {
    TimelinePrefix(startTime, events, n);
    TimelinePrefix(startTime, events, n + 1);
    var next := events[..n] + [events[n]];
    assert events[..n + 1] == next;
    assert n > 0 ==> next[..n - 1] == events[..n - 1] && next[n - 1] == events[n - 1] && next[n] == events[n];
    hide Timeline, Run, Unread, LastTick, Delays, Marks;
    StepUnread(f, startTime, events[..n], events[n]);
  }

  lemma {:induction false} UnnoticedUpTo(f: Fades, startTime: nat, events: seq<Event>, n: nat)
    requires Timeline(startTime, events) && n <= |events|
    requires forall i :: 0 <= i < n - 1 ==> !Noticed(startTime, events, i)
    ensures UnreadAt(f, startTime, events, n)
  {
    if n > 0 {
      hide Timeline, Noticed, UnreadAt;
      UnnoticedUpTo(f, startTime, events, n - 1);
      UnreadOneMore(f, startTime, events, n - 1);
    }
  }

  /** Reads change nothing after any event of a run exactly when none of them is noticed. */
  lemma ReadsUnnoticedIff(f: Fades, startTime: nat, events: seq<Event>)
    requires Timeline(startTime, events)
    ensures (forall n :: 0 <= n <= |events| ==> UnreadAt(f, startTime, events, n))
       <==> (forall i :: 0 <= i < |events| ==> !Noticed(startTime, events, i))
  {
    if i :| 0 <= i < |events| && Noticed(startTime, events, i) {
      hide Timeline, UnreadAt;
      if UnreadAt(f, startTime, events, i + 1) {
        UnreadOneMore(f, startTime, events, i + 1);
        assert !UnreadAt(f, startTime, events, i + 2);
      }
    } else {
      forall n | 0 <= n <= |events| ensures UnreadAt(f, startTime, events, n) {
        UnnoticedUpTo(f, startTime, events, n);
      }
    }
  }

  /** Runs with the same marks that end in the same call leave the same meter, if no read of either is noticed. */
  lemma UnnoticedReadsLeaveNoTrace(f: Fades, startTime: nat, a: seq<Event>, b: seq<Event>)
    requires Timeline(startTime, a) && Timeline(startTime, b) && Marks(a) == Marks(b)
    requires a != [] && b != [] && a[|a| - 1] == b[|b| - 1]
    requires forall i :: 0 <= i < |a| ==> !Noticed(startTime, a, i)
    requires forall i :: 0 <= i < |b| ==> !Noticed(startTime, b, i)
    ensures Run(f, startTime, a) == Run(f, startTime, b)
  {
    UnnoticedUpTo(f, startTime, a, |a|);
    UnnoticedUpTo(f, startTime, b, |b|);
    assert a[..|a|] == a && b[..|b|] == b;
  }

  lemma MarkAndRead(f: Fades, t: nat, u: nat)
    ensures Run(f, 0, [Mark(1, u)]) == Marked(CaughtUp(f, Start(0), u), 1)
    ensures Run(f, 0, [Read(t), Mark(1, u)]) == Marked(CaughtUp(f, CaughtUp(f, Start(0), t), u), 1)
    ensures Marks([Mark(1, u)]) == Marks([Read(t), Mark(1, u)])
  {
    assert [Mark(1, u)] == [] + [Mark(1, u)] && [Read(t)] == [] + [Read(t)];
    assert [Read(t), Mark(1, u)] == [Read(t)] + [Mark(1, u)];
    RunLast(f, 0, [], Mark(1, u));
    RunLast(f, 0, [], Read(t));
    RunLast(f, 0, [Read(t)], Mark(1, u));
    MarksSnocs([], Mark(1, u));
    MarksSnocs([], Read(t));
    MarksSnocs([Read(t)], Mark(1, u));
    assert Run(f, 0, []) == Start(0);
    hide CaughtUp, Marked, Run, Marks;
  }

  /** A read inside the interval before the mark's boundary keeps the meter from ticking there. */
  lemma ReadBeforeBoundaryIsNoticed(f: Fades)
    ensures var a, b := [Mark(1, 2 * TICK_INTERVAL)], [Read(TICK_INTERVAL + 1), Mark(1, 2 * TICK_INTERVAL)];
      && Timeline(0, a) && Timeline(0, b) && Marks(a) == Marks(b) && Now(0, a) == Now(0, b)
      && Run(f, 0, a) != Run(f, 0, b)
  {
    var t, u := TICK_INTERVAL + 1, 2 * TICK_INTERVAL;
    assert Interval(0, t) == 1 && Delays(0, 0, t, u);
    hide CaughtUp, Marked, Run, Marks, Delays;
    MarkAndRead(f, t, u);
    CatchUpTwice(f, Start(0), 0, 0, t, u);
    MarkedIsInjective(CaughtUp(f, CaughtUp(f, Start(0), t), u), CaughtUp(f, Start(0), u), 1);
  }
}

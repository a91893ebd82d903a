/** The pool as an object, its operations run to completion by one thread: each is a run of the interleaved machine. */
module ScheduledThreadPool {
  import opened Executor
  import opened Sums

  function Aborted(w: Wait): Wait {
    w.(aborted := true)
  }

  /** What deadline_timer::cancel does to the outstanding waits. */
  function CancelOn(waits: seq<Wait>, timer: nat): (r: seq<Wait>)
    ensures |r| == |waits|
  {
    seq(|waits|, i requires 0 <= i < |waits| => if waits[i].timer == timer then Aborted(waits[i]) else waits[i])
  }

  function CancelFirst(waits: seq<Wait>, n: nat): (r: seq<Wait>)
    requires n <= |waits|
    ensures |r| == |waits|
  {
    seq(|waits|, i requires 0 <= i < |waits| => if i < n then Aborted(waits[i]) else waits[i])
  }

  ghost predicate Leads(from: State, steps: seq<Step>, run: seq<State>, to: State) {
    Trace(from, steps, run) && run[|steps|] == to
  }

  /** With running_ down, the machine can cancel every wait. */
  lemma {:induction false} CancelAll(s: State, n: nat) returns (steps: seq<Step>, run: seq<State>)
    requires !s.running && n <= |s.waits|
    ensures Leads(s, steps, run, s.(waits := CancelFirst(s.waits, n)))
  {
    if n == 0 {
      steps, run := [], [s];
      assert CancelFirst(s.waits, 0) == s.waits;
    } else {
      steps, run := CancelAll(s, n - 1);
      var t := s.(waits := CancelFirst(s.waits, n - 1));
      if s.waits[n - 1].aborted {
        assert CancelFirst(s.waits, n) == CancelFirst(s.waits, n - 1);
      } else {
        assert Apply(t, Cancel(n - 1)).waits == CancelFirst(s.waits, n);
        steps, run := steps + [Cancel(n - 1)], run + [Apply(t, Cancel(n - 1))];
      }
    }
  }

  lemma LeadsOn(from: State, steps: seq<Step>, run: seq<State>, mid: State, step: Step)
    requires Leads(from, steps, run, mid) && Enabled(mid, step)
    ensures Leads(from, steps + [step], run + [Apply(mid, step)], Apply(mid, step))
  {
    hide Enabled, Apply;
  }

  lemma LeadsGood(from: State, steps: seq<Step>, run: seq<State>, to: State)
    requires Inv(from) && Leads(from, steps, run, to)
    ensures Inv(to)
  {
    TraceGood(from, steps, run, |steps|);
  }

  /** The timer after its task ran from `start` to `end` and its expiry was moved. */
  function Ran(t: Timer, start: int, end: int): Timer {
    Moved(t.(starts := t.starts + [start], ends := t.ends + [end]), t.task, end)
  }

  /**
   * What the handler of wait w leaves: the wait is consumed; unless the pool was shut down or the wait cancelled, the
   * task has run for `elapsed`, its timer is due one period after the old deadline at a fixed rate and one period
   * after the end of the run otherwise, and waits again under the same index.
   */
  function Handled(s: State, w: nat, elapsed: nat): State
    requires w < |s.waits| && s.waits[w].timer < |s.timers|
  {
    var wait := s.waits[w];
    var rest := s.waits[..w] + s.waits[w + 1..];
    if !s.running || wait.aborted then s.(waits := rest)
    else
      var t := s.timers[wait.timer];
      var end := s.now + elapsed;
      var deadline := if t.task.fixedRate then t.expiry + t.task.period else end + t.task.period;
      s.(now := end, waits := rest + [wait],
         timers := s.timers[wait.timer :=
           Timer(t.task, t.created, deadline, t.moves + [end], t.starts + [s.now], t.ends + [end])])
  }

  lemma LeadsThrough(from: State, steps: seq<Step>, run: seq<State>, mid: State,
                     more: seq<Step>, rest: seq<State>, to: State)
    requires Leads(from, steps, run, mid) && Leads(mid, more, rest, to)
    ensures Leads(from, steps + more, run + rest[1..], to)
  {
    hide Enabled, Apply;
    var all, through := steps + more, run + rest[1..];
    forall i | 0 <= i < |all| ensures Enabled(through[i], all[i]) && through[i + 1] == Apply(through[i], all[i]) {
      if i >= |steps| {
        assert through[i] == rest[i - |steps|] && all[i] == more[i - |steps|];
      }
    }
  }

  /** Running a task that has been looked up for `elapsed`, and re-arming its timer. */
  lemma TaskRun(s: State, elapsed: nat) returns (steps: seq<Step>, run: seq<State>)
    requires |s.actors| == 1 && s.actors[0].Ready? && s.actors[0].timer < |s.timers|
    requires s.actors[0].task == s.timers[s.actors[0].timer].task && s.actors[0].task.timer == s.actors[0].timer
    ensures var pc := s.actors[0];
      Leads(s, steps, run,
            s.(now := s.now + elapsed,
               timers := s.timers[pc.timer := Ran(s.timers[pc.timer], s.now, s.now + elapsed)],
               waits := s.waits + [Wait(pc.timer, pc.index, false)],
               actors := [Idle]))
  {
    var started := Apply(s, StartTask(0));
    var later := Apply(started, Advance(s.now + elapsed));
    var ended := Apply(later, EndTask(0));
    var moved := Apply(ended, MoveExpiry(0));
    steps := [StartTask(0), Advance(s.now + elapsed), EndTask(0), MoveExpiry(0), AsyncWait(0)];
    run := [s, started, later, ended, moved, Apply(moved, AsyncWait(0))];
  }

  lemma HandledIsRan(s: State, w: nat, elapsed: nat)
    requires w < |s.waits| && s.waits[w].timer < |s.timers| && s.running && !s.waits[w].aborted
    ensures var wait := s.waits[w];
      Handled(s, w, elapsed)
        == s.(now := s.now + elapsed,
              timers := s.timers[wait.timer := Ran(s.timers[wait.timer], s.now, s.now + elapsed)],
              waits := Without(s.waits, w) + [wait])
  {
  }

  /** Firing a live wait, running its task for `elapsed` and re-arming the timer, as steps of the machine. */
  lemma HandlerRun(s: State, w: nat, elapsed: nat) returns (steps: seq<Step>, run: seq<State>)
    requires s.actors == [Idle] && s.running && !s.stopped && w < |s.waits| && !s.waits[w].aborted
    requires IndexGood(s) && s.waits[w].timer < |s.timers| && s.timers[s.waits[w].timer].expiry <= s.now
    ensures Leads(s, steps, run, Handled(s, w, elapsed))
  {
    HandledIsRan(s, w, elapsed);
    hide Ran, Moved, Without, Handled;
    var wait := s.waits[w];
    assert Resolves(s, wait.timer, wait.index);
    var fired := Apply(s, Fire(0, w));
    var checked := Apply(fired, CheckRunning(0));
    var due := Apply(checked, Lookup(0));
    assert Leads(s, [Fire(0, w), CheckRunning(0), Lookup(0)], [s, fired, checked, due], due);
    steps, run := TaskRun(due, elapsed);
    hide Enabled, Apply;
    LeadsThrough(s, [Fire(0, w), CheckRunning(0), Lookup(0)], [s, fired, checked, due], due, steps, run, run[|steps|]);
    steps, run := [Fire(0, w), CheckRunning(0), Lookup(0)] + steps, [s, fired, checked, due] + run[1..];
  }

  /** A handler that finds the pool shut down, or its wait cancelled, as steps of the machine. */
  lemma HandlerSkips(s: State, w: nat, elapsed: nat) returns (steps: seq<Step>, run: seq<State>)
    requires s.actors == [Idle] && !s.stopped && w < |s.waits| && s.waits[w].timer < |s.timers|
    requires !s.running || s.waits[w].aborted
    requires s.waits[w].aborted || s.timers[s.waits[w].timer].expiry <= s.now
    ensures Leads(s, steps, run, Handled(s, w, elapsed))
  {
    var fired := Apply(s, Fire(0, w));
    steps, run := [Fire(0, w), CheckRunning(0)], [s, fired, Apply(fired, CheckRunning(0))];
  }

  class SimpleScheduledThreadPoolExecutor {
    var now: int
    var running: bool
    var stopped: bool
    var timerTasks: seq<TimerTask>
    var timers: seq<Timer>
    var waits: seq<Wait>

    function Value(): State
      reads this
    {
      State(now, running, stopped, timerTasks, timers, waits, [Idle])
    }

    ghost predicate Valid()
      reads this
    {
      Inv(Value()) && (stopped ==> !running)
    }

    constructor (now: int)
      ensures Valid() && Value() == Init(now, 1) == State(now, true, false, [], [], [], [Idle])
    {
      this.now, running, stopped := now, true, false;
      timerTasks, timers, waits := [], [], [];
      new;
      InitGood(now, 1);
      assert Init(now, 1).actors == [Idle];
    }

    method ScheduleTimer(interval: int, fixedRate: bool) returns (ghost steps: seq<Step>, ghost run: seq<State>)
      requires Valid()
      modifies this
      ensures Valid() && Leads(old(Value()), steps, run, Value())
      ensures var task := TimerTask(|old(timers)|, interval, fixedRate);
        Value() == old(Value()).(tasks := old(timerTasks) + [task],
                                 timers := old(timers) + [Timer(task, now, now + interval, [], [], [])],
                                 waits := old(waits) + [Wait(|old(timers)|, |old(timerTasks)|, false)])
    {
      ghost var s0 := Value();
      var timer := |timers|;
      var task := TimerTask(timer, interval, fixedRate);
      timers := timers + [Timer(task, now, now + interval, [], [], [])];
      timerTasks := timerTasks + [task];
      var timerIndex := |timerTasks| - 1;
      waits := waits + [Wait(timer, timerIndex, false)];

      ghost var s1 := Apply(s0, Create(0, interval, fixedRate));
      ghost var s2 := Apply(s1, Push(0));
      ghost var s3 := Apply(s2, AsyncWait(0));
      steps, run := [Create(0, interval, fixedRate), Push(0), AsyncWait(0)], [s0, s1, s2, s3];
      assert s3 == Value();
      LeadsGood(s0, steps, run, s3);
    }

    /**
     * The handler asio calls for wait w, due or cancelled, on a service that has not been stopped;
     * the task it calls takes `elapsed`.
     */
    method TimerHandler(w: nat, elapsed: nat) returns (ghost steps: seq<Step>, ghost run: seq<State>)
      requires Valid() && !stopped && w < |waits| && waits[w].timer < |timers|
      requires waits[w].aborted || timers[waits[w].timer].expiry <= now
      modifies this
      ensures Valid() && Leads(old(Value()), steps, run, Value())
      ensures Value() == Handled(old(Value()), w, elapsed)
      ensures old(running && !waits[w].aborted) ==>
        var before, after := old(timers[waits[w].timer]), timers[old(waits[w].timer)];
        after.expiry == if before.task.fixedRate then before.expiry + before.task.period else now + before.task.period
    {
      ghost var s0 := Value();
      var wait := waits[w];
      IndexAt(s0, 0, w);
      waits := waits[..w] + waits[w + 1..];
      if !running {
        steps, run := HandlerSkips(s0, w, elapsed);
        LeadsGood(s0, steps, run, Value());
        return;
      }
      if wait.aborted {
        steps, run := HandlerSkips(s0, w, elapsed);
        LeadsGood(s0, steps, run, Value());
        return;
      }
      RunAndRearm(wait.index, elapsed);
      steps, run := HandlerRun(s0, w, elapsed);
      LeadsGood(s0, steps, run, Value());
    }

    /** The second half of the handler: the task found at the index is called, and its timer re-armed. */
    method RunAndRearm(timerIndex: nat, elapsed: nat)
      requires timerIndex < |timerTasks| && timerTasks[timerIndex].timer < |timers|
      modifies `now, `timers, `waits
      ensures now == old(now) + elapsed
      ensures var task := timerTasks[timerIndex];
        var before := old(timers)[task.timer];
        && timers == old(timers)[task.timer := Timer(
             before.task, before.created, (if task.fixedRate then before.expiry else now) + task.period,
             before.moves + [now], before.starts + [old(now)], before.ends + [now])]
        && waits == old(waits) + [Wait(task.timer, timerIndex, false)]
    {
      var timerTask := timerTasks[timerIndex];
      var timer := timerTask.timer;
      timers := timers[timer := timers[timer].(starts := timers[timer].starts + [now])];
      now := now + elapsed;
      timers := timers[timer := timers[timer].(ends := timers[timer].ends + [now])];
      if timerTask.fixedRate {
        timers := timers[timer := timers[timer].(expiry := timers[timer].expiry + timerTask.period,
                                                 moves := timers[timer].moves + [now])];
      } else {
        timers := timers[timer := timers[timer].(expiry := now + timerTask.period,
                                                 moves := timers[timer].moves + [now])];
      }
      waits := waits + [Wait(timer, timerIndex, false)];
    }

    method CancelTimers() returns (ghost steps: seq<Step>, ghost run: seq<State>)
      requires Valid() && !running
      modifies this
      ensures Valid() && Leads(old(Value()), steps, run, Value())
      ensures Value() == old(Value()).(waits := waits) && |waits| == |old(waits)|
      ensures forall k :: 0 <= k < |waits| ==>
        waits[k].aborted && waits[k].timer == old(waits[k].timer) && waits[k].index == old(waits[k].index)
    {
      ghost var s0 := Value();
      for i := 0 to |timerTasks|
        invariant Value() == s0.(waits := waits) && |waits| == |s0.waits|
        invariant forall k :: 0 <= k < |waits| ==>
          waits[k] == if exists j :: 0 <= j < i && timerTasks[j].timer == s0.waits[k].timer then Aborted(s0.waits[k])
                      else s0.waits[k]
      {
        waits := CancelOn(waits, timerTasks[i].timer);
      }
      forall k | 0 <= k < |waits| ensures waits[k] == Aborted(s0.waits[k]) {
        assert Resolves(s0, s0.waits[k].timer, s0.waits[k].index);
      }
      assert waits == CancelFirst(s0.waits, |s0.waits|);
      steps, run := CancelAll(s0, |s0.waits|);
      LeadsGood(s0, steps, run, Value());
    }

    method Shutdown() returns (ghost steps: seq<Step>, ghost run: seq<State>)
      requires Valid()
      modifies this
      ensures Valid() && Leads(old(Value()), steps, run, Value())
      ensures Value() == old(Value()).(running := false)
    {
      steps, run := [], [Value()];
      if !running {
        return;
      }
      ghost var s0 := Value();
      running := false;
      steps, run := [ClearRunning], [s0, Value()];
      LeadsGood(s0, steps, run, Value());
    }

    method ShutdownNow() returns (ghost steps: seq<Step>, ghost run: seq<State>)
      requires Valid()
      modifies this
      ensures Valid() && Leads(old(Value()), steps, run, Value())
      ensures !old(running) ==> Value() == old(Value())
      ensures old(running) ==>
        && Value() == old(Value()).(running := false, stopped := true, waits := waits)
        && |waits| == |old(waits)|
        && forall k :: 0 <= k < |waits| ==>
             waits[k].aborted && waits[k].timer == old(waits[k].timer) && waits[k].index == old(waits[k].index)
    {
      steps, run := [], [Value()];
      if !running {
        return;
      }
      ghost var s0 := Value();
      running := false;
      ghost var s1 := Value();
      LeadsGood(s0, [ClearRunning], [s0, s1], s1);
      steps, run := CancelTimers();
      ghost var s2 := Value();
      stopped := true;
      LeadsOn(s1, steps, run, s2, Stop);
      LeadsThrough(s0, [ClearRunning], [s0, s1], s1, steps + [Stop], run + [Value()], Value());
      steps, run := [ClearRunning] + (steps + [Stop]), [s0, s1] + (run + [Value()])[1..];
      LeadsGood(s0, steps, run, Value());
    }
  }
}

/** Sums of a weight over a sequence. */
module Sums {
  function Sum<T>(xs: seq<T>, weight: T -> nat): nat {
    if xs == [] then 0 else Sum(xs[..|xs| - 1], weight) + weight(xs[|xs| - 1])
  }

  function Without<T>(xs: seq<T>, i: nat): (r: seq<T>)
    requires i < |xs|
    ensures |r| == |xs| - 1
  {
    xs[..i] + xs[i + 1..]
  }

  lemma SumAppend<T>(xs: seq<T>, x: T, weight: T -> nat)
    ensures Sum(xs + [x], weight) == Sum(xs, weight) + weight(x)
  {
  }

  lemma {:induction false} SumUpdate<T>(xs: seq<T>, i: nat, x: T, weight: T -> nat)
    requires i < |xs|
    ensures Sum(xs[i := x], weight) + weight(xs[i]) == Sum(xs, weight) + weight(x)
  {
    var last := |xs| - 1;
    if i < last {
      SumUpdate(xs[..last], i, x, weight);
      assert xs[i := x][..last] == xs[..last][i := x];
    } else {
      assert xs[i := x][..last] == xs[..last];
    }
  }

  lemma {:induction false} SumWithout<T>(xs: seq<T>, i: nat, weight: T -> nat)
    requires i < |xs|
    ensures Sum(Without(xs, i), weight) + weight(xs[i]) == Sum(xs, weight)
  {
    var last := |xs| - 1;
    if i < last {
      SumWithout(xs[..last], i, weight);
      assert Without(xs, i) == Without(xs[..last], i) + [xs[last]];
      SumAppend(Without(xs[..last], i), xs[last], weight);
    } else {
      assert Without(xs, i) == xs[..last];
    }
  }

  lemma SumOfTwo<T>(xs: seq<T>, i: nat, j: nat, weight: T -> nat)
    requires i < j < |xs|
    ensures weight(xs[i]) + weight(xs[j]) <= Sum(xs, weight)
  {
    SumWithout(xs, j, weight);
    assert Without(xs, j)[i] == xs[i];
    SumWithout(Without(xs, j), i, weight);
  }

  lemma SumOfOne<T>(xs: seq<T>, i: nat, weight: T -> nat)
    requires i < |xs|
    ensures weight(xs[i]) <= Sum(xs, weight)
  {
  }

  lemma {:induction false} SumOfNone<T>(xs: seq<T>, weight: T -> nat)
    requires forall i :: 0 <= i < |xs| ==> weight(xs[i]) == 0
    ensures Sum(xs, weight) == 0
  {
    if xs != [] {
      SumOfNone(xs[..|xs| - 1], weight);
    }
  }
}

/** The scheduled thread pool: every timer is re-armed by its own handler, many threads interleaving. */
module Executor {
  import opened Sums

  // ---------- State ----------

  /** An element of timer_tasks_; `timer` identifies the deadline_timer object. */
  datatype TimerTask = TimerTask(timer: nat, period: int, fixedRate: bool)

  /**
   * A deadline_timer object: its expiry, and what happened to it so far: when it was created and for which task,
   * when its expiry was moved, and when each run of the task started and ended.
   */
  datatype Timer = Timer(task: TimerTask, created: int, expiry: int, moves: seq<int>, starts: seq<int>, ends: seq<int>)

  /** An outstanding async_wait on a timer, bound to the index its handler will look up. */
  datatype Wait = Wait(timer: nat, index: nat, aborted: bool)

  /** Where a thread stands inside scheduleTimer or timerHandler. */
  datatype Pc =
    | Idle
    | Created(task: TimerTask)                             // about to push_back
    | Pushed(task: TimerTask, index: nat)                  // about to async_wait
    | Entered(timer: nat, index: nat, aborted: bool)       // about to read running_
    | Looking(timer: nat, index: nat)                      // past the checks, about to look up the task
    | Ready(timer: nat, index: nat, task: TimerTask)       // about to call task_()
    | Running(timer: nat, index: nat, task: TimerTask)     // inside task_()
    | Rearming(timer: nat, index: nat, task: TimerTask)    // about to move the expiry
    | Rearmed(timer: nat, index: nat, task: TimerTask)     // about to async_wait again

  datatype State = State(now: int, running: bool, stopped: bool, tasks: seq<TimerTask>, timers: seq<Timer>,
                         waits: seq<Wait>, actors: seq<Pc>)

  function Init(now: int, threads: nat): State {
    State(now, true, false, [], [], [], seq(threads, _ => Idle))
  }

  datatype Step =
    | Advance(time: int)
    | Create(a: nat, period: int, fixedRate: bool)
    | Push(a: nat)
    | Fire(a: nat, wait: nat)      // asio hands an expired or cancelled wait to an idle thread
    | CheckRunning(a: nat)
    | Lookup(a: nat)
    | StartTask(a: nat)
    | EndTask(a: nat)
    | MoveExpiry(a: nat)
    | AsyncWait(a: nat)
    | ClearRunning
    | Cancel(wait: nat)            // cancelTimers, one timer at a time
    | Stop                         // io_service_.stop()

  // ---------- Steps ----------

  predicate Actor(s: State, a: nat) {
    a < |s.actors|
  }

  predicate Enabled(s: State, step: Step) {
    match step
    case Advance(time) => s.now <= time
    case Create(a, _, _) => Actor(s, a) && s.actors[a].Idle?
    case Push(a) => Actor(s, a) && s.actors[a].Created?
    case Fire(a, w) =>
      && Actor(s, a) && s.actors[a].Idle? && !s.stopped && w < |s.waits| && s.waits[w].timer < |s.timers|
      && (s.waits[w].aborted || s.timers[s.waits[w].timer].expiry <= s.now)
    case CheckRunning(a) => Actor(s, a) && s.actors[a].Entered?
    case Lookup(a) => Actor(s, a) && s.actors[a].Looking?
    case StartTask(a) => Actor(s, a) && s.actors[a].Ready? && s.actors[a].timer < |s.timers|
    case EndTask(a) => Actor(s, a) && s.actors[a].Running? && s.actors[a].timer < |s.timers|
    case MoveExpiry(a) => Actor(s, a) && s.actors[a].Rearming? && s.actors[a].timer < |s.timers|
    case AsyncWait(a) => Actor(s, a) && (s.actors[a].Pushed? || s.actors[a].Rearmed?)
    case ClearRunning => s.running
    case Cancel(w) => !s.running && w < |s.waits| && !s.waits[w].aborted
    case Stop => !s.running && !s.stopped
  }

  /** expires_at(expires_at() + period) for a fixed rate, expires_from_now(period) for a fixed delay. */
  function Moved(t: Timer, task: TimerTask, now: int): Timer {
    t.(expiry := if task.fixedRate then t.expiry + task.period else now + task.period, moves := t.moves + [now])
  }

  function Apply(s: State, step: Step): State
    requires Enabled(s, step)
  {
    match step
    case Advance(time) => s.(now := time)
    case Create(a, period, fixedRate) =>
      var task := TimerTask(|s.timers|, period, fixedRate);
      s.(timers := s.timers + [Timer(task, s.now, s.now + period, [], [], [])], actors := s.actors[a := Created(task)])
    case Push(a) =>
      var task := s.actors[a].task;
      s.(tasks := s.tasks + [task], actors := s.actors[a := Pushed(task, |s.tasks|)])
    case Fire(a, w) =>
      var wait := s.waits[w];
      s.(waits := Without(s.waits, w), actors := s.actors[a := Entered(wait.timer, wait.index, wait.aborted)])
    case CheckRunning(a) =>
      var pc := s.actors[a];
      s.(actors := s.actors[a := if s.running && !pc.aborted then Looking(pc.timer, pc.index) else Idle])
    case Lookup(a) =>
      var pc := s.actors[a];
      s.(actors := s.actors[a := if pc.index < |s.tasks| then Ready(pc.timer, pc.index, s.tasks[pc.index]) else Idle])
    case StartTask(a) =>
      var pc := s.actors[a];
      var t := s.timers[pc.timer];
      s.(timers := s.timers[pc.timer := t.(starts := t.starts + [s.now])],
         actors := s.actors[a := Running(pc.timer, pc.index, pc.task)])
    case EndTask(a) =>
      var pc := s.actors[a];
      var t := s.timers[pc.timer];
      s.(timers := s.timers[pc.timer := t.(ends := t.ends + [s.now])],
         actors := s.actors[a := Rearming(pc.timer, pc.index, pc.task)])
    case MoveExpiry(a) =>
      var pc := s.actors[a];
      s.(timers := s.timers[pc.timer := Moved(s.timers[pc.timer], pc.task, s.now)],
         actors := s.actors[a := Rearmed(pc.timer, pc.index, pc.task)])
    case AsyncWait(a) =>
      var pc := s.actors[a];
      s.(waits := s.waits + [Wait(pc.task.timer, pc.index, false)], actors := s.actors[a := Idle])
    case ClearRunning => s.(running := false)
    case Cancel(w) => s.(waits := s.waits[w := s.waits[w].(aborted := true)])
    case Stop => s.(stopped := true)
  }

  // ---------- One token a timer ----------

  /** The timer a thread is handling, or -1. */
  function TimerOf(pc: Pc): int {
    match pc
    case Idle => -1
    case Created(task) => task.timer
    case Pushed(task, _) => task.timer
    case Entered(timer, _, _) => timer
    case Looking(timer, _) => timer
    case Ready(timer, _, _) => timer
    case Running(timer, _, _) => timer
    case Rearming(timer, _, _) => timer
    case Rearmed(timer, _, _) => timer
  }

  predicate Handles(pc: Pc, timer: nat) {
    TimerOf(pc) == timer
  }

  function ActorOn(timer: nat): Pc -> nat {
    (pc: Pc) => if Handles(pc, timer) then 1 else 0
  }

  function WaitOn(timer: nat): Wait -> nat {
    (w: Wait) => if w.timer == timer then 1 else 0
  }

  /** Outstanding waits on a timer, plus the threads handling it. */
  function Tokens(s: State, timer: nat): nat {
    Sum(s.waits, WaitOn(timer)) + Sum(s.actors, ActorOn(timer))
  }

  /** No timer has more than one outstanding or executing handler. */
  ghost predicate OneHandler(s: State) {
    forall timer: nat :: TokenBound(s, timer)
  }

  lemma ActorMoves(actors: seq<Pc>, a: nat, pc: Pc, timer: nat)
    requires a < |actors|
    ensures Sum(actors[a := pc], ActorOn(timer)) + (if Handles(actors[a], timer) then 1 else 0)
         == Sum(actors, ActorOn(timer)) + (if Handles(pc, timer) then 1 else 0)
  {
    SumUpdate(actors, a, pc, ActorOn(timer));
    hide Sum;
  }

  lemma WaitsChange(waits: seq<Wait>, w: nat, wait: Wait, timer: nat)
    ensures Sum(waits + [wait], WaitOn(timer)) == Sum(waits, WaitOn(timer)) + (if wait.timer == timer then 1 else 0)
    ensures w < |waits| ==>
      Sum(Without(waits, w), WaitOn(timer)) == Sum(waits, WaitOn(timer)) - (if waits[w].timer == timer then 1 else 0)
    ensures w < |waits| && wait.timer == waits[w].timer ==>
      Sum(waits[w := wait], WaitOn(timer)) == Sum(waits, WaitOn(timer))
  {
    SumAppend(waits, wait, WaitOn(timer));
    if w < |waits| {
      SumWithout(waits, w, WaitOn(timer));
      SumUpdate(waits, w, wait, WaitOn(timer));
    }
    hide Sum, Without;
  }

  ghost predicate TokenBound(s: State, timer: nat) {
    Tokens(s, timer) <= if timer < |s.timers| then 1 else 0
  }

  lemma StepKeepsToken(s: State, step: Step, timer: nat)
    requires Enabled(s, step) && TokenBound(s, timer) && HandlesOwn(s)
    ensures TokenBound(Apply(s, step), timer)
  {
    hide Sum, ActorOn, WaitOn, Without;
    match step
    case Advance(_) =>
    case ClearRunning =>
    case Stop =>
    case Cancel(w) => WaitsChange(s.waits, w, s.waits[w].(aborted := true), timer);
    case Fire(a, w) =>
      WaitsChange(s.waits, w, s.waits[w], timer);
      ActorMoves(s.actors, a, Apply(s, step).actors[a], timer);
    case AsyncWait(a) =>
      assert OwnTask(s.actors[a]);
      WaitsChange(s.waits, 0, Wait(s.actors[a].task.timer, s.actors[a].index, false), timer);
      ActorMoves(s.actors, a, Idle, timer);
    case _ => ActorMoves(s.actors, step.a, Apply(s, step).actors[step.a], timer);
  }

  // ---------- While running, no timer is lost ----------

  /** Nothing is cancelled before a shutdown. */
  ghost predicate NoneAborted(s: State) {
    && (forall w :: 0 <= w < |s.waits| ==> !s.waits[w].aborted)
    && (forall a :: 0 <= a < |s.actors| ==> !(s.actors[a].Entered? && s.actors[a].aborted))
  }

  ghost predicate Armed(s: State, timer: nat) {
    timer < |s.timers| ==> Tokens(s, timer) == 1
  }

  ghost predicate AllArmed(s: State) {
    s.running ==> NoneAborted(s) && forall timer: nat :: Armed(s, timer)
  }

  // ---------- Handlers find their own task ----------

  /** The task a handler has looked up is the one its timer belongs to. */
  predicate OwnTask(pc: Pc) {
    match pc
    case Ready(timer, _, task) => task.timer == timer
    case Running(timer, _, task) => task.timer == timer
    case Rearming(timer, _, task) => task.timer == timer
    case Rearmed(timer, _, task) => task.timer == timer
    case _ => true
  }

  ghost predicate HandlesOwn(s: State) {
    forall a :: 0 <= a < |s.actors| ==> OwnTask(s.actors[a])
  }

  /** `index` is the place of `timer` in timer_tasks_. */
  ghost predicate Resolves(s: State, timer: nat, index: nat) {
    index < |s.tasks| && s.tasks[index].timer == timer
  }

  ghost predicate ResolvesAt(s: State, pc: Pc) {
    match pc
    case Idle => true
    case Created(task) => task.timer < |s.timers| && s.timers[task.timer].task == task
    case Pushed(task, index) => Resolves(s, task.timer, index) && s.tasks[index] == task
    case Entered(timer, index, _) => Resolves(s, timer, index)
    case Looking(timer, index) => Resolves(s, timer, index)
    case Ready(timer, index, task) => Resolves(s, timer, index) && s.tasks[index] == task
    case Running(timer, index, task) => Resolves(s, timer, index) && s.tasks[index] == task
    case Rearming(timer, index, task) => Resolves(s, timer, index) && s.tasks[index] == task
    case Rearmed(timer, index, task) => Resolves(s, timer, index) && s.tasks[index] == task
  }

  /** Every index in use names the task of the timer it is used with, as registered. */
  ghost predicate IndexGood(s: State) {
    && (forall i :: 0 <= i < |s.tasks| ==>
          s.tasks[i].timer < |s.timers| && s.timers[s.tasks[i].timer].task == s.tasks[i])
    && (forall w :: 0 <= w < |s.waits| ==> Resolves(s, s.waits[w].timer, s.waits[w].index))
    && (forall a :: 0 <= a < |s.actors| ==> ResolvesAt(s, s.actors[a]))
  }

  lemma OwnFromIndex(s: State)
    requires IndexGood(s)
    ensures HandlesOwn(s)
  {
  }

  /** s' has all the tasks and timers of s, the timers with the tasks they were created for. */
  ghost predicate Extends(s: State, s': State) {
    && s.tasks <= s'.tasks && |s.timers| <= |s'.timers|
    && forall t :: 0 <= t < |s.timers| ==> s'.timers[t].task == s.timers[t].task
  }

  lemma StepExtends(s: State, step: Step)
    requires Enabled(s, step)
    ensures Extends(s, Apply(s, step))
  {
  }

  lemma ResolvesLater(s: State, s': State, pc: Pc)
    requires Extends(s, s') && ResolvesAt(s, pc)
    ensures ResolvesAt(s', pc)
  {
  }

  lemma IndexAt(s: State, a: nat, w: nat)
    requires IndexGood(s)
    ensures a < |s.actors| ==> ResolvesAt(s, s.actors[a])
    ensures w < |s.waits| ==> Resolves(s, s.waits[w].timer, s.waits[w].index)
  {
  }

  /** The place a thread moves on to resolves as well as the place it leaves. */
  lemma MovedResolves(s: State, step: Step, a: nat)
    requires Enabled(s, step) && IndexGood(s) && a < |s.actors|
    ensures a < |Apply(s, step).actors| && ResolvesAt(Apply(s, step), Apply(s, step).actors[a])
  {
    hide Extends, IndexGood, Without;
    IndexAt(s, a, if step.Fire? then step.wait else 0);
    StepExtends(s, step);
    ResolvesLater(s, Apply(s, step), s.actors[a]);
  }

  lemma WaitsResolve(s: State, step: Step, w: nat)
    requires Enabled(s, step) && IndexGood(s) && w < |Apply(s, step).waits|
    ensures Resolves(Apply(s, step), Apply(s, step).waits[w].timer, Apply(s, step).waits[w].index)
  {
  }

  lemma TasksResolve(s: State, step: Step, i: nat)
    requires Enabled(s, step) && IndexGood(s) && i < |Apply(s, step).tasks|
    ensures var s' := Apply(s, step);
      s'.tasks[i].timer < |s'.timers| && s'.timers[s'.tasks[i].timer].task == s'.tasks[i]
  {
    StepExtends(s, step);
    if step.Push? {
      assert ResolvesAt(s, s.actors[step.a]);
    }
  }

  lemma StepKeepsIndex(s: State, step: Step)
    requires Enabled(s, step) && IndexGood(s)
    ensures IndexGood(Apply(s, step))
  {
    var s' := Apply(s, step);
    forall a | 0 <= a < |s'.actors| ensures ResolvesAt(s', s'.actors[a]) {
      MovedResolves(s, step, a);
    }
    forall w | 0 <= w < |s'.waits| ensures Resolves(s', s'.waits[w].timer, s'.waits[w].index) {
      WaitsResolve(s, step, w);
    }
    forall i | 0 <= i < |s'.tasks|
      ensures s'.tasks[i].timer < |s'.timers| && s'.timers[s'.tasks[i].timer].task == s'.tasks[i]
    {
      TasksResolve(s, step, i);
    }
  }

  lemma StepKeepsNoneAborted(s: State, step: Step)
    requires Enabled(s, step) && s.running && NoneAborted(s)
    ensures NoneAborted(Apply(s, step))
  {
    var s' := Apply(s, step);
    forall w | 0 <= w < |s'.waits| ensures !s'.waits[w].aborted {
      assert w < |s.waits| ==> !s.waits[w].aborted;
      assert step.Fire? && step.wait <= w ==> !s.waits[w + 1].aborted;
    }
  }

  /** On a running pool a step moves the token of a timer along, or gives a new timer its first. */
  lemma StepKeepsArmed(s: State, step: Step, timer: nat)
    requires Enabled(s, step) && s.running && NoneAborted(s) && IndexGood(s)
    requires Armed(s, timer) && (timer >= |s.timers| ==> Tokens(s, timer) == 0)
    ensures Armed(Apply(s, step), timer)
  {
    hide Sum, ActorOn, WaitOn, Without, IndexGood, NoneAborted;
    if HandlerStep(step) {
      HandlerMoves(s, step);
      hide Apply;
      ActorMoves(s.actors, step.a, Apply(s, step).actors[step.a], timer);
    } else if step.Create? {
      ActorMoves(s.actors, step.a, Apply(s, step).actors[step.a], timer);
    } else if step.Fire? {
      WaitsChange(s.waits, step.wait, s.waits[step.wait], timer);
      ActorMoves(s.actors, step.a, Apply(s, step).actors[step.a], timer);
    } else if step.AsyncWait? {
      IndexAt(s, step.a, 0);
      WaitsChange(s.waits, 0, Wait(s.actors[step.a].task.timer, s.actors[step.a].index, false), timer);
      ActorMoves(s.actors, step.a, Idle, timer);
    }
  }

  predicate HandlerStep(step: Step) {
    step.Push? || step.CheckRunning? || step.Lookup? || step.StartTask? || step.EndTask? || step.MoveExpiry?
  }

  /** On a running pool a thread keeps the timer it handles until it waits on it again. */
  lemma HandlerMoves(s: State, step: Step)
    requires Enabled(s, step) && s.running && NoneAborted(s) && IndexGood(s) && HandlerStep(step)
    ensures var s' := Apply(s, step);
      && s'.waits == s.waits && |s'.timers| == |s.timers| && step.a < |s.actors| == |s'.actors|
      && s'.actors == s.actors[step.a := s'.actors[step.a]]
      && TimerOf(s'.actors[step.a]) == TimerOf(s.actors[step.a])
  {
    IndexAt(s, step.a, 0);
    hide IndexGood;
  }

  lemma StepKeepsAllArmed(s: State, step: Step)
    requires Enabled(s, step) && IndexGood(s) && OneHandler(s) && AllArmed(s)
    ensures AllArmed(Apply(s, step))
  {
    var s' := Apply(s, step);
    if s.running && s'.running {
      StepKeepsNoneAborted(s, step);
      forall timer: nat ensures Armed(s', timer) {
        assert Armed(s, timer) && TokenBound(s, timer);
        hide IndexGood, NoneAborted, Apply, Enabled;
        StepKeepsArmed(s, step, timer);
      }
    }
  }

  // ---------- Deadlines ----------

  /** The n-th deadline of a fixed-rate timer, counted from its creation. */
  function Deadline(t: Timer, n: nat): int {
    t.created + n * t.task.period
  }

  lemma NextDeadline(t: Timer, n: nat)
    ensures Deadline(t, n + 1) == Deadline(t, n) + t.task.period
  {
  }

  ghost predicate CountsGood(t: Timer) {
    |t.moves| <= |t.ends| <= |t.starts| <= |t.moves| + 1
  }

  ghost predicate PastGood(t: Timer, now: int) {
    && t.created <= now
    && (forall i :: 0 <= i < |t.starts| ==> t.starts[i] <= now)
    && (forall i :: 0 <= i < |t.ends| ==> t.ends[i] <= now)
    && (forall i :: 0 <= i < |t.moves| ==> t.moves[i] <= now)
  }

  /** Each run ends before the expiry is moved, and that before the next run starts. */
  ghost predicate RunsApart(t: Timer)
    requires CountsGood(t)
  {
    && (forall i :: 0 <= i < |t.ends| ==> t.starts[i] <= t.ends[i])
    && (forall i :: 0 <= i < |t.starts| - 1 ==> t.ends[i] <= t.starts[i + 1])
    && (forall i :: 0 <= i < |t.moves| ==> t.ends[i] <= t.moves[i])
    && (forall i :: 0 <= i < |t.starts| - 1 ==> t.moves[i] <= t.starts[i + 1])
  }

  /** With a fixed rate, deadlines are evenly spaced and run i starts no earlier than deadline i+1. */
  ghost predicate RateGood(t: Timer) {
    t.task.fixedRate ==>
      && t.expiry == Deadline(t, |t.moves| + 1)
      && forall i :: 0 <= i < |t.starts| ==> Deadline(t, i + 1) <= t.starts[i]
  }

  /** With a fixed delay, the deadline is one period after the last move, and no run starts before its deadline. */
  ghost predicate DelayGood(t: Timer)
    requires CountsGood(t)
  {
    !t.task.fixedRate ==>
      && t.expiry == (if t.moves == [] then t.created else t.moves[|t.moves| - 1]) + t.task.period
      && (|t.starts| > 0 ==> t.created + t.task.period <= t.starts[0])
      && forall i :: 0 <= i < |t.starts| - 1 ==> t.moves[i] + t.task.period <= t.starts[i + 1]
  }

  ghost predicate TimerGood(t: Timer, now: int) {
    CountsGood(t) && PastGood(t, now) && RunsApart(t) && RateGood(t) && DelayGood(t)
  }

  predicate Waiting(t: Timer) {
    |t.starts| == |t.ends| == |t.moves|
  }

  /** How far a timer has got when a thread stands at pc. */
  predicate Stage(t: Timer, pc: Pc, now: int) {
    match pc
    case Running(_, _, _) => |t.starts| == |t.moves| + 1 && |t.ends| == |t.moves|
    case Rearming(_, _, _) => |t.starts| == |t.ends| == |t.moves| + 1
    case Entered(_, _, aborted) => Waiting(t) && (aborted || t.expiry <= now)
    case Looking(_, _) => Waiting(t) && t.expiry <= now
    case Ready(_, _, _) => Waiting(t) && t.expiry <= now
    case _ => Waiting(t)
  }

  ghost predicate StageAt(s: State, pc: Pc) {
    0 <= TimerOf(pc) < |s.timers| ==> Stage(s.timers[TimerOf(pc)], pc, s.now)
  }

  ghost predicate WaitStage(s: State, w: Wait) {
    w.timer < |s.timers| ==> Waiting(s.timers[w.timer])
  }

  ghost predicate TimingGood(s: State) {
    && (forall t :: 0 <= t < |s.timers| ==> TimerGood(s.timers[t], s.now))
    && (forall a :: 0 <= a < |s.actors| ==> StageAt(s, s.actors[a]))
    && (forall w :: 0 <= w < |s.waits| ==> WaitStage(s, s.waits[w]))
  }

  lemma AtActor(s: State, a: nat)
    requires IndexGood(s) && TimingGood(s) && a < |s.actors|
    ensures ResolvesAt(s, s.actors[a]) && StageAt(s, s.actors[a])
  {
  }

  lemma AtWait(s: State, w: nat)
    requires IndexGood(s) && TimingGood(s) && w < |s.waits|
    ensures Resolves(s, s.waits[w].timer, s.waits[w].index) && WaitStage(s, s.waits[w])
  {
  }

  lemma TaskAt(s: State, i: nat)
    requires IndexGood(s) && i < |s.tasks|
    ensures s.tasks[i].timer < |s.timers| && s.timers[s.tasks[i].timer].task == s.tasks[i]
  {
  }

  lemma AtTimer(s: State, t: nat)
    requires TimingGood(s) && t < |s.timers|
    ensures TimerGood(s.timers[t], s.now)
  {
  }

  lemma StartedGood(t: Timer, now: int)
    requires TimerGood(t, now) && Waiting(t) && t.expiry <= now
    ensures TimerGood(t.(starts := t.starts + [now]), now)
  {
    hide Deadline;
    assert Deadline(t.(starts := t.starts + [now]), |t.moves| + 1) == Deadline(t, |t.moves| + 1) by {
      SameDeadlines(t, t.(starts := t.starts + [now]));
    }
    SameDeadlines(t, t.(starts := t.starts + [now]));
  }

  lemma SameDeadlines(t: Timer, u: Timer)
    requires t.created == u.created && t.task == u.task
    ensures forall n: nat :: Deadline(t, n) == Deadline(u, n)
  {
  }

  lemma EndedGood(t: Timer, now: int)
    requires TimerGood(t, now) && |t.starts| == |t.moves| + 1 && |t.ends| == |t.moves|
    ensures TimerGood(t.(ends := t.ends + [now]), now)
  {
    SameDeadlines(t, t.(ends := t.ends + [now]));
    hide Deadline;
  }

  lemma MovedGood(t: Timer, now: int)
    requires TimerGood(t, now) && |t.starts| == |t.ends| == |t.moves| + 1
    ensures TimerGood(Moved(t, t.task, now), now)
  {
    SameDeadlines(t, Moved(t, t.task, now));
    NextDeadline(t, |t.moves| + 1);
    hide Deadline;
  }

  /** Whoever handles a timer is alone with it. */
  lemma Alone(s: State, a: nat)
    requires OneHandler(s) && a < |s.actors| && TimerOf(s.actors[a]) >= 0
    ensures forall b :: 0 <= b < |s.actors| && b != a ==> TimerOf(s.actors[b]) != TimerOf(s.actors[a])
    ensures forall w :: 0 <= w < |s.waits| ==> s.waits[w].timer != TimerOf(s.actors[a])
  {
    var timer: nat := TimerOf(s.actors[a]);
    assert TokenBound(s, timer);
    forall b | 0 <= b < |s.actors| && b != a ensures TimerOf(s.actors[b]) != timer {
      SumOfTwo(s.actors, if a < b then a else b, if a < b then b else a, ActorOn(timer));
    }
    forall w | 0 <= w < |s.waits| ensures s.waits[w].timer != timer {
      SumOfOne(s.waits, w, WaitOn(timer));
      SumOfOne(s.actors, a, ActorOn(timer));
    }
  }

  /** Changing only the timer that thread a handles, and thread a. */
  lemma HandlerKeepsTiming(s: State, a: nat, t: Timer, pc: Pc)
    requires OneHandler(s) && TimingGood(s) && a < |s.actors| && 0 <= TimerOf(s.actors[a]) < |s.timers|
    requires TimerGood(t, s.now) && TimerOf(pc) == TimerOf(s.actors[a]) && Stage(t, pc, s.now)
    ensures TimingGood(s.(timers := s.timers[TimerOf(s.actors[a]) := t], actors := s.actors[a := pc]))
  {
    Alone(s, a);
    var s' := s.(timers := s.timers[TimerOf(s.actors[a]) := t], actors := s.actors[a := pc]);
    hide TimerGood, Stage, Waiting, OneHandler;
    forall b | 0 <= b < |s'.actors| ensures StageAt(s', s'.actors[b]) {
      assert StageAt(s, s.actors[b]);
    }
    forall w | 0 <= w < |s'.waits| ensures WaitStage(s', s'.waits[w]) {
      assert WaitStage(s, s.waits[w]);
    }
  }

  lemma HandlerStepKeepsTiming(s: State, step: Step)
    requires Enabled(s, step) && OneHandler(s) && IndexGood(s) && TimingGood(s)
    requires step.StartTask? || step.EndTask? || step.MoveExpiry?
    ensures TimingGood(Apply(s, step))
  {
    hide TimingGood, IndexGood, OneHandler, TimerGood;
    var a := step.a;
    var pc := s.actors[a];
    var t := s.timers[pc.timer];
    AtActor(s, a);
    AtTimer(s, pc.timer);
    TaskAt(s, pc.index);
    assert pc.task == t.task;
    match step
    case StartTask(_) =>
      StartedGood(t, s.now);
      HandlerKeepsTiming(s, a, t.(starts := t.starts + [s.now]), Running(pc.timer, pc.index, pc.task));
    case EndTask(_) =>
      EndedGood(t, s.now);
      HandlerKeepsTiming(s, a, t.(ends := t.ends + [s.now]), Rearming(pc.timer, pc.index, pc.task));
    case MoveExpiry(_) =>
      MovedGood(t, s.now);
      HandlerKeepsTiming(s, a, Moved(t, t.task, s.now), Rearmed(pc.timer, pc.index, pc.task));
  }

  /** Steps that leave the timers alone, or only let time pass. */
  lemma QuietStepKeepsTiming(s: State, step: Step)
    requires Enabled(s, step) && IndexGood(s) && TimingGood(s)
    requires !step.StartTask? && !step.EndTask? && !step.MoveExpiry? && !step.Create?
    ensures TimingGood(Apply(s, step))
  {
    var s' := Apply(s, step);
    forall t | 0 <= t < |s'.timers| ensures TimerGood(s'.timers[t], s'.now) {
      assert TimerGood(s.timers[t], s.now);
      assert PastGood(s.timers[t], s'.now);
    }
    hide TimerGood;
    forall b | 0 <= b < |s'.actors| ensures StageAt(s', s'.actors[b]) {
      QuietActor(s, step, b);
    }
    forall w | 0 <= w < |s'.waits| ensures WaitStage(s', s'.waits[w]) {
      QuietWait(s, step, w);
    }
  }

  lemma QuietActor(s: State, step: Step, b: nat)
    requires Enabled(s, step) && IndexGood(s) && TimingGood(s)
    requires !step.StartTask? && !step.EndTask? && !step.MoveExpiry? && !step.Create?
    requires b < |Apply(s, step).actors|
    ensures StageAt(Apply(s, step), Apply(s, step).actors[b])
  {
    hide TimingGood, IndexGood, Without;
    AtActor(s, b);
    if step.Fire? {
      AtWait(s, step.wait);
    }
  }

  lemma QuietWait(s: State, step: Step, w: nat)
    requires Enabled(s, step) && IndexGood(s) && TimingGood(s)
    requires !step.StartTask? && !step.EndTask? && !step.MoveExpiry? && !step.Create?
    requires w < |Apply(s, step).waits|
    ensures WaitStage(Apply(s, step), Apply(s, step).waits[w])
  {
    hide TimingGood, IndexGood;
    if w < |s.waits| {
      AtWait(s, w);
    }
    if step.Fire? && step.wait <= w {
      AtWait(s, w + 1);
    }
    if step.AsyncWait? {
      AtActor(s, step.a);
    }
  }

  lemma CreateKeepsTiming(s: State, step: Step)
    requires Enabled(s, step) && step.Create? && IndexGood(s) && TimingGood(s)
    ensures TimingGood(Apply(s, step))
  {
    var s' := Apply(s, step);
    NextDeadline(s'.timers[|s.timers|], 0);
    assert TimerGood(s'.timers[|s.timers|], s'.now);
    hide TimerGood;
    forall b | 0 <= b < |s'.actors| ensures StageAt(s', s'.actors[b]) {
      assert StageAt(s, s.actors[b]) && ResolvesAt(s, s.actors[b]);
    }
    forall w | 0 <= w < |s'.waits| ensures WaitStage(s', s'.waits[w]) {
      assert WaitStage(s, s.waits[w]) && Resolves(s, s.waits[w].timer, s.waits[w].index);
    }
  }

  lemma StepKeepsTiming(s: State, step: Step)
    requires Enabled(s, step) && OneHandler(s) && IndexGood(s) && TimingGood(s)
    ensures TimingGood(Apply(s, step))
  {
    hide TimingGood, IndexGood, OneHandler, Apply;
    if step.StartTask? || step.EndTask? || step.MoveExpiry? {
      HandlerStepKeepsTiming(s, step);
    } else if step.Create? {
      CreateKeepsTiming(s, step);
    } else {
      QuietStepKeepsTiming(s, step);
    }
  }

  // ---------- All interleavings ----------

  /** `run` lists the states that the steps lead through from `from`. */
  ghost predicate Trace(from: State, steps: seq<Step>, run: seq<State>) {
    && |run| == |steps| + 1 && run[0] == from
    && forall i :: 0 <= i < |steps| ==> Enabled(run[i], steps[i]) && run[i + 1] == Apply(run[i], steps[i])
  }

  ghost predicate Inv(s: State) {
    OneHandler(s) && IndexGood(s) && TimingGood(s) && AllArmed(s)
  }

  lemma InitGood(now: int, threads: nat)
    ensures Inv(Init(now, threads))
  {
    var s := Init(now, threads);
    forall timer: nat ensures TokenBound(s, timer) {
      SumOfNone(s.actors, ActorOn(timer));
    }
  }

  lemma StepGood(s: State, step: Step)
    requires Inv(s) && Enabled(s, step)
    ensures Inv(Apply(s, step))
  {
    OwnFromIndex(s);
    hide TokenBound, IndexGood, TimingGood, AllArmed, Apply, Enabled;
    forall timer: nat ensures TokenBound(Apply(s, step), timer) {
      StepKeepsToken(s, step, timer);
    }
    StepKeepsAllArmed(s, step);
    StepKeepsIndex(s, step);
    StepKeepsTiming(s, step);
  }

  lemma {:induction false} TraceGood(from: State, steps: seq<Step>, run: seq<State>, i: nat)
    requires Inv(from) && Trace(from, steps, run) && i < |run|
    ensures Inv(run[i])
  {
    hide Inv;
    if i > 0 {
      TraceGood(from, steps, run, i - 1);
      StepGood(run[i - 1], steps[i - 1]);
    }
  }

  /**
   * In every reachable state a timer has at most one handler, outstanding or executing; so no task overlaps
   * itself, whatever its rate, and each run is of the task registered with the timer that fired.
   */
  lemma NoTaskOverlapsItself(now: int, threads: nat, steps: seq<Step>, run: seq<State>, i: nat, a: nat)
    requires Trace(Init(now, threads), steps, run) && i < |run| && a < |run[i].actors|
    requires run[i].actors[a].Running?
    ensures var s := run[i];
      && s.actors[a].timer < |s.timers| && s.actors[a].task == s.timers[s.actors[a].timer].task
      && (forall b :: 0 <= b < |s.actors| && b != a ==> TimerOf(s.actors[b]) != s.actors[a].timer)
      && (forall w :: 0 <= w < |s.waits| ==> s.waits[w].timer != s.actors[a].timer)
  {
    InitGood(now, threads);
    TraceGood(Init(now, threads), steps, run, i);
    assert ResolvesAt(run[i], run[i].actors[a]);
    Alone(run[i], a);
  }

  /**
   * Until a shutdown every timer is waiting, not cancelled, or being handled by exactly one thread: none is ever
   * lost, and with every thread idle each has exactly one wait.
   */
  lemma NoTimerIsLost(now: int, threads: nat, steps: seq<Step>, run: seq<State>, i: nat, timer: nat)
    requires Trace(Init(now, threads), steps, run) && i < |run| && run[i].running && timer < |run[i].timers|
    ensures Sum(run[i].waits, WaitOn(timer)) + Sum(run[i].actors, ActorOn(timer)) == 1
    ensures (exists w :: 0 <= w < |run[i].waits| && run[i].waits[w].timer == timer && !run[i].waits[w].aborted)
         || (exists a :: 0 <= a < |run[i].actors| && TimerOf(run[i].actors[a]) == timer)
  {
    InitGood(now, threads);
    TraceGood(Init(now, threads), steps, run, i);
    var s := run[i];
    assert AllArmed(s) && Armed(s, timer);
    if forall w :: 0 <= w < |s.waits| ==> s.waits[w].timer != timer {
      SumOfNone(s.waits, WaitOn(timer));
    }
    if forall a :: 0 <= a < |s.actors| ==> TimerOf(s.actors[a]) != timer {
      SumOfNone(s.actors, ActorOn(timer));
    }
  }

  /** The runs of a task are disjoint intervals of time, in order, only the last of them possibly unfinished. */
  lemma RunsAreDisjoint(now: int, threads: nat, steps: seq<Step>, run: seq<State>, i: nat, t: nat, m: nat, n: nat)
    requires Trace(Init(now, threads), steps, run) && i < |run| && t < |run[i].timers|
    requires m < n < |run[i].timers[t].starts|
    ensures var timer := run[i].timers[t];
      |timer.starts| - 1 <= |timer.ends| <= |timer.starts| && timer.starts[m] <= timer.ends[m] <= timer.starts[n]
  {
    InitGood(now, threads);
    TraceGood(Init(now, threads), steps, run, i);
    assert TimerGood(run[i].timers[t], run[i].now);
    EndsBefore(run[i].timers[t], m, n);
  }

  lemma {:induction false} EndsBefore(t: Timer, m: nat, n: nat)
    requires CountsGood(t) && RunsApart(t) && m < n < |t.starts|
    ensures t.ends[m] <= t.starts[n]
  {
    if m < n - 1 {
      EndsBefore(t, m, n - 1);
      assert t.starts[n - 1] <= t.ends[n - 1];
    }
    assert t.ends[n - 1] <= t.starts[n - 1 + 1];
  }

  /**
   * The deadlines of a fixed-rate timer are created + n*period whatever the tasks take; run n starts no earlier
   * than deadline n+1, so at most (now-created)/period runs have started.
   */
  lemma FixedRateTiming(now: int, threads: nat, steps: seq<Step>, run: seq<State>, i: nat, t: nat)
    requires Trace(Init(now, threads), steps, run) && i < |run| && t < |run[i].timers|
    requires run[i].timers[t].task.fixedRate
    ensures var timer := run[i].timers[t];
      && timer.expiry == timer.created + (|timer.moves| + 1) * timer.task.period
      && (forall n :: 0 <= n < |timer.starts| ==> timer.created + (n + 1) * timer.task.period <= timer.starts[n])
      && (timer.task.period > 0 ==> |timer.starts| <= (run[i].now - timer.created) / timer.task.period)
  {
    InitGood(now, threads);
    TraceGood(Init(now, threads), steps, run, i);
    var timer := run[i].timers[t];
    assert TimerGood(timer, run[i].now);
    assert forall n :: 0 <= n < |timer.starts| ==> Deadline(timer, n + 1) <= timer.starts[n];
    if timer.task.period > 0 {
      var n := |timer.starts|;
      if n > 0 {
        assert Deadline(timer, n - 1 + 1) <= timer.starts[n - 1] <= run[i].now;
      }
      AtMostQuotient(n, timer.task.period, run[i].now - timer.created);
    }
  }

  lemma AtMostQuotient(n: nat, period: int, elapsed: int)
    requires period > 0 && n * period <= elapsed
    ensures n <= elapsed / period
  {
    var q := elapsed / period;
    assert elapsed < q * period + period;
    CancelFactor(n, q + 1, period);
  }

  lemma CancelFactor(n: nat, m: int, period: int)
    requires period > 0 && n * period < m * period
    ensures n < m
  {
  }

  /**
   * The deadline of a fixed-delay timer is one period after its expiry was last moved, which follows the end of the
   * run before: exactly one period after that end if no time passes in between. No run starts before its deadline.
   */
  lemma FixedDelayTiming(now: int, threads: nat, steps: seq<Step>, run: seq<State>, i: nat, t: nat)
    requires Trace(Init(now, threads), steps, run) && i < |run| && t < |run[i].timers|
    requires !run[i].timers[t].task.fixedRate
    ensures var timer := run[i].timers[t];
      && |timer.ends| <= |timer.starts| <= |timer.ends| + 1
      && |timer.moves| <= |timer.ends|
      && timer.expiry
         == (if timer.moves == [] then timer.created else timer.moves[|timer.moves| - 1]) + timer.task.period
      && (forall n :: 0 <= n < |timer.moves| ==> timer.ends[n] <= timer.moves[n])
      && (|timer.starts| > 0 ==> timer.created + timer.task.period <= timer.starts[0])
      && |timer.starts| - 1 <= |timer.moves|
      && (forall n :: 0 <= n < |timer.starts| - 1 ==> timer.moves[n] + timer.task.period <= timer.starts[n + 1])
      && (forall n :: 0 <= n < |timer.starts| - 1 ==> timer.ends[n] + timer.task.period <= timer.starts[n + 1])
  {
    InitGood(now, threads);
    TraceGood(Init(now, threads), steps, run, i);
    assert TimerGood(run[i].timers[t], run[i].now);
  }

  // ---------- Shutdown drains ----------

  /** How many more steps a thread's handling can take once running_ is false, its last wait included. */
  function ActorWork(): Pc -> nat {
    (pc: Pc) =>
      match pc
      case Idle => 0
      case Entered(_, _, _) => 1
      case Pushed(_, _) => 4
      case Rearmed(_, _, _) => 4
      case Created(_) => 5
      case Rearming(_, _, _) => 5
      case Running(_, _, _) => 6
      case Ready(_, _, _) => 7
      case Looking(_, _) => 8
  }

  function WaitWork(): Wait -> nat {
    (w: Wait) => if w.aborted then 2 else 3
  }

  function Work(s: State): nat {
    Sum(s.waits, WaitWork()) + Sum(s.actors, ActorWork())
  }

  /** The steps of handlers, registrations and cancellations. */
  predicate Working(step: Step) {
    !step.Advance? && !step.Create? && !step.ClearRunning? && !step.Stop?
  }

  lemma WorkUpdate(s: State, a: nat, pc: Pc)
    requires a < |s.actors|
    ensures Sum(s.actors[a := pc], ActorWork()) + ActorWork()(s.actors[a])
         == Sum(s.actors, ActorWork()) + ActorWork()(pc)
  {
    SumUpdate(s.actors, a, pc, ActorWork());
  }

  lemma WaitWorkChange(waits: seq<Wait>, w: nat, wait: Wait)
    ensures Sum(waits + [wait], WaitWork()) == Sum(waits, WaitWork()) + (if wait.aborted then 2 else 3)
    ensures w < |waits| ==>
      Sum(Without(waits, w), WaitWork()) == Sum(waits, WaitWork()) - (if waits[w].aborted then 2 else 3)
    ensures w < |waits| ==>
      Sum(waits[w := wait], WaitWork())
        == Sum(waits, WaitWork()) - (if waits[w].aborted then 2 else 3) + (if wait.aborted then 2 else 3)
  {
    SumAppend(waits, wait, WaitWork());
    if w < |waits| {
      SumWithout(waits, w, WaitWork());
      SumUpdate(waits, w, wait, WaitWork());
    }
    hide Sum, Without;
  }

  /** Once running_ is false every working step leaves less work, and nothing but new timers adds any. */
  lemma StepDrains(s: State, step: Step)
    requires Enabled(s, step) && !s.running && !step.Create?
    ensures !Apply(s, step).running
    ensures Work(Apply(s, step)) + (if Working(step) then 1 else 0) <= Work(s)
  {
    hide Sum, Without, WaitWork;
    match step
    case Advance(_) =>
    case Create(_, _, _) =>
    case ClearRunning =>
    case Stop =>
    case Cancel(w) => WaitWorkChange(s.waits, w, s.waits[w].(aborted := true));
    case Fire(a, w) =>
      WaitWorkChange(s.waits, w, s.waits[w]);
      WorkUpdate(s, a, Apply(s, step).actors[a]);
    case AsyncWait(a) =>
      WaitWorkChange(s.waits, 0, Wait(s.actors[a].task.timer, s.actors[a].index, false));
      WorkUpdate(s, a, Idle);
    case _ => WorkUpdate(s, step.a, Apply(s, step).actors[step.a]);
  }

  function WorkingSteps(steps: seq<Step>): nat {
    if steps == [] then 0
    else WorkingSteps(steps[..|steps| - 1]) + if Working(steps[|steps| - 1]) then 1 else 0
  }

  ghost predicate NoNewTimers(steps: seq<Step>) {
    forall i :: 0 <= i < |steps| ==> !steps[i].Create?
  }

  /** After a shutdown, without new timers, only a bounded number of working steps can follow. */
  lemma {:induction false} ShutdownDrains(from: State, steps: seq<Step>, run: seq<State>)
    requires Trace(from, steps, run) && !from.running && NoNewTimers(steps)
    ensures !run[|steps|].running
    ensures WorkingSteps(steps) + Work(run[|steps|]) <= Work(from)
    decreases |steps|
  {
    if steps != [] {
      var n := |steps| - 1;
      TracePrefix(from, steps, run);
      ShutdownDrains(from, steps[..n], run[..n + 1]);
      StepDrains(run[n], steps[n]);
    }
  }

  lemma TracePrefix(from: State, steps: seq<Step>, run: seq<State>)
    requires Trace(from, steps, run) && steps != []
    ensures Trace(from, steps[..|steps| - 1], run[..|steps|])
    ensures Enabled(run[|steps| - 1], steps[|steps| - 1])
    ensures run[|steps|] == Apply(run[|steps| - 1], steps[|steps| - 1])
  {
  }

  /** No work left means no outstanding wait and no busy thread: the event loop has run dry. */
  lemma DrainedMeansDone(s: State)
    ensures Work(s) == 0 <==> s.waits == [] && forall a :: 0 <= a < |s.actors| ==> s.actors[a].Idle?
  {
    if s.waits != [] {
      SumOfOne(s.waits, 0, WaitWork());
    }
    forall a | 0 <= a < |s.actors| && !s.actors[a].Idle? ensures Work(s) > 0 {
      SumOfOne(s.actors, a, ActorWork());
    }
    if forall a :: 0 <= a < |s.actors| ==> s.actors[a].Idle? {
      SumOfNone(s.actors, ActorWork());
    }
  }

  /** While work is left and the loop has not been stopped, some working step can be taken, now or later. */
  lemma NeverStuck(s: State) returns (time: int, step: Step)
    requires Inv(s) && Work(s) > 0 && |s.actors| > 0 && !s.stopped
    ensures s.now <= time && Working(step) && Enabled(s.(now := time), step)
  {
    DrainedMeansDone(s);
    time := s.now;
    if a :| 0 <= a < |s.actors| && !s.actors[a].Idle? {
      assert ResolvesAt(s, s.actors[a]);
      var pc := s.actors[a];
      step :=
        if pc.Created? then Push(a)
        else if pc.Entered? then CheckRunning(a)
        else if pc.Looking? then Lookup(a)
        else if pc.Ready? then StartTask(a)
        else if pc.Running? then EndTask(a)
        else if pc.Rearming? then MoveExpiry(a)
        else AsyncWait(a);
    } else {
      assert Resolves(s, s.waits[0].timer, s.waits[0].index);
      var expiry := s.timers[s.waits[0].timer].expiry;
      time := if s.now <= expiry then expiry else s.now;
      step := Fire(0, 0);
    }
  }

  lemma WorkingStepKeeps(s: State, step: Step)
    requires Enabled(s, step) && (Working(step) || step.Advance?)
    ensures Apply(s, step).stopped == s.stopped && |Apply(s, step).actors| == |s.actors|
    ensures !step.Create?
  {
  }

  lemma TracePrepend(s: State, step: Step, steps: seq<Step>, run: seq<State>)
    requires Enabled(s, step) && Trace(Apply(s, step), steps, run)
    ensures Trace(s, [step] + steps, [s] + run)
  {
    hide Enabled, Apply;
    var all, through := [step] + steps, [s] + run;
    forall i | 0 <= i < |all| ensures Enabled(through[i], all[i]) && through[i + 1] == Apply(through[i], all[i]) {
      assert i > 0 ==> through[i] == run[i - 1] && all[i] == steps[i - 1] && through[i + 1] == run[i];
    }
  }

  /**
   * From any reachable state after a shutdown the event loop can run dry, and by ShutdownDrains it cannot go on
   * for ever: what is left is no outstanding wait and no busy thread.
   */
  lemma {:induction false} EventLoopFinishes(from: State) returns (steps: seq<Step>, run: seq<State>)
    requires Inv(from) && !from.running && !from.stopped && |from.actors| > 0
    ensures Trace(from, steps, run) && NoNewTimers(steps) && !run[|steps|].stopped
    ensures Work(run[|steps|]) == 0
    ensures run[|steps|].waits == [] && forall a :: 0 <= a < |run[|steps|].actors| ==> run[|steps|].actors[a].Idle?
    decreases Work(from)
  {
    hide Inv, Work, Enabled, Apply, Working;
    if Work(from) == 0 {
      steps, run := [], [from];
    } else {
      var time, step := NeverStuck(from);
      var later := LaterIs(from, time);
      StepGood(from, Advance(time));
      StepDrains(from, Advance(time));
      WorkingStepKeeps(from, Advance(time));
      WorkingStepKeeps(later, step);
      StepGood(later, step);
      StepDrains(later, step);
      steps, run := EventLoopFinishes(Apply(later, step));
      TracePrepend(later, step, steps, run);
      TracePrepend(from, Advance(time), [step] + steps, [later] + run);
      steps, run := [Advance(time)] + ([step] + steps), [from] + ([later] + run);
    }
    DrainedMeansDone(run[|steps|]);
  }

  lemma LaterIs(s: State, time: int) returns (later: State)
    requires s.now <= time
    ensures Enabled(s, Advance(time)) && later == Apply(s, Advance(time)) == s.(now := time)
  {
    later := s.(now := time);
  }

  // ---------- At most one more run ----------

  /** Threads past the running_ check on a timer, with the task still to be called. */
  function PastCheckOn(timer: nat): Pc -> nat {
    (pc: Pc) => if (pc.Looking? || pc.Ready?) && pc.timer == timer then 1 else 0
  }

  function Starts(s: State, timer: nat): nat {
    if timer < |s.timers| then |s.timers[timer].starts| else 0
  }

  function StartsToCome(s: State, timer: nat): nat {
    Sum(s.actors, PastCheckOn(timer))
  }

  lemma StepStarts(s: State, step: Step, timer: nat)
    requires Enabled(s, step) && !s.running
    ensures Starts(Apply(s, step), timer) + StartsToCome(Apply(s, step), timer)
         <= Starts(s, timer) + StartsToCome(s, timer)
  {
    var s' := Apply(s, step);
    if !step.Advance? && !step.ClearRunning? && !step.Stop? && !step.Cancel? {
      SumUpdate(s.actors, step.a, s'.actors[step.a], PastCheckOn(timer));
    }
    hide Sum;
  }

  lemma {:induction false} StartsBounded(from: State, steps: seq<Step>, run: seq<State>, timer: nat)
    requires Trace(from, steps, run) && !from.running
    ensures !run[|steps|].running
    ensures Starts(run[|steps|], timer) + StartsToCome(run[|steps|], timer)
         <= Starts(from, timer) + StartsToCome(from, timer)
    decreases |steps|
  {
    hide Sum, Starts, StartsToCome;
    if steps != [] {
      var n := |steps| - 1;
      TracePrefix(from, steps, run);
      StartsBounded(from, steps[..n], run[..n + 1], timer);
      StepStarts(run[n], steps[n], timer);
    }
  }

  lemma {:induction false} PastCheckAtMostHandling(actors: seq<Pc>, timer: nat)
    ensures Sum(actors, PastCheckOn(timer)) <= Sum(actors, ActorOn(timer))
  {
    if actors != [] {
      PastCheckAtMostHandling(actors[..|actors| - 1], timer);
    }
  }

  /**
   * After a shutdown in any reachable state a timer starts at most one more run of its task, and none at all
   * unless a handler of it was already past the check of running_.
   */
  lemma AtMostOneMoreRun(from: State, steps: seq<Step>, run: seq<State>, timer: nat)
    requires Inv(from) && Trace(from, steps, run) && !from.running
    ensures Starts(run[|steps|], timer) <= Starts(from, timer) + 1
    ensures (forall a :: 0 <= a < |from.actors| ==> PastCheckOn(timer)(from.actors[a]) == 0) ==>
      Starts(run[|steps|], timer) <= Starts(from, timer)
  {
    StartsBounded(from, steps, run, timer);
    PastCheckAtMostHandling(from.actors, timer);
    assert TokenBound(from, timer);
    if forall a :: 0 <= a < |from.actors| ==> PastCheckOn(timer)(from.actors[a]) == 0 {
      SumOfNone(from.actors, PastCheckOn(timer));
    }
  }

  // ---------- Stopped ----------

  /** The service is stopped, and no thread is inside a handler. */
  ghost predicate Quiet(s: State) {
    s.stopped && forall a :: 0 <= a < |s.actors| ==> s.actors[a].Idle? || s.actors[a].Created? || s.actors[a].Pushed?
  }

  /** Once the service is stopped and the handlers have returned, no handler is ever called and no timer changes. */
  lemma {:induction false} StoppedPoolIsQuiet(from: State, steps: seq<Step>, run: seq<State>)
    requires Trace(from, steps, run) && Quiet(from)
    ensures Quiet(run[|steps|]) && from.timers <= run[|steps|].timers
    decreases |steps|
  {
    if steps != [] {
      var n := |steps| - 1;
      TracePrefix(from, steps, run);
      StoppedPoolIsQuiet(from, steps[..n], run[..n + 1]);
      StepStaysQuiet(run[n], steps[n]);
    }
  }

  lemma StepStaysQuiet(s: State, step: Step)
    requires Enabled(s, step) && Quiet(s)
    ensures Quiet(Apply(s, step)) && s.timers <= Apply(s, step).timers
  {
  }
}

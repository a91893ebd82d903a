# A verified model of cppmetrics

cppmetrics collects counts, rates and distributions inside a running program and reports them periodically. This
project models the six parts of it in which something can go wrong that is hard to see from one function, and proves
what each is for. `dafny verify dfyconfig.toml` checks everything.

| files | part |
|---|---|
| `UniformSample.dfy`, `Uniformity.dfy`, `UniformSampleProtocol.dfy`, `UniformSampleOrder.dfy` | the uniform reservoir (Algorithm R): the class, exact uniformity by counting sequences of draws, the interleaving of ticket and write, and when it leaves the sequential sample |
| `ExpDecaySample.dfy`, `ExpDecayWeights.dfy` | the exponentially decaying reservoir: the class for any arithmetic, and what it holds when arithmetic is exact |
| `Ewma.dfy`, `Meter.dfy`, `MeterReads.dfy`, `MeterRates.dfy`, `MeterProtocol.dfy`, `MeterMarks.dfy`, `MeterRefinement.dfy` | moving averages, the lazily ticking meter used by one thread, the effect of reading it, what its rates are, the same meter as atomic steps of many threads, what their calls add up to, and the agreement of the two |
| `Executor.dfy`, `ScheduledThreadPool.dfy` | the timer pool: all interleavings of its threads as a state machine, and its operations as a class |
| `Snapshot.dfy` | sorting, quantiles and moments |
| `MetricRegistry.dfy`, `RegistryLog.dfy`, `ScheduledReporter.dfy` | the registry as one map, what its calls say about a name, and reports taken while it changes |
| `Algebra.dfy`, `Exponential.dfy`, `Sets.dfy`, `Results.dfy` | real arithmetic, the laws of exp, finite sets, results of calls that may throw |

How the model treats what it cannot see:

- A draw of the random generator, the current time and the duration of a task are parameters, so every result holds
  for all of them. Real numbers stand for doubles. `exp` is any function `E` that is positive, strictly increasing,
  1 at 0 and turns sums into products; the results that must survive rounding (`ExpDecaySample.ReservoirBounds`,
  `ExpDecaySample.RescaledKeepsLargest`) take arbitrary functions in its place.
- An `async_wait` of asio delivers its handler once, at or after the expiry or after a cancellation, to an idle
  thread of a service that has not been stopped. Clocks never run backwards.
- Each lock-protected section is one step, and so is each atomic load, store, exchange or compare-and-swap.
- The 64-bit age of the meter is computed modulo 2^64, as in the code.

Where the code and its own documentation disagree, the model follows the code:

- `simple_scheduled_thread_pool_executor.h` says that runs of a fixed-rate command may overlap. They cannot: the timer
  is re-armed only after the task returns (`Executor.NoTaskOverlapsItself`, `Executor.RunsAreDisjoint`).
- `metric_registry.h` says that `addGauge` returns false for a gauge already present. The code throws, for any name
  already present (`MetricRegistry.MetricRegistry.AddGauge`).

Four things one might expect are not always true. The project gives the exact condition for each, and an input that
fails it:

- A lazily ticking meter is not always the same as one ticking at every boundary, because the test of the age is
  strict: an age of exactly one interval does not tick, while an age of exactly two does so twice. `Meter.LazyEqualsEager`
  gives the exact condition, `Meter.MarkOnBoundaryIsLate` a run that fails it.
- Reading a rate is not always without effect on later rates: a read that ticks makes an event exactly one interval
  after the boundary it reaches miss its own tick (`MeterReads.ReadsUnnoticedIff`, `MeterReads.ReadBeforeBoundaryIsNoticed`).
- A report can miss a name that is bound at each of its five reads, or list a name twice, when the name is removed and
  registered again with another type between two reads (`ScheduledReporter.ListedOnceIff`, `ScheduledReporter.ListedTwiceIff`,
  `ScheduledReporter.RetypedNameCanBeMissed`, `ScheduledReporter.RetypedNameCanBeListedTwice`). A name bound at every
  instant is listed exactly once (`ScheduledReporter.BoundThroughoutIsListed`).
- A sample taken by concurrent updates is not always the one their draws select in ticket order
  (`UniformSampleOrder.QuiescentSample`, `UniformSampleOrder.OvertakenSampleDiffers`).

## Model

| member | source | states |
|---|---|---|
| Uniformity.SubsetsEquallyLikely | src/cppmetrics/core/uniform_sample.cpp:44-61 | Exact uniformity: after n = k+m updates every k-subset of the arrivals is what is left by exactly m! of the possible sequences of draws, for every k and m |
| Uniformity.SurvivalRate | src/cppmetrics/core/uniform_sample.cpp:44-61 | Every single arrival is in the final sample for exactly k out of every n sequences of draws |
| Uniformity.ChoicesTotal | src/cppmetrics/core/uniform_sample.cpp:44-47 | There are n!/k! sequences of draws in all, so the counts of the two results above are probabilities |
| Uniformity.ChoicesAreDraws | src/cppmetrics/core/uniform_sample.cpp:44-47 | The sequences counted are exactly the ones a full reservoir can meet: draw j ranges over 0..k+j |
| Uniformity.ReservoirIsOneChoice | src/cppmetrics/core/uniform_sample.cpp:49-61 | At any moment past the filling phase a reservoir object is one of the counted cases: its draws are a counted sequence and its slots hold the values of the arrivals that sequence leaves |
| UniformSample.SurvivorsDistinct | src/cppmetrics/core/uniform_sample.cpp:49-61 | Below size() the slots hold arrivals, no arrival twice; the first k arrivals fill the slots in order |
| UniformSample.SlotsHoldSurvivors | src/cppmetrics/core/uniform_sample.cpp:49-61 | Which arrivals survive does not depend on their values: the slots of any stream are its items at the surviving positions, and placeholders above size() |
| UniformSample.UniformSample.constructor | src/cppmetrics/core/uniform_sample.cpp:23-26 | A new reservoir has its given size, holds placeholders only and has seen nothing |
| UniformSample.UniformSample.Clear | src/cppmetrics/core/uniform_sample.cpp:31-36 | Forgets every arrival and every draw: the reservoir is as newly built |
| UniformSample.UniformSample.Update | src/cppmetrics/core/uniform_sample.cpp:49-61 | The slots after the call are those of the specification run over the whole history with the new value appended; the generator is consulted exactly when the slots are full |
| UniformSample.UniformSample.Size | src/cppmetrics/core/uniform_sample.cpp:38-42 | The number of values seen since the last clear, or the size of the reservoir if that is less |
| UniformSample.UniformSample.GetSnapshot | src/cppmetrics/core/uniform_sample.cpp:63-69 | A snapshot holds exactly the values of the surviving arrivals, all min(k,n) of them: pairwise distinct arrivals, no placeholder, none left out; taking it changes nothing |
| UniformSampleProtocol.SlotsNeverShareAnUpdate | src/cppmetrics/core/uniform_sample.cpp:49-61 | With ticket and write as separate steps of many threads, no two slots ever hold values of the same update |
| UniformSampleProtocol.PlaceholdersBounded | src/cppmetrics/core/uniform_sample.cpp:38-69 | A concurrent snapshot contains at most as many placeholders as there are updates in flight, and none when none is |
| UniformSampleProtocol.Reachable | src/cppmetrics/core/uniform_sample.cpp:38-61 | Invariant of all interleavings: tickets in flight are distinct, and every unwritten slot below size() has its own ticket in flight |
| UniformSampleOrder.QuiescentSample | src/cppmetrics/core/uniform_sample.cpp:49-61 | When no update is in flight, the slots are those of the sequential reservoir that sees the updates in ticket order with the draws they made, if and only if the last write to each slot was by the newest update that wrote it |
| UniformSampleOrder.SameSampleIff | src/cppmetrics/core/uniform_sample.cpp:49-61 | The same about any order of writing the tickets 1..n, reachable or not |
| UniformSampleOrder.TicketOrderSuffices | src/cppmetrics/core/uniform_sample.cpp:49-61 | In particular if the updates had the lock in the order of their tickets |
| UniformSampleOrder.OvertakenSampleDiffers | src/cppmetrics/core/uniform_sample.cpp:49-61 | A concrete schedule that fails it: of two updates of a one-slot reservoir the second overtakes the first, whose late write then evicts it |
| UniformSampleOrder.ReachableLog | src/cppmetrics/core/uniform_sample.cpp:49-61 | Invariant of all interleavings: every ticket given out is in flight or written, once, and the slots are what the writes in the order of the lock make them |
| UniformSampleOrder.WritesAreCalls | src/cppmetrics/core/uniform_sample.cpp:49-61 | Every write of any interleaving carries the value of a call of update, under the ticket that call took in the order of the calls, with a draw made for it |
| ExpDecayWeights.HeaviestAreHeld | src/cppmetrics/core/exp_decay_sample.cpp:52-97 | For every sequence of updates, at any timestamps, the map holds exactly the min(k,N) items of largest landmark-free weight, each under its weight as seen from the current landmark, wherever the rescales fall and although each resets count_ |
| ExpDecayWeights.TopIsUnique | src/cppmetrics/core/exp_decay_sample.cpp:64-74 | The k items of largest weight are one determined set, so the result above fixes the contents of the map |
| ExpDecayWeights.WholeSecondWeight | src/cppmetrics/core/exp_decay_sample.cpp:57-61 | At whole-second offsets from the start the landmark-free weight of an item, times its draw u, is E(alpha*t) for its offset t |
| ExpDecayWeights.ArithmeticMeaning | src/cppmetrics/core/exp_decay_sample.cpp:57-95 | The priority times the draw is exp(alpha*dur), and a rescale by dur seconds multiplies a key by exp(-alpha*dur) |
| ExpDecayWeights.LaterWeighsMore | src/cppmetrics/core/exp_decay_sample.cpp:57-61 | For positive alpha, of two whole-second items with equal draws the later one weighs more, and of two at one time the one with the smaller draw |
| ExpDecaySample.SecondsTruncates | src/cppmetrics/core/exp_decay_sample.cpp:57-58 | The cast to seconds truncates toward zero, for negative ages too |
| ExpDecayWeights.DriftBounded | src/cppmetrics/core/exp_decay_sample.cpp:57-97 | For an item inserted at or after the landmark, sub-second timestamps included, the age in its key exceeds its true age by more than -1 second, by nothing at first, and by less than one second per rescale since |
| ExpDecayWeights.DriftBoundedForAnyTime | src/cppmetrics/core/exp_decay_sample.cpp:52-97 | For any timestamp, earlier than the landmark included, the excess is more than -1 second and less than one second per rescale since plus one |
| ExpDecayWeights.KeysComeFromItems | src/cppmetrics/core/exp_decay_sample.cpp:52-97 | Even with equal weights every entry of the map is some item of the history under its own key, with its own value |
| ExpDecayWeights.StartIsLandmark | src/cppmetrics/core/exp_decay_sample.cpp:77-85 | start_time_ and next_scale_time_ after any run depend on the timestamps alone |
| ExpDecayWeights.RescaleTracks | src/cppmetrics/core/exp_decay_sample.cpp:77-97 | A rescale under exact arithmetic multiplies every key by the same positive factor, loses no item, and leaves count_ at the number of items held |
| ExpDecayWeights.ReservoirHoldsHeaviest | src/cppmetrics/core/exp_decay_sample.cpp:52-97 | The same as HeaviestAreHeld about the object: the map field holds the heaviest items of its history and nothing else |
| ExpDecaySample.ReservoirBounds | src/cppmetrics/core/exp_decay_sample.cpp:44-97 | Under any rounding whatever (collapsing keys, colliding priorities) |values_| <= size() <= k always, and the map is non-empty after the first update |
| ExpDecaySample.RescaledKeepsLargest | src/cppmetrics/core/exp_decay_sample.cpp:87-97 | For any scaling of the keys: the new keys are the images of the old ones, and each carries the value of the largest old key mapped to it |
| ExpDecaySample.RescaledGood | src/cppmetrics/core/exp_decay_sample.cpp:77-97 | A rescale keeps the bounds on the map and sets count_ to the number of entries left |
| ExpDecaySample.ReadoutCounts | src/cppmetrics/core/exp_decay_sample.cpp:99-107 | The values read out in key order contain each value once for every key that carries it |
| ExpDecaySample.ExpDecaySample.constructor | src/cppmetrics/core/exp_decay_sample.cpp:27-31 | A new reservoir is the cleared one: empty, landmark now, next rescale an hour later |
| ExpDecaySample.ExpDecaySample.Clear | src/cppmetrics/core/exp_decay_sample.cpp:36-42 | Forgets the whole history and restarts the landmark at the given time |
| ExpDecaySample.ExpDecaySample.Update | src/cppmetrics/core/exp_decay_sample.cpp:52-75 | The state after the call is the specification run over the whole history with the new item appended |
| ExpDecaySample.ExpDecaySample.Size | src/cppmetrics/core/exp_decay_sample.cpp:44-46 | The reservoir size or the count, whichever is less |
| ExpDecaySample.ExpDecaySample.Insert | src/cppmetrics/core/exp_decay_sample.cpp:64-74 | Below capacity the entry is written; at capacity it replaces the smallest key exactly when its priority is larger and not already present, otherwise nothing changes but the count |
| ExpDecaySample.ExpDecaySample.RescaleIfNeeded | src/cppmetrics/core/exp_decay_sample.cpp:77-85 | Rescales exactly when the next scale time lies strictly before the timestamp, which becomes the landmark, the next rescale being due an hour later; otherwise changes nothing |
| ExpDecaySample.ExpDecaySample.Rescale | src/cppmetrics/core/exp_decay_sample.cpp:87-97 | The map becomes the rescaled map, count_ its size, and nothing else changes |
| ExpDecaySample.Rebuild | src/cppmetrics/core/exp_decay_sample.cpp:88-95 | The ascending loop over the old map computes the rescaled map, last write winning where keys collapse |
| ExpDecaySample.Collect | src/cppmetrics/core/exp_decay_sample.cpp:100-105 | The loop over the map lists its values in ascending order of their keys |
| ExpDecaySample.ExpDecaySample.GetSnapshot | src/cppmetrics/core/exp_decay_sample.cpp:99-107 | A snapshot holds exactly the values of the map, with multiplicity |
| Ewma.ClosedForm | src/cppmetrics/core/ewma.cpp:60-77 | After ticks with rates r0..rn the average is (1-a)^n*r0 + sum of a*(1-a)^(n-i)*ri, for every a and every sequence of counts |
| Ewma.WeightsSumToOne | src/cppmetrics/core/ewma.cpp:60-73 | The weights of the closed form add up to one |
| Ewma.IdleDecay | src/cppmetrics/core/ewma.cpp:60-73 | n ticks without marks multiply an initialised average by (1-a)^n |
| Ewma.AlphaFade | src/cppmetrics/core/ewma.cpp:23-34 | Each coded alpha lies strictly between 0 and 1, and the ticks of its own window together fade by exactly exp(-1) |
| Ewma.EqualAfterScaledIdle | src/cppmetrics/core/ewma.cpp:23-34 | From one common rate the 1-, 5- and 15-minute averages agree after m, 5m and 15m idle minutes |
| Ewma.ShorterWindowFadesFaster | src/cppmetrics/core/ewma.cpp:23-34 | After equal idle time m1 <= m5 <= m15 |
| Ewma.EWMA.constructor | src/cppmetrics/core/ewma.cpp:36-40 | A new average is uninitialised, zero and holds no marks |
| Ewma.EWMA.Update | src/cppmetrics/core/ewma.cpp:53-55 | Adds the marks to those waiting and changes nothing else |
| Ewma.EWMA.Tick | src/cppmetrics/core/ewma.cpp:60-73 | Drains the waiting marks into the average: the first rate is taken as it is, later ones are blended in |
| Meter.LazyEqualsEager | src/cppmetrics/core/meter.cpp:95-124 | On every clock-ordered sequential run the lazily ticking meter agrees after every event with one that ticks at every 5-second boundary, if and only if no event comes exactly one interval after the boundary last caught up with |
| Meter.LazyEqualsEagerOffBoundaries | src/cppmetrics/core/meter.cpp:109-124 | In particular they agree on every run with no event on a boundary |
| Meter.MarkOnBoundaryIsLate | src/cppmetrics/core/meter.cpp:114-115 | A concrete run on which they differ: a mark exactly on the first boundary does not tick |
| Meter.StepAgrees | src/cppmetrics/core/meter.cpp:95-124 | From agreement, one more event keeps the agreement exactly when it does not come one interval after the last boundary |
| Meter.ReadsLeaveNoTrace | src/cppmetrics/core/meter.cpp:70-83 | Two runs with the same marks, ending in the same interval, leave the same meter, provided no call of either, reads included, comes exactly one interval after the boundary last caught up with |
| MeterReads.CatchUpTwice | src/cppmetrics/core/meter.cpp:109-124 | Reading a rate at t before an event at u is the same as not reading it, if and only if it is not the case that the read ticks and u is exactly one interval after the boundary it reaches |
| MeterReads.ReadsUnnoticedIff | src/cppmetrics/core/meter.cpp:70-124 | On every clock-ordered run the meter agrees after every event with one that never saw the earlier reads, if and only if no read ticks with the next event exactly one interval after the boundary it reaches |
| MeterReads.UnnoticedReadsLeaveNoTrace | src/cppmetrics/core/meter.cpp:70-101 | Two runs with the same marks and the same last call leave the same meter, whatever the other reads, if none of them is of that kind |
| MeterReads.ReadBeforeBoundaryIsNoticed | src/cppmetrics/core/meter.cpp:109-124 | A concrete read that does change the meter: at T+1 nanoseconds, before a mark at 2T |
| Meter.CatchUpReaches | src/cppmetrics/core/meter.cpp:114-119 | The 64-bit arithmetic of one catch-up: it reaches the boundary of the current interval with one tick per interval, except at an age of exactly T |
| Meter.Meter.constructor | src/cppmetrics/core/meter.cpp:51-61 | A new meter starts at the given time with three fresh averages and the three coded alphas |
| Meter.Meter.Tick | src/cppmetrics/core/meter.cpp:103-107 | Ticks each of the three averages once |
| Meter.Meter.TickIfNecessary | src/cppmetrics/core/meter.cpp:109-124 | The loop performs exactly the ticks the age asks for and moves last_tick_ with them, or does nothing |
| Meter.Meter.Mark | src/cppmetrics/core/meter.cpp:95-101 | Catches up first, then adds the marks to the count and to all three averages |
| Meter.Meter.GetOneMinuteRate | src/cppmetrics/core/meter.cpp:80-83 | Catches up, then reports the 1-minute average per second |
| Meter.Meter.GetFiveMinuteRate | src/cppmetrics/core/meter.cpp:75-78 | Catches up, then reports the 5-minute average per second |
| Meter.Meter.GetFifteenMinuteRate | src/cppmetrics/core/meter.cpp:70-73 | Catches up, then reports the 15-minute average per second |
| MeterRates.SteadyRateReported | src/cppmetrics/core/meter.cpp:70-124 | c marks in every five seconds are reported as c/5 events a second by all three rates, from the first tick on |
| MeterRates.IdleMinutesFade | src/cppmetrics/core/meter.cpp:109-124 | Read after m, 5m and 15m idle minutes of clock time, the three averages have faded from a common rate by exp(-m) |
| TickClock.AgeIsUnsigned | src/cppmetrics/core/meter.cpp:114 | The age is an unsigned 64-bit difference, 2^64 too large for a clock reading before the last tick |
| MeterProtocol.IntervalsClaimedOnce | src/cppmetrics/core/meter.cpp:109-124 | Under every interleaving last_tick_ never passes the clock and is the start time plus one interval for each claim; every claimed interval has one owner |
| MeterProtocol.ClaimsAreForever | src/cppmetrics/core/meter.cpp:117 | last_tick_ only grows and the owner of a claimed interval never changes |
| MeterProtocol.TicksMatchClaims | src/cppmetrics/core/meter.cpp:117-121 | A thread has performed exactly as many ticks as it has claimed intervals if and only if it is not in the tick loop, and never more |
| MeterProtocol.AgeNeverWraps | src/cppmetrics/core/meter.cpp:110-114 | The unsigned age computed from two separate reads is the true, non-negative age |
| MeterProtocol.MarksConserved | src/cppmetrics/core/meter.cpp:95-107 | For each average, marks received equal marks waiting plus all marks ever drained; count_ >= m1 >= m5 >= m15 at every step, with equality when no mark is in progress |
| MeterMarks.EveryMarkCounted | src/cppmetrics/core/meter.cpp:95-124 | Over the steps of any interleaving, the marks asked for by all calls are in count_ or still owed by the thread of the call, whoever wins the claims; with every thread idle count_ and all three averages have received each of them |
| MeterMarks.DueIsClaimed | src/cppmetrics/core/meter.cpp:114-123 | A thread that finds the last tick more than five seconds old claims every interval up to its clock reading and ticks that often, or another thread has moved last_tick_ since and it goes on without ticking |
| MeterMarks.AveragesMoveByBlending | src/cppmetrics/core/ewma.cpp:60-73 | No write goes over a value its writer has not seen: an average changes only to the blend of what it is with a drained rate, or to the first rate of a thread that found it uninitialised; it is marked initialised by a step of its own |
| MeterMarks.TickStepWrites | src/cppmetrics/core/ewma.cpp:60-73 | Wherever other threads stand, a drain takes all that waits and a swap replaces the average exactly if it is still the value read |
| MeterProtocol.AveragesInHull | src/cppmetrics/core/ewma.cpp:60-73 | An initialised average lies between the smallest and the largest rate drained so far, lost writes and racing first ticks included |
| MeterProtocol.Reachable | src/cppmetrics/core/meter.cpp:95-124 | The invariant behind these results holds in every state of every interleaving of any number of threads |
| MeterRefinement.UndisturbedCallIsSequential | src/cppmetrics/core/meter.cpp:95-124 | From any state, wherever other threads stand, the atomic steps of a call that is not disturbed terminate and leave exactly what the sequential call leaves |
| Executor.NoTaskOverlapsItself | src/cppmetrics/concurrent/simple_scheduled_thread_pool_executor.cpp:65-107 | In every reachable state of the pool a running task is the one registered with its timer, no other thread handles that timer and no wait on it is outstanding: no task overlaps itself, fixed rate included |
| Executor.NoTimerIsLost | src/cppmetrics/concurrent/simple_scheduled_thread_pool_executor.cpp:65-148 | Until a shutdown every timer has exactly one token: a wait that is not cancelled, or one thread handling it |
| Executor.TraceGood | src/cppmetrics/concurrent/simple_scheduled_thread_pool_executor.cpp:65-148 | Invariant of all interleavings: at most one outstanding or executing handler a timer, every index in use names the timer's own task, and the record of each timer is in order |
| Executor.RunsAreDisjoint | src/cppmetrics/concurrent/simple_scheduled_thread_pool_executor.cpp:91-106 | The runs of one task are disjoint intervals of time in order, only the last of them possibly unfinished |
| Executor.FixedRateTiming | src/cppmetrics/concurrent/simple_scheduled_thread_pool_executor.cpp:93-95 | The n-th deadline of a fixed-rate timer is creation + n*period whatever the tasks take; run n starts no earlier, so at most floor((now-created)/period) runs have started |
| Executor.FixedDelayTiming | src/cppmetrics/concurrent/simple_scheduled_thread_pool_executor.cpp:96-98 | The deadline of a fixed-delay timer is exactly one period after its expiry was last moved, which follows the end of the run before, or after its creation; no run starts before its deadline, so at least one period after the end of the run before |
| Executor.StepDrains | src/cppmetrics/concurrent/simple_scheduled_thread_pool_executor.cpp:65-117 | Once running_ is false every step of a handler, registration or cancellation strictly lowers the work left, and only new timers raise it |
| Executor.ShutdownDrains | src/cppmetrics/concurrent/simple_scheduled_thread_pool_executor.cpp:109-117 | After a shutdown without new timers only boundedly many such steps can follow, whatever the schedule |
| Executor.DrainedMeansDone | src/cppmetrics/concurrent/simple_scheduled_thread_pool_executor.cpp:109-117 | No work left means exactly: no outstanding wait and every thread idle |
| Executor.NeverStuck | src/cppmetrics/concurrent/simple_scheduled_thread_pool_executor.cpp:65-107 | While work is left and the service is not stopped, some handler step is possible, now or when time has passed |
| Executor.EventLoopFinishes | src/cppmetrics/concurrent/simple_scheduled_thread_pool_executor.cpp:65-117 | From every reachable state after a shutdown with the service not stopped there is a continuation, without new timers, to a state with no outstanding wait and every thread idle |
| Executor.AtMostOneMoreRun | src/cppmetrics/concurrent/simple_scheduled_thread_pool_executor.cpp:65-70 | After a shutdown in any reachable state a timer starts at most one more run, and none unless a handler was already past the check of running_ |
| Executor.StoppedPoolIsQuiet | src/cppmetrics/concurrent/simple_scheduled_thread_pool_executor.cpp:119-128 | Once the service is stopped and the handlers have returned, no handler is ever called and no timer changes |
| ScheduledThreadPool.SimpleScheduledThreadPoolExecutor.constructor | src/cppmetrics/concurrent/simple_scheduled_thread_pool_executor.cpp:43-51 | A new pool is running with no timers |
| ScheduledThreadPool.SimpleScheduledThreadPoolExecutor.ScheduleTimer | src/cppmetrics/concurrent/simple_scheduled_thread_pool_executor.cpp:134-148 | Registers one timer with one wait bound to the index of its own task, as a run of the interleaved machine |
| ScheduledThreadPool.SimpleScheduledThreadPoolExecutor.TimerHandler | src/cppmetrics/concurrent/simple_scheduled_thread_pool_executor.cpp:65-107 | Consumes its wait; on a running pool with a live wait it runs the task once and waits again on the same timer under the same index, due one period after the old deadline at a fixed rate and one period after the end of the run otherwise; in all other cases it only returns; as a run of the interleaved machine |
| ScheduledThreadPool.SimpleScheduledThreadPoolExecutor.RunAndRearm | src/cppmetrics/concurrent/simple_scheduled_thread_pool_executor.cpp:91-106 | The second half of the handler: the run is recorded with its start and end, the expiry moved by the rule of the rate, and one new wait outstanding |
| ScheduledThreadPool.SimpleScheduledThreadPoolExecutor.CancelTimers | src/cppmetrics/concurrent/simple_scheduled_thread_pool_executor.cpp:57-63 | The loop over the registered tasks cancels every outstanding wait and nothing else |
| ScheduledThreadPool.SimpleScheduledThreadPoolExecutor.Shutdown | src/cppmetrics/concurrent/simple_scheduled_thread_pool_executor.cpp:109-117 | Clears running_ and leaves every wait in place; a second call does nothing |
| ScheduledThreadPool.SimpleScheduledThreadPoolExecutor.ShutdownNow | src/cppmetrics/concurrent/simple_scheduled_thread_pool_executor.cpp:119-128 | Clears running_, cancels every wait and stops the service; does nothing once shut down |
| Snapshot.QuantileIsOrderStatistic | src/cppmetrics/core/snapshot.cpp:33-68 | For values in any order, at least min(n,floor(q(n+1))) of them are <= the reported quantile and at least n-floor(q(n+1)) are >= it |
| Snapshot.QuantileInterpolates | src/cppmetrics/core/snapshot.cpp:54-67 | With q(n+1) = p+f the report lies the fraction f of the way from the p-th value to the next, and is the first or the last value beyond them |
| Snapshot.QuantileRefused | src/cppmetrics/core/snapshot.cpp:45-52 | Refused exactly outside [0,1]; 0 for no values |
| Snapshot.Snapshot.GetValue | src/cppmetrics/core/snapshot.cpp:45-68 | The same two about the object |
| Snapshot.QuantileMonotone | src/cppmetrics/core/snapshot.cpp:45-68 | A larger quantile never reports a smaller value, and all reports lie between minimum and maximum |
| Snapshot.PercentilesOrdered | src/cppmetrics/core/snapshot.cpp:70-92 | min <= p50 <= p75 <= p95 <= p98 <= p99 <= p999 <= max |
| Snapshot.SortedIsUnique | src/cppmetrics/core/snapshot.cpp:33-36 | The sorted arrangement is determined by the multiset of values |
| Snapshot.OrderOfInputIsLost | src/cppmetrics/core/snapshot.cpp:33-130 | Two snapshots of the same values collected in different orders answer every question alike |
| Snapshot.MeanWithinRange | src/cppmetrics/core/snapshot.cpp:102-112 | The mean lies between minimum and maximum |
| Snapshot.SpreadIsSquaresMinusMean | src/cppmetrics/core/snapshot.cpp:120-126 | The two-pass sum equals the sum of squares minus n times the squared mean |
| Snapshot.SpreadZeroIffConstant | src/cppmetrics/core/snapshot.cpp:120-126 | The sum is zero if and only if all values are equal |
| Snapshot.SpreadLeastAtMean | src/cppmetrics/core/snapshot.cpp:120-126 | No other centre gives a smaller sum of squared distances than the mean |
| Snapshot.SpreadBound | src/cppmetrics/core/snapshot.cpp:120-126 | The sum is at most n*(max-min)^2/4 |
| Snapshot.VarianceMeaning | src/cppmetrics/core/snapshot.cpp:114-130 | All of the above about the variance that the standard deviation is the root of |
| Snapshot.Sort | src/cppmetrics/core/snapshot.cpp:35 | Sorts the array in place: ordered, and a permutation of what it was |
| Snapshot.Snapshot.constructor | src/cppmetrics/core/snapshot.cpp:33-36 | The snapshot holds the given values, sorted, in an array of its own |
| Snapshot.Snapshot.GetMin | src/cppmetrics/core/snapshot.cpp:94-96 | A least element of the values, or 0 when there are none |
| Snapshot.Snapshot.GetMax | src/cppmetrics/core/snapshot.cpp:98-100 | A greatest element of the values, or 0 when there are none |
| Snapshot.Snapshot.GetMean | src/cppmetrics/core/snapshot.cpp:102-112 | The loop computes the mean, which lies between GetMin and GetMax |
| Snapshot.Snapshot.GetVariance | src/cppmetrics/core/snapshot.cpp:114-128 | The two loops compute the variance with divisor n-1; 0 for at most one value |
| MetricRegistry.NamesAreDisjointUnion | src/cppmetrics/core/metric_registry.cpp:59-61 | metric_names_ is the disjoint union of the five key sets, so stopping at the first set that held the name is sound |
| MetricRegistry.RunSound | src/cppmetrics/core/metric_registry.cpp:114-138 | In every run gauges are filed as gauges, and built metrics under their own type and under one name only |
| MetricRegistry.BoundUntilRemoved | src/cppmetrics/core/metric_registry.cpp:126-138 | Until it is removed a name keeps its one object, whatever else is called |
| MetricRegistry.NewObjectAfterRemoval | src/cppmetrics/core/metric_registry.cpp:126-138 | After a removal, a metric that the registry builds again under the name is a different object; a gauge, which the caller brings, may be the same |
| RegistryLog.BoundAsIff | src/cppmetrics/core/metric_registry.cpp:114-143 | For a name bound at first, whether and under which type it is bound after any calls can be read off the calls: never removed, or registered with that type as the first registration after a removal, with no removal since |
| RegistryLog.BoundAsBeforeIff | src/cppmetrics/core/metric_registry.cpp:114-143 | It is bound to the same object exactly if it was not removed, or it is a gauge and the same gauge was registered first after a removal, with no removal since |
| MetricRegistry.MetricRegistry.constructor | src/cppmetrics/core/metric_registry.cpp:77-79 | A new registry is the empty map |
| MetricRegistry.MetricRegistry.Count | src/cppmetrics/core/metric_registry.cpp:85-88 | The number of names bound |
| MetricRegistry.MetricRegistry.BuildMetric | src/cppmetrics/core/metric_registry.cpp:98-112 | A new object of the given type each time; a gauge is refused |
| MetricRegistry.MetricRegistry.AddMetric | src/cppmetrics/core/metric_registry.cpp:114-124 | Adds the metric under a free name; a name taken by any type is refused and nothing changes |
| MetricRegistry.MetricRegistry.GetOrAdd | src/cppmetrics/core/metric_registry.cpp:126-138 | Acts on the five sets as one map: succeeds exactly when the name ends up bound to that type, returning its object |
| MetricRegistry.MetricRegistry.AddGauge | src/cppmetrics/core/metric_registry.cpp:140-143 | Binds the gauge if the name is free, otherwise fails and changes nothing |
| MetricRegistry.MetricRegistry.RemoveMetric | src/cppmetrics/core/metric_registry.cpp:196-209 | The loop with its early exit removes exactly the named entry, and reports whether there was one |
| MetricRegistry.MetricRegistry.GetMetrics | src/cppmetrics/core/metric_registry.cpp:165-174 | The copy holds exactly the entries of one type |
| ScheduledReporter.ScheduledReporter.Report | src/cppmetrics/core/scheduled_reporter.cpp:42-49 | Undisturbed, the five maps of a report split up the registry by type |
| ScheduledReporter.ListedWasLive | src/cppmetrics/core/scheduled_reporter.cpp:42-49 | Every entry listed was live at some instant during the report; this reads the meaning of a report back, the results are the equivalences below |
| ScheduledReporter.UntouchedListedOnce | src/cppmetrics/core/scheduled_reporter.cpp:42-49 | A name bound when the report starts and not removed before it ends is in exactly one of the five maps, that of its type, with its object |
| ScheduledReporter.BoundThroughoutIsListed | src/cppmetrics/core/scheduled_reporter.cpp:42-49 | A name bound at every instant of the report is in exactly the map of its type, with its object |
| ScheduledReporter.ListedIff | src/cppmetrics/core/scheduled_reporter.cpp:42-49 | A name bound when the report starts is listed under a type exactly if that is its type and it was not removed before that read, or it was registered again with that type before that read and not removed since |
| ScheduledReporter.ListedUnchangedIff | src/cppmetrics/core/scheduled_reporter.cpp:42-49 | It is listed with its object exactly if it was not removed before the read of its type, or it is a gauge and the same gauge was registered again; later removals do no harm |
| ScheduledReporter.BuiltListedIff | src/cppmetrics/core/scheduled_reporter.cpp:42-49 | For a metric the registry built: listed with its object if and only if not removed before the read of its type |
| ScheduledReporter.ListedOnceIff | src/cppmetrics/core/scheduled_reporter.cpp:42-49 | The exact condition under which such a name is in exactly one of the five maps, that of its type, with its object |
| ScheduledReporter.ListedTwiceIff | src/cppmetrics/core/scheduled_reporter.cpp:42-49 | A name listed under one type is listed under a later one too if and only if it was registered again with it between the two reads, first after a removal, and not removed since |
| ScheduledReporter.AbsentNotListed | src/cppmetrics/core/scheduled_reporter.cpp:42-49 | A name never bound during the report is in none of the maps; also read back from the meaning of a report |
| ScheduledReporter.ListedTwiceWasRemoved | src/cppmetrics/core/scheduled_reporter.cpp:42-49 | A name listed under two types was removed between those two reads |
| ScheduledReporter.RetypedNameCanBeMissed | src/cppmetrics/core/scheduled_reporter.cpp:42-49 | Being bound at each of the five reads is not enough: a concrete history in which such a name is listed nowhere, because it was removed and registered with another type between two of them |
| ScheduledReporter.RetypedNameCanBeListedTwice | src/cppmetrics/core/scheduled_reporter.cpp:42-49 | A concrete history in which a name is listed twice, as two objects: a counter turned timer after the counters were read |

## Left out

- Snapshot.Snapshot.GetVariance: stops at the variance; the square root of getStdDev is not modelled.
- UniformSample.UniformSample.Update: the draw is a parameter in range; the narrowing of the count to an int inside
  getRandom, and the quality and seeding of the generator, are not modelled.
- UniformSample.UniformSample.Clear: for one thread only; the code takes no lock there, so clearing during updates is
  outside the interleaving model.
- ExpDecaySample.ExpDecaySample.constructor: requires a positive reservoir size, because with size 0 the code
  dereferences the first entry of an empty map.
- ExpDecaySample.ExpDecaySample.Update: the loop that draws again while the priority is NaN is not modelled, reals having
  no NaN.
- ExpDecayWeights.HeaviestAreHeld: assumes exact arithmetic, positive draws and distinct weights; without distinct weights
  ExpDecayWeights.KeysComeFromItems and ExpDecaySample.ReservoirBounds say what remains.
- Meter.Meter.Mark: counts are unbounded, so an overflow of the 64-bit counters is not modelled; the mean rate, a quotient
  of two plain reads, is left out, and so is any rate unit other than one second.
- Executor.ShutdownDrains: the pool is drained by its threads in any order; joining and interrupting them is not
  modelled, nor are the error codes of asio or tasks that throw or never return.
- ScheduledThreadPool.SimpleScheduledThreadPoolExecutor.TimerHandler: what the task itself does to the pool while it
  runs is covered by the state machine of Executor.dfy, not by this method.
- ScheduledReporter.ScheduledReporter.Report: starting and stopping the reporter and converting units are left out as
  one-line members.
- Counters, gauges, histograms, timers and the forwarding classes in front of each implementation: delegation only.
- The Graphite and console reporters: sockets, string formatting and streams.
- SimpleThreadPoolExecutor: a thin wrapper around posting to the service.
- Non-monotone clocks, logging and the lifetime of shared pointers.

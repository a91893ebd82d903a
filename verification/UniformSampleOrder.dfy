/** When concurrent updates leave the very sample that their draws select one after the other. */
module UniformSampleOrder {
  import opened Sets
  import opened Uniformity
  import opened UniformSample
  import opened UniformSampleProtocol

  // ---------- Writes in any order ----------

  /** The slots after the arrivals have written in this order. */
  function Fold(k: nat, log: seq<Arrival>): (r: seq<Slot>)
    requires forall i :: 0 <= i < |log| ==> log[i].ticket > 0
    ensures |r| == k
  {
    if log == [] then seq(k, _ => Blank)
    else
      var a := log[|log| - 1];
      Placed(Fold(k, log[..|log| - 1]), a.ticket, Written(a.update, a.value), a.draw)
  }

  /** The arrival writes slot j. */
  predicate Targets(k: nat, a: Arrival, j: nat) {
    j < k && j == if a.ticket <= k then a.ticket - 1 else a.draw
  }

  /** The position of the last write to slot j, or -1. */
  function LastTo(k: nat, log: seq<Arrival>, j: nat): (i: int)
    ensures -1 <= i < |log|
    ensures i >= 0 ==> Targets(k, log[i], j)
    ensures forall x :: i < x < |log| ==> !Targets(k, log[x], j)
  {
    if log == [] then -1
    else if Targets(k, log[|log| - 1], j) then |log| - 1
    else LastTo(k, log[..|log| - 1], j)
  }

  /** A slot holds the last value written to it. */
  lemma {:induction false} FoldAt(k: nat, log: seq<Arrival>, j: nat)
    requires j < k && forall i :: 0 <= i < |log| ==> log[i].ticket > 0
    ensures var i := LastTo(k, log, j);
      Fold(k, log)[j] == if i < 0 then Blank else Written(log[i].update, log[i].value)
  {
    if log != [] {
      FoldAt(k, log[..|log| - 1], j);
    }
  }

  // ---------- One after the other, by ticket ----------

  /** The arrivals of `log` by ticket: 1, 2, and so on. */
  ghost predicate ByTicket(sorted: seq<Arrival>, log: seq<Arrival>) {
    && |sorted| == |log|
    && (forall i :: 0 <= i < |sorted| ==> sorted[i].ticket == i + 1 && sorted[i] in log)
  }

  function Items(log: seq<Arrival>): (r: seq<Slot>)
    ensures |r| == |log|
  {
    seq(|log|, i requires 0 <= i < |log| => Written(log[i].update, log[i].value))
  }

  /** The draws of the arrivals that made one. */
  function Draws(k: nat, log: seq<Arrival>): (r: seq<nat>)
    ensures |r| == DrawCount(k, |log|)
  {
    if |log| <= k then [] else Draws(k, log[..|log| - 1]) + [log[|log| - 1].draw]
  }

  lemma FoldSnoc(k: nat, log: seq<Arrival>, a: Arrival)
    requires a.ticket > 0 && forall i :: 0 <= i < |log| ==> log[i].ticket > 0
    ensures Fold(k, log + [a]) == Placed(Fold(k, log), a.ticket, Written(a.update, a.value), a.draw)
  {
    assert (log + [a])[..|log|] == log;
  }

  lemma RunSnoc(k: nat, log: seq<Arrival>, a: Arrival)
    ensures Items(log + [a]) == Items(log) + [Written(a.update, a.value)]
    ensures Run(k, Blank, Items(log + [a]), Draws(k, log + [a]))
         == Placed(Run(k, Blank, Items(log), Draws(k, log)), |log| + 1, Written(a.update, a.value), a.draw)
  {
    var n, items, draws := |log| + 1, Items(log + [a]), Draws(k, log + [a]);
    assert (log + [a])[..|log|] == log;
    assert items[..n - 1] == Items(log) && items[n - 1] == Written(a.update, a.value);
    assert draws == if n <= k then Draws(k, log) else Draws(k, log) + [a.draw];
    assert n > k ==> draws[..n - 1 - k] == Draws(k, log) && draws[n - 1 - k] == a.draw;
    hide Items, Draws;
  }

  /** Writing by ticket is the sequential run of the reservoir. */
  lemma {:induction false} FoldIsRun(k: nat, sorted: seq<Arrival>)
    requires forall i :: 0 <= i < |sorted| ==> sorted[i].ticket == i + 1
    ensures Fold(k, sorted) == Run(k, Blank, Items(sorted), Draws(k, sorted))
  {
    if sorted != [] {
      var init, a := sorted[..|sorted| - 1], sorted[|sorted| - 1];
      assert sorted == init + [a];
      FoldIsRun(k, init);
      hide Fold, Run, Items, Draws, Placed;
      FoldSnoc(k, init, a);
      RunSnoc(k, init, a);
    }
  }

  // ---------- Reachable states ----------

  ghost predicate Past(s: State, a: Arrival) {
    a.update in s.begun && a.update !in s.inFlight && a.draw < a.ticket <= s.count
  }

  ghost predicate AllPast(s: State) {
    forall i :: 0 <= i < |s.written| ==> Past(s, s.written[i])
  }

  /** No update and no ticket twice. */
  ghost predicate Apart(log: seq<Arrival>) {
    forall i, j :: 0 <= i < j < |log| ==> log[i].update != log[j].update && log[i].ticket != log[j].ticket
  }

  /** No ticket in flight is written already. */
  ghost predicate InFlightApart(s: State) {
    forall u, i :: u in s.inFlight && 0 <= i < |s.written| ==> s.inFlight[u].ticket != s.written[i].ticket
  }

  /** Every ticket given out is in flight or written, once, and the slots are what the writes made them. */
  ghost predicate LogGood(k: nat, s: State) {
    && AllPast(s) && Apart(s.written) && InFlightApart(s)
    && |s.written| + |s.inFlight| == s.count
    && s.slots == Fold(k, s.written)
  }

  lemma TakeTicketKeepsLog(k: nat, s: State, u: nat, value: int)
    requires TicketsGood(s) && LogGood(k, s) && Enabled(s, TakeTicket(u, value))
    ensures LogGood(k, Apply(s, TakeTicket(u, value)))
  {
    var s' := Apply(s, TakeTicket(u, value));
    hide Fold, Apart;
    assert s'.inFlight.Keys == s.inFlight.Keys + {u};
    forall i | 0 <= i < |s'.written| ensures Past(s', s'.written[i]) {
      assert Past(s, s.written[i]);
    }
  }

  lemma ApartSnoc(log: seq<Arrival>, a: Arrival)
    requires Apart(log) && forall i :: 0 <= i < |log| ==> log[i].update != a.update && log[i].ticket != a.ticket
    ensures Apart(log + [a])
  {
  }

  lemma WriteKeepsLog(k: nat, s: State, u: nat, draw: nat)
    requires TicketsGood(s) && LogGood(k, s) && Enabled(s, Write(u, draw))
    ensures LogGood(k, Apply(s, Write(u, draw)))
  {
    hide Fold, Apart, Placed;
    var s', p := Apply(s, Write(u, draw)), s.inFlight[u];
    assert s'.inFlight.Keys == s.inFlight.Keys - {u};
    forall i | 0 <= i < |s.written|
      ensures Past(s', s.written[i]) && s.written[i].update != u && s.written[i].ticket != p.ticket
    {
      assert Past(s, s.written[i]);
    }
    assert Past(s', Arrival(p.ticket, u, p.value, draw));
    ApartSnoc(s.written, Arrival(p.ticket, u, p.value, draw));
    FoldSnoc(k, s.written, Arrival(p.ticket, u, p.value, draw));
  }

  lemma StepKeepsLog(k: nat, s: State, s': State)
    requires Inv(k, s) && LogGood(k, s) && Next(s, s')
    ensures LogGood(k, s')
  {
    assert TicketsGood(s);
    var step :| Enabled(s, step) && s' == Apply(s, step);
    hide *;
    match step
    case TakeTicket(u, value) => TakeTicketKeepsLog(k, s, u, value);
    case Write(u, draw) => WriteKeepsLog(k, s, u, draw);
  }

  lemma InitLog(k: nat)
    ensures LogGood(k, Init(k))
  {
  }

  lemma {:induction false} ReachableLog(k: nat, run: seq<State>, i: nat)
    requires Behaviour(k, run) && i < |run|
    ensures LogGood(k, run[i])
  {
    hide LogGood, Inv, Next, Init;
    if i == 0 {
      InitLog(k);
    } else {
      ReachableLog(k, run, i - 1);
      Reachable(k, run, i - 1);
      assert Next(run[i - 1], run[i]);
      StepKeepsLog(k, run[i - 1], run[i]);
    }
  }

  // ---------- The calls behind the writes ----------

  ghost predicate Trace(k: nat, steps: seq<Step>, run: seq<State>) {
    && |run| == |steps| + 1 && run[0] == Init(k)
    && forall i :: 0 <= i < |steps| ==> Enabled(run[i], steps[i]) && run[i + 1] == Apply(run[i], steps[i])
  }

  lemma TraceIsBehaviour(k: nat, steps: seq<Step>, run: seq<State>)
    requires Trace(k, steps, run)
    ensures Behaviour(k, run)
  {
    hide Enabled, Apply, Init;
    forall i | 0 <= i < |run| - 1 ensures Next(run[i], run[i + 1]) {
      assert Enabled(run[i], steps[i]) && run[i + 1] == Apply(run[i], steps[i]);
    }
  }

  function Tickets(steps: seq<Step>): nat {
    if steps == [] then 0
    else Tickets(steps[..|steps| - 1]) + if steps[|steps| - 1].TakeTicket? then 1 else 0
  }

  /** The calls include the update with this value, which was the ticket-th to take a ticket. */
  ghost predicate CalledWith(steps: seq<Step>, ticket: nat, update: nat, value: int) {
    exists i :: 0 <= i < |steps| && steps[i] == TakeTicket(update, value) && ticket == Tickets(steps[..i]) + 1
  }

  lemma CalledLater(steps: seq<Step>, step: Step, ticket: nat, update: nat, value: int)
    requires CalledWith(steps, ticket, update, value)
    ensures CalledWith(steps + [step], ticket, update, value)
  {
    var i :| 0 <= i < |steps| && steps[i] == TakeTicket(update, value) && ticket == Tickets(steps[..i]) + 1;
    assert (steps + [step])[..i] == steps[..i] && (steps + [step])[i] == steps[i];
  }

  lemma CalledNow(steps: seq<Step>, update: nat, value: int)
    ensures CalledWith(steps + [TakeTicket(update, value)], Tickets(steps) + 1, update, value)
  {
    var all := steps + [TakeTicket(update, value)];
    assert all[..|steps|] == steps && all[|steps|] == TakeTicket(update, value);
  }

  ghost predicate CallsGood(steps: seq<Step>, s: State) {
    && s.count == Tickets(steps)
    && (forall u :: u in s.inFlight ==> CalledWith(steps, s.inFlight[u].ticket, u, s.inFlight[u].value))
    && (forall i :: 0 <= i < |s.written| ==>
          var a := s.written[i]; CalledWith(steps, a.ticket, a.update, a.value) && Write(a.update, a.draw) in steps)
  }

  lemma StepKeepsCalls(steps: seq<Step>, s: State, step: Step)
    requires CallsGood(steps, s) && Enabled(s, step)
    ensures CallsGood(steps + [step], Apply(s, step))
  {
    var s' := Apply(s, step);
    assert (steps + [step])[..|steps|] == steps;
    if step.TakeTicket? {
      CalledNow(steps, step.update, step.value);
    }
    hide CalledWith, Tickets, Placed;
    forall u | u in s'.inFlight
      ensures CalledWith(steps + [step], s'.inFlight[u].ticket, u, s'.inFlight[u].value)
    {
      if u in s.inFlight && s'.inFlight[u] == s.inFlight[u] {
        CalledLater(steps, step, s.inFlight[u].ticket, u, s.inFlight[u].value);
      }
    }
    forall i | 0 <= i < |s'.written|
      ensures var a := s'.written[i];
        CalledWith(steps + [step], a.ticket, a.update, a.value) && Write(a.update, a.draw) in steps + [step]
    {
      var a := s'.written[i];
      assert i < |s.written| ==> a == s.written[i];
      CalledLater(steps, step, a.ticket, a.update, a.value);
    }
  }

  /** Every write is that of an update called with that value, under the ticket it took, with a draw made for it. */
  lemma {:induction false} WritesAreCalls(k: nat, steps: seq<Step>, run: seq<State>, i: nat)
    requires Trace(k, steps, run) && i <= |steps|
    ensures CallsGood(steps[..i], run[i])
  {
    hide CallsGood, Enabled, Apply;
    if i == 0 {
      NoCalls(k);
    } else {
      WritesAreCalls(k, steps, run, i - 1);
      StepKeepsCalls(steps[..i - 1], run[i - 1], steps[i - 1]);
      assert steps[..i] == steps[..i - 1] + [steps[i - 1]];
    }
  }

  lemma NoCalls(k: nat)
    ensures CallsGood([], Init(k))
  {
  }

  // ---------- The order that matters ----------

  /** The log of a quiescent state: the tickets 1..n in some order. */
  ghost predicate Complete(log: seq<Arrival>) {
    Apart(log) && forall i :: 0 <= i < |log| ==> log[i].draw < log[i].ticket <= |log|
  }

  /** The last write to each slot has the greatest ticket of all writes to it. */
  ghost predicate LastIsNewest(k: nat, log: seq<Arrival>) {
    forall i, j :: 0 <= i < |log| && 0 <= j < k && Targets(k, log[i], j) ==>
      0 <= LastTo(k, log, j) && log[i].ticket <= log[LastTo(k, log, j)].ticket
  }

  function Places(log: seq<Arrival>): (r: seq<nat>)
    requires forall i :: 0 <= i < |log| ==> log[i].ticket > 0
    ensures |r| == |log| && forall i :: 0 <= i < |log| ==> r[i] == log[i].ticket - 1
  {
    if log == [] then [] else Places(log[..|log| - 1]) + [log[|log| - 1].ticket - 1]
  }

  lemma EveryTicketWritten(log: seq<Arrival>, t: nat)
    requires Complete(log) && 1 <= t <= |log|
    ensures exists i :: 0 <= i < |log| && log[i].ticket == t
  {
    var places := Places(log);
    DistinctSize(places);
    assert Elements(places) <= Below(|log|);
    SubsetIsAll(Elements(places), Below(|log|));
    assert t - 1 in Below(|log|);
    assert t - 1 in Elements(places);
    var i :| 0 <= i < |places| && places[i] == t - 1;
  }

  /** A complete log can be put in order. */
  lemma {:induction false} SortLog(log: seq<Arrival>, n: nat) returns (sorted: seq<Arrival>)
    requires Complete(log) && n <= |log|
    ensures |sorted| == n && forall i :: 0 <= i < n ==> sorted[i].ticket == i + 1 && sorted[i] in log
  {
    if n == 0 {
      sorted := [];
    } else {
      sorted := SortLog(log, n - 1);
      EveryTicketWritten(log, n);
      var i :| 0 <= i < |log| && log[i].ticket == n;
      sorted := sorted + [log[i]];
    }
  }

  lemma SameTicketSameArrival(log: seq<Arrival>, a: Arrival, b: Arrival)
    requires Apart(log) && a in log && b in log
    ensures a.ticket == b.ticket || a.update == b.update ==> a == b
  {
  }

  /** In ticket order, the last write to a slot is the newest of all. */
  lemma LastByTicket(k: nat, log: seq<Arrival>, sorted: seq<Arrival>, j: nat)
    requires Complete(log) && ByTicket(sorted, log)
    ensures var y := LastTo(k, sorted, j);
      && (y >= 0 ==> sorted[y] in log && Targets(k, sorted[y], j))
      && forall i :: 0 <= i < |log| && Targets(k, log[i], j) ==> y >= 0 && log[i].ticket <= sorted[y].ticket
  {
    hide Targets, LastTo;
    forall i | 0 <= i < |log| ensures sorted[log[i].ticket - 1] == log[i] {
      SameTicketSameArrival(log, log[i], sorted[log[i].ticket - 1]);
    }
  }

  /** For one slot: both orders leave the same value exactly if the last write of the log is the newest. */
  lemma SlotAgrees(k: nat, log: seq<Arrival>, sorted: seq<Arrival>, j: nat)
    requires Complete(log) && ByTicket(sorted, log) && j < k
    ensures Fold(k, log)[j] == Fold(k, sorted)[j]
       <==> forall i :: 0 <= i < |log| && Targets(k, log[i], j) ==>
              0 <= LastTo(k, log, j) && log[i].ticket <= log[LastTo(k, log, j)].ticket
  {
    FoldAt(k, log, j);
    FoldAt(k, sorted, j);
    LastByTicket(k, log, sorted, j);
    var x, y := LastTo(k, log, j), LastTo(k, sorted, j);
    assert Apart(log);
    hide Fold, LastTo, Targets, Complete, ByTicket, Apart;
    if y >= 0 {
      var z :| 0 <= z < |log| && log[z] == sorted[y];
      assert Targets(k, log[z], j);
      SameTicketSameArrival(log, log[x], sorted[y]);
    }
  }

  /** Writing in the order of the log and by ticket leave the same slots exactly if each last write is the newest. */
  lemma SameSampleIff(k: nat, log: seq<Arrival>, sorted: seq<Arrival>)
    requires Complete(log) && ByTicket(sorted, log)
    ensures Fold(k, log) == Fold(k, sorted) <==> LastIsNewest(k, log)
  {
    forall j | 0 <= j < k
      ensures Fold(k, log)[j] == Fold(k, sorted)[j]
         <==> forall i :: 0 <= i < |log| && Targets(k, log[i], j) ==>
                0 <= LastTo(k, log, j) && log[i].ticket <= log[LastTo(k, log, j)].ticket
    {
      SlotAgrees(k, log, sorted, j);
    }
    hide Fold, LastTo, Targets, Complete, ByTicket;
  }

  /**
   * When no update is in flight, the slots are those of the sequential reservoir that sees the updates by ticket, with
   * the draws they made, exactly if the last write to each slot was the newest update that wrote it.
   */
  lemma QuiescentSample(k: nat, run: seq<State>, n: nat) returns (sorted: seq<Arrival>)
    requires Behaviour(k, run) && n < |run| && run[n].inFlight == map[]
    ensures ByTicket(sorted, run[n].written) && |sorted| == run[n].count
    ensures InRange(k, Draws(k, sorted))
    ensures run[n].slots == Run(k, Blank, Items(sorted), Draws(k, sorted)) <==> LastIsNewest(k, run[n].written)
  {
    var log := run[n].written;
    ReachableLog(k, run, n);
    assert forall i :: 0 <= i < |log| ==> Past(run[n], log[i]);
    assert Complete(log);
    sorted := SortLog(log, |log|);
    FoldIsRun(k, sorted);
    SameSampleIff(k, log, sorted);
    DrawsInRange(k, sorted);
    hide Fold, Run, LastIsNewest, Complete, InRange;
  }

  lemma {:induction false} DrawsInRange(k: nat, sorted: seq<Arrival>)
    requires forall i :: 0 <= i < |sorted| ==> sorted[i].draw < sorted[i].ticket == i + 1
    ensures InRange(k, Draws(k, sorted))
  {
    if |sorted| > k {
      DrawsInRange(k, sorted[..|sorted| - 1]);
    }
  }

  /** In particular if the updates had the lock in the order of their tickets. */
  lemma TicketOrderSuffices(k: nat, run: seq<State>, n: nat)
    requires Behaviour(k, run) && n < |run| && run[n].inFlight == map[]
    requires forall i, j :: 0 <= i < j < |run[n].written| ==> run[n].written[i].ticket < run[n].written[j].ticket
    ensures LastIsNewest(k, run[n].written)
  {
    var log := run[n].written;
    forall i, j | 0 <= i < |log| && 0 <= j < k && Targets(k, log[i], j)
      ensures 0 <= LastTo(k, log, j) && log[i].ticket <= log[LastTo(k, log, j)].ticket
    {
      assert i <= LastTo(k, log, j);
    }
  }

  /** A schedule that fails it: of two updates of a one-slot reservoir, the second overtakes the first and is lost. */
  lemma OvertakenSampleDiffers() returns (run: seq<State>)
    ensures Behaviour(1, run) && |run| == 5 && run[4].inFlight == map[]
    ensures run[4].written == [Arrival(2, 1, 20, 0), Arrival(1, 0, 10, 0)]
    ensures run[4].slots == [Written(0, 10)]
    ensures Run(1, Blank, [Written(0, 10), Written(1, 20)], [0]) == [Written(1, 20)]
  {
    var s0 := Init(1);
    var s1 := Apply(s0, TakeTicket(0, 10));
    var s2 := Apply(s1, TakeTicket(1, 20));
    var s3 := Apply(s2, Write(1, 0));
    var s4 := Apply(s3, Write(0, 0));
    run := [s0, s1, s2, s3, s4];
    assert Enabled(s0, TakeTicket(0, 10)) && Enabled(s1, TakeTicket(1, 20));
    assert Enabled(s2, Write(1, 0)) && Enabled(s3, Write(0, 0));
    assert Next(s0, s1) && Next(s1, s2) && Next(s2, s3) && Next(s3, s4);
    assert s4.inFlight == map[];
    var items: seq<Slot> := [Written(0, 10), Written(1, 20)];
    assert items[..1] == [Written(0, 10)] && items[..1][..0] == [];
    assert Run(1, Blank, items[..1], []) == [Written(0, 10)];
  }
}

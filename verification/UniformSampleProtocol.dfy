/** Concurrent updates of a UniformSample: the ticket is taken before the lock, the slot is written under it. */
module UniformSampleProtocol {
  import opened UniformSample

  datatype Slot = Blank | Written(update: nat, value: int)

  datatype Pending = Pending(ticket: nat, value: int)

  /** The write of an update: its ticket, and what the generator returns if it is asked. */
  datatype Arrival = Arrival(ticket: nat, update: nat, value: int, draw: nat)

  /**
   * `begun` names the updates started so far; those still `inFlight` hold a ticket but have not written, the others
   * are `written`, in the order in which they had the lock.
   */
  datatype State = State(count: nat, slots: seq<Slot>, inFlight: map<nat, Pending>, begun: set<nat>,
                         written: seq<Arrival>)
  {
    function Size(): nat { if count < |slots| then count else |slots| }
  }

  datatype Step =
    | TakeTicket(update: nat, value: int)
    | Write(update: nat, draw: nat)

  function Init(k: nat): State {
    State(0, seq(k, _ => Blank), map[], {}, [])
  }

  predicate Enabled(s: State, step: Step) {
    match step
    case TakeTicket(u, _) => u !in s.begun
    case Write(u, draw) => u in s.inFlight && draw < s.inFlight[u].ticket
  }

  function Apply(s: State, step: Step): State {
    match step
    case TakeTicket(u, value) =>
      s.(count := s.count + 1, inFlight := s.inFlight[u := Pending(s.count + 1, value)], begun := s.begun + {u})
    case Write(u, draw) =>
      if u in s.inFlight && s.inFlight[u].ticket > 0 then
        var p := s.inFlight[u];
        s.(slots := Placed(s.slots, p.ticket, Written(u, p.value), draw), inFlight := s.inFlight - {u},
           written := s.written + [Arrival(p.ticket, u, p.value, draw)])
      else s
  }

  ghost predicate Next(s: State, s': State) {
    exists step :: Enabled(s, step) && s' == Apply(s, step)
  }

  ghost predicate Behaviour(k: nat, run: seq<State>) {
    && |run| > 0 && run[0] == Init(k)
    && forall i :: 0 <= i < |run| - 1 ==> Next(run[i], run[i + 1])
  }

  ghost predicate HoldsTicket(s: State, ticket: nat) {
    exists u :: u in s.inFlight && s.inFlight[u].ticket == ticket
  }

  ghost predicate TicketsGood(s: State) {
    && (forall u :: u in s.inFlight ==> u in s.begun && 1 <= s.inFlight[u].ticket <= s.count)
    && (forall u, v :: u in s.inFlight && v in s.inFlight && s.inFlight[u].ticket == s.inFlight[v].ticket ==> u == v)
  }

  /** No two slots hold values of the same update, and no slot holds a value of an update still in flight. */
  ghost predicate SlotsDistinct(s: State) {
    && (forall i :: 0 <= i < |s.slots| && s.slots[i].Written? ==>
          s.slots[i].update in s.begun && s.slots[i].update !in s.inFlight)
    && (forall i, j :: 0 <= i < j < |s.slots| && s.slots[i].Written? && s.slots[j].Written? ==>
          s.slots[i].update != s.slots[j].update)
  }

  /** Each unwritten slot below Size() waits for its own ticket. */
  ghost predicate BlanksAwaited(s: State) {
    forall i :: 0 <= i < s.Size() && s.slots[i].Blank? ==> HoldsTicket(s, i + 1)
  }

  ghost predicate Inv(k: nat, s: State) {
    |s.slots| == k && TicketsGood(s) && SlotsDistinct(s) && BlanksAwaited(s)
  }

  lemma TakeTicketKeeps(k: nat, s: State, u: nat, value: int)
    requires Inv(k, s) && Enabled(s, TakeTicket(u, value))
    ensures Inv(k, Apply(s, TakeTicket(u, value)))
  {
  }

  lemma WriteKeepsSlotsDistinct(s: State, u: nat, draw: nat)
    requires TicketsGood(s) && SlotsDistinct(s) && Enabled(s, Write(u, draw))
    ensures TicketsGood(Apply(s, Write(u, draw))) && SlotsDistinct(Apply(s, Write(u, draw)))
  {
  }

  lemma WriteKeepsBlanksAwaited(s: State, u: nat, draw: nat)
    requires TicketsGood(s) && BlanksAwaited(s) && Enabled(s, Write(u, draw))
    ensures BlanksAwaited(Apply(s, Write(u, draw)))
  {
    var s' := Apply(s, Write(u, draw));
    forall i | 0 <= i < s'.Size() && s'.slots[i].Blank? ensures HoldsTicket(s', i + 1) {
      assert s.slots[i].Blank?;
      var v :| v in s.inFlight && s.inFlight[v].ticket == i + 1;
      assert v != u;
      assert s'.inFlight[v].ticket == i + 1;
    }
  }

  lemma WriteKeeps(k: nat, s: State, u: nat, draw: nat)
    requires Inv(k, s) && Enabled(s, Write(u, draw))
    ensures Inv(k, Apply(s, Write(u, draw)))
  {
    hide TicketsGood, SlotsDistinct, BlanksAwaited;
    WriteKeepsSlotsDistinct(s, u, draw);
    WriteKeepsBlanksAwaited(s, u, draw);
  }

  /** Every reachable state, under every interleaving, satisfies the invariant. */
  lemma {:induction false} Reachable(k: nat, run: seq<State>, i: nat)
    requires Behaviour(k, run) && i < |run|
    ensures Inv(k, run[i])
  {
    if i > 0 {
      Reachable(k, run, i - 1);
      assert Next(run[i - 1], run[i]);
      var step :| Enabled(run[i - 1], step) && run[i] == Apply(run[i - 1], step);
      match step
      case TakeTicket(u, value) => TakeTicketKeeps(k, run[i - 1], u, value);
      case Write(u, draw) => WriteKeeps(k, run[i - 1], u, draw);
    }
  }

  // ---------- What a snapshot can see ----------

  /** The placeholders a snapshot of this state would contain. */
  ghost function Placeholders(s: State): set<nat> {
    set i: nat | i < |s.slots| && i < s.count && s.slots[i].Blank?
  }

  lemma {:induction false} AtMostOneEach(positions: set<nat>, holders: map<nat, Pending>)
    requires forall i :: i in positions ==> exists u :: u in holders && holders[u].ticket == i + 1
    ensures |positions| <= |holders|
    decreases |positions|
  {
    if positions != {} {
      var i :| i in positions;
      var u :| u in holders && holders[u].ticket == i + 1;
      forall j | j in positions - {i}
        ensures exists v :: v in holders - {u} && (holders - {u})[v].ticket == j + 1
      {
        var v :| v in holders && holders[v].ticket == j + 1;
        assert v in holders - {u} && (holders - {u})[v].ticket == j + 1;
      }
      AtMostOneEach(positions - {i}, holders - {u});
      assert (holders - {u}).Keys == holders.Keys - {u};
      assert |holders - {u}| == |holders| - 1;
    }
  }

  /** A snapshot contains at most one placeholder per update in flight, and none at quiescence. */
  lemma PlaceholdersBounded(k: nat, run: seq<State>, i: nat)
    requires Behaviour(k, run) && i < |run|
    ensures |Placeholders(run[i])| <= |run[i].inFlight|
    ensures run[i].inFlight == map[] ==>
      forall j :: 0 <= j < k && j < run[i].count ==> j < |run[i].slots| && run[i].slots[j].Written?
  {
    Reachable(k, run, i);
    var s := run[i];
    forall j | j in Placeholders(s) ensures exists u :: u in s.inFlight && s.inFlight[u].ticket == j + 1 {
      assert HoldsTicket(s, j + 1);
    }
    AtMostOneEach(Placeholders(s), s.inFlight);
  }

  /** Distinct slots hold values of distinct updates, under every interleaving. */
  lemma SlotsNeverShareAnUpdate(k: nat, run: seq<State>, n: nat, i: nat, j: nat)
    requires Behaviour(k, run) && n < |run| && i < j < k
    ensures |run[n].slots| == k
    ensures run[n].slots[i].Written? && run[n].slots[j].Written? ==>
      run[n].slots[i].update != run[n].slots[j].update
  {
    Reachable(k, run, n);
  }
}
